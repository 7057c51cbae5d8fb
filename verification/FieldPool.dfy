/** The texture pool (elements-core `gpu/pool.rs`). Rust's ownership already
    rules out two holders of one texture, so what the pool must not do is lose
    one: every texture ever created is in a bucket, held by somebody, or was
    dropped by a call that says so. */
module FieldPools {
  import opened Values
  import opened MapSums

  class FieldPool {
    var free: map<Shape, nat>
    var nextGeneration: nat
    var acquisitions: nat
    var allocatedBytes: nat
    /** Textures actually created on the device. */
    ghost var created: nat
    /** Textures some live value holds. */
    ghost var outside: nat
    /** Textures freed without coming back: by `Clear`, by a lost device, or
        by an acquisition that failed half-way. */
    ghost var dropped: nat
    /** GPU errors reported so far. */
    ghost var faults: nat

    ghost predicate Valid()
      reads this
    {
      && created == Sum(free) + outside + dropped
      && created <= nextGeneration
    }

    constructor ()
      ensures Valid() && outside == 0 && dropped == 0 && faults == 0 && free == map[]
    {
      free := map[];
      nextGeneration, acquisitions, allocatedBytes := 0, 0, 0;
      created, outside, dropped, faults := 0, 0, 0, 0;
    }

    /** Take a texture of this shape, creating one only if its bucket is empty. */
    method Acquire(shape: Shape) returns (ok: bool)
      requires Valid()
      modifies this
      ensures Valid() && dropped == old(dropped)
      ensures ok ==> outside == old(outside) + 1 && faults == old(faults) && acquisitions == old(acquisitions) + 1
      ensures !ok ==> outside == old(outside) && faults == old(faults) + 1 && acquisitions == old(acquisitions)
      ensures shape in old(free) && old(free)[shape] > 0 ==>
        ok && created == old(created) && nextGeneration == old(nextGeneration)
        && free == old(free)[shape := old(free)[shape] - 1]
      ensures !(shape in old(free) && old(free)[shape] > 0) ==>
        free == old(free) && nextGeneration == old(nextGeneration) + 1
        && allocatedBytes == old(allocatedBytes) + (if ok then shape.Bytes() else 0)
    {
      if shape in free && free[shape] > 0 {
        SumRemove(free, shape);
        SumInsert(free, shape, free[shape] - 1);
        free := free[shape := free[shape] - 1];
        acquisitions := acquisitions + 1;
        outside := outside + 1;
        return true;
      }
      nextGeneration := nextGeneration + 1;
      if * {
        faults := faults + 1;
        return false;
      }
      created, outside := created + 1, outside + 1;
      allocatedBytes := allocatedBytes + shape.Bytes();
      acquisitions := acquisitions + 1;
      return true;
    }

    /** Return one texture to its bucket. */
    method ReleaseTexture(shape: Shape)
      requires Valid() && outside >= 1
      modifies `free, `outside
      ensures Valid() && outside == old(outside) - 1
      ensures free == old(free)[shape := 1 + if shape in old(free) then old(free)[shape] else 0]
    {
      var count := if shape in free then free[shape] else 0;
      if shape in free { SumRemove(free, shape); }
      SumInsert(free, shape, count + 1);
      free := free[shape := count + 1];
      outside := outside - 1;
    }

    /** Return every texture `v` owns. */
    method Release(v: Value)
      requires Valid() && outside >= |v.Textures()|
      modifies `free, `outside
      ensures Valid() && outside == old(outside) - |v.Textures()|
    {
      var shapes := v.Textures();
      for i := 0 to |shapes|
        invariant Valid() && outside == old(outside) - i
      {
        ReleaseTexture(shapes[i]);
      }
    }

    /** No texture was lost but to a GPU failure, and to each at most the faces
        of one value. */
    twostate predicate LostOnlyToFaults()
      reads this
    {
      && old(faults) <= faults
      && old(dropped) <= dropped <= old(dropped) + 3 * (faults - old(faults))
    }

    /** Textures for `v`, one after the other: each is acquired and then
        written, and either may fail. Exactly those acquired by then are
        dropped, so only a scalar's, or a single texture's that cannot be
        acquired, is an atomic failure. */
    method Obtain(v: Value) returns (ok: bool)
      requires Valid()
      modifies this
      ensures Valid() && LostOnlyToFaults()
      ensures ok ==> outside == old(outside) + |v.Textures()| && faults == old(faults) && dropped == old(dropped)
      ensures ok ==> acquisitions == old(acquisitions) + |v.Textures()|
      ensures !ok ==> outside == old(outside) && faults == old(faults) + 1
      ensures !ok ==> old(acquisitions) <= acquisitions <= old(acquisitions) + |v.Textures()|
                      && dropped == old(dropped) + (acquisitions - old(acquisitions))
      ensures v.Scalar? ==> ok
    {
      var shapes := v.Textures();
      for i := 0 to |shapes|
        invariant Valid() && outside == old(outside) + i && acquisitions == old(acquisitions) + i
        invariant dropped == old(dropped) && faults == old(faults)
      {
        ok := Acquire(shapes[i]);
        if !ok {
          outside, dropped := outside - i, dropped + i;
          return;
        }
        if * {
          faults := faults + 1;
          outside, dropped := outside - (i + 1), dropped + (i + 1);
          return false;
        }
      }
      ok := true;
    }

    /** A copy of `v`: textures obtained for it and copied into. */
    method Duplicate(v: Value) returns (r: Option<Value>)
      requires Valid()
      modifies this
      ensures Valid() && LostOnlyToFaults()
      ensures r.Some? ==> r.value == v && outside == old(outside) + |v.Textures()|
                          && dropped == old(dropped) && faults == old(faults)
      ensures r.None? ==> outside == old(outside) && faults == old(faults) + 1
                          && dropped == old(dropped) + (acquisitions - old(acquisitions))
      ensures v.Scalar? ==> r.Some?
    {
      var ok := Obtain(v);
      return if ok then Some(v) else None;
    }

    /** Some other GPU call reports an error. */
    method Fault()
      requires Valid()
      modifies `faults
      ensures Valid() && faults == old(faults) + 1
    {
      faults := faults + 1;
    }

    /** Free every idle texture. */
    method Clear()
      requires Valid()
      modifies `free, `dropped
      ensures Valid() && free == map[] && dropped == old(dropped) + Sum(old(free))
    {
      dropped := dropped + Sum(free);
      free := map[];
    }
  }
}
