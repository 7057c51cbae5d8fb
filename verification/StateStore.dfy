/** State slots kept between evaluations, by node, and copies of all of them
    (elements-core `graph/state.rs`). */
module StateStores {
  import opened Values
  import opened MapSums
  import opened FieldPools

  /** How many textures the values of `m` own together. */
  ghost function TexturesIn<K>(m: map<K, Value>): nat {
    Sum(map k | k in m :: |m[k].Textures()|)
  }

  ghost function BytesIn<K>(m: map<K, Value>): nat {
    Sum(map k | k in m :: m[k].GpuBytes())
  }

  lemma NoneIn<K>()
    ensures TexturesIn<K>(map[]) == 0 && BytesIn<K>(map[]) == 0
  {
  }

  lemma Removing<K>(m: map<K, Value>, k: K)
    requires k in m
    ensures TexturesIn(m) == |m[k].Textures()| + TexturesIn(m - {k})
    ensures BytesIn(m) == m[k].GpuBytes() + BytesIn(m - {k})
  {
    var counts := map j | j in m :: |m[j].Textures()|;
    var bytes := map j | j in m :: m[j].GpuBytes();
    SumRemove(counts, k);
    SumRemove(bytes, k);
    assert counts - {k} == map j | j in m - {k} :: |(m - {k})[j].Textures()|;
    assert bytes - {k} == map j | j in m - {k} :: (m - {k})[j].GpuBytes();
  }

  lemma Inserting<K>(m: map<K, Value>, k: K, v: Value)
    ensures TexturesIn(m[k := v]) == |v.Textures()| + TexturesIn(m - {k})
    ensures BytesIn(m[k := v]) == v.GpuBytes() + BytesIn(m - {k})
    ensures k !in m ==> m - {k} == m
  {
    Removing(m[k := v], k);
    assert m[k := v] - {k} == m - {k};
  }

  /** A copy of every slot at one moment. */
  datatype Snapshot = Copies(slots: State, bytes: nat) {
    ghost predicate Valid() {
      bytes == BytesIn(slots)
    }
  }

  class StateStore {
    var slots: State

    constructor ()
      ensures slots == map[]
    {
      slots := map[];
    }

    /** No slot is left; what they held is idle in the pool. */
    method Clear(pool: FieldPool)
      requires pool.Valid() && pool.outside >= TexturesIn(slots)
      modifies this, pool`free, pool`outside
      ensures pool.Valid() && slots == map[]
      ensures pool.outside == old(pool.outside) - TexturesIn(old(slots))
    {
      ReleaseAll(slots, pool);
      slots := map[];
    }

    method Take(key: StateKey) returns (r: Option<Value>)
      modifies this
      ensures r == if key in old(slots) then Some(old(slots)[key]) else None
      ensures slots == old(slots) - {key}
    {
      r := if key in slots then Some(slots[key]) else None;
      slots := slots - {key};
    }

    /** Store `value`, releasing anything it replaces. */
    method Put(key: StateKey, value: Value, pool: FieldPool)
      requires pool.Valid() && pool.outside >= TexturesIn(slots) + |value.Textures()|
      modifies this, pool`free, pool`outside
      ensures pool.Valid() && slots == old(slots)[key := value]
      ensures pool.outside - TexturesIn(slots) == old(pool.outside) - TexturesIn(old(slots)) - |value.Textures()|
    {
      Inserting(slots, key, value);
      if key in slots {
        Removing(slots, key);
        pool.Release(slots[key]);
      }
      slots := slots[key := value];
    }

    /** Copy every slot. The store is unchanged, and a failure returns the
        copies made so far. */
    method Snapshot(pool: FieldPool) returns (r: Option<Snapshot>)
      requires pool.Valid()
      modifies pool
      ensures pool.Valid()
      ensures r.Some? ==> r.value.Valid() && r.value.slots == slots
                          && pool.outside == old(pool.outside) + TexturesIn(slots)
                          && pool.faults == old(pool.faults) && pool.dropped == old(pool.dropped)
      ensures r.None? ==> pool.outside == old(pool.outside) && pool.faults == old(pool.faults) + 1
      ensures pool.LostOnlyToFaults()
    {
      hide TexturesIn; hide BytesIn;
      NoneIn<StateKey>();
      var copies: State, bytes: nat := map[], 0;
      var left := slots.Keys;
      while left != {}
        invariant left <= slots.Keys && copies == slots - left
        invariant bytes == BytesIn(copies)
        invariant pool.Valid() && pool.faults == old(pool.faults) && pool.dropped == old(pool.dropped)
        invariant pool.outside == old(pool.outside) + TexturesIn(copies)
        decreases left
      {
        var k :| k in left;
        var copy := pool.Duplicate(slots[k]);
        if copy.None? {
          ReleaseAll(copies, pool);
          return None;
        }
        Inserting(copies, k, copy.value);
        bytes := bytes + copy.value.GpuBytes();
        copies := copies[k := copy.value];
        left := left - {k};
      }
      return Some(Copies(copies, bytes));
    }

    /** The slots become equal to the snapshot's, on textures of their own; a
        failure may leave only some of them. */
    method Restore(snapshot: Snapshot, pool: FieldPool) returns (ok: bool)
      requires pool.Valid() && pool.outside >= TexturesIn(slots)
      modifies this, pool
      ensures pool.Valid() && pool.outside >= TexturesIn(slots)
      ensures pool.outside - TexturesIn(slots) == old(pool.outside) - TexturesIn(old(slots))
      ensures ok ==> slots == snapshot.slots && pool.faults == old(pool.faults) && pool.dropped == old(pool.dropped)
      ensures !ok ==> pool.faults == old(pool.faults) + 1
      ensures pool.LostOnlyToFaults()
    {
      hide TexturesIn; hide BytesIn;
      NoneIn<StateKey>();
      Clear(pool);
      var left := snapshot.slots.Keys;
      while left != {}
        invariant left <= snapshot.slots.Keys && slots == snapshot.slots - left
        invariant pool.Valid() && pool.faults == old(pool.faults) && pool.dropped == old(pool.dropped)
        invariant pool.outside - TexturesIn(slots) == old(pool.outside) - TexturesIn(old(slots))
        decreases left
      {
        var k :| k in left;
        var copy := pool.Duplicate(snapshot.slots[k]);
        if copy.None? { return false; }
        Inserting(slots, k, copy.value);
        slots := slots[k := copy.value];
        left := left - {k};
      }
      return true;
    }
  }

  /** Return every texture the values of `m` own. */
  method ReleaseAll<K(==)>(m: map<K, Value>, pool: FieldPool)
    requires pool.Valid() && pool.outside >= TexturesIn(m)
    modifies pool`free, pool`outside
    ensures pool.Valid() && pool.outside == old(pool.outside) - TexturesIn(m)
  {
    var left := m;
    while left != map[]
      invariant pool.Valid() && pool.outside >= TexturesIn(left)
      invariant pool.outside - TexturesIn(left) == old(pool.outside) - TexturesIn(m)
      decreases |left|
    {
      var k :| k in left;
      Removing(left, k);
      pool.Release(left[k]);
      left := left - {k};
    }
  }
}
