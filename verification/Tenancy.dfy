/** Which tenancy of a pooled texture a dispatch was recorded for, and the
    order the queue owes them (elements-core `gpu/pool.rs`, `gpu/batch.rs`). */
module Tenancy {

  /** A live field: a texture, and which of its acquisitions this is. */
  datatype Hold = Hold(texture: nat, tenancy: nat)

  /** A grid that advection carries. */
  datatype Carried = FaceX | FaceY | FaceZ | Density | Temperature | Fuel | React

  /** The pass a dispatch belongs to: one of a substep's, or somebody else's. */
  datatype Pass =
    | Emit(what: Carried) | EmitFuel | Ignite | Gather | EmitWood | Burn | Blend | Buoyancy | Wind | Curl | Confine
    | Forward(what: Carried) | Backward(what: Carried) | Carry(what: Carried)
    | Measure(what: Carried) | Correct(what: Carried)
    | Divergence | Levels | Solve(iteration: nat) | RemoveMean | Gradient
    | Elsewhere

  /** A dispatch: its pass, and the fields it binds. */
  datatype Work = Work(pass: Pass, binds: set<Hold>)

  /** Every dispatch recorded for one tenancy of a texture comes before any
      dispatch of a later one. */
  ghost predicate InOrder(log: seq<Work>) {
    forall i, j, a, b :: 0 <= i < j < |log| && a in log[i].binds && b in log[j].binds && a.texture == b.texture ==>
      a.tenancy <= b.tenancy
  }

  /** Nothing in the log is of a later tenancy than a live field of its texture. */
  ghost predicate Latest(log: seq<Work>, held: set<Hold>) {
    forall i, a, b ::
      0 <= i < |log| && a in log[i].binds && b in held && a.texture == b.texture ==> a.tenancy <= b.tenancy
  }

  ghost predicate Known(log: seq<Work>, tenancies: nat) {
    forall i, a :: 0 <= i < |log| && a in log[i].binds ==> a.tenancy < tenancies
  }

  ghost predicate Orderly(log: seq<Work>, held: set<Hold>, tenancies: nat) {
    InOrder(log) && Latest(log, held) && Known(log, tenancies)
  }

  ghost predicate OneHolder(held: set<Hold>) {
    forall a, b :: a in held && b in held && a.texture == b.texture ==> a == b
  }

  /** Every field a pending dispatch binds is still held. */
  ghost predicate Owned(pending: seq<Work>, held: set<Hold>) {
    forall i :: 0 <= i < |pending| ==> pending[i].binds <= held
  }

  /** Some dispatch in the log binds `h`. */
  ghost predicate Bound(log: seq<Work>, h: Hold) {
    exists i :: 0 <= i < |log| && h in log[i].binds
  }

  lemma BoundStays(log: seq<Work>, log': seq<Work>, h: Hold)
    requires log <= log'
    ensures Bound(log, h) ==> Bound(log', h)
  {
    if Bound(log, h) {
      var i :| 0 <= i < |log| && h in log[i].binds;
      assert log'[i] == log[i];
    }
  }

  lemma BoundLast(log: seq<Work>, w: Work, h: Hold)
    requires h in w.binds
    ensures Bound(log + [w], h)
  {
    assert (log + [w])[|log|] == w;
  }

  lemma AcquireKeeps(log: seq<Work>, held: set<Hold>, tenancies: nat, h: Hold)
    requires Orderly(log, held, tenancies) && h.tenancy == tenancies
    ensures Orderly(log, held + {h}, tenancies + 1)
  {
  }

  lemma ReleaseKeeps(log: seq<Work>, held: set<Hold>, held': set<Hold>, tenancies: nat)
    requires Orderly(log, held, tenancies) && held' <= held
    ensures Orderly(log, held', tenancies)
  {
  }

  /** Recording a dispatch of live fields. */
  lemma RecordKeeps(log: seq<Work>, held: set<Hold>, tenancies: nat, w: Work)
    requires Orderly(log, held, tenancies) && OneHolder(held) && w.binds <= held
    requires forall h :: h in held ==> h.tenancy < tenancies
    ensures Orderly(log + [w], held, tenancies)
  {
    var next := log + [w];
    forall i, j, a, b | 0 <= i < j < |next| && a in next[i].binds && b in next[j].binds && a.texture == b.texture
      ensures a.tenancy <= b.tenancy
    {
      if j == |log| { assert b in held; }
    }
  }

  /** While everything pending is owned, whoever else holds fields may submit
      to the queue ahead of the batch and the queue stays in order. */
  lemma OthersMaySubmit(queue: seq<Work>, pending: seq<Work>, held: set<Hold>, tenancies: nat, w: Work)
    requires Orderly(queue + pending, held, tenancies) && OneHolder(held) && Owned(pending, held)
    requires w.binds <= held && forall h :: h in held ==> h.tenancy < tenancies
    ensures Orderly(queue + [w] + pending, held, tenancies)
  {
    var log, next := queue + pending, queue + [w] + pending;
    var q := |queue|;
    forall i, j, a, b | 0 <= i < j < |next| && a in next[i].binds && b in next[j].binds && a.texture == b.texture
      ensures a.tenancy <= b.tenancy
    {
      if i == q {
        assert next[j] == pending[j - q - 1];
      } else {
        assert next[i] == log[if i < q then i else i - 1];
        if j != q { assert next[j] == log[if j < q then j else j - 1]; }
      }
    }
    forall i, a | 0 <= i < |next| && a in next[i].binds
      ensures a.tenancy < tenancies
      ensures forall b :: b in held && a.texture == b.texture ==> a.tenancy <= b.tenancy
    {
      if i != q { assert next[i] == log[if i < q then i else i - 1]; }
    }
  }

  /** What others may hold after any number of acquisitions: nothing anybody
      holds already, and no texture that was dropped. */
  ghost predicate Acquired(held: set<Hold>, held': set<Hold>, tenancies: nat, lost: set<nat>) {
    && held <= held' && OneHolder(held')
    && forall h :: h in held' - held ==> h.tenancy >= tenancies && h.texture !in lost
  }

  /** Every field a pending dispatch binds is still held, or its texture can
      never be handed out again. */
  ghost predicate OwnedOrLost(pending: seq<Work>, held: set<Hold>, lost: set<nat>) {
    forall i, a :: 0 <= i < |pending| && a in pending[i].binds ==> a in held || a.texture in lost
  }

  /** Whatever others acquire and submit ahead of the batch, the queue stays in
      order. */
  ghost predicate SafeToWait(queue: seq<Work>, pending: seq<Work>, held: set<Hold>, tenancies: nat, lost: set<nat>) {
    forall held': set<Hold>, works: seq<Work> ::
      Acquired(held, held', tenancies, lost) && Owned(works, held') ==> InOrder(queue + works + pending)
  }

  /** A batch may wait while others use the queue exactly while every field it
      binds is still held, or lost for good. */
  lemma OwnershipExactly(queue: seq<Work>, pending: seq<Work>, held: set<Hold>, tenancies: nat, lost: set<nat>)
    requires Orderly(queue + pending, held, tenancies) && OneHolder(held)
    requires forall h :: h in held ==> h.tenancy < tenancies && h.texture !in lost
    ensures OwnedOrLost(pending, held, lost) <==> SafeToWait(queue, pending, held, tenancies, lost)
  {
    hide InOrder; hide Orderly;
    if OwnedOrLost(pending, held, lost) {
      forall held': set<Hold>, works: seq<Work> | Acquired(held, held', tenancies, lost) && Owned(works, held')
        ensures InOrder(queue + works + pending)
      {
        OthersKeepOrder(queue, pending, held, tenancies, lost, held', works);
      }
    } else {
      var i, a :| 0 <= i < |pending| && a in pending[i].binds && a !in held && a.texture !in lost;
      var held', w := StaleBatchBreaksOrder(queue, pending, held, tenancies, lost, i, a);
    }
  }

  lemma OthersKeepOrder(queue: seq<Work>, pending: seq<Work>, held: set<Hold>, tenancies: nat, lost: set<nat>,
      held': set<Hold>, works: seq<Work>)
    requires Orderly(queue + pending, held, tenancies)
    requires forall h :: h in held ==> h.tenancy < tenancies && h.texture !in lost
    requires OwnedOrLost(pending, held, lost) && Acquired(held, held', tenancies, lost) && Owned(works, held')
    ensures InOrder(queue + works + pending)
  {
    var log, next := queue + pending, queue + works + pending;
    var q, n := |queue|, |works|;
    forall i, j, a, b | 0 <= i < j < |next| && a in next[i].binds && b in next[j].binds && a.texture == b.texture
      ensures a.tenancy <= b.tenancy
    {
      assert next[i] == if q <= i < q + n then works[i - q] else log[if i < q then i else i - n];
      assert next[j] == if q <= j < q + n then works[j - q] else log[if j < q then j else j - n];
      if q <= i < q + n <= j {
        assert next[j] == pending[j - q - n];
        assert b in held || b.texture in lost;
      }
    }
  }

  /** Once a pending dispatch binds a field that is gone, its texture's next
      holder puts a later tenancy ahead of the batch: whoever holds it now, or
      whoever is handed it next. */
  lemma StaleBatchBreaksOrder(queue: seq<Work>, pending: seq<Work>, held: set<Hold>, tenancies: nat, lost: set<nat>,
      i: nat, a: Hold)
    returns (held': set<Hold>, w: Work)
    requires Orderly(queue + pending, held, tenancies) && OneHolder(held)
    requires i < |pending| && a in pending[i].binds && a !in held && a.texture !in lost
    ensures Acquired(held, held', tenancies, lost) && w.binds <= held' && !InOrder(queue + [w] + pending)
  {
    assert (queue + pending)[|queue| + i] == pending[i];
    var b := Hold(a.texture, tenancies);
    held' := held + {b};
    if h :| h in held && h.texture == a.texture {
      b := h;
      held' := held;
    }
    w := Work(Elsewhere, {b});
    var next := queue + [w] + pending;
    assert next[|queue|] == w && next[|queue| + 1 + i] == pending[i];
    assert b.texture == a.texture && b.tenancy > a.tenancy;
  }

  /** The pool, texture by texture. Which idle texture an acquisition is given
      is left open. */
  class TexturePool {
    var free: set<nat>
    var created: nat
    /** Successful acquisitions so far: the next one's tenancy. */
    var acquisitions: nat
    /** Live fields. */
    ghost var held: set<Hold>
    /** Textures dropped without coming back. */
    ghost var lost: set<nat>

    ghost predicate Valid()
      reads this
    {
      && OneHolder(held)
      && (forall h ::
         h in held ==> h.tenancy < acquisitions && h.texture < created && h.texture !in free && h.texture !in lost)
      && (forall t: nat :: t in free || t in lost ==> t < created)
      && (forall t: nat :: t < created ==> t in free || t in lost || exists h :: h in held && h.texture == t)
      && free !! lost
    }

    constructor ()
      ensures Valid() && held == {} && lost == {} && acquisitions == 0
    {
      free, created, acquisitions, held, lost := {}, 0, 0, {}, {};
    }

    method Acquire() returns (ok: bool, h: Hold)
      requires Valid()
      modifies this
      ensures Valid() && lost == old(lost)
      ensures ok ==> held == old(held) + {h} && h.tenancy == old(acquisitions) && acquisitions == old(acquisitions) + 1
      ensures ok ==> forall g :: g in old(held) ==> g.texture != h.texture
      ensures !ok ==> held == old(held) && acquisitions == old(acquisitions)
    {
      h := Hold(0, 0);
      if free != {} {
        var t: nat :| t in free;
        free := free - {t};
        h := Hold(t, acquisitions);
      } else {
        if * { return false, h; }
        h := Hold(created, acquisitions);
        created := created + 1;
      }
      acquisitions := acquisitions + 1;
      held := held + {h};
      assert h in held;
      assert forall g :: g in old(held) ==> g in held;
      ok := true;
    }

    method Release(h: Hold)
      requires Valid() && h in held
      modifies `free, `held
      ensures Valid() && held == old(held) - {h}
    {
      free := free + {h.texture};
      held := held - {h};
      assert forall g :: g in old(held) ==> g == h || g in held;
    }

    method ReleaseAll(hs: seq<Hold>)
      requires Valid() && Distinct(hs) && forall h :: h in hs ==> h in held
      modifies `free, `held
      ensures Valid() && held == old(held) - Elements(hs)
    {
      for i := 0 to |hs|
        invariant Valid() && held == old(held) - Elements(hs[..i])
      {
        assert hs[i] !in Elements(hs[..i]);
        Release(hs[i]);
        assert hs[..i + 1] == hs[..i] + [hs[i]];
      }
      assert hs[..|hs|] == hs;
    }

    /** A field dropped rather than returned. */
    ghost method Drop(hs: set<Hold>)
      requires Valid() && hs <= held
      modifies `held, `lost
      ensures Valid() && held == old(held) - hs
    {
      lost := lost + set h | h in hs :: h.texture;
      held := held - hs;
      assert forall g :: g in old(held) ==> g in hs || g in held;
    }
  }

  function Elements(hs: seq<Hold>): (s: set<Hold>)
    ensures forall h :: h in s <==> h in hs
  {
    set h | h in hs
  }

  ghost predicate Distinct(hs: seq<Hold>) {
    forall i, j :: 0 <= i < j < |hs| ==> hs[i] != hs[j]
  }

  lemma DistinctConcat(a: seq<Hold>, b: seq<Hold>)
    requires Distinct(a) && Distinct(b) && Elements(a) !! Elements(b)
    ensures Distinct(a + b) && Elements(a + b) == Elements(a) + Elements(b)
  {
    forall i, j | 0 <= i < j < |a + b| ensures (a + b)[i] != (a + b)[j] {
      if i < |a| <= j {
        assert (a + b)[i] in Elements(a) && (a + b)[j] in Elements(b);
      }
    }
  }

  /** Putting a new field in one place of a list of them. */
  lemma Replaced(kept: set<Hold>, fields: seq<Hold>, i: nat, h: Hold)
    requires Distinct(fields) && Elements(fields) <= kept && i < |fields| && h !in kept
    ensures var fields' := fields[i := h]; var kept' := kept + {h} - {fields[i]};
      && Distinct(fields') && Elements(fields') <= kept'
      && Elements(fields') == Elements(fields) - {fields[i]} + {h}
      && kept' - Elements(fields') == kept - Elements(fields)
  {
    var fields' := fields[i := h];
    assert fields[i] in Elements(fields);
    forall a, b | 0 <= a < b < |fields'| ensures fields'[a] != fields'[b] {
      if a == i { assert fields[b] in Elements(fields); }
      if b == i { assert fields[a] in Elements(fields); }
    }
    forall g | g in Elements(fields) && g != fields[i] ensures g in fields' {
      var k :| 0 <= k < |fields| && fields[k] == g;
      assert fields'[k] == g;
    }
    assert fields'[i] == h;
    forall g | g in Elements(fields') ensures g == h || (g in Elements(fields) && g != fields[i]) {
      var k :| 0 <= k < |fields'| && fields'[k] == g;
      if k != i {
        assert fields[k] == g;
        if k < i { assert fields[k] != fields[i]; } else { assert fields[i] != fields[k]; }
      }
    }
  }

  lemma OrderlyPrefix(a: seq<Work>, b: seq<Work>, held: set<Hold>, tenancies: nat)
    requires Orderly(a + b, held, tenancies)
    ensures Orderly(a, held, tenancies)
  {
    assert forall i :: 0 <= i < |a| ==> (a + b)[i] == a[i];
  }

  lemma ThreeReplaced(kept: set<Hold>, fields: seq<Hold>, x: Hold, y: Hold, z: Hold)
    requires Distinct(fields) && Elements(fields) <= kept && |fields| >= 3
    requires x !in kept && y !in kept && z !in kept && x != y && y != z && x != z
    ensures var fields' := fields[0 := x][1 := y][2 := z];
      var kept' := kept + {x, y, z} - {fields[0]} - {fields[1]} - {fields[2]};
      && Distinct(fields') && Elements(fields') <= kept'
      && kept' - Elements(fields') == kept - Elements(fields)
      && {fields[0], fields[1], fields[2]} <= kept && fields[0] != fields[1] && fields[1] != fields[2]
         && fields[0] != fields[2]
  {
    assert {fields[0], fields[1], fields[2]} <= Elements(fields);
    Replaced(kept, fields, 0, x);
    var kept1, fields1 := kept + {x} - {fields[0]}, fields[0 := x];
    Replaced(kept1, fields1, 1, y);
    Replaced(kept1 + {y} - {fields[1]}, fields1[1 := y], 2, z);
    assert kept + {x, y, z} - {fields[0]} - {fields[1]} - {fields[2]} == kept1 + {y} - {fields[1]} + {z} - {fields[2]};
  }
}
