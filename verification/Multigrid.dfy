/** One V-cycle (elements-ember `kernels/multigrid.rs`): what it records, the
    operator it applies, and why that operator is symmetric. */
module Multigrid {
  import opened Vectors
  import opened Kernels
  import opened Device
  import opened Batches

  const SMOOTHING_SWEEPS: nat := 2
  const COARSEST_SWEEPS: nat := 1

  /** A correction to a level's field: one colour of a sweep, or the coarse
      level's answer to the restricted residual. */
  datatype Op = Colour(colour: bool) | Coarse

  const RED := Colour(true)
  const BLACK := Colour(false)

  /** A cycle's corrections on one level, in order. */
  function Ops(coarsest: bool): seq<Op> {
    if coarsest then [RED, BLACK, BLACK, RED] else [RED, BLACK, RED, BLACK, Coarse, BLACK, RED, BLACK, RED]
  }

  function Reverse(ops: seq<Op>): (r: seq<Op>)
    ensures |r| == |ops|
    ensures forall i :: 0 <= i < |ops| ==> r[i] == ops[|ops| - 1 - i]
  {
    if ops == [] then [] else Reverse(ops[1..]) + [ops[0]]
  }

  /** A cycle's corrections read the same backwards: the property symmetry rests on. */
  lemma Palindrome(coarsest: bool)
    ensures Reverse(Ops(coarsest)) == Ops(coarsest)
  {
  }

  /** V-cycles on one field and right-hand side of the fine level. */
  datatype VCycle = VCycle(h: Hierarchy, x: Buf, b: Buf)
  {
    ghost predicate Valid() {
      && h.Valid()
      && x != b
      && Fine(x) && Fine(b)
    }

    static predicate Fine(f: Buf) {
      !f.Correction? && !f.Rhs? && !f.Tmp?
    }

    function X(l: nat): Buf {
      if l == 0 then x else Correction(l)
    }

    function B(l: nat): Buf {
      if l == 0 then b else Rhs(l)
    }

    predicate Coarsest(l: nat) {
      l + 1 == h.Depth()
    }

    // ------------------------------------------------------------ the recording

    /** What the batch holds for one correction. */
    function Passes(l: nat, op: Op): seq<Dispatch>
      requires l < h.Depth() && (Coarsest(l) ==> op != Coarse)
      decreases h.Depth() - l, 0, 0
    {
      match op
      case Colour(c) => [Relax(l, c, X(l), B(l))]
      case Coarse =>
        HandingDown(l) + PassesOf(l + 1, Ops(Coarsest(l + 1))) + HandingUp(l)
    }

    function HandingDown(l: nat): seq<Dispatch> {
      [FormResidual(l, X(l), B(l), Tmp(l)), Device.Restrict(l, Tmp(l), B(l + 1), X(l + 1))]
    }

    function HandingUp(l: nat): seq<Dispatch> {
      [ProlongAdd(l, X(l), X(l + 1))]
    }

    function PassesOf(l: nat, ops: seq<Op>): seq<Dispatch>
      requires l < h.Depth() && (Coarsest(l) ==> Coarse !in ops)
      decreases h.Depth() - l, 1, |ops|
    {
      if ops == [] then [] else Passes(l, ops[0]) + PassesOf(l, ops[1..])
    }

    /** One whole cycle from level `l` down and back. */
    function Cycle(l: nat): seq<Dispatch>
      requires l < h.Depth()
    {
      PassesOf(l, Ops(Coarsest(l)))
    }

    function Cycles(n: nat): seq<Dispatch>
      requires 0 < h.Depth()
    {
      if n == 0 then [] else Cycles(n - 1) + Cycle(0)
    }

    /** `Smoother::record`: `sweeps` sweeps, red before black unless reversed. */
    function Smoothing(l: nat, sweeps: nat, reverse: bool): seq<Dispatch> {
      if sweeps == 0 then [] else
        Smoothing(l, sweeps - 1, reverse) + [Relax(l, !reverse, X(l), B(l)), Relax(l, reverse, X(l), B(l))]
    }

    method Smooth(batch: ComputeBatch<Dispatch>, l: nat, sweeps: nat, reverse: bool)
      modifies batch`dispatches
      ensures batch.Recorded() == old(batch.Recorded()) + Smoothing(l, sweeps, reverse)
    {
      var first, second := Relax(l, !reverse, X(l), B(l)), Relax(l, reverse, X(l), B(l));
      for i := 0 to sweeps
        invariant batch.Recorded() == old(batch.Recorded()) + Smoothing(l, i, reverse)
      {
        batch.Dispatch(first);
        batch.Dispatch(second);
      }
    }

    /** One level on the way down. */
    method GoDown(batch: ComputeBatch<Dispatch>, l: nat)
      modifies batch`dispatches
      ensures batch.Recorded()
        == old(batch.Recorded()) + (Smoothing(l, SMOOTHING_SWEEPS, false) + HandingDown(l))
    {
      hide VCycle.Smoothing;
      Smooth(batch, l, SMOOTHING_SWEEPS, false);
      batch.Dispatch(FormResidual(l, X(l), B(l), Tmp(l)));
      batch.Dispatch(Device.Restrict(l, Tmp(l), B(l + 1), X(l + 1)));
    }

    /** One level on the way up. */
    method GoUp(batch: ComputeBatch<Dispatch>, l: nat)
      modifies batch`dispatches
      ensures batch.Recorded()
        == old(batch.Recorded()) + (HandingUp(l) + Smoothing(l, SMOOTHING_SWEEPS, true))
    {
      hide VCycle.Smoothing;
      batch.Dispatch(ProlongAdd(l, X(l), X(l + 1)));
      Smooth(batch, l, SMOOTHING_SWEEPS, true);
    }

    /** What the way down records before level `l`. */
    function Descent(l: nat): seq<Dispatch> {
      if l == 0 then [] else
        Descent(l - 1) + (Smoothing(l - 1, SMOOTHING_SWEEPS, false)
          + HandingDown(l - 1))
    }

    /** What the way up records from level `l - 1` to the finest. */
    function Ascent(l: nat): seq<Dispatch> {
      if l == 0 then [] else
        HandingUp(l - 1) + Smoothing(l - 1, SMOOTHING_SWEEPS, true) + Ascent(l - 1)
    }

    lemma {:induction false} CycleUnfolds(l: nat)
      requires l < h.Depth()
      ensures Cycle(0) == Descent(l) + Cycle(l) + Ascent(l)
    {
      hide VCycle.Cycle; hide VCycle.Smoothing; hide VCycle.HandingDown; hide VCycle.HandingUp;
      if l > 0 {
        CycleUnfolds(l - 1);
        CycleFlat(l - 1);
        var down := Smoothing(l - 1, SMOOTHING_SWEEPS, false) + HandingDown(l - 1);
        var up := HandingUp(l - 1) + Smoothing(l - 1, SMOOTHING_SWEEPS, true);
        assert Descent(l) == Descent(l - 1) + down && Ascent(l) == up + Ascent(l - 1);
        Nest(Descent(l - 1), down, Cycle(l), up, Ascent(l - 1));
      } else {
        assert Descent(0) + Cycle(0) + Ascent(0) == Cycle(0);
      }
    }

    /** A level's cycle around the next level's, flattened. */
    lemma CycleFlat(l: nat)
      requires l + 1 < h.Depth()
      ensures Cycle(l) == (Smoothing(l, SMOOTHING_SWEEPS, false)
        + HandingDown(l))
        + Cycle(l + 1)
        + (HandingUp(l) + Smoothing(l, SMOOTHING_SWEEPS, true))
    {
      var first, last := [RED, BLACK, RED, BLACK], [BLACK, RED, BLACK, RED];
      FlattenColours(l, first, [Coarse] + last);
      assert Ops(false) == first + ([Coarse] + last);
      assert PassesOf(l, [Coarse] + last) == Passes(l, Coarse) + PassesOf(l, last)
        by { assert ([Coarse] + last)[1..] == last; }
      FlattenColours(l, last, []);
      assert last + [] == last;
      SmoothingTwice(l, false, first);
      SmoothingTwice(l, true, last);
      assert PassesOf(l, last) == Smoothing(l, SMOOTHING_SWEEPS, true);
      assert Passes(l, Coarse) == HandingDown(l) + Cycle(l + 1) + HandingUp(l);
      Nest(Smoothing(l, SMOOTHING_SWEEPS, false), HandingDown(l), Cycle(l + 1), HandingUp(l),
        Smoothing(l, SMOOTHING_SWEEPS, true));
    }

    lemma CoarsestFlat(l: nat)
      requires l + 1 == h.Depth()
      ensures Cycle(l) == Smoothing(l, COARSEST_SWEEPS, false) + Smoothing(l, COARSEST_SWEEPS, true)
    {
      FlattenColours(l, [RED, BLACK, BLACK, RED], []);
      assert [RED, BLACK, BLACK, RED] + [] == [RED, BLACK, BLACK, RED];
      assert Smoothing(l, 1, false)
        == Smoothing(l, 0, false) + [Relax(l, true, X(l), B(l)), Relax(l, false, X(l), B(l))];
      assert Smoothing(l, 1, true) == Smoothing(l, 0, true) + [Relax(l, false, X(l), B(l)), Relax(l, true, X(l), B(l))];
    }

    /** A cycle, dispatch by dispatch: two red-black sweeps, the residual handed
        down, the next level's cycle, the correction added, two black-red sweeps;
        on the coarsest level one sweep each way. */
    lemma CycleIs(l: nat)
      requires l < h.Depth()
      ensures var red, black := Relax(l, true, X(l), B(l)), Relax(l, false, X(l), B(l));
        if l + 1 == h.Depth() then
          Cycle(l) == [red, black, black, red]
        else
          Cycle(l) ==
            [red, black, red, black, FormResidual(l, X(l), B(l), Tmp(l)),
             Device.Restrict(l, Tmp(l), Rhs(l + 1), Correction(l + 1))]
            + Cycle(l + 1)
            + [ProlongAdd(l, X(l), Correction(l + 1)), black, red, black, red]
    {
      hide VCycle.PassesOf; hide VCycle.Cycle; hide VCycle.Passes; hide Ops;
      var red, black := Relax(l, true, X(l), B(l)), Relax(l, false, X(l), B(l));
      if l + 1 == h.Depth() {
        CoarsestFlat(l);
        OneSweep(l, false);
        OneSweep(l, true);
        assert [red, black] + [black, red] == [red, black, black, red];
      } else {
        CycleFlat(l);
        TwoSweeps(l, false);
        TwoSweeps(l, true);
        assert [red, black, red, black] + HandingDown(l)
          == [red, black, red, black, FormResidual(l, X(l), B(l), Tmp(l)),
              Device.Restrict(l, Tmp(l), Rhs(l + 1), Correction(l + 1))];
        assert HandingUp(l) + [black, red, black, red]
          == [ProlongAdd(l, X(l), Correction(l + 1)), black, red, black, red];
      }
    }

    lemma OneSweep(l: nat, reverse: bool)
      ensures Smoothing(l, COARSEST_SWEEPS, reverse) == [Relax(l, !reverse, X(l), B(l)), Relax(l, reverse, X(l), B(l))]
    {
      assert Smoothing(l, 0, reverse) == [];
    }

    lemma TwoSweeps(l: nat, reverse: bool)
      ensures var pair := [Relax(l, !reverse, X(l), B(l)), Relax(l, reverse, X(l), B(l))];
        Smoothing(l, SMOOTHING_SWEEPS, reverse) == pair + pair
    {
      var pair := [Relax(l, !reverse, X(l), B(l)), Relax(l, reverse, X(l), B(l))];
      assert Smoothing(l, 1, reverse) == Smoothing(l, 0, reverse) + pair == pair;
      assert Smoothing(l, 2, reverse) == Smoothing(l, 1, reverse) + pair;
    }

    lemma SmoothingTwice(l: nat, reverse: bool, ops: seq<Op>)
      requires ops == [Colour(!reverse), Colour(reverse), Colour(!reverse), Colour(reverse)]
      ensures Smoothing(l, SMOOTHING_SWEEPS, reverse) == Relaxing(l, ops)
    {
      var pair := [Relax(l, !reverse, X(l), B(l)), Relax(l, reverse, X(l), B(l))];
      assert Smoothing(l, 1, reverse) == Smoothing(l, 0, reverse) + pair;
      assert Smoothing(l, 2, reverse) == Smoothing(l, 1, reverse) + pair;
    }

    /** Colour passes ahead of whatever follows. */
    lemma {:induction false} FlattenColours(l: nat, colours: seq<Op>, rest: seq<Op>)
      requires l < h.Depth()
      requires forall i :: 0 <= i < |colours| ==> colours[i].Colour?
      requires Coarsest(l) ==> Coarse !in rest
      ensures Coarsest(l) ==> Coarse !in colours + rest
      ensures PassesOf(l, colours + rest) == Relaxing(l, colours) + PassesOf(l, rest)
      decreases |colours|
    {
      if colours == [] {
        assert colours + rest == rest;
      } else {
        FlattenColours(l, colours[1..], rest);
        assert (colours + rest)[1..] == colours[1..] + rest;
        assert Relaxing(l, colours) == Passes(l, colours[0]) + Relaxing(l, colours[1..]);
      }
    }

    function Relaxing(l: nat, colours: seq<Op>): seq<Dispatch>
      requires forall i :: 0 <= i < |colours| ==> colours[i].Colour?
    {
      seq(|colours|, i requires 0 <= i < |colours| => Relax(l, colours[i].colour, X(l), B(l)))
    }

    /** One cycle: down, smoothing and restricting, then up, adding and
        smoothing in the reverse colour order. */
    method RecordOne(batch: ComputeBatch<Dispatch>)
      requires 0 < h.Depth()
      modifies batch`dispatches
      ensures batch.Recorded() == old(batch.Recorded()) + Cycle(0)
    {
      hide VCycle.PassesOf; hide VCycle.Cycle; hide VCycle.Smoothing; hide VCycle.Passes; hide Ops;
      hide VCycle.HandingDown; hide VCycle.HandingUp;
      var depth := h.Depth();
      ghost var start := batch.Recorded();
      var l := 0;
      while l + 1 < depth
        invariant 0 <= l < depth
        invariant batch.Recorded() == start + Descent(l)
      {
        GoDown(batch, l);
        l := l + 1;
      }
      Smooth(batch, l, COARSEST_SWEEPS, false);
      Smooth(batch, l, COARSEST_SWEEPS, true);
      CoarsestFlat(l);
      CycleUnfolds(l);
      assert batch.Recorded() == start + (Descent(l) + Cycle(l));
      while l > 0
        invariant 0 <= l < depth
        invariant batch.Recorded() + Ascent(l) == start + Cycle(0)
      {
        l := l - 1;
        GoUp(batch, l);
      }
      assert batch.Recorded() + Ascent(0) == batch.Recorded();
    }

    /** `VCycle::record`: one submission a cycle. A failed flush stops the
        recording between two cycles. */
    method Record(batch: ComputeBatch<Dispatch>, cycles: nat) returns (ok: bool)
      requires 0 < h.Depth()
      modifies batch
      ensures ok ==> batch.Recorded() == old(batch.Recorded()) + Cycles(cycles)
      ensures !ok ==> exists k :: 0 < k < cycles && batch.Recorded() == old(batch.Recorded()) + Cycles(k)
      ensures cycles <= 1 ==> ok && batch.queued == old(batch.queued) && batch.submissions == old(batch.submissions)
    {
      for cycle := 0 to cycles
        invariant batch.Recorded() == old(batch.Recorded()) + Cycles(cycle)
        invariant cycle <= 1 ==> batch.queued == old(batch.queued) && batch.submissions == old(batch.submissions)
      {
        if cycle > 0 {
          var flushed := batch.Flush();
          if !flushed { return false; }
        }
        RecordOne(batch);
      }
      return true;
    }

    // ------------------------------------------------------------ the operator

    /** What the cycle on level `l` adds to a correction whose residual is `r`. */
    ghost function Correct(l: nat, r: Vec): (e: Vec)
      requires Valid() && l < h.Depth() && |r| == h.Cells(l)
      ensures |e| == h.Cells(l)
      decreases h.Depth() - l, 2, 0
    {
      Act(l, Ops(Coarsest(l)), r)
    }

    /** Corrections in turn, each from the residual the ones before it leave. */
    ghost function Act(l: nat, ops: seq<Op>, r: Vec): (e: Vec)
      requires Valid() && l < h.Depth() && |r| == h.Cells(l)
      requires Coarsest(l) ==> Coarse !in ops
      ensures |e| == h.Cells(l)
      decreases h.Depth() - l, 1, |ops|
    {
      if ops == [] then
        Zeros(h.Cells(l))
      else
        var e := Apply1(l, ops[0], r);
        Plus(e, Act(l, ops[1..], Minus(r, h.levels[l].ApplyA(e))))
    }

    ghost function Apply1(l: nat, op: Op, r: Vec): (e: Vec)
      requires Valid() && l < h.Depth() && |r| == h.Cells(l)
      requires Coarsest(l) ==> op != Coarse
      ensures |e| == h.Cells(l)
      decreases h.Depth() - l, 0, 0
    {
      match op
      case Colour(c) => h.levels[l].Jacobi(c, r)
      case Coarse => h.Prolonged(l, Correct(l + 1, h.Restricted(l, r)))
    }

    /** The operator of one V-cycle from zero. */
    ghost function M(r: Vec): (z: Vec)
      requires Valid() && |r| == h.Cells(0)
      ensures |z| == h.Cells(0)
    {
      Correct(0, r)
    }

    // ------------------------------------------------------------ running it

    /** The fields a cycle on level `l` may write, besides its own `X(l)`. */
    predicate Below(l: nat, f: Buf) {
      match f
      case Correction(k) => k > l
      case Rhs(k) => k > l
      case Tmp(k) => k >= l
      case _ => false
    }

    ghost predicate SameBut(l: nat, m: Machine, m': Machine)
      requires Valid() && h.Shaped(m) && h.Shaped(m')
    {
      && m'.slots == m.slots
      && forall f :: h.Holds(f) && f != X(l) && !Below(l, f) ==> m'.fields[f] == m.fields[f]
    }

    /** What is left of the right-hand side on level `l`. */
    ghost function Left(l: nat, m: Machine): (r: Vec)
      requires Valid() && l < h.Depth() && h.Shaped(m)
      ensures |r| == h.Cells(l)
    {
      Minus(m.fields[B(l)], h.levels[l].ApplyA(m.fields[X(l)]))
    }

    lemma {:induction false} PassesBind(l: nat, ops: seq<Op>)
      requires Valid() && l < h.Depth() && (Coarsest(l) ==> Coarse !in ops)
      ensures h.BindsAll(PassesOf(l, ops))
      decreases h.Depth() - l, |ops|
    {
      if ops != [] {
        if ops[0] == Coarse { PassesBind(l + 1, Ops(Coarsest(l + 1))); }
        PassesBind(l, ops[1..]);
      }
    }

    /** Running one colour adds that colour's correction. */
    lemma RunColour(l: nat, c: bool, m: Machine)
      requires Valid() && l < h.Depth() && h.Shaped(m)
      ensures h.BindsAll(Passes(l, Colour(c)))
      ensures var m' := h.Run(m, Passes(l, Colour(c)));
        m'.fields[X(l)] == Plus(m.fields[X(l)], Apply1(l, Colour(c), Left(l, m))) && SameBut(l, m, m')
    {
      h.RunOne(m, Relax(l, c, X(l), B(l)));
      h.levels[l].RelaxIs(m.fields[X(l)], m.fields[B(l)], c);
    }

    lemma SameChain(l: nat, m: Machine, m1: Machine, m2: Machine)
      requires Valid() && l < h.Depth() && h.Shaped(m) && h.Shaped(m1) && h.Shaped(m2)
      requires SameBut(l, m, m1) && SameBut(l, m1, m2)
      ensures SameBut(l, m, m2)
    {
    }

    /** What a coarser level may write, this one's cycle may. */
    lemma SameAbove(l: nat, m: Machine, m': Machine)
      requires Valid() && l + 1 < h.Depth() && h.Shaped(m) && h.Shaped(m')
      requires SameBut(l + 1, m, m')
      ensures SameBut(l, m, m') && m'.fields[X(l)] == m.fields[X(l)] && m'.fields[B(l)] == m.fields[B(l)]
    {
      assert h.Holds(X(l)) && h.Holds(B(l));
    }

    lemma FormResidualLeaves(l: nat, m: Machine)
      requires Valid() && l + 1 < h.Depth() && h.Shaped(m)
      ensures var m' := h.Step(m, FormResidual(l, X(l), B(l), Tmp(l)));
        m'.fields[Tmp(l)] == Left(l, m) && m'.fields[X(l)] == m.fields[X(l)] && SameBut(l, m, m')
    {
      h.levels[l].ResidualIs(m.fields[X(l)], m.fields[B(l)]);
    }

    lemma RestrictLeaves(l: nat, m: Machine)
      requires Valid() && l + 1 < h.Depth() && h.Shaped(m)
      ensures var m' := h.Step(m, Device.Restrict(l, Tmp(l), B(l + 1), X(l + 1)));
        && m'.fields[X(l + 1)] == Zeros(h.Cells(l + 1))
        && m'.fields[B(l + 1)] == h.Restricted(l, m.fields[Tmp(l)])
        && m'.fields[X(l)] == m.fields[X(l)] && SameBut(l, m, m')
    {
    }

    /** From a zero field, all of the right-hand side is left. */
    lemma AllLeft(l: nat, m: Machine)
      requires Valid() && l < h.Depth() && h.Shaped(m) && m.fields[X(l)] == Zeros(h.Cells(l))
      ensures Left(l, m) == m.fields[B(l)]
    {
      ApplyZeros(h.levels[l].A(), h.Cells(l));
    }

    /** What handing down leaves on the next level: the residual restricted, as
        what to solve for, and zeros to start from. */
    lemma HandDown(l: nat, m: Machine)
      requires Valid() && l + 1 < h.Depth() && h.Shaped(m)
      ensures h.BindsAll(HandingDown(l))
      ensures var m' := h.Run(m, HandingDown(l));
        && m'.fields[X(l)] == m.fields[X(l)]
        && m'.fields[X(l + 1)] == Zeros(h.Cells(l + 1))
        && Left(l + 1, m') == h.Restricted(l, Left(l, m))
        && SameBut(l, m, m')
    {
      hide VCycle.SameBut; hide VCycle.Left; hide Hierarchy.Step; hide Hierarchy.Restricted; hide Hierarchy.Run;
      hide Level.Valid; hide Hierarchy.BindsAll; hide Hierarchy.Shaped; hide Hierarchy.Binds;
      var a, b := FormResidual(l, X(l), B(l), Tmp(l)), Device.Restrict(l, Tmp(l), B(l + 1), X(l + 1));
      HandingDownRuns(l, m);
      var m1 := h.Step(m, a);
      var m2 := h.Step(m1, b);
      FormResidualLeaves(l, m);
      RestrictLeaves(l, m1);
      AllLeft(l + 1, m2);
      SameChain(l, m, m1, m2);
    }

    lemma HandingDownRuns(l: nat, m: Machine)
      requires Valid() && l + 1 < h.Depth() && h.Shaped(m)
      ensures h.BindsAll(HandingDown(l))
      ensures var a, b := FormResidual(l, X(l), B(l), Tmp(l)), Device.Restrict(l, Tmp(l), B(l + 1), X(l + 1));
        h.Binds(a) && h.Binds(b) && h.Run(m, HandingDown(l)) == h.Step(h.Step(m, a), b)
    {
      hide Hierarchy.Step; hide Hierarchy.Run; hide Level.Valid; hide Hierarchy.Shaped;
      h.RunTwo(m, FormResidual(l, X(l), B(l), Tmp(l)), Device.Restrict(l, Tmp(l), B(l + 1), X(l + 1)));
    }

    /** Adding the coarse correction back. */
    lemma HandUp(l: nat, m: Machine)
      requires Valid() && l + 1 < h.Depth() && h.Shaped(m)
      ensures h.BindsAll(HandingUp(l))
      ensures var m' := h.Run(m, HandingUp(l));
        m'.fields[X(l)] == Plus(m.fields[X(l)], h.Prolonged(l, m.fields[X(l + 1)])) && SameBut(l, m, m')
    {
      h.RunOne(m, ProlongAdd(l, X(l), X(l + 1)));
    }

    /** Running a level's passes adds exactly what the operator says, from
        whatever the field holds, and touches nothing above the level. */
    lemma {:induction false} RunOps(l: nat, ops: seq<Op>, m: Machine)
      requires Valid() && l < h.Depth() && h.Shaped(m) && (Coarsest(l) ==> Coarse !in ops)
      ensures h.BindsAll(PassesOf(l, ops))
      ensures var m' := h.Run(m, PassesOf(l, ops));
        m'.fields[X(l)] == Plus(m.fields[X(l)], Act(l, ops, Left(l, m))) && SameBut(l, m, m')
      decreases h.Depth() - l, 1, |ops|
    {
      PassesBind(l, ops);
      var x, r := m.fields[X(l)], Left(l, m);
      if ops == [] {
        assert Plus(x, Zeros(h.Cells(l))) == x;
      } else {
        RunOp(l, ops[0], m);
        var e := Apply1(l, ops[0], r);
        var m1 := h.Run(m, Passes(l, ops[0]));
        RunOps(l, ops[1..], m1);
        h.RunConcat(m, Passes(l, ops[0]), PassesOf(l, ops[1..]));
        ResidualAfterAdding(h.levels[l], m.fields[B(l)], x, e);
        PlusAssociates(x, e, Act(l, ops[1..], Left(l, m1)));
      }
    }

    lemma {:induction false} RunOp(l: nat, op: Op, m: Machine)
      requires Valid() && l < h.Depth() && h.Shaped(m) && (Coarsest(l) ==> op != Coarse)
      ensures h.BindsAll(Passes(l, op))
      ensures var m' := h.Run(m, Passes(l, op));
        m'.fields[X(l)] == Plus(m.fields[X(l)], Apply1(l, op, Left(l, m))) && SameBut(l, m, m')
      decreases h.Depth() - l, 0, 2
    {
      match op
      case Colour(c) => RunColour(l, c, m);
      case Coarse => RunCoarse(l, m);
    }

    /** The next level holds its correction of the residual handed down. */
    ghost predicate RanBelow(l: nat, m: Machine, m': Machine)
      requires Valid() && l + 1 < h.Depth() && h.Shaped(m) && h.Shaped(m')
    {
      && m'.fields[X(l)] == m.fields[X(l)]
      && m'.fields[X(l + 1)] == Correct(l + 1, h.Restricted(l, Left(l, m)))
      && SameBut(l, m, m')
    }

    /** The residual handed down and the next level's cycle run on it. */
    lemma {:induction false} RunBelow(l: nat, m: Machine)
      requires Valid() && l + 1 < h.Depth() && h.Shaped(m)
      ensures h.BindsAll(HandingDown(l) + Cycle(l + 1))
      ensures RanBelow(l, m, h.Run(m, HandingDown(l) + Cycle(l + 1)))
      decreases h.Depth() - l, 0, 0
    {
      HandDown(l, m);
      var m1 := h.Run(m, HandingDown(l));
      RunCycle(l + 1, m1);
      PlusZeros(Correct(l + 1, h.Restricted(l, Left(l, m))));
      hide VCycle.SameBut; hide VCycle.Left; hide Hierarchy.Step; hide VCycle.Below; hide Hierarchy.Run;
      hide VCycle.HandingDown;
      hide VCycle.Act; hide VCycle.Correct; hide VCycle.Cycle; hide Plus; hide Hierarchy.BindsAll; hide Level.Valid;
      h.RunConcat(m, HandingDown(l), Cycle(l + 1));
      var m2 := h.Run(m1, Cycle(l + 1));
      SameAbove(l, m1, m2);
      SameChain(l, m, m1, m2);
    }

    lemma {:induction false} RunCoarse(l: nat, m: Machine)
      requires Valid() && l + 1 < h.Depth() && h.Shaped(m)
      ensures h.BindsAll(Passes(l, Coarse))
      ensures var m' := h.Run(m, Passes(l, Coarse));
        m'.fields[X(l)] == Plus(m.fields[X(l)], Apply1(l, Coarse, Left(l, m))) && SameBut(l, m, m')
      decreases h.Depth() - l, 0, 1
    {
      hide VCycle.SameBut; hide VCycle.Left; hide Hierarchy.Step; hide VCycle.Below; hide Hierarchy.Run;
      hide VCycle.HandingDown; hide VCycle.HandingUp; hide VCycle.Cycle; hide VCycle.Passes;
      hide VCycle.Act; hide VCycle.Correct; hide VCycle.Apply1;
      hide Plus; hide Hierarchy.BindsAll; hide Level.Valid;
      var below := HandingDown(l) + Cycle(l + 1);
      CoarseIs(l, Left(l, m));
      RunBelow(l, m);
      var m2 := h.Run(m, below);
      HandUp(l, m2);
      h.RunConcat(m, below, HandingUp(l));
      SameChain(l, m, m2, h.Run(m2, HandingUp(l)));
    }

    /** The coarse correction, as recorded and as an operator. */
    lemma CoarseIs(l: nat, r: Vec)
      requires Valid() && l + 1 < h.Depth() && |r| == h.Cells(l)
      ensures Passes(l, Coarse) == HandingDown(l) + Cycle(l + 1) + HandingUp(l)
      ensures Apply1(l, Coarse, r) == h.Prolonged(l, Correct(l + 1, h.Restricted(l, r)))
    {
    }

    /** Running a whole cycle on a level. */
    lemma {:induction false} RunCycle(l: nat, m: Machine)
      requires Valid() && l < h.Depth() && h.Shaped(m)
      ensures h.BindsAll(Cycle(l))
      ensures var m' := h.Run(m, Cycle(l));
        m'.fields[X(l)] == Plus(m.fields[X(l)], Correct(l, Left(l, m))) && SameBut(l, m, m')
      decreases h.Depth() - l, 2, 0
    {
      RunOps(l, Ops(Coarsest(l)), m);
    }

    lemma ZeroLeaves(m: Machine)
      requires Valid() && h.Shaped(m)
      ensures var m' := h.Step(m, ZeroOut(x));
        m'.fields[x] == Zeros(h.Cells(0)) && Left(0, m') == m.fields[b] && SameBut(0, m, m')
    {
      AllLeft(0, h.Step(m, ZeroOut(x)));
    }

    /** `v_cycle_from_zero`: zeroing, then one cycle, leaves M b in the field. */
    lemma RunFromZero(m: Machine)
      requires Valid() && h.Shaped(m)
      ensures h.BindsAll([ZeroOut(x)] + Cycle(0))
      ensures var m' := h.Run(m, [ZeroOut(x)] + Cycle(0));
        m'.fields[x] == M(m.fields[b]) && SameBut(0, m, m')
    {
      ZeroLeaves(m);
      h.RunOne(m, ZeroOut(x));
      var m1 := h.Step(m, ZeroOut(x));
      RunCycle(0, m1);
      PlusZeros(M(m.fields[b]));
      hide VCycle.SameBut; hide VCycle.Left; hide Hierarchy.Step; hide VCycle.Below; hide Hierarchy.Run;
      hide VCycle.Act; hide VCycle.Correct; hide VCycle.Cycle; hide Plus; hide Hierarchy.BindsAll;
      h.RunConcat(m, [ZeroOut(x)], Cycle(0));
      SameChain(0, m, m1, h.Run(m1, Cycle(0)));
    }

    /** `v_cycle_from_zero`'s recording. */
    method RecordFromZero(batch: ComputeBatch<Dispatch>) returns (ok: bool)
      requires 0 < h.Depth()
      modifies batch
      ensures ok && batch.Recorded() == old(batch.Recorded()) + ([ZeroOut(x)] + Cycle(0))
      ensures batch.queued == old(batch.queued) && batch.submissions == old(batch.submissions)
    {
      hide VCycle.Cycle; hide VCycle.Cycles;
      batch.Dispatch(ZeroOut(x));
      ok := Record(batch, 1);
      OneCycle();
    }

    lemma OneCycle()
      requires 0 < h.Depth()
      ensures Cycles(1) == Cycle(0)
    {
      hide VCycle.Cycle;
      assert Cycles(1) == Cycles(0) + Cycle(0) == Cycle(0);
    }

    /** A cycle keeps a solution: where nothing is left of the right-hand
        side, it adds nothing. */
    lemma {:induction false} ActOnZeros(l: nat, ops: seq<Op>)
      requires Valid() && l < h.Depth() && (Coarsest(l) ==> Coarse !in ops)
      ensures Act(l, ops, Zeros(h.Cells(l))) == Zeros(h.Cells(l))
      decreases h.Depth() - l, |ops|
    {
      var zeros := Zeros(h.Cells(l));
      if ops != [] {
        if ops[0] == Coarse {
          var n' := h.Cells(l + 1);
          forall i | 0 <= i < n' ensures Apply(Transpose(h.levels[l].prolong), n', zeros)[i] == 0.0 {
            RowOfZeros(Transpose(h.levels[l].prolong), i, h.Cells(l), h.Cells(l));
          }
          assert h.Restricted(l, zeros) == Zeros(n');
          ActOnZeros(l + 1, Ops(Coarsest(l + 1)));
          forall i | 0 <= i < h.Cells(l) ensures Apply(h.levels[l].prolong, h.Cells(l), Zeros(n'))[i] == 0.0 {
            RowOfZeros(h.levels[l].prolong, i, n', n');
          }
        }
        assert Apply1(l, ops[0], zeros) == zeros;
        ApplyZeros(h.levels[l].A(), h.Cells(l));
        assert Minus(zeros, zeros) == zeros;
        ActOnZeros(l, ops[1..]);
        assert Plus(zeros, zeros) == zeros;
      }
    }

    // ------------------------------------------------------------ symmetry

    /** The last of a list of corrections acts on what the others leave. */
    lemma {:induction false} ActSnoc(l: nat, ops: seq<Op>, op: Op, r: Vec)
      requires Valid() && l < h.Depth() && |r| == h.Cells(l)
      requires Coarsest(l) ==> Coarse !in ops + [op]
      ensures (Coarsest(l) ==> op != Coarse && Coarse !in ops)
      ensures Act(l, ops + [op], r)
        == Plus(Act(l, ops, r), Apply1(l, op, Minus(r, h.levels[l].ApplyA(Act(l, ops, r)))))
      decreases |ops|
    {
      assert op in ops + [op];
      assert forall o :: o in ops ==> o in ops + [op];
      var level := h.levels[l];
      if ops == [] {
        ApplyZeros(level.A(), level.n);
        assert Minus(r, Zeros(level.n)) == r;
        assert ([op])[1..] == [];
        var e := Apply1(l, op, r);
        assert Plus(e, Zeros(level.n)) == e;
        assert Plus(Zeros(level.n), e) == e;
        assert ops + [op] == [op];
      } else {
        var e := Apply1(l, ops[0], r);
        var left := Minus(r, level.ApplyA(e));
        assert (ops + [op])[1..] == ops[1..] + [op];
        ActSnoc(l, ops[1..], op, left);
        var t := Act(l, ops[1..], left);
        ResidualAfterBoth(level, r, e, t);
        PlusAssociates(e, t, Apply1(l, op, Minus(left, level.ApplyA(t))));
      }
    }

    ghost predicate Symmetric1(l: nat, op: Op)
      requires Valid() && l < h.Depth()
      requires Coarsest(l) ==> op != Coarse
    {
      forall u: Vec, v: Vec :: |u| == h.Cells(l) && |v| == h.Cells(l) ==>
        Dot(Apply1(l, op, u), v) == Dot(u, Apply1(l, op, v))
    }

    /** A list of symmetric corrections and its reverse are adjoint. */
    lemma {:induction false} ActAdjoint(l: nat, ops: seq<Op>, u: Vec, v: Vec)
      requires Valid() && l < h.Depth() && |u| == h.Cells(l) && |v| == h.Cells(l)
      requires Coarsest(l) ==> Coarse !in ops
      requires forall op :: op in ops ==> Symmetric1(l, op)
      ensures Coarsest(l) ==> Coarse !in Reverse(ops)
      ensures Dot(Act(l, ops, u), v) == Dot(u, Act(l, Reverse(ops), v))
      decreases |ops|
    {
      var level := h.levels[l];
      if ops == [] {
        DotZeros(v);
        DotCommutes(u, Zeros(level.n));
        DotZeros(u);
      } else {
        var o, rest := ops[0], ops[1..];
        assert Symmetric1(l, o);
        var e := Apply1(l, o, u);
        var left := Minus(u, level.ApplyA(e));
        ActAdjoint(l, rest, left, v);
        var t := Act(l, Reverse(rest), v);
        assert Coarsest(l) ==> Coarse !in Reverse(rest) + [o];
        ActSnoc(l, Reverse(rest), o, v);
        var back := Minus(v, level.ApplyA(t));
        assert Reverse(ops) == Reverse(rest) + [o];
        AdjointStep(level, u, v, e, t, Apply1(l, o, back), Act(l, rest, left));
      }
    }

    /** `Coarse` is symmetric when the next level's cycle is. */
    lemma CoarseSymmetric(l: nat, u: Vec, v: Vec)
      requires Valid() && l + 1 < h.Depth() && |u| == h.Cells(l) && |v| == h.Cells(l)
      requires Dot(Correct(l + 1, h.Restricted(l, u)), h.Restricted(l, v))
            == Dot(h.Restricted(l, u), Correct(l + 1, h.Restricted(l, v)))
      ensures Dot(Apply1(l, Coarse, u), v) == Dot(u, Apply1(l, Coarse, v))
    {
      hide DotTo; hide RowTo; hide VCycle.Act; hide Hierarchy.Prolonged; hide Hierarchy.Restricted;
      var cu, cv := Correct(l + 1, h.Restricted(l, u)), Correct(l + 1, h.Restricted(l, v));
      h.TransfersAdjoint(l, v, cu);
      h.TransfersAdjoint(l, u, cv);
      DotCommutes(v, h.Prolonged(l, cu));
      DotCommutes(h.Restricted(l, v), cu);
      var kappa := h.levels[l].kappa;
      hide *;
      Cancel(kappa, Dot(v, h.Prolonged(l, cu)), Dot(u, h.Prolonged(l, cv)), Dot(cu, h.Restricted(l, v)),
        Dot(h.Restricted(l, u), cv));
    }

    /** The cycle on every level is a symmetric operator: its corrections are
        symmetric and read the same backwards, by induction over the levels. */
    lemma {:induction false} CorrectSymmetric(l: nat, u: Vec, v: Vec)
      requires Valid() && l < h.Depth() && |u| == h.Cells(l) && |v| == h.Cells(l)
      ensures Dot(Correct(l, u), v) == Dot(u, Correct(l, v))
      decreases h.Depth() - l
    {
      var ops := Ops(Coarsest(l));
      forall op | op in ops ensures Symmetric1(l, op) {
        forall s: Vec, t: Vec | |s| == h.Cells(l) && |t| == h.Cells(l)
          ensures Dot(Apply1(l, op, s), t) == Dot(s, Apply1(l, op, t))
        {
          match op {
            case Colour(c) => h.levels[l].SymmetricJacobi(c, s, t);
            case Coarse =>
              CorrectSymmetric(l + 1, h.Restricted(l, s), h.Restricted(l, t));
              CoarseSymmetric(l, s, t);
          }
        }
      }
      ActAdjoint(l, ops, u, v);
      Palindrome(Coarsest(l));
    }
  }

  lemma ResidualAfterBoth(level: Level, r: Vec, e: Vec, t: Vec)
    requires |r| == |e| == |t| == level.n
    ensures Minus(r, level.ApplyA(Plus(e, t))) == Minus(Minus(r, level.ApplyA(e)), level.ApplyA(t))
  {
    level.AddsUp(e, t);
  }

  lemma ResidualAfterAdding(level: Level, b: Vec, x: Vec, e: Vec)
    requires |b| == |x| == |e| == level.n
    ensures Minus(b, level.ApplyA(Plus(x, e))) == Minus(Minus(b, level.ApplyA(x)), level.ApplyA(e))
  {
    level.AddsUp(x, e);
  }

  lemma Nest<T>(a: seq<T>, b: seq<T>, c: seq<T>, d: seq<T>, e: seq<T>)
    ensures a + (b + c + d) + e == (a + b) + c + (d + e)
    ensures a + ((b + c + d) + e) == (a + b) + c + (d + e)
  {
  }

  lemma PlusZeros(v: Vec)
    ensures Plus(Zeros(|v|), v) == v
  {
  }

  /** One correction in front of a list, and behind the reversed list. */
  lemma AdjointStep(level: Level, u: Vec, v: Vec, e: Vec, t: Vec, last: Vec, rest: Vec)
    requires level.Valid() && |u| == |v| == |e| == |t| == |last| == |rest| == level.n
    requires Dot(rest, v) == Dot(Minus(u, level.ApplyA(e)), t)
    requires Dot(e, Minus(v, level.ApplyA(t))) == Dot(u, last)
    ensures Dot(Plus(e, rest), v) == Dot(u, Plus(t, last))
  {
    DotPlus(e, rest, v);
    DotMinus(u, level.ApplyA(e), t);
    level.SymmetricA(e, t);
    var ae, at := level.ApplyA(e), level.ApplyA(t);
    DotCommutes(e, Minus(v, at));
    DotMinus(v, at, e);
    DotCommutes(v, e);
    DotCommutes(at, e);
    DotCommutes(u, Plus(t, last));
    DotPlus(t, last, u);
    DotCommutes(t, u);
    DotCommutes(last, u);
  }

  lemma Cancel(k: real, a: real, b: real, ka: real, kb: real)
    requires k > 0.0 && Product(k, a) == ka && Product(k, b) == kb && ka == kb
    ensures a == b
  {
  }
}
