/** The MGPCG recording (elements-ember `kernels/mgpcg.rs`): five reused fields
    and two alternating slots compute conjugate gradients' iterates. */
module Mgpcg {
  import opened Vectors
  import opened Kernels
  import opened Device
  import opened Multigrid
  import opened ConjugateGradients
  import opened Batches

  const RZ_A: nat := 0
  const DQ: nat := 1
  const RZ_B: nat := 2

  /** The slot iteration `i` reads <r,z> from; the new one goes to the next
      iteration's. */
  function RzSlot(i: nat): nat {
    if i % 2 == 0 then RZ_A else RZ_B
  }

  datatype Solver = Solver(h: Hierarchy)
  {
    ghost predicate Valid() {
      h.Valid()
    }

    /** The preconditioner: one V-cycle from zero on z, for r. */
    function V(): VCycle {
      VCycle(h, Z, R)
    }

    ghost function Operator(): Vec -> Vec
      requires Valid()
    {
      u => if |u| == h.Cells(0) then h.levels[0].ApplyA(u) else []
    }

    ghost function Preconditioner(): Vec -> Vec
      requires Valid()
    {
      var v := V();
      u => if |u| == h.Cells(0) then v.M(u) else []
    }

    /** The linear algebra the solve is about. */
    ghost function Solving(b: Vec, p0: Vec): Problem
      requires Valid()
    {
      Problem(h.Cells(0), Operator(), Preconditioner(), b, p0)
    }

    lemma OperatorIsValid()
      requires Valid()
      ensures Maps(h.Cells(0), Operator()) && Symmetric(h.Cells(0), Operator()) && NeverPositive(h.Cells(0), Operator())
    {
      hide Level.ApplyA; hide Level.Valid; hide Dot;
      var f, n := Operator(), h.Cells(0);
      assert Maps(n, f);
      forall u: Vec, w: Vec | |u| == n && |w| == n ensures SymmetricAt(f, u, w) {
        h.levels[0].SymmetricA(u, w);
      }
      forall u: Vec | |u| == n ensures NotPositiveAt(f, u) {
        h.levels[0].NegativeSemidefinite(u);
      }
    }

    lemma OperatorIsLinear()
      requires Valid()
      ensures Maps(h.Cells(0), Operator()) && Linear(h.Cells(0), Operator())
    {
      hide Level.Valid;
      var f, n := Operator(), h.Cells(0);
      assert Maps(n, f);
      forall u: Vec, a: real, w: Vec | |u| == n && |w| == n
        ensures LinearAt(f, u, a, w)
      {
        h.levels[0].AddsUp(u, Scale(a, w));
        ApplyScale(h.levels[0].A(), n, a, w);
      }
    }

    lemma PreconditionerIsValid()
      requires Valid()
      ensures Maps(h.Cells(0), Preconditioner()) && Symmetric(h.Cells(0), Preconditioner())
    {
      hide VCycle.Correct; hide Dot; hide Level.Valid;
      var f, n := Preconditioner(), h.Cells(0);
      assert Maps(n, f);
      forall u: Vec, w: Vec | |u| == n && |w| == n ensures SymmetricAt(f, u, w) {
        V().CorrectSymmetric(0, u, w);
      }
    }

    /** The V-cycle is a valid preconditioner, and A an operator conjugate
        gradients can solve with. */
    lemma SolvingIsValid(b: Vec, p0: Vec)
      requires Valid() && |b| == |p0| == h.Cells(0)
      ensures Solving(b, p0).Valid()
    {
      hide Solver.Operator; hide Solver.Preconditioner; hide Maps; hide Linear; hide Symmetric; hide NeverPositive;
      OperatorIsValid();
      OperatorIsLinear();
      PreconditionerIsValid();
    }

    // ------------------------------------------------------------ the recording

    /** z = M r. */
    function Preconditioning(): seq<Dispatch>
      requires 0 < h.Depth()
    {
      [ZeroOut(Z)] + V().Cycle(0)
    }

    function DotInto(a: Buf, b: Buf, slot: nat): seq<Dispatch> {
      [Multiply(a, b, Scratch), SumInto(Scratch, slot)]
    }

    /** What precedes the iterations: the residual, z, d as its copy, and <r,z>. */
    function Opening(): seq<Dispatch>
      requires 0 < h.Depth()
    {
      [FormResidual(0, Pressure, Div, R)] + Preconditioning() + [Device.Copy(Z, D)] + DotInto(R, Z, RZ_A)
    }

    /** q = -A d; <d,q>; then p and r. */
    function Update(i: nat): seq<Dispatch> {
      [ZeroOut(Scratch), FormResidual(0, D, Scratch, Q)] + DotInto(D, Q, DQ)
        + [AxpyPR(D, Q, Pressure, R, RzSlot(i), DQ)]
    }

    /** z = M r; the new <r,z>; then d. */
    function Renewal(i: nat): seq<Dispatch>
      requires 0 < h.Depth()
    {
      Preconditioning() + DotInto(R, Z, RzSlot(i + 1)) + [UpdateD(Z, D, RzSlot(i), RzSlot(i + 1))]
    }

    /** Everything before iteration `i`'s update. */
    function Before(i: nat): seq<Dispatch>
      requires 0 < h.Depth()
    {
      if i == 0 then Opening() else Before(i - 1) + Update(i - 1) + Renewal(i - 1)
    }

    /** The last iteration needs no new direction. */
    function Program(iterations: nat): seq<Dispatch>
      requires 0 < h.Depth() && iterations > 0
    {
      Before(iterations - 1) + Update(iterations - 1)
    }

    method RecordOpening(batch: ComputeBatch<Dispatch>)
      requires 0 < h.Depth()
      modifies batch
      ensures batch.Recorded() == old(batch.Recorded()) + Opening()
    {
      hide VCycle.Cycle;
      ghost var before := batch.Recorded();
      batch.Dispatch(FormResidual(0, Pressure, Div, R));
      var ok := V().RecordFromZero(batch);
      assert batch.Recorded() == before + ([FormResidual(0, Pressure, Div, R)] + Preconditioning());
      batch.Dispatch(Device.Copy(Z, D));
      RecordDot(batch, R, Z, RZ_A);
    }

    method RecordRenewal(batch: ComputeBatch<Dispatch>, i: nat)
      requires 0 < h.Depth()
      modifies batch
      ensures batch.Recorded() == old(batch.Recorded()) + Renewal(i)
    {
      hide VCycle.Cycle;
      var ok := V().RecordFromZero(batch);
      RecordDot(batch, R, Z, RzSlot(i + 1));
      batch.Dispatch(UpdateD(Z, D, RzSlot(i), RzSlot(i + 1)));
    }

    /** `record`: a flush between every two iterations; where one fails, a
        whole number of iterations has been recorded. */
    method Record(batch: ComputeBatch<Dispatch>, iterations: nat) returns (ok: bool)
      requires 0 < h.Depth() && iterations > 0
      modifies batch
      ensures ok ==> batch.Recorded() == old(batch.Recorded()) + Program(iterations)
      ensures !ok ==> exists k :: 0 < k < iterations && batch.Recorded() == old(batch.Recorded()) + Before(k)
    {
      hide Solver.Opening; hide Solver.Update; hide Solver.Renewal;
      ghost var before := batch.Recorded();
      RecordOpening(batch);
      var i := 0;
      while i < iterations
        invariant 0 <= i <= iterations
        invariant i < iterations ==> batch.Recorded() == before + Before(i)
        invariant i == iterations ==> batch.Recorded() == before + Program(iterations)
      {
        if i > 0 {
          var flushed := batch.Flush();
          if !flushed { return false; }
        }
        RecordUpdate(batch, i);
        assert before + Before(i) + Update(i) == before + (Before(i) + Update(i));
        if i + 1 < iterations {
          RecordRenewal(batch, i);
          assert before + (Before(i) + Update(i)) + Renewal(i) == before + Before(i + 1);
        }
        i := i + 1;
      }
      return true;
    }

    method RecordDot(batch: ComputeBatch<Dispatch>, a: Buf, b: Buf, slot: nat)
      modifies batch`dispatches
      ensures batch.Recorded() == old(batch.Recorded()) + DotInto(a, b, slot)
    {
      batch.Dispatch(Multiply(a, b, Scratch));
      batch.Dispatch(SumInto(Scratch, slot));
    }

    method RecordUpdate(batch: ComputeBatch<Dispatch>, i: nat)
      modifies batch`dispatches
      ensures batch.Recorded() == old(batch.Recorded()) + Update(i)
    {
      batch.Dispatch(ZeroOut(Scratch));
      batch.Dispatch(FormResidual(0, D, Scratch, Q));
      RecordDot(batch, D, Q, DQ);
      batch.Dispatch(AxpyPR(D, Q, Pressure, R, RzSlot(i), DQ));
    }

    /** `mgpcg`: nothing for no iterations; otherwise the recording, flushed so
        that its fields may go back to the pool. */
    method Solve(batch: ComputeBatch<Dispatch>, iterations: nat) returns (ok: bool)
      requires 0 < h.Depth()
      modifies batch
      ensures iterations == 0 ==>
        ok && batch.Recorded() == old(batch.Recorded()) && batch.dispatches == old(batch.dispatches)
      ensures ok && iterations > 0 ==>
        batch.dispatches == [] && batch.queued == old(batch.Recorded()) + Program(iterations)
    {
      if iterations == 0 { return true; }
      ok := Record(batch, iterations);
      if ok { ok := batch.Flush(); }
    }

    // ------------------------------------------------------------ running it

    /** The fields and the slot hold iterate `s` before iteration `i`'s update. */
    ghost predicate Ready(m: Machine, i: nat, b: Vec, s: Iterate)
      requires Valid()
    {
      && h.Shaped(m)
      && m.fields[Div] == b
      && m.fields[Pressure] == s.p && m.fields[R] == s.r && m.fields[Z] == s.z && m.fields[D] == s.d
      && m.slots[RzSlot(i)] == Dot(s.r, s.z)
    }

    /** The pressure and its residual are iterate `s`'s. */
    ghost predicate Moved(m: Machine, b: Vec, s: Iterate)
      requires Valid()
    {
      && h.Shaped(m)
      && m.fields[Div] == b && m.fields[Pressure] == s.p && m.fields[R] == s.r
    }

    /** A product and its sum leave the inner product in the slot. */
    lemma DotLeaves(m: Machine, a: Buf, c: Buf, slot: nat)
      requires Valid() && h.Shaped(m) && h.On(a, 0) && h.On(c, 0) && slot < SLOTS
      ensures h.BindsAll(DotInto(a, c, slot))
      ensures var u, v := m.fields[a], m.fields[c];
        h.Run(m, DotInto(a, c, slot)) == Machine(m.fields[Scratch := Times(u, v)], m.slots[slot := Dot(u, v)])
    {
      hide Level.Valid; hide Hierarchy.Run; hide Times; hide DotTo; hide SumTo;
      h.RunTwo(m, Multiply(a, c, Scratch), SumInto(Scratch, slot));
      SumOfTimes(m.fields[a], m.fields[c], h.Cells(0));
    }

    /** With `scratch` zeroed as its right-hand side, the residual of d is -A d. */
    lemma NegatedProduct(m: Machine)
      requires Valid() && h.Shaped(m)
      ensures h.BindsAll([ZeroOut(Scratch), FormResidual(0, D, Scratch, Q)])
      ensures var d := m.fields[D];
        h.Run(m, [ZeroOut(Scratch), FormResidual(0, D, Scratch, Q)])
          == m.(fields := m.fields[Scratch := Zeros(h.Cells(0))][Q := Scale(-1.0, h.levels[0].ApplyA(d))])
    {
      hide Level.Valid; hide Level.Residual; hide Level.ApplyA; hide Scale; hide Hierarchy.Run;
      h.RunTwo(m, ZeroOut(Scratch), FormResidual(0, D, Scratch, Q));
      NegatedResidual(h.levels[0], m.fields[D]);
    }

    /** What the update's passes leave, dispatch by dispatch. */
    ghost function AfterUpdate(m: Machine, i: nat): (r: Machine)
      requires Valid() && h.Shaped(m)
      ensures h.Shaped(r)
    {
      var d := m.fields[D];
      var q := Scale(-1.0, h.levels[0].ApplyA(d));
      h.Step(Machine(m.fields[Scratch := Times(d, q)][Q := q], m.slots[DQ := Dot(d, q)]),
             AxpyPR(D, Q, Pressure, R, RzSlot(i), DQ))
    }

    lemma RunUpdate(m: Machine, i: nat)
      requires Valid() && h.Shaped(m)
      ensures h.BindsAll(Update(i)) && h.Run(m, Update(i)) == AfterUpdate(m, i)
    {
      hide Level.Valid; hide Hierarchy.Run; hide Hierarchy.Step; hide Times; hide Scale; hide Dot; hide Level.ApplyA;
      var a := [ZeroOut(Scratch), FormResidual(0, D, Scratch, Q)];
      var axpy := AxpyPR(D, Q, Pressure, R, RzSlot(i), DQ);
      NegatedProduct(m);
      var m1 := h.Run(m, a);
      DotLeaves(m1, D, Q, DQ);
      h.RunConcat(m, a, DotInto(D, Q, DQ));
      var m2 := h.Run(m1, DotInto(D, Q, DQ));
      h.RunOne(m2, axpy);
      h.RunConcat(m, a + DotInto(D, Q, DQ), [axpy]);
      var d, q := m.fields[D], m1.fields[Q];
      assert m.fields[Scratch := Zeros(h.Cells(0))][Q := q][Scratch := Times(d, q)]
        == m.fields[Scratch := Times(d, q)][Q := q];
    }

    /** The step length: 0 where the guards skip the update. */
    ghost function StepLength(rz: real, dad: real): real {
      if Negligible(rz) || Negligible(dad) then 0.0 else rz / dad
    }

    /** The update kernel, reading -<d,Ad> and -A d, moves p and r as conjugate
        gradients do, its guards included. */
    lemma UpdateMoves(m: Machine, i: nat)
      requires Valid() && h.Shaped(m)
      ensures var m', d, rz := AfterUpdate(m, i), m.fields[D], m.slots[RzSlot(i)];
        var ad := h.levels[0].ApplyA(d);
        var alpha := StepLength(rz, Dot(d, ad));
        && m'.fields[Pressure] == Plus(m.fields[Pressure], Scale(alpha, d))
        && m'.fields[R] == Plus(m.fields[R], Scale(-alpha, ad))
        && m'.fields[D] == d && m'.fields[Div] == m.fields[Div]
        && m'.slots[RzSlot(i)] == rz
    {
      hide Dot; hide Level.Valid; hide Level.ApplyA;
      var d, rz := m.fields[D], m.slots[RzSlot(i)];
      var ad := h.levels[0].ApplyA(d);
      var dad, q := Dot(d, ad), Scale(-1.0, ad);
      DotCommutes(d, q);
      DotScale(-1.0, ad, d);
      DotCommutes(ad, d);
      assert Dot(d, q) == -dad;
      if Negligible(rz) || Negligible(dad) {
        PlusNothing(m.fields[Pressure], d);
        PlusNothing(m.fields[R], ad);
      } else {
        BothNegated(rz, dad);
        ScaleTwice(rz / dad, ad);
      }
    }

    lemma BothNegated(a: real, b: real)
      requires b != 0.0
      ensures -a / -b == a / b
    {
      var q := a / b;
      assert q * b == a;
      assert q * -b == -(q * b);
      QuotientIs(-a, -b, q);
    }

    lemma QuotientIs(a: real, b: real, q: real)
      requires b != 0.0 && q * b == a
      ensures a / b == q
    {
    }

    /** How much of the old direction the new one keeps: none of it where the
        guard fires. */
    ghost function Share(rz: real, rzNew: real): real {
      if Negligible(rz) then 0.0 else rzNew / rz
    }

    /** What a renewal leaves. */
    lemma RunRenewal(m: Machine, i: nat)
      requires Valid() && h.Shaped(m)
      ensures h.BindsAll(Renewal(i))
      ensures var m', r, rz := h.Run(m, Renewal(i)), m.fields[R], m.slots[RzSlot(i)];
        var z := V().M(r);
        && m'.fields[Z] == z && m'.fields[R] == r
        && m'.fields[Pressure] == m.fields[Pressure] && m'.fields[Div] == m.fields[Div]
        && m'.slots[RzSlot(i + 1)] == Dot(r, z)
        && m'.fields[D] == Plus(z, Scale(Share(rz, Dot(r, z)), m.fields[D]))
    {
      hide VCycle.Cycle; hide VCycle.M; hide Hierarchy.Run; hide Dot; hide Level.Valid; hide Hierarchy.BindsAll;
      hide Solver.Preconditioning; hide Solver.DotInto; hide VCycle.SameBut; hide Plus; hide Scale; hide Hierarchy.Step;
      hide Solver.Share;
      var update := UpdateD(Z, D, RzSlot(i), RzSlot(i + 1));
      var renewed := Preconditioning() + DotInto(R, Z, RzSlot(i + 1));
      RunRenewed(m, RzSlot(i + 1));
      UpdateLeaves(h.Run(m, renewed), i);
      h.RunOne(h.Run(m, renewed), update);
      h.RunConcat(m, renewed, [update]);
    }

    /** The new direction, from both slots. */
    lemma UpdateLeaves(m: Machine, i: nat)
      requires Valid() && h.Shaped(m)
      ensures h.Binds(UpdateD(Z, D, RzSlot(i), RzSlot(i + 1)))
      ensures var beta := Share(m.slots[RzSlot(i)], m.slots[RzSlot(i + 1)]);
        h.Step(m, UpdateD(Z, D, RzSlot(i), RzSlot(i + 1)))
        == m.(fields := m.fields[D := Plus(m.fields[Z], Scale(beta, m.fields[D]))])
    {
    }

    /** z = M r and its inner product with r. */
    lemma RunRenewed(m: Machine, slot: nat)
      requires Valid() && h.Shaped(m) && slot < SLOTS
      ensures h.BindsAll(Preconditioning() + DotInto(R, Z, slot))
      ensures var m', r := h.Run(m, Preconditioning() + DotInto(R, Z, slot)), m.fields[R];
        var z := V().M(r);
        && m'.fields[Z] == z && m'.slots == m.slots[slot := Dot(r, z)]
        && forall f :: f in {Pressure, Div, R, D} ==> m'.fields[f] == m.fields[f]
    {
      hide VCycle.Cycle; hide VCycle.M; hide Hierarchy.Run; hide Dot; hide Level.Valid; hide Times;
      hide Hierarchy.BindsAll;
      hide VCycle.SameBut;
      V().RunFromZero(m);
      var m1 := h.Run(m, Preconditioning());
      Untouched(m, m1);
      DotLeaves(m1, R, Z, slot);
      h.RunConcat(m, Preconditioning(), DotInto(R, Z, slot));
    }

    /** A V-cycle on z leaves the solve's other fields alone. */
    lemma Untouched(m: Machine, m': Machine)
      requires Valid() && h.Shaped(m) && h.Shaped(m') && V().SameBut(0, m, m')
      ensures m'.slots == m.slots
      ensures forall f :: f in {Pressure, Div, R, D} ==> m'.fields[f] == m.fields[f]
    {
      assert forall f :: f in {Pressure, Div, R, D} ==> h.Holds(f) && !V().Below(0, f) && f != Z;
    }

    lemma RunOpening(m: Machine)
      requires Valid() && h.Shaped(m)
      ensures h.BindsAll(Opening())
      ensures var m', p, b := h.Run(m, Opening()), m.fields[Pressure], m.fields[Div];
        var r := Minus(b, h.levels[0].ApplyA(p));
        var z := V().M(r);
        Ready(m', 0, b, Iterate(p, r, z, z))
    {
      hide VCycle.Cycle; hide VCycle.M; hide Hierarchy.Run; hide Dot; hide Times; hide Hierarchy.BindsAll;
      var first, copy := FormResidual(0, Pressure, Div, R), Device.Copy(Z, D);
      h.levels[0].ResidualIs(m.fields[Pressure], m.fields[Div]);
      h.RunOne(m, first);
      var m1 := h.Step(m, first);
      V().RunFromZero(m1);
      h.RunConcat(m, [first], Preconditioning());
      var m2 := h.Run(m1, Preconditioning());
      Untouched(m1, m2);
      h.RunOne(m2, copy);
      h.RunConcat(m, [first] + Preconditioning(), [copy]);
      var m3 := h.Step(m2, copy);
      DotLeaves(m3, R, Z, RZ_A);
      h.RunConcat(m, [first] + Preconditioning() + [copy], DotInto(R, Z, RZ_A));
    }

    /** An update and a renewal take one iterate to the next. */
    lemma RunIteration(m: Machine, i: nat, b: Vec, p0: Vec, s: Iterate)
      requires Valid() && |b| == |p0| == h.Cells(0) && Solving(b, p0).Valid()
      requires Solving(b, p0).Sized(s) && Ready(m, i, b, s)
      ensures h.BindsAll(Update(i) + Renewal(i))
      ensures Ready(h.Run(m, Update(i) + Renewal(i)), i + 1, b, Solving(b, p0).Next(s))
    {
      hide Problem.Valid; hide VCycle.M; hide Hierarchy.Run; hide Level.ApplyA; hide Dot; hide Solver.AfterUpdate;
      hide Level.Valid; hide Hierarchy.BindsAll;
      hide Solver.Update; hide Solver.Renewal;
      var problem := Solving(b, p0);
      RunUpdate(m, i);
      UpdateMoves(m, i);
      var m1 := h.Run(m, Update(i));
      RunRenewal(m1, i);
      h.RunConcat(m, Update(i), Renewal(i));
    }

    lemma RunLastUpdate(m: Machine, i: nat, b: Vec, p0: Vec, s: Iterate)
      requires Valid() && |b| == |p0| == h.Cells(0) && Solving(b, p0).Valid()
      requires Solving(b, p0).Sized(s) && Ready(m, i, b, s)
      ensures h.BindsAll(Update(i))
      ensures Moved(h.Run(m, Update(i)), b, Solving(b, p0).Next(s))
    {
      hide Problem.Valid; hide VCycle.M; hide Hierarchy.Run; hide Level.ApplyA; hide Dot; hide Solver.AfterUpdate;
      hide Level.Valid; hide Hierarchy.BindsAll;
      hide Solver.Update;
      RunUpdate(m, i);
      UpdateMoves(m, i);
    }

    lemma {:induction false} RunBefore(m: Machine, k: nat)
      requires Valid() && h.Shaped(m)
      ensures h.BindsAll(Before(k))
      ensures Solving(m.fields[Div], m.fields[Pressure]).Valid()
      ensures Ready(h.Run(m, Before(k)), k, m.fields[Div], Solving(m.fields[Div], m.fields[Pressure]).At(k))
    {
      hide Problem.Valid; hide VCycle.M; hide Hierarchy.Run; hide Level.ApplyA; hide Dot; hide Level.Valid;
      hide Hierarchy.BindsAll;
      hide Solver.Update; hide Solver.Renewal; hide Solver.Opening; hide Solver.Ready; hide Problem.Next;
      var b, p0 := m.fields[Div], m.fields[Pressure];
      SolvingIsValid(b, p0);
      if k == 0 {
        RunOpening(m);
      } else {
        RunBefore(m, k - 1);
        var m1 := h.Run(m, Before(k - 1));
        RunIteration(m1, k - 1, b, p0, Solving(b, p0).At(k - 1));
        h.RunConcat(m, Before(k - 1), Update(k - 1) + Renewal(k - 1));
        assert Before(k - 1) + (Update(k - 1) + Renewal(k - 1)) == Before(k);
      }
    }

    /** The recording of n iterations computes conjugate gradients' n-th
        iterate from whatever pressure it starts with, for every n; its div is
        untouched. */
    lemma RunProgram(m: Machine, iterations: nat)
      requires Valid() && h.Shaped(m) && iterations > 0
      ensures h.BindsAll(Program(iterations))
      ensures Solving(m.fields[Div], m.fields[Pressure]).Valid()
      ensures Moved(h.Run(m, Program(iterations)), m.fields[Div],
        Solving(m.fields[Div], m.fields[Pressure]).At(iterations))
    {
      hide Problem.Valid; hide VCycle.M; hide Hierarchy.Run; hide Level.ApplyA; hide Dot; hide Level.Valid;
      hide Hierarchy.BindsAll;
      hide Solver.Update; hide Solver.AfterUpdate; hide Solver.Before;
      hide Solver.Ready; hide Problem.Next; hide Solver.Moved;
      var k, b, p0 := iterations - 1, m.fields[Div], m.fields[Pressure];
      RunBefore(m, k);
      RunLastUpdate(h.Run(m, Before(k)), k, b, p0, Solving(b, p0).At(k));
      h.RunConcat(m, Before(k), Update(k));
    }
  }

  lemma NegatedResidual(level: Level, d: Vec)
    requires level.Valid() && |d| == level.n
    ensures level.Residual(d, Zeros(level.n)) == Scale(-1.0, level.ApplyA(d))
  {
    hide Level.Residual; hide Level.ApplyA;
    level.ResidualIs(d, Zeros(level.n));
    assert Minus(Zeros(level.n), level.ApplyA(d)) == Scale(-1.0, level.ApplyA(d));
  }

  lemma ScaleTwice(a: real, v: Vec)
    ensures Scale(a, Scale(-1.0, v)) == Scale(-a, v)
  {
    forall i | 0 <= i < |v| ensures Scale(a, Scale(-1.0, v))[i] == Scale(-a, v)[i] {
      Negated(a, v[i]);
      assert Scale(-1.0, v)[i] == -v[i];
    }
  }

  // ------------------------------------------------------------ one cell

  /** A level of one cell, with an open face. */
  ghost predicate IsOneCell(level: Level) {
    level.Valid() && level.n == 1 && level.red(0) && level.open(0) > 0.0
  }

  /** The solver of a domain of one cell: its hierarchy is that level alone. */
  function OneCell(level: Level): Solver {
    Solver(Hierarchy([level]))
  }

  /** What `A` scales by. */
  function Factor(level: Level): real
    requires level.n > 0
  {
    level.k * level.open(0)
  }

  lemma DotOne(u: Vec, w: Vec)
    requires |u| == 1 && |w| == 1
    ensures Dot(u, w) == u[0] * w[0]
  {
    assert DotTo(u, w, 1) == DotTo(u, w, 0) + u[0] * w[0];
  }

  lemma OneCellIsValid(level: Level)
    requires IsOneCell(level)
    ensures OneCell(level).Valid() && OneCell(level).h.Cells(0) == 1
  {
    assert OneCell(level).h.levels == [level];
  }

  lemma OneCellCount(level: Level, u: Vec)
    requires IsOneCell(level) && |u| == 1
    ensures level.Count(0) == level.open(0)
    ensures level.ApplyA(u) == [-Factor(level) * u[0]]
  {
    assert level.weight(0, 0) == 0.0;
    assert RowTo(level.weight, 0, Ones(1), 1) == RowTo(level.weight, 0, Ones(1), 0) + 0.0 * Ones(1)[0] == 0.0;
    hide Level.Count;
    assert RowTo(level.A(), 0, u, 1) == RowTo(level.A(), 0, u, 0) + level.Entry(0, 0) * u[0];
    assert level.Entry(0, 0) == -Factor(level);
    assert level.ApplyA(u)[0] == -Factor(level) * u[0];
  }

  /** On one cell, one colour's pass solves outright. */
  lemma OneCellRelaxes(level: Level, r: Vec)
    requires IsOneCell(level) && |r| == 1
    ensures Factor(level) > 0.0
    ensures var e := level.Jacobi(true, r);
      e == [-(r[0] / Factor(level))] && level.ApplyA(e) == r
  {
    hide Level.Count; hide Level.ApplyA;
    OneCellCount(level, r);
    assert level.Inverse(true, 0) == -(1.0 / Factor(level));
    Inverts(Factor(level), r[0]);
    var e := level.Jacobi(true, r);
    assert e[0] == -(1.0 / Factor(level)) * r[0];
    OneCellCount(level, e);
    assert e[0] == -(r[0] / Factor(level));
    assert level.ApplyA(e)[0] == r[0];
  }

  lemma Inverts(g: real, x: real)
    requires g > 0.0
    ensures -(1.0 / g) * x == -(x / g) && -g * -(x / g) == x
  {
    assert x / g * g == x;
    assert 1.0 / g * g == 1.0;
    assert (1.0 / g * x - x / g) * g == 0.0;
  }

  /** So does the V-cycle: its later passes find nothing left. */
  lemma OneCellCycle(level: Level, r: Vec)
    requires IsOneCell(level) && |r| == 1
    ensures OneCell(level).Valid() && Factor(level) > 0.0
    ensures OneCell(level).V().M(r) == [-(r[0] / Factor(level))]
  {
    OneCellIsValid(level);
    OneCellRelaxes(level, r);
    var v := OneCell(level).V();
    var e := level.Jacobi(true, r);
    assert v.M(r) == v.Act(0, [RED, BLACK, BLACK, RED], r);
    assert v.Apply1(0, RED, r) == e;
    assert [RED, BLACK, BLACK, RED][1..] == [BLACK, BLACK, RED];
    assert Minus(r, level.ApplyA(e)) == Zeros(1);
    v.ActOnZeros(0, [BLACK, BLACK, RED]);
    assert Plus(e, Zeros(1)) == e;
  }

  /** What solves the one cell's equation for `c`. */
  function Answer(level: Level, c: real): real
    requires level.n > 0 && Factor(level) != 0.0
  {
    -(c / Factor(level))
  }

  lemma OneCellSolves(level: Level, b: Vec, p0: Vec, u: Vec)
    requires IsOneCell(level) && |b| == |p0| == |u| == 1
    ensures Factor(level) > 0.0 && OneCell(level).Valid() && OneCell(level).Solving(b, p0).Valid()
    ensures OneCell(level).Solving(b, p0).A(u) == [-Factor(level) * u[0]]
    ensures OneCell(level).Solving(b, p0).M(u) == [Answer(level, u[0])]
    ensures OneCell(level).Solving(b, p0).A([Answer(level, u[0])]) == u
  {
    OneCellIsValid(level);
    OneCell(level).SolvingIsValid(b, p0);
    hide Problem.Valid; hide Level.ApplyA; hide VCycle.M; hide Level.Valid;
    OneCellCount(level, u);
    OneCellRelaxes(level, u);
    OneCellCycle(level, u);
  }

  /** The first iterate of that solve from zero, and its two products. */
  lemma OneCellStarts(level: Level, c: real)
    requires IsOneCell(level) && c != 0.0
    ensures Factor(level) > 0.0 && OneCell(level).Valid() && OneCell(level).Solving([c], [0.0]).Valid()
    ensures var problem, z := OneCell(level).Solving([c], [0.0]), Answer(level, c);
      && problem.At(0) == Iterate([0.0], [c], [z], [z]) && problem.A([z]) == [c]
      && Dot([c], [z]) == Dot([z], [c]) == -(c * c / Factor(level)) != 0.0 && z != 0.0
  {
    hide Problem.Valid; hide Problem.A; hide Problem.M; hide OneCell; hide Answer; hide Dot; hide Problem.At;
    OneCellSolves(level, [c], [0.0], [0.0]);
    OneCellSolves(level, [c], [0.0], [c]);
    var problem, z := OneCell(level).Solving([c], [0.0]), Answer(level, c);
    AnswerProducts(level, c);
    DotOne([c], [z]);
    DotOne([z], [c]);
    assert problem.A([0.0])[0] == 0.0;
    FromZero(problem, c, z);
  }

  lemma AnswerProducts(level: Level, c: real)
    requires level.n > 0 && Factor(level) > 0.0 && c != 0.0
    ensures -Factor(level) * 0.0 == 0.0 && Answer(level, c) != 0.0
    ensures c * Answer(level, c) == Answer(level, c) * c == -(c * c / Factor(level)) != 0.0
  {
    Squared(c, Factor(level));
  }

  lemma FromZero(problem: Problem, c: real, z: real)
    requires problem.Valid() && problem.n == 1 && problem.b == [c] && problem.p0 == [0.0]
    requires problem.A([0.0]) == [0.0] && problem.M([c]) == [z]
    ensures problem.At(0) == Iterate([0.0], [c], [z], [z])
  {
    hide Problem.Valid; hide Problem.A; hide Problem.M;
    assert Minus([c], [0.0]) == [c];
  }

  lemma Squared(c: real, g: real)
    requires g > 0.0 && c != 0.0
    ensures c * -(c / g) == -(c / g) * c == -(c * c / g) != 0.0
    ensures Negligible(-(c * c / g)) <==> c * c * 1_000_000_000_000_000_000_000_000_000_000.0 <= g
  {
    var q := c * c / g;
    assert q * g == c * c && c * c > 0.0;
    assert c / g * g == c;
    assert (c * (c / g) - q) * g == 0.0;
    assert q > 0.0;
    assert q <= TINY <==> q * g <= TINY * g;
  }

  /** The guards' bound is absolute: a solve of one cell whose right-hand side is
      small never leaves the start, though the textbook solves it in one step, and
      so does this solver exactly when the right-hand side is larger. */
  lemma LeavesTextbook(level: Level, c: real)
    requires IsOneCell(level) && c != 0.0
    ensures OneCell(level).Valid() && OneCell(level).Solving([c], [0.0]).Valid()
    ensures var problem, s := OneCell(level).Solving([c], [0.0]), OneCell(level).Solving([c], [0.0]).At(0);
      && !problem.Finished(s) && Dot(s.d, problem.A(s.d)) != 0.0
      && problem.A(problem.TextbookNext(s).p) == [c] && problem.TextbookNext(s).p != [0.0]
      && (c * c * 1_000_000_000_000_000_000_000_000_000_000.0 <= level.k * level.open(0) ==>
         !problem.Clear(0) && forall n: nat :: problem.At(n).p == [0.0])
      && (c * c * 1_000_000_000_000_000_000_000_000_000_000.0 > level.k * level.open(0) ==>
         problem.At(1).p == problem.TextbookNext(s).p && problem.A(problem.At(1).p) == [c])
  {
    hide Problem.Valid; hide Solver.Solving; hide OneCell; hide Negligible; hide Dot; hide Problem.A; hide Problem.M;
    hide Answer;
    OneCellStarts(level, c);
    Squared(c, Factor(level));
    StopsOrSolves(OneCell(level).Solving([c], [0.0]), c, Answer(level, c), -(c * c / Factor(level)));
  }

  /** A unit cell and a unit right-hand side: one iteration solves it. */
  lemma UnitCellSolves(level: Level)
    requires IsOneCell(level) && level.k == 1.0 && level.open(0) == 1.0
    ensures OneCell(level).Valid() && OneCell(level).Solving([1.0], [0.0]).Valid()
    ensures OneCell(level).Solving([1.0], [0.0]).At(1).p == [-1.0]
  {
    hide Problem.Valid; hide Solver.Solving; hide OneCell; hide Problem.A; hide Problem.At;
    LeavesTextbook(level, 1.0);
    var p := OneCell(level).Solving([1.0], [0.0]).At(1).p;
    OneCellSolves(level, [1.0], [0.0], p);
    assert [-Factor(level) * p[0]][0] == [1.0][0];
  }

  /** A right-hand side of 10^-15 there is as far as the guards look: no
      iteration ever moves. */
  lemma SmallCellStays(level: Level, n: nat)
    requires IsOneCell(level) && level.k == 1.0 && level.open(0) == 1.0
    ensures var small := 1.0 / 1_000_000_000_000_000.0;
      OneCell(level).Valid() && OneCell(level).Solving([small], [0.0]).Valid()
      && OneCell(level).Solving([small], [0.0]).At(n).p == [0.0]
  {
    hide Problem.Valid; hide Solver.Solving; hide OneCell; hide Problem.A; hide Problem.At;
    LeavesTextbook(level, 1.0 / 1_000_000_000_000_000.0);
  }

  lemma Whole(x: real)
    requires x != 0.0
    ensures x / x == 1.0
  {
  }

  lemma StopsOrSolves(problem: Problem, c: real, z: real, rz: real)
    requires problem.Valid() && problem.At(0) == Iterate([0.0], [c], [z], [z]) && problem.A([z]) == [c]
    requires Dot([c], [z]) == Dot([z], [c]) == rz != 0.0 && z != 0.0
    ensures var s := problem.At(0);
      && problem.Sized(s) && !problem.Finished(s) && Dot(s.d, problem.A(s.d)) != 0.0
      && problem.TextbookNext(s).p == [z]
      && (Negligible(rz) ==> !problem.Clear(0) && forall n: nat :: problem.At(n).p == [0.0])
      && (!Negligible(rz) ==> problem.At(1).p == problem.TextbookNext(s).p)
  {
    hide Problem.Valid; hide Negligible; hide Dot; hide Problem.A; hide Problem.M;
    var s := problem.At(0);
    Whole(rz);
    assert Scale(1.0, [z]) == [z] && Plus([0.0], [z]) == [z];
    assert problem.TextbookNext(s).p == Plus([0.0], Scale(rz / rz, [z]));
    problem.TextbookStep(s);
    assert problem.At(1) == problem.Next(s);
    if Negligible(rz) {
      forall n: nat ensures problem.At(n).p == [0.0] { problem.Frozen(0, n); }
    }
  }
}
