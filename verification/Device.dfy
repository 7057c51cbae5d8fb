/** The fields a pressure solve binds and what each recorded dispatch does to
    them: a machine that runs dispatches in queue order. */
module Device {
  import opened Vectors
  import opened Kernels

  datatype Buf = Pressure | Div | R | Z | D | Q | Scratch | Correction(l: nat) | Rhs(l: nat) | Tmp(l: nat)

  /** The fields' contents, and the scalar slots reductions write. */
  datatype Machine = Machine(fields: map<Buf, Vec>, slots: seq<real>)

  datatype Dispatch =
    | Relax(level: nat, colour: bool, x: Buf, b: Buf)
    | FormResidual(level: nat, x: Buf, b: Buf, out: Buf)
    | Restrict(level: nat, from: Buf, rhs: Buf, e: Buf)
    | ProlongAdd(level: nat, x: Buf, coarse: Buf)
    | ZeroOut(x: Buf)
    | Multiply(a: Buf, b: Buf, x: Buf)
    | Copy(a: Buf, x: Buf)
    | SumInto(x: Buf, slot: nat)
    | AxpyPR(d: Buf, q: Buf, p: Buf, r: Buf, rz: nat, dq: nat)
    | UpdateD(z: Buf, d: Buf, rz: nat, rzNew: nat)

  const SLOTS: nat := 4

  /** The level hierarchy of an open domain. */
  datatype Hierarchy = Hierarchy(levels: seq<Level>)
  {
    ghost predicate Valid() {
      |levels| > 0 && forall l :: 0 <= l < |levels| ==> levels[l].Valid()
    }

    function Depth(): nat {
      |levels|
    }

    function Cells(l: nat): nat
      requires l < Depth()
    {
      levels[l].n
    }

    /** The fields that exist: `Rhs` and `Correction` on the coarse levels only,
        `Tmp` on all but the coarsest. */
    predicate Holds(b: Buf) {
      match b
      case Correction(l) => 0 < l < Depth()
      case Rhs(l) => 0 < l < Depth()
      case Tmp(l) => l + 1 < Depth()
      case _ => 0 < Depth()
    }

    function LevelOf(b: Buf): nat {
      match b
      case Correction(l) => l
      case Rhs(l) => l
      case Tmp(l) => l
      case _ => 0
    }

    /** A field of level `l` is bound. */
    predicate On(b: Buf, l: nat) {
      Holds(b) && LevelOf(b) == l
    }

    ghost predicate Shaped(m: Machine) {
      && |m.slots| == SLOTS
      && forall b :: Holds(b) ==> b in m.fields && |m.fields[b]| == Cells(LevelOf(b))
    }

    /** Every field a dispatch binds has the dims its level gives it. */
    predicate Binds(d: Dispatch) {
      match d
      case Relax(l, _, x, b) => On(x, l) && On(b, l)
      case FormResidual(l, x, b, out) => On(x, l) && On(b, l) && On(out, l)
      case Restrict(l, from, rhs, e) => On(from, l) && On(rhs, l + 1) && On(e, l + 1) && rhs != e
      case ProlongAdd(l, x, coarse) => On(x, l) && On(coarse, l + 1)
      case ZeroOut(x) => On(x, 0)
      case Multiply(a, b, x) => On(a, 0) && On(b, 0) && On(x, 0)
      case Copy(a, x) => On(a, 0) && On(x, 0)
      case SumInto(x, slot) => On(x, 0) && slot < SLOTS
      case AxpyPR(dd, q, p, r, rz, dq) =>
        On(dd, 0) && On(q, 0) && On(p, 0) && On(r, 0) && p != r && rz < SLOTS && dq < SLOTS
      case UpdateD(z, dd, rz, rzNew) => On(z, 0) && On(dd, 0) && rz < SLOTS && rzNew < SLOTS
    }

    /** What one dispatch leaves. */
    ghost function Step(m: Machine, d: Dispatch): (r: Machine)
      requires Valid() && Shaped(m) && Binds(d)
      ensures Shaped(r)
    {
      var f := m.fields;
      match d
      case Relax(l, colour, x, b) => m.(fields := f[x := levels[l].Relaxed(f[x], f[b], colour)])
      case FormResidual(l, x, b, out) => m.(fields := f[out := levels[l].Residual(f[x], f[b])])
      case Restrict(l, from, rhs, e) =>
        m.(fields := f[rhs := Restricted(l, f[from])][e := Zeros(Cells(l + 1))])
      case ProlongAdd(l, x, coarse) => m.(fields := f[x := Plus(f[x], Prolonged(l, f[coarse]))])
      case ZeroOut(x) => m.(fields := f[x := Zeros(Cells(0))])
      case Multiply(a, b, x) => m.(fields := f[x := Times(f[a], f[b])])
      case Copy(a, x) => m.(fields := f[x := f[a]])
      case SumInto(x, slot) => m.(slots := m.slots[slot := SumTo(f[x], |f[x]|)])
      case AxpyPR(dd, q, p, r, rz, dq) =>
        if Negligible(m.slots[rz]) || Negligible(m.slots[dq]) then
          m
        else
          var alpha := -m.slots[rz] / m.slots[dq];
          m.(fields := f[p := Plus(f[p], Scale(alpha, f[dd]))][r := Plus(f[r], Scale(alpha, f[q]))])
      case UpdateD(z, dd, rz, rzNew) =>
        var beta := if Negligible(m.slots[rz]) then 0.0 else m.slots[rzNew] / m.slots[rz];
        m.(fields := f[dd := Plus(f[z], Scale(beta, f[dd]))])
    }

    /** Prolongation from level `l + 1`. */
    function Prolonged(l: nat, e: Vec): (r: Vec)
      requires l + 1 < Depth() && |e| == Cells(l + 1)
      ensures |r| == Cells(l)
    {
      Apply(levels[l].prolong, Cells(l), e)
    }

    /** Restriction to level `l + 1`: kappa times the transpose, gathered. */
    function Restricted(l: nat, r: Vec): (s: Vec)
      requires l + 1 < Depth() && |r| == Cells(l)
      ensures |s| == Cells(l + 1)
    {
      Scale(levels[l].kappa, Apply(Transpose(levels[l].prolong), Cells(l + 1), r))
    }

    predicate BindsAll(ds: seq<Dispatch>) {
      forall i :: 0 <= i < |ds| ==> Binds(ds[i])
    }

    /** Running dispatches in queue order. */
    ghost function Run(m: Machine, ds: seq<Dispatch>): (r: Machine)
      requires Valid() && Shaped(m) && BindsAll(ds)
      ensures Shaped(r)
    {
      if ds == [] then m else Step(Run(m, ds[..|ds| - 1]), ds[|ds| - 1])
    }

    lemma {:induction false} RunConcat(m: Machine, a: seq<Dispatch>, b: seq<Dispatch>)
      requires Valid() && Shaped(m) && BindsAll(a) && BindsAll(b)
      ensures BindsAll(a + b) && Run(m, a + b) == Run(Run(m, a), b)
    {
      if b == [] {
        assert a + b == a;
      } else {
        RunConcat(m, a, b[..|b| - 1]);
        assert (a + b)[..|a + b| - 1] == a + b[..|b| - 1];
      }
    }

    lemma RunOne(m: Machine, d: Dispatch)
      requires Valid() && Shaped(m) && Binds(d)
      ensures BindsAll([d]) && Run(m, [d]) == Step(m, d)
    {
      assert Run(m, [d][..0]) == m;
    }

    lemma RunTwo(m: Machine, a: Dispatch, b: Dispatch)
      requires Valid() && Shaped(m) && Binds(a) && Binds(b)
      ensures BindsAll([a, b]) && Run(m, [a, b]) == Step(Step(m, a), b)
    {
      hide Hierarchy.Step;
      RunOne(m, a);
      RunOne(Step(m, a), b);
      RunConcat(m, [a], [b]);
      assert [a] + [b] == [a, b];
    }

    /** Restriction and prolongation are adjoint up to kappa. */
    lemma TransfersAdjoint(l: nat, r: Vec, e: Vec)
      requires l + 1 < Depth() && |r| == Cells(l) && |e| == Cells(l + 1)
      ensures Product(levels[l].kappa, Dot(r, Prolonged(l, e))) == Dot(Restricted(l, r), e)
    {
      Adjoint(levels[l].prolong, r, e);
      DotScale(levels[l].kappa, Apply(Transpose(levels[l].prolong), Cells(l + 1), r), e);
    }
  }
}
