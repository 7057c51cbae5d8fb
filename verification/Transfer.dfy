/** The multigrid transfers between whole levels (elements-ember
    `shaders/transfer.wgsl`, `prolong_add.wgsl`, `restrict.wgsl`): what each
    kernel's loops add up for one cell, with or without solids. */
module Transfers {
  import opened Geometry

  type Grid = Cell -> real
  type Mask = Cell -> bool

  /** One axis of the two levels: the fine one, and which of its ends are open. */
  datatype AxisPair = AxisPair(fine: Axis, openLo: bool, openHi: bool)
  {
    function Coarse(): Axis {
      fine.Halved()
    }

    /** `prolong_axis` for fine index `j`. */
    function From(j: nat): Between
      requires fine.Covers()
    {
      if j < fine.n then ProlongAxis(fine, Coarse(), openLo, openHi, j) else Between(0, 0, 0.0, 0.0)
    }

    function Weight(j: nat, c: nat): real
      requires fine.Covers()
    {
      From(j).To(c)
    }

    function Low(c: nat): nat {
      WindowLow(fine, Coarse(), c)
    }

    function High(c: nat): nat {
      WindowHigh(fine, Coarse(), c)
    }

    function Kappa(): real {
      if fine.n != Coarse().n then 0.5 else 1.0
    }

    /** The indices from `lo` up to `hi` that reach `c`, with their weights. */
    function Reach(c: nat, lo: nat, hi: nat): seq<(nat, real)>
      requires fine.Covers() && lo <= hi
      decreases hi
    {
      if hi == lo then [] else
        Reach(c, lo, hi - 1) + if Weight(hi - 1, c) != 0.0 then [(hi - 1, Weight(hi - 1, c))] else []
    }

    function Reaching(c: nat): seq<(nat, real)>
      requires fine.Covers() && c < Coarse().n
    {
      WindowInside(c);
      Reach(c, Low(c), High(c))
    }

    lemma WindowInside(c: nat)
      requires fine.Covers() && c < Coarse().n
      ensures Low(c) <= High(c) <= fine.n
    {
      fine.HalvedCovers();
    }

    lemma NothingOutside(j: nat, c: nat)
      requires fine.Covers() && c < Coarse().n && !(Low(c) <= j < High(c))
      ensures Weight(j, c) == 0.0
    {
      hide ProlongAxis;
      if j < fine.n && Weight(j, c) != 0.0 { WindowCovers(fine, Coarse(), openLo, openHi, j, c); }
    }
  }

  /** Two levels, the solid cells of each and the renormalisation of the fine one. */
  datatype Transfer = Transfer(x: AxisPair, y: AxisPair, z: AxisPair, solids: bool,
                               solid: Mask, coarseSolid: Mask, norm: Grid)
  {
    predicate Valid() {
      x.fine.Covers() && y.fine.Covers() && z.fine.Covers()
    }

    predicate IsSolid(f: Cell) {
      solids && solid(f)
    }

    predicate IsCoarseSolid(c: Cell) {
      solids && coarseSolid(c)
    }

    function Norm(f: Cell): real {
      if solids then norm(f) else 1.0
    }

    predicate InCoarse(c: Cell) {
      c.x < x.Coarse().n && c.y < y.Coarse().n && c.z < z.Coarse().n
    }

    /** P's entry: how much of coarse cell `c` fine cell `f` is given. */
    function P(f: Cell, c: Cell): real
      requires Valid()
    {
      if IsSolid(f) || IsCoarseSolid(c) then 0.0
      else x.Weight(f.x, c.x) * y.Weight(f.y, c.y) * z.Weight(f.z, c.z) * Norm(f)
    }

    function Row(f: Cell, e: Grid): Grid
      requires Valid()
    {
      (c: Cell) => P(f, c) * e(c)
    }

    function Column(c: Cell, r: Grid): Grid
      requires Valid()
    {
      (f: Cell) => P(f, c) * r(f)
    }

    /** (P e) at a fine cell, over every coarse cell. */
    function Prolonged(f: Cell, e: Grid): real
      requires Valid()
    {
      Sum3(Row(f, e), x.Coarse().n, y.Coarse().n, z.Coarse().n)
    }

    /** kappa (P^T r) at a coarse cell, over every fine cell. */
    function Restricted(c: Cell, r: Grid): real
      requires Valid()
    {
      x.Kappa() * y.Kappa() * z.Kappa() * Sum3(Column(c, r), x.fine.n, y.fine.n, z.fine.n)
    }
  }

  // ------------------------------------------------------------ sums

  function SumTo(f: nat -> real, n: nat): real {
    if n == 0 then 0.0 else SumTo(f, n - 1) + f(n - 1)
  }

  function AlongX(f: Grid, y: nat, z: nat): nat -> real {
    (x: nat) => f(Cell(x, y, z))
  }

  function AlongY(f: Grid, z: nat, nx: nat): nat -> real {
    (y: nat) => SumTo(AlongX(f, y, z), nx)
  }

  function AlongZ(f: Grid, nx: nat, ny: nat): nat -> real {
    (z: nat) => SumTo(AlongY(f, z, nx), ny)
  }

  function Sum3(f: Grid, nx: nat, ny: nat, nz: nat): real {
    SumTo(AlongZ(f, nx, ny), nz)
  }

  lemma {:induction false} SumSame(f: nat -> real, g: nat -> real, n: nat)
    requires forall j: nat :: j < n ==> f(j) == g(j)
    ensures SumTo(f, n) == SumTo(g, n)
  {
    if n > 0 { SumSame(f, g, n - 1); }
  }

  lemma {:induction false} SumScaled(k: real, f: nat -> real, g: nat -> real, n: nat)
    requires forall j: nat :: j < n ==> g(j) == k * f(j)
    ensures SumTo(g, n) == k * SumTo(f, n)
  {
    if n > 0 {
      SumScaled(k, f, g, n - 1);
      Distribute(k, SumTo(f, n - 1), f(n - 1));
    }
  }

  lemma Distribute(k: real, a: real, b: real)
    ensures k * (a + b) == k * a + k * b
  {
  }

  /** Nothing is added between two places. */
  lemma {:induction false} SumFlat(f: nat -> real, lo: nat, hi: nat)
    requires lo <= hi && forall j: nat :: lo <= j < hi ==> f(j) == 0.0
    ensures SumTo(f, hi) == SumTo(f, lo)
    decreases hi
  {
    if hi > lo { SumFlat(f, lo, hi - 1); }
  }

  /** The sum of `g` over a list of indices and their weights. */
  function ListSum(g: (nat, real) -> real, l: seq<(nat, real)>): real {
    if l == [] then 0.0 else ListSum(g, l[..|l| - 1]) + g(l[|l| - 1].0, l[|l| - 1].1)
  }

  lemma EmptyList(g: (nat, real) -> real)
    ensures ListSum(g, []) == 0.0
  {
  }

  lemma ListSumSnoc(g: (nat, real) -> real, l: seq<(nat, real)>, j: nat, w: real)
    ensures ListSum(g, l + [(j, w)]) == ListSum(g, l) + g(j, w)
  {
    assert (l + [(j, w)])[..|l|] == l;
  }

  /** The indices that reach `c` between two places give all there is there. */
  lemma {:induction false} ReachSum(g: (nat, real) -> real, f: nat -> real, a: AxisPair, c: nat, lo: nat, hi: nat)
    requires a.fine.Covers() && lo <= hi
    requires forall j: nat :: g(j, 0.0) == 0.0
    requires forall j: nat :: f(j) == g(j, a.Weight(j, c))
    ensures SumTo(f, hi) == SumTo(f, lo) + ListSum(g, a.Reach(c, lo, hi))
    decreases hi
  {
    hide AxisPair.Weight; hide ListSum;
    EmptyList(g);
    if hi > lo {
      var j := hi - 1;
      ReachSum(g, f, a, c, lo, j);
      if a.Weight(j, c) != 0.0 {
        ListSumSnoc(g, a.Reach(c, lo, j), j, a.Weight(j, c));
      } else {
        assert a.Reach(c, lo, hi) == a.Reach(c, lo, j);
      }
    }
  }

  lemma {:induction false} ListSumNothing(g: (nat, real) -> real, l: seq<(nat, real)>)
    requires forall j: nat, w: real :: g(j, w) == 0.0
    ensures ListSum(g, l) == 0.0
  {
    if l != [] { ListSumNothing(g, l[..|l| - 1]); }
  }

  /** The indices that reach `c` give all there is along the axis. */
  lemma AxisSum(g: (nat, real) -> real, f: nat -> real, a: AxisPair, c: nat)
    requires a.fine.Covers() && c < a.Coarse().n
    requires forall j: nat :: g(j, 0.0) == 0.0
    requires forall j: nat :: f(j) == g(j, a.Weight(j, c))
    ensures ListSum(g, a.Reaching(c)) == SumTo(f, a.fine.n)
  {
    hide AxisPair.Weight; hide AxisPair.Low; hide AxisPair.High; hide Axis.Covers; hide ListSum; hide SumTo;
    hide AxisPair.Reach;
    a.WindowInside(c);
    forall j: nat | !(a.Low(c) <= j < a.High(c)) ensures f(j) == 0.0 { a.NothingOutside(j, c); }
    SumFlat(f, 0, a.Low(c));
    ReachSum(g, f, a, c, a.Low(c), a.High(c));
    SumFlat(f, a.High(c), a.fine.n);
    NoneYet(f);
  }

  lemma NoneYet(f: nat -> real)
    ensures SumTo(f, 0) == 0.0
  {
  }

  // ------------------------------------------------------------ restriction

  /** What one fine cell adds, at weights `wx`, `wy`, `wz`. */
  function Term(t: Transfer, r: Grid, f: Cell, wx: real, wy: real, wz: real): real {
    if t.IsSolid(f) then 0.0 else wx * wy * wz * t.Norm(f) * r(f)
  }

  function TermX(t: Transfer, r: Grid, y: nat, wy: real, z: nat, wz: real): (nat, real) -> real {
    (x: nat, wx: real) => Term(t, r, Cell(x, y, z), wx, wy, wz)
  }

  function TermY(t: Transfer, r: Grid, lx: seq<(nat, real)>, z: nat, wz: real): (nat, real) -> real {
    (y: nat, wy: real) => ListSum(TermX(t, r, y, wy, z, wz), lx)
  }

  function TermZ(t: Transfer, r: Grid, lx: seq<(nat, real)>, ly: seq<(nat, real)>): (nat, real) -> real {
    (z: nat, wz: real) => ListSum(TermY(t, r, lx, z, wz), ly)
  }

  lemma NoWeightNoTerm(t: Transfer, r: Grid, lx: seq<(nat, real)>, ly: seq<(nat, real)>)
    ensures forall x: nat, y: nat, wy: real, z: nat, wz: real :: TermX(t, r, y, wy, z, wz)(x, 0.0) == 0.0
    ensures forall y: nat, z: nat, wz: real :: TermY(t, r, lx, z, wz)(y, 0.0) == 0.0
    ensures forall z: nat :: TermZ(t, r, lx, ly)(z, 0.0) == 0.0
  {
    forall x: nat, y: nat, wy: real, z: nat, wz: real ensures TermX(t, r, y, wy, z, wz)(x, 0.0) == 0.0 {
      NoWeight(t, r, Cell(x, y, z), 0.0, wy, wz);
    }
    forall y: nat, z: nat, wz: real ensures TermY(t, r, lx, z, wz)(y, 0.0) == 0.0 {
      forall x: nat, wx: real ensures TermX(t, r, y, 0.0, z, wz)(x, wx) == 0.0 {
        NoWeight(t, r, Cell(x, y, z), wx, 0.0, wz);
      }
      ListSumNothing(TermX(t, r, y, 0.0, z, wz), lx);
    }
    forall z: nat ensures TermZ(t, r, lx, ly)(z, 0.0) == 0.0 {
      forall y: nat, wy: real ensures TermY(t, r, lx, z, 0.0)(y, wy) == 0.0 {
        forall x: nat, wx: real ensures TermX(t, r, y, wy, z, 0.0)(x, wx) == 0.0 {
          NoWeight(t, r, Cell(x, y, z), wx, wy, 0.0);
        }
        ListSumNothing(TermX(t, r, y, wy, z, 0.0), lx);
      }
      ListSumNothing(TermY(t, r, lx, z, 0.0), ly);
    }
  }

  lemma NoWeight(t: Transfer, r: Grid, f: Cell, wx: real, wy: real, wz: real)
    requires wx == 0.0 || wy == 0.0 || wz == 0.0
    ensures Term(t, r, f, wx, wy, wz) == 0.0
  {
    assert wx * wy * wz == 0.0;
  }

  /** The gathered sum is a column of P over the whole fine level. */
  lemma GathersColumn(t: Transfer, r: Grid, c: Cell)
    requires t.Valid() && t.InCoarse(c) && !t.IsCoarseSolid(c)
    ensures ListSum(TermZ(t, r, t.x.Reaching(c.x), t.y.Reaching(c.y)), t.z.Reaching(c.z))
      == Sum3(t.Column(c, r), t.x.fine.n, t.y.fine.n, t.z.fine.n)
  {
    hide ListSum; hide SumTo; hide Term; hide AxisPair.Weight; hide AxisPair.Reaching; hide Transfer.P;
    var lx, ly := t.x.Reaching(c.x), t.y.Reaching(c.y);
    var col, nx, ny := t.Column(c, r), t.x.fine.n, t.y.fine.n;
    NoWeightNoTerm(t, r, lx, ly);
    forall z: nat ensures AlongZ(col, nx, ny)(z) == TermZ(t, r, lx, ly)(z, t.z.Weight(z, c.z)) {
      var wz := t.z.Weight(z, c.z);
      forall y: nat ensures AlongY(col, z, nx)(y) == TermY(t, r, lx, z, wz)(y, t.y.Weight(y, c.y)) {
        var wy := t.y.Weight(y, c.y);
        forall x: nat ensures AlongX(col, y, z)(x) == TermX(t, r, y, wy, z, wz)(x, t.x.Weight(x, c.x)) {
          TermIsEntry(t, r, Cell(x, y, z), c);
        }
        AxisSum(TermX(t, r, y, wy, z, wz), AlongX(col, y, z), t.x, c.x);
      }
      AxisSum(TermY(t, r, lx, z, wz), AlongY(col, z, nx), t.y, c.y);
    }
    AxisSum(TermZ(t, r, lx, ly), AlongZ(col, nx, ny), t.z, c.z);
  }

  lemma TermIsEntry(t: Transfer, r: Grid, f: Cell, c: Cell)
    requires t.Valid() && !t.IsCoarseSolid(c)
    ensures t.P(f, c) * r(f) == Term(t, r, f, t.x.Weight(f.x, c.x), t.y.Weight(f.y, c.y), t.z.Weight(f.z, c.z))
  {
    hide AxisPair.Weight; hide Transfer.Norm;
  }

  lemma SolidGathersNothing(t: Transfer, r: Grid, c: Cell)
    requires t.Valid() && t.IsCoarseSolid(c)
    ensures t.Restricted(c, r) == 0.0
  {
    hide AxisPair.Weight; hide Sum3;
    forall f: Cell ensures t.Column(c, r)(f) == 0.0 { assert t.P(f, c) == 0.0; }
    Sum3Nothing(t.Column(c, r), t.x.fine.n, t.y.fine.n, t.z.fine.n);
  }

  lemma Sum3Nothing(f: Grid, nx: nat, ny: nat, nz: nat)
    requires forall c: Cell :: f(c) == 0.0
    ensures Sum3(f, nx, ny, nz) == 0.0
  {
    hide SumTo;
    forall z: nat ensures AlongZ(f, nx, ny)(z) == 0.0 {
      forall y: nat ensures AlongY(f, z, nx)(y) == 0.0 {
        SumNothing(AlongX(f, y, z), nx);
      }
      SumNothing(AlongY(f, z, nx), ny);
    }
    SumNothing(AlongZ(f, nx, ny), nz);
  }

  lemma {:induction false} SumNothing(f: nat -> real, n: nat)
    requires forall j: nat :: f(j) == 0.0
    ensures SumTo(f, n) == 0.0
  {
    if n > 0 { SumNothing(f, n - 1); }
  }

  /** The fine indices whose row of P reaches `c` along one axis. */
  method Gather(a: AxisPair, c: nat) returns (l: seq<(nat, real)>)
    requires a.fine.Covers() && c < a.Coarse().n
    ensures l == a.Reaching(c)
  {
    a.WindowInside(c);
    l := [];
    for j := a.Low(c) to a.High(c)
      invariant l == a.Reach(c, a.Low(c), j)
    {
      var w := a.Weight(j, c);
      if w != 0.0 { l := l + [(j, w)]; }
    }
  }

  /** `restrict.wgsl` for one coarse cell: the right-hand side and the
      correction it leaves. */
  method Restrict(t: Transfer, r: Grid, c: Cell) returns (rhs: real, e: real)
    requires t.Valid() && t.InCoarse(c)
    ensures rhs == t.Restricted(c, r) && e == 0.0
  {
    e := 0.0;
    if t.IsCoarseSolid(c) {
      SolidGathersNothing(t, r, c);
      return 0.0, e;
    }
    var lx := Gather(t.x, c.x);
    var ly := Gather(t.y, c.y);
    var lz := Gather(t.z, c.z);
    var sum := 0.0;
    for k := 0 to |lz|
      invariant sum == ListSum(TermZ(t, r, lx, ly), lz[..k])
    {
      sum := GatherPlane(t, r, lx, ly, lz[k].0, lz[k].1, sum);
      assert lz[..k + 1][..k] == lz[..k];
    }
    assert lz[..|lz|] == lz;
    GathersColumn(t, r, c);
    rhs := t.x.Kappa() * t.y.Kappa() * t.z.Kappa() * sum;
  }

  method GatherPlane(t: Transfer, r: Grid, lx: seq<(nat, real)>, ly: seq<(nat, real)>, z: nat, wz: real, before: real)
    returns (sum: real)
    ensures sum == before + TermZ(t, r, lx, ly)(z, wz)
  {
    sum := before;
    for j := 0 to |ly|
      invariant sum == before + ListSum(TermY(t, r, lx, z, wz), ly[..j])
    {
      sum := GatherRow(t, r, lx, ly[j].0, ly[j].1, z, wz, sum);
      assert ly[..j + 1][..j] == ly[..j];
    }
    assert ly[..|ly|] == ly;
  }

  method GatherRow(t: Transfer, r: Grid, lx: seq<(nat, real)>, y: nat, wy: real, z: nat, wz: real, before: real)
    returns (sum: real)
    ensures sum == before + TermY(t, r, lx, z, wz)(y, wy)
  {
    sum := before;
    for i := 0 to |lx|
      invariant sum == before + ListSum(TermX(t, r, y, wy, z, wz), lx[..i])
    {
      assert lx[..i + 1][..i] == lx[..i];
      var f, w := Cell(lx[i].0, y, z), lx[i].1 * wy * wz;
      if t.solids {
        if t.solid(f) { continue; }
        w := w * t.norm(f);
      }
      sum := sum + w * r(f);
    }
    assert lx[..|lx|] == lx;
  }

  // ------------------------------------------------------------ prolongation

  /** What the point `i` adds at weight `w`; a point beyond the level adds nothing. */
  function At(i: int, w: real, h: nat -> real, n: nat): real {
    if 0 <= i < n then w * h(i) else 0.0
  }

  lemma {:induction false} SumTwo(p: Between, h: nat -> real, f: nat -> real, n: nat)
    requires forall j: nat :: f(j) == p.To(j) * h(j)
    ensures SumTo(f, n) == At(p.i0, p.w0, h, n) + At(p.i1, p.w1, h, n)
  {
    if n > 0 {
      SumTwo(p, h, f, n - 1);
      TwoAt(p, h(n - 1), n - 1);
    }
  }

  lemma TwoAt(p: Between, v: real, j: nat)
    ensures p.To(j) * v == (if p.i0 == j then p.w0 * v else 0.0) + if p.i1 == j then p.w1 * v else 0.0
  {
  }

  /** Coarse values, none in solid cells. */
  function HeldAlongX(t: Transfer, e: Grid, y: nat, z: nat): nat -> real {
    (x: nat) => if t.IsCoarseSolid(Cell(x, y, z)) then 0.0 else e(Cell(x, y, z))
  }

  /** One point along x, one point along each of x and y, one along all three. */
  function PointX(t: Transfer, e: Grid, px: (int, real), z: nat): nat -> real {
    (y: nat) => At(px.0, px.1, HeldAlongX(t, e, y, z), t.x.Coarse().n)
  }

  function PointXY(t: Transfer, e: Grid, px: (int, real), py: (int, real)): nat -> real {
    (z: nat) => At(py.0, py.1, PointX(t, e, px, z), t.y.Coarse().n)
  }

  function Corner(t: Transfer, e: Grid, px: (int, real), py: (int, real), pz: (int, real)): real {
    At(pz.0, pz.1, PointXY(t, e, px, py), t.z.Coarse().n)
  }

  /** `pick`: one of an axis's two points. */
  function Pick(p: Between, bit: nat): (int, real) {
    if bit == 1 then (p.i1, p.w1) else (p.i0, p.w0)
  }

  /** The `b`-th of the eight corners. */
  function CornerOf(t: Transfer, e: Grid, ax: Between, ay: Between, az: Between, b: nat): real {
    Corner(t, e, Pick(ax, b % 2), Pick(ay, b / 2 % 2), Pick(az, b / 4 % 2))
  }

  function CornersTo(t: Transfer, e: Grid, ax: Between, ay: Between, az: Between, n: nat): real {
    if n == 0 then 0.0 else CornersTo(t, e, ax, ay, az, n - 1) + CornerOf(t, e, ax, ay, az, n - 1)
  }

  lemma CornersNext(t: Transfer, e: Grid, ax: Between, ay: Between, az: Between, n: nat)
    ensures CornersTo(t, e, ax, ay, az, 0) == 0.0
    ensures CornersTo(t, e, ax, ay, az, n + 1) == CornersTo(t, e, ax, ay, az, n) + CornerOf(t, e, ax, ay, az, n)
  {
  }

  lemma AtPlus(i: int, w: real, f: nat -> real, g: nat -> real, h: nat -> real, n: nat)
    requires forall j: nat :: h(j) == f(j) + g(j)
    ensures At(i, w, h, n) == At(i, w, f, n) + At(i, w, g, n)
  {
    if 0 <= i < n { Distribute(w, f(i), g(i)); }
  }

  /** The kernel's weight times the value, where it adds anything. */
  lemma CornerIs(t: Transfer, e: Grid, px: (int, real), py: (int, real), pz: (int, real))
    ensures var q := Cell(Clip(px.0), Clip(py.0), Clip(pz.0));
      Corner(t, e, px, py, pz) ==
        if px.1 * py.1 * pz.1 == 0.0 || Beyond(t, px.0, py.0, pz.0) || t.IsCoarseSolid(q) then 0.0
        else px.1 * py.1 * pz.1 * e(q)
  {
    var q := Cell(Clip(px.0), Clip(py.0), Clip(pz.0));
    Regroup(px.1, py.1, pz.1, if t.IsCoarseSolid(q) then 0.0 else e(q));
    Nothing(pz.1, py.1);
    if 0 <= pz.0 < t.z.Coarse().n && 0 <= py.0 < t.y.Coarse().n {
      var held := PointX(t, e, px, pz.0)(py.0);
      assert Corner(t, e, px, py, pz) == pz.1 * (py.1 * held);
    }
  }

  lemma Nothing(a: real, b: real)
    ensures a * 0.0 == 0.0 && a * (b * 0.0) == 0.0
  {
  }

  lemma Regroup(a: real, b: real, c: real, v: real)
    ensures a * b * c * v == c * (b * (a * v))
    ensures a * b * c == 0.0 ==> c * (b * (a * v)) == 0.0
  {
  }

  function Clip(i: int): nat {
    if i < 0 then 0 else i
  }

  /** The coarse index is an open face's point rather than a cell. */
  predicate Beyond(t: Transfer, i: int, j: int, k: int) {
    !(0 <= i < t.x.Coarse().n && 0 <= j < t.y.Coarse().n && 0 <= k < t.z.Coarse().n)
  }

  /** `prolong_add.wgsl` for one fine cell holding `p`. */
  method ProlongAdd(t: Transfer, e: Grid, f: Cell, p: real) returns (value: real)
    requires t.Valid()
    ensures value == p + t.Prolonged(f, e)
  {
    hide AxisPair.From; hide Corner; hide Transfer.Prolonged; hide CornersTo;
    if t.IsSolid(f) {
      SolidGetsNothing(t, e, f);
      return p;
    }
    var ax, ay, az := t.x.From(f.x), t.y.From(f.y), t.z.From(f.z);
    CornersNext(t, e, ax, ay, az, 0);
    var sum := 0.0;
    for b := 0 to 8
      invariant sum == CornersTo(t, e, ax, ay, az, b)
    {
      var px, py, pz := Pick(ax, b % 2), Pick(ay, b / 2 % 2), Pick(az, b / 4 % 2);
      CornersNext(t, e, ax, ay, az, b);
      CornerIs(t, e, px, py, pz);
      var w := px.1 * py.1 * pz.1;
      if w == 0.0 || Beyond(t, px.0, py.0, pz.0) { continue; }
      var q := Cell(px.0, py.0, pz.0);
      if t.solids && t.coarseSolid(q) { continue; }
      sum := sum + w * e(q);
    }
    CornersAreRow(t, e, f);
    if t.solids { sum := sum * t.norm(f); }
    value := p + sum;
  }

  lemma SolidGetsNothing(t: Transfer, e: Grid, f: Cell)
    requires t.Valid() && t.IsSolid(f)
    ensures t.Prolonged(f, e) == 0.0
  {
    hide AxisPair.Weight; hide Sum3;
    forall c: Cell ensures t.Row(f, e)(c) == 0.0 { assert t.P(f, c) == 0.0; }
    Sum3Nothing(t.Row(f, e), t.x.Coarse().n, t.y.Coarse().n, t.z.Coarse().n);
  }

  /** Both points along x, then both along y. */
  function BothX(t: Transfer, e: Grid, ax: Between, z: nat): nat -> real {
    (y: nat) => PointX(t, e, Pick(ax, 0), z)(y) + PointX(t, e, Pick(ax, 1), z)(y)
  }

  function BothXY(t: Transfer, e: Grid, ax: Between, ay: Between): nat -> real {
    (z: nat) => At(ay.i0, ay.w0, BothX(t, e, ax, z), t.y.Coarse().n)
      + At(ay.i1, ay.w1, BothX(t, e, ax, z), t.y.Coarse().n)
  }

  lemma EightCorners(t: Transfer, e: Grid, ax: Between, ay: Between, az: Between)
    ensures CornersTo(t, e, ax, ay, az, 8)
      == At(az.i0, az.w0, BothXY(t, e, ax, ay), t.z.Coarse().n) + At(az.i1, az.w1, BothXY(t, e, ax, ay), t.z.Coarse().n)
  {
    FourCorners(t, e, ax, ay, Pick(az, 0));
    FourCorners(t, e, ax, ay, Pick(az, 1));
    CornersUnfold(t, e, ax, ay, az);
  }

  lemma CornersUnfold(t: Transfer, e: Grid, ax: Between, ay: Between, az: Between)
    ensures CornersTo(t, e, ax, ay, az, 8)
      == CornersAt(t, e, ax, ay, Pick(az, 0)) + CornersAt(t, e, ax, ay, Pick(az, 1))
  {
    CornerBits(t, e, ax, ay, az);
    hide Corner; hide Pick; hide CornersTo; hide CornerOf;
    CornersNext(t, e, ax, ay, az, 0);
    CornersNext(t, e, ax, ay, az, 1);
    CornersNext(t, e, ax, ay, az, 2);
    CornersNext(t, e, ax, ay, az, 3);
    CornersNext(t, e, ax, ay, az, 4);
    CornersNext(t, e, ax, ay, az, 5);
    CornersNext(t, e, ax, ay, az, 6);
    CornersNext(t, e, ax, ay, az, 7);
  }

  lemma CornerBits(t: Transfer, e: Grid, ax: Between, ay: Between, az: Between)
    ensures CornerOf(t, e, ax, ay, az, 0) == Corner(t, e, Pick(ax, 0), Pick(ay, 0), Pick(az, 0))
    ensures CornerOf(t, e, ax, ay, az, 1) == Corner(t, e, Pick(ax, 1), Pick(ay, 0), Pick(az, 0))
    ensures CornerOf(t, e, ax, ay, az, 2) == Corner(t, e, Pick(ax, 0), Pick(ay, 1), Pick(az, 0))
    ensures CornerOf(t, e, ax, ay, az, 3) == Corner(t, e, Pick(ax, 1), Pick(ay, 1), Pick(az, 0))
    ensures CornerOf(t, e, ax, ay, az, 4) == Corner(t, e, Pick(ax, 0), Pick(ay, 0), Pick(az, 1))
    ensures CornerOf(t, e, ax, ay, az, 5) == Corner(t, e, Pick(ax, 1), Pick(ay, 0), Pick(az, 1))
    ensures CornerOf(t, e, ax, ay, az, 6) == Corner(t, e, Pick(ax, 0), Pick(ay, 1), Pick(az, 1))
    ensures CornerOf(t, e, ax, ay, az, 7) == Corner(t, e, Pick(ax, 1), Pick(ay, 1), Pick(az, 1))
  {
    hide Corner; hide Pick;
  }

  function CornersAt(t: Transfer, e: Grid, ax: Between, ay: Between, pz: (int, real)): real {
    Corner(t, e, Pick(ax, 0), Pick(ay, 0), pz) + Corner(t, e, Pick(ax, 1), Pick(ay, 0), pz)
    + Corner(t, e, Pick(ax, 0), Pick(ay, 1), pz) + Corner(t, e, Pick(ax, 1), Pick(ay, 1), pz)
  }

  lemma FourCorners(t: Transfer, e: Grid, ax: Between, ay: Between, pz: (int, real))
    ensures CornersAt(t, e, ax, ay, pz) == At(pz.0, pz.1, BothXY(t, e, ax, ay), t.z.Coarse().n)
  {
    hide PointX; hide HeldAlongX;
    if 0 <= pz.0 < t.z.Coarse().n {
      var z: nat := pz.0;
      TwoCorners(t, e, ax, Pick(ay, 0), z);
      TwoCorners(t, e, ax, Pick(ay, 1), z);
      Distribute4(pz.1, PointXY(t, e, Pick(ax, 0), Pick(ay, 0))(z), PointXY(t, e, Pick(ax, 1), Pick(ay, 0))(z),
        PointXY(t, e, Pick(ax, 0), Pick(ay, 1))(z), PointXY(t, e, Pick(ax, 1), Pick(ay, 1))(z));
    }
  }

  lemma Distribute4(k: real, a: real, b: real, c: real, d: real)
    ensures k * a + k * b + k * c + k * d == k * (a + b + (c + d))
  {
  }

  lemma TwoCorners(t: Transfer, e: Grid, ax: Between, py: (int, real), z: nat)
    ensures At(py.0, py.1, BothX(t, e, ax, z), t.y.Coarse().n)
      == PointXY(t, e, Pick(ax, 0), py)(z) + PointXY(t, e, Pick(ax, 1), py)(z)
  {
    AtPlus(py.0, py.1, PointX(t, e, Pick(ax, 0), z), PointX(t, e, Pick(ax, 1), z), BothX(t, e, ax, z), t.y.Coarse().n);
  }

  /** `w` times `h`, at each point of an axis. */
  function Weighted(p: Between, h: nat -> real): nat -> real {
    (j: nat) => p.To(j) * h(j)
  }

  /** The corners' sum, renormalised, is a row of P over the whole coarse level. */
  lemma CornersAreRow(t: Transfer, e: Grid, f: Cell)
    requires t.Valid() && !t.IsSolid(f)
    ensures CornersTo(t, e, t.x.From(f.x), t.y.From(f.y), t.z.From(f.z), 8) * t.Norm(f) == t.Prolonged(f, e)
  {
    hide SumTo; hide AxisPair.From; hide Transfer.Norm; hide At; hide CornersTo; hide Between.To; hide Transfer.P;
    var ax, ay, az := t.x.From(f.x), t.y.From(f.y), t.z.From(f.z);
    var row, nx, ny, nz := t.Row(f, e), t.x.Coarse().n, t.y.Coarse().n, t.z.Coarse().n;
    var norm, both := t.Norm(f), BothXY(t, e, ax, ay);
    forall z: nat ensures AlongZ(row, nx, ny)(z) == norm * Weighted(az, both)(z) {
      PlaneOfRow(t, e, f, z);
      Associate(norm, az.To(z), both(z));
    }
    SumScaled(norm, Weighted(az, both), AlongZ(row, nx, ny), nz);
    SumTwo(az, both, Weighted(az, both), nz);
    EightCorners(t, e, ax, ay, az);
  }

  lemma PlaneOfRow(t: Transfer, e: Grid, f: Cell, z: nat)
    requires t.Valid() && !t.IsSolid(f)
    ensures SumTo(AlongY(t.Row(f, e), z, t.x.Coarse().n), t.y.Coarse().n)
      == t.Norm(f) * t.z.From(f.z).To(z) * BothXY(t, e, t.x.From(f.x), t.y.From(f.y))(z)
  {
    hide SumTo; hide AxisPair.From; hide Transfer.Norm; hide At; hide Between.To; hide Transfer.P;
    var ay, k := t.y.From(f.y), t.Norm(f) * t.z.From(f.z).To(z);
    var row, nx, ny, both := t.Row(f, e), t.x.Coarse().n, t.y.Coarse().n, BothX(t, e, t.x.From(f.x), z);
    forall y: nat ensures AlongY(row, z, nx)(y) == k * Weighted(ay, both)(y) {
      LineOfRow(t, e, f, y, z);
      Associate(k, ay.To(y), both(y));
    }
    SumScaled(k, Weighted(ay, both), AlongY(row, z, nx), ny);
    SumTwo(ay, both, Weighted(ay, both), ny);
  }

  lemma LineOfRow(t: Transfer, e: Grid, f: Cell, y: nat, z: nat)
    requires t.Valid() && !t.IsSolid(f)
    ensures SumTo(AlongX(t.Row(f, e), y, z), t.x.Coarse().n)
      == t.Norm(f) * t.z.From(f.z).To(z) * t.y.From(f.y).To(y) * BothX(t, e, t.x.From(f.x), z)(y)
  {
    hide SumTo; hide AxisPair.From; hide Transfer.Norm; hide Between.To; hide Transfer.P;
    var ax, k := t.x.From(f.x), t.Norm(f) * t.z.From(f.z).To(z) * t.y.From(f.y).To(y);
    var row, nx, held := t.Row(f, e), t.x.Coarse().n, HeldAlongX(t, e, y, z);
    forall x: nat ensures AlongX(row, y, z)(x) == k * Weighted(ax, held)(x) { EntryTimes(t, e, f, Cell(x, y, z)); }
    SumTwo(ax, held, Weighted(ax, held), nx);
    BothPoints(t, e, ax, y, z);
    SumScaled(k, Weighted(ax, held), AlongX(row, y, z), nx);
  }

  lemma BothPoints(t: Transfer, e: Grid, ax: Between, y: nat, z: nat)
    ensures var held, nx := HeldAlongX(t, e, y, z), t.x.Coarse().n;
      At(ax.i0, ax.w0, held, nx) + At(ax.i1, ax.w1, held, nx) == BothX(t, e, ax, z)(y)
  {
    var p, q := Pick(ax, 0), Pick(ax, 1);
    assert PointX(t, e, p, z)(y) == At(p.0, p.1, HeldAlongX(t, e, y, z), t.x.Coarse().n);
    assert PointX(t, e, q, z)(y) == At(q.0, q.1, HeldAlongX(t, e, y, z), t.x.Coarse().n);
  }

  lemma Associate(a: real, b: real, c: real)
    ensures a * b * c == a * (b * c)
  {
  }

  lemma EntryTimes(t: Transfer, e: Grid, f: Cell, c: Cell)
    requires t.Valid() && !t.IsSolid(f)
    ensures t.P(f, c) * e(c)
      == t.Norm(f) * t.z.From(f.z).To(c.z) * t.y.From(f.y).To(c.y)
         * (t.x.From(f.x).To(c.x) * HeldAlongX(t, e, c.y, c.z)(c.x))
  {
    hide AxisPair.From; hide Transfer.Norm; hide Between.To;
    Entry(t.x.From(f.x).To(c.x), t.y.From(f.y).To(c.y), t.z.From(f.z).To(c.z), t.Norm(f), e(c));
  }

  lemma Entry(wx: real, wy: real, wz: real, norm: real, v: real)
    ensures wx * wy * wz * norm * v == norm * wz * wy * (wx * v)
    ensures norm * wz * wy * (wx * 0.0) == 0.0
  {
  }
}
