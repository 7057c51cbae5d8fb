/** What the multigrid transfers are for (elements-ember `shaders/transfer.wgsl`,
    `restrict.wgsl`): prolongation reproduces affine functions of position, and
    restriction takes a constant to itself. */
module Interpolation {
  import Vectors
  import opened Geometry
  import opened Transfers

  // ------------------------------------------------------------ where cells are

  /** How much of the axis cell `i` covers. */
  function Extent(a: Axis, i: nat): real {
    if i + 1 == a.n then LastPart(a) else a.s as real
  }

  /** Fine cells sit at their middles. */
  lemma FineCentroid(n: nat, j: nat)
    requires n >= 1 && j < n
    ensures Centroid(Axis(n, 1, n), j) == j as real + 0.5 && Extent(Axis(n, 1, n), j) == 1.0
  {
  }

  /** A coarse cell's centroid is that of the cells it covers: the mean of theirs,
      weighted by how much each covers. */
  lemma CentroidOfChildren(fine: Axis, c: nat)
    requires fine.Covers() && fine.n > 1 && c < fine.Halved().n
    ensures var coarse := fine.Halved();
      if 2 * c + 1 < fine.n then
        && Extent(coarse, c) == Extent(fine, 2 * c) + Extent(fine, 2 * c + 1)
        && Extent(coarse, c) * Centroid(coarse, c)
           == Extent(fine, 2 * c) * Centroid(fine, 2 * c) + Extent(fine, 2 * c + 1) * Centroid(fine, 2 * c + 1)
      else
        Extent(coarse, c) == Extent(fine, 2 * c) && Centroid(coarse, c) == Centroid(fine, 2 * c)
  {
    var s, n0 := fine.s as real, fine.n0 as real;
    var coarse, a := fine.Halved(), c as real;
    assert coarse.s as real == 2.0 * s && coarse.n == (fine.n + 1) / 2;
    Spread(a, s);
    if 2 * c + 1 < fine.n - 1 {
      assert c + 1 < coarse.n;
      Pair(2.0 * a * s, s, s);
    } else if 2 * c + 1 == fine.n - 1 {
      assert c + 1 == coarse.n;
      Pair(2.0 * a * s, s, n0 - (2.0 * a * s + s));
    } else {
      assert 2 * c == fine.n - 1 && c + 1 == coarse.n;
    }
  }

  lemma Spread(a: real, s: real)
    ensures Vectors.Product(a, 2.0 * s) == Vectors.Product(2.0 * a, s) == 2.0 * a * s
    ensures Vectors.Product(2.0 * a + 1.0, s) == 2.0 * a * s + s
    ensures Vectors.Product(a + 0.5, 2.0 * s) == 2.0 * a * s + s
    ensures Vectors.Product(2.0 * a + 0.5, s) == 2.0 * a * s + 0.5 * s
    ensures Vectors.Product(2.0 * a + 1.5, s) == 2.0 * a * s + 1.5 * s
  {
  }

  /** Two neighbouring intervals and the one they make. */
  lemma Pair(at: real, p: real, q: real)
    ensures (p + q) * (at + (p + q) / 2.0) == p * (at + p / 2.0) + q * (at + p + q / 2.0)
  {
  }

  // ------------------------------------------------------------ along one axis

  /** Where a coarse point is. The points beyond the ends are the open faces',
      half a fine cell outside. */
  function Position(coarse: Axis, i: int): real {
    if i < 0 then -0.5 else if i >= coarse.n then coarse.n0 as real + 0.5 else Centroid(coarse, i)
  }

  /** A fine cell beyond the last coarse point, with only a wall ahead. */
  predicate AtWall(fine: Axis, openLo: bool, openHi: bool, j: nat) {
    var coarse := fine.Halved();
    fine.n != coarse.n && coarse.n >= 1
    && ((!openLo && Centroid(fine, j) < Centroid(coarse, 0))
        || (!openHi && Centroid(coarse, coarse.n - 1) <= Centroid(fine, j)))
  }

  /** The point below is strictly the last one at or before the centre. */
  lemma LastBelow(fine: Axis, coarse: Axis, j: nat)
    requires fine.Covers() && fine.n > 1 && coarse == fine.Halved() && coarse.Covers() && j < fine.n
    ensures var i := PointBelow(fine, coarse, j);
      && -1 <= i < coarse.n
      && (if i < 0 then Centroid(fine, j) < Centroid(coarse, 0) else Centroid(coarse, i) <= Centroid(fine, j))
      && (i + 1 < coarse.n ==> Centroid(fine, j) < Centroid(coarse, i + 1))
  {
    hide Axis.Covers; hide Centroid;
    BelowIsNear(fine, coarse, j);
    Bracketed(fine, coarse, j);
    CentreFloor(fine, coarse, j);
  }

  /** Linear interpolation gives the position back. */
  lemma Weighs(lo: real, hi: real, x: real)
    requires lo < hi
    ensures var t := (x - lo) / (hi - lo); Vectors.Product(1.0 - t, lo) + Vectors.Product(t, hi) == x
  {
    var t := (x - lo) / (hi - lo);
    assert t * (hi - lo) == x - lo;
    assert t * (hi - lo) == t * hi - t * lo;
    assert (1.0 - t) * lo == lo - t * lo;
  }

  /** Away from a wall, a fine cell is interpolated from two neighbouring points,
      one at or before it and one after it, with weights that give its own
      position back. Beyond the last point before a wall, that point counts
      alone. Where an axis is not halved, each cell is itself. */
  lemma ProlongReproduces(fine: Axis, openLo: bool, openHi: bool, j: nat)
    requires fine.Covers() && j < fine.n
    ensures var coarse := fine.Halved();
      var p, x := ProlongAxis(fine, coarse, openLo, openHi, j), Centroid(fine, j);
      if fine.n == coarse.n then
        p.i0 == p.i1 == j && p.w0 == 1.0 && p.w1 == 0.0 && Position(coarse, j) == x
      else if AtWall(fine, openLo, openHi, j) then
        p.i0 == p.i1 == (if x < Centroid(coarse, 0) then 0 else coarse.n - 1) && p.w0 == 1.0 && p.w1 == 0.0
      else
        && -1 <= p.i0 && p.i1 == p.i0 + 1 <= coarse.n && Position(coarse, p.i0) <= x < Position(coarse, p.i1)
        && p.w0 + p.w1 == 1.0
        && Vectors.Product(p.w0, Position(coarse, p.i0)) + Vectors.Product(p.w1, Position(coarse, p.i1)) == x
  {
    hide Centroid; hide Axis.Covers; hide Vectors.Product; hide PointBelow;
    fine.HalvedCovers();
    var coarse := fine.Halved();
    Whole(fine);
    Whole(coarse);
    if fine.n != coarse.n {
      LastBelow(fine, coarse, j);
      Distances(coarse);
      Inside(fine, j);
      RisesTo(coarse, 0, coarse.n - 1);
      var x, n0, i := Centroid(fine, j), fine.n0 as real, PointBelow(fine, coarse, j);
      if i < 0 {
        Weighs(-0.5, Centroid(coarse, 0), x);
      } else if i == coarse.n - 1 {
        Weighs(Centroid(coarse, i), n0 + 0.5, x);
      } else {
        Rising(coarse, i);
        RisesTo(coarse, 0, i);
        RisesTo(coarse, i + 1, coarse.n - 1);
        Weighs(Centroid(coarse, i), Centroid(coarse, i + 1), x);
      }
    }
  }

  lemma Whole(a: Axis)
    requires a.Covers()
    ensures a.n >= 1 && (a.n == a.Halved().n ==> a.Halved() == a) && a.Halved().n0 == a.n0
  {
  }

  /** Centres rise all along an axis. */
  lemma {:induction false} RisesTo(a: Axis, i: nat, k: nat)
    requires a.Covers() && i <= k < a.n
    ensures Centroid(a, i) <= Centroid(a, k)
    decreases k
  {
    if i < k {
      RisesTo(a, i, k - 1);
      Rising(a, k - 1);
    }
  }

  /** Over four cells, a level of two: the second cell takes three quarters of the
      first coarse cell, the third three quarters of the second. */
  lemma FourOverTwo(openLo: bool, openHi: bool)
    ensures ProlongAxis(Axis(4, 1, 4), Axis(2, 2, 4), openLo, openHi, 1) == Between(0, 1, 0.75, 0.25)
    ensures ProlongAxis(Axis(4, 1, 4), Axis(2, 2, 4), openLo, openHi, 2) == Between(0, 1, 0.25, 0.75)
  {
    var fine, coarse := Axis(4, 1, 4), Axis(2, 2, 4);
    assert Centroid(fine, 1) == 1.5 && Centroid(fine, 2) == 2.5;
    assert Centroid(coarse, 0) == 1.0 && Centroid(coarse, 1) == 3.0;
  }

  // ------------------------------------------------------------ sums over a level

  /** A product of one function along each axis, times `v`. */
  function Apart(wx: nat -> real, wy: nat -> real, wz: nat -> real, v: real): Grid {
    (c: Cell) => wx(c.x) * wy(c.y) * wz(c.z) * v
  }

  lemma Sum3Apart(wx: nat -> real, wy: nat -> real, wz: nat -> real, v: real, nx: nat, ny: nat, nz: nat)
    ensures Sum3(Apart(wx, wy, wz, v), nx, ny, nz) == SumTo(wx, nx) * SumTo(wy, ny) * SumTo(wz, nz) * v
  {
    hide SumTo;
    var f, sx, sy, sz := Apart(wx, wy, wz, v), SumTo(wx, nx), SumTo(wy, ny), SumTo(wz, nz);
    forall z: nat ensures AlongZ(f, nx, ny)(z) == sx * sy * v * wz(z) {
      forall y: nat ensures AlongY(f, z, nx)(y) == sx * wz(z) * v * wy(y) {
        forall x: nat ensures AlongX(f, y, z)(x) == wy(y) * wz(z) * v * wx(x) { Turned(wx(x), wy(y), wz(z), v); }
        SumScaled(wy(y) * wz(z) * v, wx, AlongX(f, y, z), nx);
        Turned(sx, wy(y), wz(z), v);
      }
      SumScaled(sx * wz(z) * v, wy, AlongY(f, z, nx), ny);
      Turned(sx, sy, wz(z), v);
    }
    SumScaled(sx * sy * v, wz, AlongZ(f, nx, ny), nz);
    Turned(sx, sy, sz, v);
  }

  lemma Turned(a: real, b: real, c: real, v: real)
    ensures a * b * c * v == b * c * v * a == a * c * v * b == a * b * v * c
  {
  }

  lemma {:induction false} SumPlus(f: nat -> real, g: nat -> real, h: nat -> real, n: nat)
    requires forall j: nat :: j < n ==> h(j) == f(j) + g(j)
    ensures SumTo(h, n) == SumTo(f, n) + SumTo(g, n)
  {
    if n > 0 { SumPlus(f, g, h, n - 1); }
  }

  lemma Sum3Plus(f: Grid, g: Grid, h: Grid, nx: nat, ny: nat, nz: nat)
    requires forall c: Cell :: h(c) == f(c) + g(c)
    ensures Sum3(h, nx, ny, nz) == Sum3(f, nx, ny, nz) + Sum3(g, nx, ny, nz)
  {
    hide SumTo;
    forall z: nat ensures AlongZ(h, nx, ny)(z) == AlongZ(f, nx, ny)(z) + AlongZ(g, nx, ny)(z) {
      forall y: nat ensures AlongY(h, z, nx)(y) == AlongY(f, z, nx)(y) + AlongY(g, z, nx)(y) {
        SumPlus(AlongX(f, y, z), AlongX(g, y, z), AlongX(h, y, z), nx);
      }
      SumPlus(AlongY(f, z, nx), AlongY(g, z, nx), AlongY(h, z, nx), ny);
    }
    SumPlus(AlongZ(f, nx, ny), AlongZ(g, nx, ny), AlongZ(h, nx, ny), nz);
  }

  // ------------------------------------------------------------ prolongation of an affine function

  /** Both points of the fine cell are cells of the coarse level, on either side of it. */
  predicate Within(a: AxisPair, j: nat)
    requires a.fine.Covers()
  {
    j < a.fine.n && a.From(j).i0 >= 0 && a.From(j).i1 < a.Coarse().n && !AtWall(a.fine, a.openLo, a.openHi, j)
  }

  function Weight1(a: AxisPair, j: nat): nat -> real
    requires a.fine.Covers()
  {
    (c: nat) => a.Weight(j, c)
  }

  function Weight1At(a: AxisPair, j: nat): nat -> real
    requires a.fine.Covers()
  {
    (c: nat) => a.Weight(j, c) * Centroid(a.Coarse(), c)
  }

  /** A row of one axis's weights sums to 1, and gives the position back. */
  lemma RowSums(a: AxisPair, j: nat)
    requires a.fine.Covers() && Within(a, j)
    ensures SumTo(Weight1(a, j), a.Coarse().n) == 1.0
    ensures SumTo(Weight1At(a, j), a.Coarse().n) == Centroid(a.fine, j)
  {
    hide ProlongAxis; hide SumTo; hide Centroid; hide Axis.Covers; hide Between.To; hide Transfers.At; hide AtWall;
    hide Vectors.Product;
    var p, n := a.From(j), a.Coarse().n;
    WithinGives(a, j);
    var one, at := (c: nat) => 1.0, (c: nat) => Centroid(a.Coarse(), c);
    SumTwo(p, one, Weight1(a, j), n);
    SumTwo(p, at, Weight1At(a, j), n);
    Reads(p, one, n);
    Reads(p, at, n);
    Ones(p.w0, p.w1);
  }

  lemma Ones(a: real, b: real)
    ensures Vectors.Product(a, 1.0) + Vectors.Product(b, 1.0) == a + b
  {
  }

  lemma Reads(p: Between, h: nat -> real, n: nat)
    requires 0 <= p.i0 < n && 0 <= p.i1 < n
    ensures Transfers.At(p.i0, p.w0, h, n) == Vectors.Product(p.w0, h(p.i0))
    ensures Transfers.At(p.i1, p.w1, h, n) == Vectors.Product(p.w1, h(p.i1))
  {
  }

  lemma WithinGives(a: AxisPair, j: nat)
    requires a.fine.Covers() && Within(a, j)
    ensures var p, n := a.From(j), a.Coarse().n;
      && 0 <= p.i0 < n && 0 <= p.i1 < n && p.w0 + p.w1 == 1.0
      && Vectors.Product(p.w0, Centroid(a.Coarse(), p.i0)) + Vectors.Product(p.w1, Centroid(a.Coarse(), p.i1))
         == Centroid(a.fine, j)
  {
    hide ProlongAxis; hide Centroid; hide Axis.Covers;
    ProlongReproduces(a.fine, a.openLo, a.openHi, j);
  }

  /** An affine function of position. */
  datatype Affine = Affine(k: real, x: real, y: real, z: real)
  {
    function Of(px: real, py: real, pz: real): real {
      k + x * px + y * py + z * pz
    }

    /** Its values at the cells of a level. */
    function On(ax: Axis, ay: Axis, az: Axis): Grid {
      (c: Cell) => Of(Centroid(ax, c.x), Centroid(ay, c.y), Centroid(az, c.z))
    }
  }

  /** Without solids, prolongation gives a fine cell between coarse cells exactly
      what an affine function has there. */
  lemma AffineProlongs(t: Transfer, f: Cell, g: Affine)
    requires t.Valid() && !t.solids && Within(t.x, f.x) && Within(t.y, f.y) && Within(t.z, f.z)
    ensures t.Prolonged(f, g.On(t.x.Coarse(), t.y.Coarse(), t.z.Coarse()))
      == g.Of(Centroid(t.x.fine, f.x), Centroid(t.y.fine, f.y), Centroid(t.z.fine, f.z))
  {
    hide SumTo; hide Centroid; hide AxisPair.From; hide Between.To; hide Axis.Covers; hide Sum3;
    var cx, cy, cz := t.x.Coarse(), t.y.Coarse(), t.z.Coarse();
    var wx, wy, wz := Weight1(t.x, f.x), Weight1(t.y, f.y), Weight1(t.z, f.z);
    var px, py, pz := Weight1At(t.x, f.x), Weight1At(t.y, f.y), Weight1At(t.z, f.z);
    RowSums(t.x, f.x);
    RowSums(t.y, f.y);
    RowSums(t.z, f.z);
    var c0, c1, c2, c3 := Apart(wx, wy, wz, g.k), Apart(px, wy, wz, g.x), Apart(wx, py, wz, g.y),
      Apart(wx, wy, pz, g.z);
    Sum3Apart(wx, wy, wz, g.k, cx.n, cy.n, cz.n);
    Sum3Apart(px, wy, wz, g.x, cx.n, cy.n, cz.n);
    Sum3Apart(wx, py, wz, g.y, cx.n, cy.n, cz.n);
    Sum3Apart(wx, wy, pz, g.z, cx.n, cy.n, cz.n);
    var c01, c23, row := (c: Cell) => c0(c) + c1(c), (c: Cell) => c2(c) + c3(c), t.Row(f, g.On(cx, cy, cz));
    forall c: Cell ensures row(c) == c01(c) + c23(c) {
      Terms(wx(c.x), wy(c.y), wz(c.z), g, Centroid(cx, c.x), Centroid(cy, c.y), Centroid(cz, c.z));
    }
    Sum3Plus(c0, c1, c01, cx.n, cy.n, cz.n);
    Sum3Plus(c2, c3, c23, cx.n, cy.n, cz.n);
    Sum3Plus(c01, c23, row, cx.n, cy.n, cz.n);
  }

  lemma Terms(a: real, b: real, c: real, g: Affine, px: real, py: real, pz: real)
    ensures a * b * c * 1.0 * g.Of(px, py, pz)
      == (a * b * c * g.k + a * px * b * c * g.x) + (a * (b * py) * c * g.y + a * b * (c * pz) * g.z)
  {
    var w := a * b * c;
    assert w * g.Of(px, py, pz) == w * g.k + w * (g.x * px) + w * (g.y * py) + w * (g.z * pz);
    assert w * (g.x * px) == a * px * b * c * g.x;
    assert w * (g.y * py) == a * (b * py) * c * g.y;
    assert w * (g.z * pz) == a * b * (c * pz) * g.z;
  }

  // ------------------------------------------------------------ restriction of a constant

  /** Coarse cell `c` and its neighbours along the axis are all full cells. */
  predicate Interior(a: AxisPair, c: nat) {
    a.fine.n == a.Coarse().n || (1 <= c && c + 2 < a.Coarse().n)
  }

  function WeightsTo(a: AxisPair, c: nat): nat -> real
    requires a.fine.Covers()
  {
    (j: nat) => a.Weight(j, c)
  }

  /** How far cell `j` is between points `i` and `i + 1`, all cells full. */
  lemma Between2(s: real, j: nat, i: nat, x: real, lo: real, hi: real)
    requires s > 0.0 && x == Vectors.Product(j as real + 0.5, s)
    requires lo == Vectors.Product(i as real + 0.5, 2.0 * s) && hi == Vectors.Product(i as real + 1.5, 2.0 * s)
    ensures hi - lo == 2.0 * s && (x - lo) / (hi - lo) == (j as real - 0.5 - 2.0 * i as real) / 2.0
  {
    var d := j as real - 0.5 - 2.0 * i as real;
    assert x - lo == d * s;
    Halved(d, s);
  }

  lemma Halved(d: real, s: real)
    requires s > 0.0
    ensures d * s / (2.0 * s) == d / 2.0
  {
    assert d * s == d / 2.0 * (2.0 * s);
  }

  /** The four fine cells nearest an interior coarse cell give it a quarter, three
      quarters, three quarters and a quarter of themselves. */
  lemma Quarters(fine: Axis, openLo: bool, openHi: bool, c: nat, j: nat)
    requires fine.Covers() && fine.n > 1 && 1 <= c && c + 2 < fine.Halved().n && 2 * c - 1 <= j <= 2 * c + 2
    ensures j + 1 < fine.n
    ensures ProlongAxis(fine, fine.Halved(), openLo, openHi, j).To(c)
      == if j == 2 * c || j == 2 * c + 1 then 0.75 else 0.25
  {
    hide Vectors.Product; hide Axis.Covers; hide PointBelow;
    fine.HalvedCovers();
    var coarse, s := fine.Halved(), fine.s as real;
    CentreRange(fine, j);
    BelowIsNear(fine, coarse, j);
    var i: nat := (j - 1) / 2;
    assert i + 1 < coarse.n - 1 && PointBelow(fine, coarse, j) == i;
    assert (i + 1) as real + 0.5 == i as real + 1.5;
    Between2(s, j, i, Centroid(fine, j), Centroid(coarse, i), Centroid(coarse, i + 1));
    if j % 2 == 0 { assert j == 2 * i + 2; } else { assert j == 2 * i + 1; }
  }

  /** Nothing farther away reaches it. */
  lemma OnlyNear(fine: Axis, openLo: bool, openHi: bool, c: nat, j: nat)
    requires fine.Covers() && fine.n > 1 && 1 <= c && c + 2 < fine.Halved().n && j < fine.n
    requires j < 2 * c - 1 || j > 2 * c + 2
    ensures ProlongAxis(fine, fine.Halved(), openLo, openHi, j).To(c) == 0.0
  {
    hide PointBelow; hide Axis.Covers;
    fine.HalvedCovers();
    BelowIsNear(fine, fine.Halved(), j);
  }

  lemma Unhalved(a: AxisPair, c: nat, j: nat)
    requires a.fine.Covers() && a.fine.n == a.Coarse().n && c < a.fine.n
    ensures a.Weight(j, c) == if j == c then 1.0 else 0.0
  {
  }

  /** A column of one axis's weights sums to the number of fine cells in a coarse
      one, which the factor undoes. */
  lemma ColumnSums(a: AxisPair, c: nat)
    requires a.fine.Covers() && c < a.Coarse().n && Interior(a, c)
    ensures a.Kappa() * SumTo(WeightsTo(a, c), a.fine.n) == 1.0
  {
    hide ProlongAxis; hide Axis.Covers; hide Between.To;
    var w, n := WeightsTo(a, c), a.fine.n;
    NoneYet(w);
    if n == a.Coarse().n {
      forall j: nat ensures w(j) == if j == c then 1.0 else 0.0 { Unhalved(a, c, j); }
      SumFlat(w, 0, c);
      SumFlat(w, c + 1, n);
    } else {
      forall j: nat | j < n && !(2 * c - 1 <= j <= 2 * c + 2) ensures w(j) == 0.0 {
        OnlyNear(a.fine, a.openLo, a.openHi, c, j);
      }
      Quarters(a.fine, a.openLo, a.openHi, c, 2 * c - 1);
      Quarters(a.fine, a.openLo, a.openHi, c, 2 * c);
      Quarters(a.fine, a.openLo, a.openHi, c, 2 * c + 1);
      Quarters(a.fine, a.openLo, a.openHi, c, 2 * c + 2);
      SumFlat(w, 0, 2 * c - 1);
      SumFlat(w, 2 * c + 3, n);
      FourMore(w, 2 * c - 1);
    }
  }

  lemma FourMore(w: nat -> real, n: nat)
    ensures SumTo(w, n + 4) == SumTo(w, n) + w(n) + w(n + 1) + w(n + 2) + w(n + 3)
  {
    assert SumTo(w, n + 2) == SumTo(w, n) + w(n) + w(n + 1);
  }

  /** Without solids, an interior coarse cell gets from a constant field that constant. */
  lemma ConstantRestricts(t: Transfer, c: Cell, v: real)
    requires t.Valid() && !t.solids && t.InCoarse(c)
    requires Interior(t.x, c.x) && Interior(t.y, c.y) && Interior(t.z, c.z)
    ensures t.Restricted(c, (f: Cell) => v) == v
  {
    hide SumTo; hide AxisPair.From; hide Axis.Covers; hide Sum3; hide AxisPair.Kappa; hide Interior;
    var wx, wy, wz := WeightsTo(t.x, c.x), WeightsTo(t.y, c.y), WeightsTo(t.z, c.z);
    var nx, ny, nz := t.x.fine.n, t.y.fine.n, t.z.fine.n;
    ColumnSums(t.x, c.x);
    ColumnSums(t.y, c.y);
    ColumnSums(t.z, c.z);
    Sum3Apart(wx, wy, wz, v, nx, ny, nz);
    forall f: Cell ensures t.Column(c, (f: Cell) => v)(f) == Apart(wx, wy, wz, v)(f) {
      assert t.P(f, c) == wx(f.x) * wy(f.y) * wz(f.z) * 1.0;
    }
    SameSum3(t.Column(c, (f: Cell) => v), Apart(wx, wy, wz, v), nx, ny, nz);
    Undo(t.x.Kappa(), t.y.Kappa(), t.z.Kappa(), SumTo(wx, nx), SumTo(wy, ny), SumTo(wz, nz), v,
      Sum3(Apart(wx, wy, wz, v), nx, ny, nz));
  }

  lemma SameSum3(f: Grid, g: Grid, nx: nat, ny: nat, nz: nat)
    requires forall c: Cell :: f(c) == g(c)
    ensures Sum3(f, nx, ny, nz) == Sum3(g, nx, ny, nz)
  {
    hide SumTo;
    forall z: nat ensures AlongZ(f, nx, ny)(z) == AlongZ(g, nx, ny)(z) {
      forall y: nat ensures AlongY(f, z, nx)(y) == AlongY(g, z, nx)(y) {
        SumSame(AlongX(f, y, z), AlongX(g, y, z), nx);
      }
      SumSame(AlongY(f, z, nx), AlongY(g, z, nx), ny);
    }
    SumSame(AlongZ(f, nx, ny), AlongZ(g, nx, ny), nz);
  }

  lemma Undo(kx: real, ky: real, kz: real, x: real, y: real, z: real, v: real, all: real)
    requires kx * x == 1.0 && ky * y == 1.0 && kz * z == 1.0 && all == x * y * z * v
    ensures kx * ky * kz * all == v
  {
    var a := z * v;
    var b := y * a;
    assert all == x * b;
    calc {
      kx * ky * kz * all;
      ky * kz * (kx * all);
      ky * kz * (kx * (x * b));
      { UndoOne(kx, x, b); }
      ky * kz * b;
      kz * (ky * (y * a));
      { UndoOne(ky, y, a); }
      kz * (z * v);
      { UndoOne(kz, z, v); }
      v;
    }
  }

  lemma UndoOne(k: real, x: real, r: real)
    requires k * x == 1.0
    ensures k * (x * r) == r
  {
    assert k * (x * r) == k * x * r;
  }
}
