/** What the level stencils are for (elements-ember `kernels/multigrid.rs`,
    `shaders/stencil.wgsl`): on every level a linear pressure has no residual and
    a quadratic one has the right curvature, partial last cells included. */
module Consistency {
  import opened Geometry
  import opened FluidCells
  import opened Interpolation
  import Vectors

  // ------------------------------------------------------------ along one axis

  /** A face's weight times the distance it spans is the same for every face of an
      axis, the open ones, whose zero is half a fine cell outside, included; and
      that weight is relative to the finest spacing. */
  lemma WeightsAreFluxes(a: Axis, sRef: nat)
    requires a.Covers() && sRef >= 1
    ensures var w, flux := LevelWeights(a, sRef), Vectors.Product(LevelWeights(a, sRef).g, a.s as real);
      && Vectors.Product(flux, a.s as real) == sRef as real * sRef as real
      && Vectors.Product(w.openLo, Centroid(a, 0) + 0.5) == flux
      && Vectors.Product(w.openHi, a.n0 as real + 0.5 - Centroid(a, a.n - 1)) == flux
      && if a.n >= 2 then Vectors.Product(w.lastFace, Centroid(a, a.n - 1) - Centroid(a, a.n - 2)) == flux
         else w.lastFace == w.g
  {
    hide Centroid; hide WeightsOver; hide Vectors.Product;
    Distances(a);
    OverFluxes(sRef as real, a.s as real, Centroid(a, 0) + 0.5, a.n0 as real + 0.5 - Centroid(a, a.n - 1), LastStep(a),
      LastPart(a));
  }

  lemma OverFluxes(sRef: real, s: real, lo: real, hi: real, step: real, part: real)
    requires s != 0.0 && lo != 0.0 && hi != 0.0 && step != 0.0
    ensures var w := WeightsOver(sRef, s, lo, hi, step, part);
      && Vectors.Product(Vectors.Product(w.g, s), s) == sRef * sRef
      && Vectors.Product(w.openLo, lo) == Vectors.Product(w.openHi, hi) == Vectors.Product(w.lastFace, step)
         == Vectors.Product(w.g, s)
      && (step == s ==> w.lastFace == w.g)
  {
    var q := sRef / s;
    var g := q * q;
    Scaled(q, sRef, s);
    Undo1(g * s, lo);
    Undo1(g * s, hi);
    Undo1(g * s, step);
    Cancel1(g, s);
  }

  lemma Undo1(flux: real, d: real)
    requires d != 0.0
    ensures flux / d * d == flux
  {
  }

  lemma Cancel1(g: real, s: real)
    requires s != 0.0
    ensures g * s / s == g
  {
  }

  lemma Scaled(q: real, r: real, s: real)
    requires s != 0.0 && q == r / s
    ensures q * q * s * s == r * r
  {
    assert q * s == r;
    assert q * q * s * s == (q * s) * (q * s);
  }

  /** Full cells are one spacing apart. */
  lemma FullApart(a: Axis, i: nat)
    requires a.Covers() && i + 2 < a.n
    ensures Centroid(a, i + 1) - Centroid(a, i) == a.s as real
  {
    HalfMore(i as real, a.s as real);
    HalfMore(i as real + 1.0, a.s as real);
  }

  /** What a face counts for that neighbours `i` and `i + 1` of an axis share. */
  function FaceWeight(a: Axis, sRef: nat, i: nat): real
    requires a.Covers() && sRef >= 1
  {
    if i + 2 == a.n then LevelWeights(a, sRef).lastFace else LevelWeights(a, sRef).g
  }

  lemma FluxIsOne(a: Axis, sRef: nat, i: nat)
    requires a.Covers() && sRef >= 1 && i + 1 < a.n
    ensures Vectors.Product(FaceWeight(a, sRef, i), Centroid(a, i + 1) - Centroid(a, i))
      == Vectors.Product(LevelWeights(a, sRef).g, a.s as real)
  {
    hide Centroid; hide Axis.Covers; hide LevelWeights; hide Vectors.Product;
    WeightsAreFluxes(a, sRef);
    if i + 2 < a.n { FullApart(a, i); }
  }

  // ------------------------------------------------------------ around a cell

  /** The stencil of a level without solids, as the hierarchy builds it. */
  ghost predicate Plain(b: Bound, sRef: nat) {
    && b.s.shape.Covers() && sRef >= 1
    && b.s.weights
      == (LevelWeights(b.s.shape.x, sRef), LevelWeights(b.s.shape.y, sRef), LevelWeights(b.s.shape.z, sRef))
    && (forall c: Cell :: b.s.root(c) == 1.0 && !b.solid(c))
  }

  /** A cell's share of a full cell, times that, is its width. */
  lemma ShareIsWidth(a: Axis, sRef: nat, i: nat)
    requires a.Covers() && sRef >= 1
    ensures Vectors.Product(if i + 1 == a.n then LevelWeights(a, sRef).frac else 1.0, a.s as real)
      == Interpolation.Extent(a, i)
  {
    hide Centroid; hide LastStep; hide LastPart;
    Distances(a);
    Undo1(LastPart(a), a.s as real);
  }

  lemma ExtentIsWidth(b: Bound, sRef: nat, c: Cell, axis: nat)
    requires Plain(b, sRef) && axis < 3
    ensures b.s.AxisOf(axis).Covers()
    ensures Vectors.Product(b.s.Extent(c, axis), b.s.AxisOf(axis).s as real)
      == Interpolation.Extent(b.s.AxisOf(axis), c.On(axis))
  {
    hide Vectors.Product; hide LevelWeights; hide Interpolation.Extent; hide Axis.Covers;
    ShareIsWidth(b.s.AxisOf(axis), sRef, c.On(axis));
  }

  /** So a face's area is that of its cell across the axis, partial or not. */
  lemma AreaIsWidths(b: Bound, sRef: nat, c: Cell)
    requires Plain(b, sRef)
    ensures Vectors.Product(b.s.FaceArea(c, 0), Vectors.Product(b.s.shape.y.s as real, b.s.shape.z.s as real))
      == Vectors.Product(Interpolation.Extent(b.s.shape.y, c.y), Interpolation.Extent(b.s.shape.z, c.z))
    ensures Vectors.Product(b.s.FaceArea(c, 1), Vectors.Product(b.s.shape.x.s as real, b.s.shape.z.s as real))
      == Vectors.Product(Interpolation.Extent(b.s.shape.x, c.x), Interpolation.Extent(b.s.shape.z, c.z))
    ensures Vectors.Product(b.s.FaceArea(c, 2), Vectors.Product(b.s.shape.x.s as real, b.s.shape.y.s as real))
      == Vectors.Product(Interpolation.Extent(b.s.shape.x, c.x), Interpolation.Extent(b.s.shape.y, c.y))
  {
    hide Vectors.Product; hide Interpolation.Extent; hide Stencil.FaceArea; hide Stencil.Extent; hide Plain;
    ExtentIsWidth(b, sRef, c, 0);
    ExtentIsWidth(b, sRef, c, 1);
    ExtentIsWidth(b, sRef, c, 2);
    AreaIs(b.s, c);
    var (u, v, w) := (b.s.Extent(c, 0), b.s.Extent(c, 1), b.s.Extent(c, 2));
    Regroup(v, w, b.s.shape.y.s as real, b.s.shape.z.s as real);
    Regroup(u, w, b.s.shape.x.s as real, b.s.shape.z.s as real);
    Regroup(u, v, b.s.shape.x.s as real, b.s.shape.y.s as real);
  }

  lemma AreaIs(s: Stencil, c: Cell)
    ensures s.FaceArea(c, 0) == Vectors.Product(s.Extent(c, 1), s.Extent(c, 2))
    ensures s.FaceArea(c, 1) == Vectors.Product(s.Extent(c, 0), s.Extent(c, 2))
    ensures s.FaceArea(c, 2) == Vectors.Product(s.Extent(c, 0), s.Extent(c, 1))
  {
    hide Stencil.Extent;
  }

  lemma Regroup(a: real, b: real, c: real, d: real)
    ensures Vectors.Product(Vectors.Product(a, b), Vectors.Product(c, d))
      == Vectors.Product(Vectors.Product(a, c), Vectors.Product(b, d))
  {
    assert a * b * (c * d) == a * c * (b * d);
  }

  /** At an open end a face counts its area times the flux over the distance to
      half a fine cell outside; at a closed one it does not count. */
  lemma EndsCount(b: Bound, sRef: nat, c: Cell, axis: nat)
    requires Plain(b, sRef) && axis < 3
    ensures b.s.AxisOf(axis).Covers()
    ensures var a := b.s.AxisOf(axis);
      var area := Vectors.Product(b.s.FaceArea(c, axis), Vectors.Product(LevelWeights(a, sRef).g, a.s as real));
      && (c.On(axis) == 0 ==>
          Vectors.Product(b.FaceCount(c, axis, false), Centroid(a, 0) + 0.5)
            == if b.s.open(axis, 0) then area else 0.0)
      && (c.On(axis) + 1 == a.n ==>
          Vectors.Product(b.FaceCount(c, axis, true), a.n0 as real + 0.5 - Centroid(a, a.n - 1))
            == if b.s.open(axis, 1) then area else 0.0)
  {
    hide Vectors.Product; hide LevelWeights; hide Centroid; hide Stencil.FaceArea; hide Stencil.OpenWeight;
    var a, area := b.s.AxisOf(axis), b.s.FaceArea(c, axis);
    WeightsAreFluxes(a, sRef);
    OpenWeightIs(b, sRef, c, axis);
    Reorder(area, LevelWeights(a, sRef).openLo, Centroid(a, 0) + 0.5);
    Reorder(area, LevelWeights(a, sRef).openHi, a.n0 as real + 0.5 - Centroid(a, a.n - 1));
    Vanishes(Centroid(a, 0) + 0.5);
    Vanishes(a.n0 as real + 0.5 - Centroid(a, a.n - 1));
  }

  lemma OpenWeightIs(b: Bound, sRef: nat, c: Cell, axis: nat)
    requires Plain(b, sRef) && axis < 3
    ensures b.s.AxisOf(axis).Covers()
    ensures b.s.OpenWeight(c, axis, false)
      == Vectors.Product(b.s.FaceArea(c, axis), LevelWeights(b.s.AxisOf(axis), sRef).openLo)
    ensures b.s.OpenWeight(c, axis, true)
      == Vectors.Product(b.s.FaceArea(c, axis), LevelWeights(b.s.AxisOf(axis), sRef).openHi)
  {
    hide LevelWeights; hide Axis.Covers; hide Stencil.FaceArea;
    assert b.s.root(c) == 1.0;
  }

  lemma Reorder(a: real, w: real, d: real)
    ensures Vectors.Product(Vectors.Product(a, w), d) == Vectors.Product(a, Vectors.Product(w, d))
  {
  }

  lemma Vanishes(d: real)
    ensures Vectors.Product(0.0, d) == 0.0
  {
  }

  /** Partly solid cells scale a face by both cells' roots, an open one by its
      own cell's twice. */
  lemma RootsScale(s: Stencil, c: Cell, q: Cell, axis: nat, high: bool)
    ensures var whole := s.(root := _ => 1.0);
      && s.InnerWeight(c, q, axis, high)
         == Vectors.Product(whole.InnerWeight(c, q, axis, high), Vectors.Product(s.root(c), s.root(q)))
      && s.OpenWeight(c, axis, high)
         == Vectors.Product(whole.OpenWeight(c, axis, high), Vectors.Product(s.root(c), s.root(c)))
  {
    var whole := s.(root := _ => 1.0);
    assert whole.root(c) == 1.0 && whole.root(q) == 1.0;
    assert whole.FaceArea(c, axis) == s.FaceArea(c, axis) by { assert whole.Extent(c, 0) == s.Extent(c, 0); }
    hide Stencil.FaceArea;
  }

  /** A cell with a neighbour on every side. */
  predicate Surrounded(b: Bound, c: Cell) {
    forall axis: nat :: axis < 3 ==> c.On(axis) > 0 && c.On(axis) + 1 < b.s.AxisOf(axis).n
  }

  /** What one face leaves of a pressure, and what the two along one axis do. */
  function Across(b: Bound, c: Cell, axis: nat, high: bool, p: Grid): real {
    Vectors.Product(b.s.InnerWeight(c, Beside(c, axis, high), axis, high), p(Beside(c, axis, high)) - p(c))
  }

  function Along(b: Bound, c: Cell, axis: nat, p: Grid): real {
    Across(b, c, axis, false, p) + Across(b, c, axis, true, p)
  }

  lemma TakeOut(w: real, q: real, p: real, count: real)
    requires count == Vectors.Product(w, 1.0)
    ensures Vectors.Product(w, q - p) == Vectors.Product(w, q) - Vectors.Product(count, p)
  {
  }

  /** The walk around a surrounded cell is the three axes' differences. */
  lemma WalkSplits(b: Bound, sRef: nat, c: Cell, p: Grid)
    requires Plain(b, sRef) && Surrounded(b, c)
    ensures b.WalkSum(c, p) - b.WalkCount(c) * p(c) == Along(b, c, 0, p) + Along(b, c, 1, p) + Along(b, c, 2, p)
  {
    hide Vectors.Product; hide Stencil.InnerWeight; hide LevelWeights; hide LevelShape.Covers;
    OneAxis(b, c, 0, p);
    OneAxis(b, c, 1, p);
    OneAxis(b, c, 2, p);
    hide *;
    SixFaces(b, c, p);
  }

  lemma OneAxis(b: Bound, c: Cell, axis: nat, p: Grid)
    requires axis < 3 && c.On(axis) > 0 && c.On(axis) + 1 < b.s.AxisOf(axis).n && forall c: Cell :: !b.solid(c)
    ensures b.FaceSum(c, axis, false, p) + b.FaceSum(c, axis, true, p)
      - (b.FaceCount(c, axis, false) + b.FaceCount(c, axis, true)) * p(c) == Along(b, c, axis, p)
  {
    hide Vectors.Product; hide Stencil.InnerWeight;
    OneFace(b, c, axis, false, p);
    OneFace(b, c, axis, true, p);
    Both(b.FaceSum(c, axis, false, p), b.FaceSum(c, axis, true, p), b.FaceCount(c, axis, false),
      b.FaceCount(c, axis, true), p(c));
  }

  lemma OneFace(b: Bound, c: Cell, axis: nat, high: bool, p: Grid)
    requires axis < 3 && b.GoesOn(c, axis, high) && forall c: Cell :: !b.solid(c)
    ensures b.FaceSum(c, axis, high, p) - Vectors.Product(b.FaceCount(c, axis, high), p(c))
      == Across(b, c, axis, high, p)
  {
    hide Vectors.Product; hide Stencil.InnerWeight;
    var q := Beside(c, axis, high);
    var w := b.s.InnerWeight(c, q, axis, high);
    assert b.FaceCount(c, axis, high) == Vectors.Product(w, One()(q)) == Vectors.Product(w, 1.0);
    TakeOut(w, p(q), p(c), b.FaceCount(c, axis, high));
  }

  lemma Both(s0: real, s1: real, n0: real, n1: real, v: real)
    ensures s0 + s1 - (n0 + n1) * v == (s0 - Vectors.Product(n0, v)) + (s1 - Vectors.Product(n1, v))
  {
  }

  lemma SixFaces(b: Bound, c: Cell, p: Grid)
    ensures b.WalkSum(c, p) - b.WalkCount(c) * p(c) ==
      (b.FaceSum(c, 0, false, p) + b.FaceSum(c, 0, true, p)
       - (b.FaceCount(c, 0, false) + b.FaceCount(c, 0, true)) * p(c))
      + (b.FaceSum(c, 1, false, p) + b.FaceSum(c, 1, true, p)
         - (b.FaceCount(c, 1, false) + b.FaceCount(c, 1, true)) * p(c))
      + (b.FaceSum(c, 2, false, p) + b.FaceSum(c, 2, true, p)
         - (b.FaceCount(c, 2, false) + b.FaceCount(c, 2, true)) * p(c))
  {
    hide Bound.FaceSum; hide Bound.FaceCount;
  }

  /** Inside, faces are whole: the weights are the axis's. */
  lemma WholeFaces(b: Bound, sRef: nat, c: Cell, axis: nat)
    requires Plain(b, sRef) && Surrounded(b, c) && axis < 3
    ensures b.s.AxisOf(axis).Covers()
    ensures b.s.InnerWeight(c, c.Up(axis), axis, true) == FaceWeight(b.s.AxisOf(axis), sRef, c.On(axis))
    ensures b.s.InnerWeight(c, Down(c, axis), axis, false) == FaceWeight(b.s.AxisOf(axis), sRef, c.On(axis) - 1)
  {
    hide LevelWeights; hide Axis.Covers;
    assert b.s.Extent(c, 0) == 1.0 && b.s.Extent(c, 1) == 1.0 && b.s.Extent(c, 2) == 1.0;
    assert b.s.FaceArea(c, axis) == 1.0;
  }

  // ------------------------------------------------------------ linear and quadratic pressures

  function AxisCentroid(b: Bound, axis: nat, c: Cell): real {
    Centroid(b.s.AxisOf(axis), c.On(axis))
  }

  lemma SteppedCells(c: Cell, axis: nat, other: nat)
    requires axis < 3 && other < 3 && c.On(axis) > 0
    ensures c.Up(axis).On(other) == if other == axis then c.On(other) + 1 else c.On(other)
    ensures Down(c, axis).On(other) == if other == axis then c.On(other) - 1 else c.On(other)
  {
  }

  /** A difference proportional to the distance flows through both faces alike. */
  lemma Balanced(w0: real, w1: real, d0: real, d1: real, k: real)
    requires Vectors.Product(w0, d0) == Vectors.Product(w1, d1)
    ensures Vectors.Product(w0, -(k * d0)) + Vectors.Product(w1, k * d1) == 0.0
  {
    assert w0 * (k * d0) == k * (w0 * d0);
    assert w1 * (k * d1) == k * (w1 * d1);
  }

  lemma Same(w: real, x: real, y: real)
    requires x == y
    ensures Vectors.Product(w, x) == Vectors.Product(w, y)
  {
  }

  lemma Carried(k: real, x0: real, x1: real, rest: real)
    ensures rest + k * x1 - (rest + k * x0) == k * (x1 - x0)
  {
  }

  function Slope(g: Affine, axis: nat): real {
    if axis == 0 then g.x else if axis == 1 then g.y else g.z
  }

  lemma AffineSteps(b: Bound, g: Affine, c: Cell, axis: nat)
    requires axis < 3 && c.On(axis) > 0
    ensures var a, p := b.s.AxisOf(axis), g.On(b.s.shape.x, b.s.shape.y, b.s.shape.z);
      && p(c.Up(axis)) - p(c) == Slope(g, axis) * (Centroid(a, c.On(axis) + 1) - Centroid(a, c.On(axis)))
      && p(Down(c, axis)) - p(c) == -(Slope(g, axis) * (Centroid(a, c.On(axis)) - Centroid(a, c.On(axis) - 1)))
  {
    hide Centroid;
    var a, i, k := b.s.AxisOf(axis), c.On(axis), Slope(g, axis);
    Carried(k, Centroid(a, i), Centroid(a, i + 1), 0.0);
    Carried(k, Centroid(a, i - 1), Centroid(a, i), 0.0);
  }

  lemma AxisFlat(b: Bound, sRef: nat, c: Cell, axis: nat, g: Affine)
    requires Plain(b, sRef) && Surrounded(b, c) && axis < 3
    ensures Along(b, c, axis, g.On(b.s.shape.x, b.s.shape.y, b.s.shape.z)) == 0.0
  {
    hide Centroid; hide LevelWeights; hide Stencil.InnerWeight; hide Vectors.Product; hide Affine.On; hide Slope;
    hide FaceWeight; hide Axis.Covers;
    var a, i: nat := b.s.AxisOf(axis), c.On(axis);
    WholeFaces(b, sRef, c, axis);
    AffineSteps(b, g, c, axis);
    FluxIsOne(a, sRef, i);
    FluxIsOne(a, sRef, i - 1);
    var d0, d1, k := Centroid(a, i) - Centroid(a, i - 1), Centroid(a, i + 1) - Centroid(a, i), Slope(g, axis);
    Balanced(FaceWeight(a, sRef, i - 1), FaceWeight(a, sRef, i), d0, d1, k);
    var p := g.On(b.s.shape.x, b.s.shape.y, b.s.shape.z);
    Same(FaceWeight(a, sRef, i - 1), p(Down(c, axis)) - p(c), -(k * d0));
    Same(FaceWeight(a, sRef, i), p(c.Up(axis)) - p(c), k * d1);
  }

  /** On every level, a pressure that is an affine function of position leaves no
      residual around a cell with all its neighbours, next to a partial last cell
      or not. */
  lemma AffineIsFlat(b: Bound, sRef: nat, c: Cell, g: Affine)
    requires Plain(b, sRef) && Surrounded(b, c)
    ensures var p := g.On(b.s.shape.x, b.s.shape.y, b.s.shape.z);
      b.WalkSum(c, p) - b.WalkCount(c) * p(c) == 0.0
  {
    hide Along; hide Plain; hide Surrounded; hide Affine.On; hide Bound.WalkSum; hide Bound.WalkCount;
    WalkSplits(b, sRef, c, g.On(b.s.shape.x, b.s.shape.y, b.s.shape.z));
    AxisFlat(b, sRef, c, 0, g);
    AxisFlat(b, sRef, c, 1, g);
    AxisFlat(b, sRef, c, 2, g);
  }

  /** The square of the position along one axis. */
  function Squares(a: Axis, axis: nat): Grid {
    (c: Cell) => Vectors.Product(Centroid(a, c.On(axis)), Centroid(a, c.On(axis)))
  }

  lemma SecondDifference(g: real, s: real, r: real, x0: real, x1: real, x2: real)
    requires Vectors.Product(Vectors.Product(g, s), s) == r * r && x1 - x0 == s && x2 - x1 == s
    ensures Vectors.Product(g, Vectors.Product(x0, x0) - Vectors.Product(x1, x1))
      + Vectors.Product(g, Vectors.Product(x2, x2) - Vectors.Product(x1, x1)) == 2.0 * (r * r)
  {
    assert x0 * x0 - x1 * x1 + (x2 * x2 - x1 * x1) == 2.0 * (s * s);
    assert g * (2.0 * (s * s)) == 2.0 * (g * s * s);
  }

  lemma AxisCurves(b: Bound, sRef: nat, c: Cell, axis: nat)
    requires Plain(b, sRef) && Surrounded(b, c) && axis < 3 && c.On(axis) + 2 < b.s.AxisOf(axis).n
    ensures Along(b, c, axis, Squares(b.s.AxisOf(axis), axis)) == 2.0 * (sRef as real * sRef as real)
  {
    hide Centroid; hide LevelWeights; hide Stencil.InnerWeight; hide Vectors.Product; hide Axis.Covers;
    var a, i: nat := b.s.AxisOf(axis), c.On(axis);
    SteppedCells(c, axis, axis);
    WholeFaces(b, sRef, c, axis);
    WeightsAreFluxes(a, sRef);
    FullApart(a, i);
    FullApart(a, i - 1);
    SecondDifference(LevelWeights(a, sRef).g, a.s as real, sRef as real, Centroid(a, i - 1), Centroid(a, i),
      Centroid(a, i + 1));
  }

  /** The other axes see no change. */
  lemma OtherAxisFlat(b: Bound, c: Cell, axis: nat, other: nat, a: Axis)
    requires axis < 3 && other < 3 && other != axis && c.On(other) > 0
    ensures Along(b, c, other, Squares(a, axis)) == 0.0
  {
    hide Centroid; hide Stencil.InnerWeight;
    SteppedCells(c, other, axis);
  }

  /** On every level, the square of the position along an axis has curvature 2
      among full cells, in units of the level's own squared spacing. */
  lemma SquareCurves(b: Bound, sRef: nat, c: Cell, axis: nat)
    requires Plain(b, sRef) && Surrounded(b, c) && axis < 3 && c.On(axis) + 2 < b.s.AxisOf(axis).n
    ensures var p := Squares(b.s.AxisOf(axis), axis);
      b.WalkSum(c, p) - b.WalkCount(c) * p(c) == 2.0 * (sRef as real * sRef as real)
  {
    hide Along; hide Plain; hide Squares; hide Bound.WalkSum; hide Bound.WalkCount;
    var p := Squares(b.s.AxisOf(axis), axis);
    WalkSplits(b, sRef, c, p);
    AxisCurves(b, sRef, c, axis);
    forall other: nat | other < 3 && other != axis ensures Along(b, c, other, p) == 0.0 {
      OtherAxisFlat(b, c, axis, other, b.s.AxisOf(axis));
    }
  }
}
