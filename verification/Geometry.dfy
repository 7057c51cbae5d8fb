/** The level hierarchy's geometry over the reals (elements-ember
    `kernels/multigrid.rs`, `shaders/stencil.wgsl`): halving, partial last
    cells, face weights, and the stencil they make. */
module Geometry {
  import opened Kernels
  import opened Vectors

  const COARSEST: nat := 1

  // ------------------------------------------------------------ the levels

  /** One axis of a level: `n` cells of `s` fine cells each over `n0` of them. */
  datatype Axis = Axis(n: nat, s: nat, n0: nat)
  {
    /** The last cell may be partial, but never empty. */
    predicate Covers() {
      n >= 1 && s >= 1 && (n - 1) * s < n0 <= n * s
    }

    function Halved(): Axis {
      if n > COARSEST then Axis((n + 1) / 2, 2 * s, n0) else this
    }

    lemma HalvedCovers()
      requires Covers()
      ensures Halved().Covers()
    {
      if n > COARSEST { HalvedBounds(n, s, n0); }
    }
  }

  lemma HalvedBounds(n: nat, s: nat, n0: nat)
    requires (n - 1) * s < n0 <= n * s
    ensures var m := (n + 1) / 2; (m - 1) * (2 * s) < n0 <= m * (2 * s)
  {
    var m := (n + 1) / 2;
    Doubled(m, s);
    if n == 2 * m { Neighbours(n - 1, s); } else { Neighbours(n, s); }
  }

  lemma Doubled(m: int, s: int)
    ensures m * (2 * s) == 2 * m * s && (m - 1) * (2 * s) == (2 * m - 2) * s
  {
  }

  lemma Neighbours(n: int, s: int)
    ensures (n + 1) * s == n * s + s && (n - 1) * s == n * s - s
  {
  }

  /** One level: its three axes. */
  datatype LevelShape = LevelShape(x: Axis, y: Axis, z: Axis)
  {
    predicate Covers() {
      x.Covers() && y.Covers() && z.Covers()
    }

    function Halved(): LevelShape {
      LevelShape(x.Halved(), y.Halved(), z.Halved())
    }

    /** Axes that still have neighbours share one spacing. */
    predicate Spaced(s: nat) {
      (x.n > 1 ==> x.s == s) && (y.n > 1 ==> y.s == s) && (z.n > 1 ==> z.s == s)
    }

    predicate IsPoint() {
      x.n == 1 && y.n == 1 && z.n == 1
    }

    function Size(): nat {
      x.n + y.n + z.n
    }

    lemma HalvedKeeps(s: nat)
      requires Covers() && Spaced(s)
      ensures Halved().Covers() && Halved().Spaced(2 * s) && (Halved() == this <==> IsPoint())
      ensures !IsPoint() ==> Halved().Size() < Size()
    {
      x.HalvedCovers();
      y.HalvedCovers();
      z.HalvedCovers();
    }
  }

  function Fine(nx: nat, ny: nat, nz: nat): LevelShape {
    LevelShape(Axis(nx, 1, nx), Axis(ny, 1, ny), Axis(nz, 1, nz))
  }

  function PowerOfTwo(l: nat): nat {
    if l == 0 then 1 else 2 * PowerOfTwo(l - 1)
  }

  /** `Hierarchy::new`'s level loop: from any box it ends at a single cell;
      every level covers the domain with no empty cell, halves the one before,
      and couples only along axes of one spacing. */
  method Levels(nx: nat, ny: nat, nz: nat) returns (shapes: seq<LevelShape>)
    requires nx >= 1 && ny >= 1 && nz >= 1
    ensures |shapes| > 0 && shapes[0] == Fine(nx, ny, nz) && shapes[|shapes| - 1].IsPoint()
    ensures forall l :: 0 <= l < |shapes| ==> shapes[l].Covers() && shapes[l].Spaced(PowerOfTwo(l))
    ensures forall l :: 0 <= l < |shapes| - 1 ==> shapes[l + 1] == shapes[l].Halved() && !shapes[l].IsPoint()
  {
    shapes := [Fine(nx, ny, nz)];
    while true
      invariant |shapes| > 0 && shapes[0] == Fine(nx, ny, nz)
      invariant forall l :: 0 <= l < |shapes| ==> shapes[l].Covers() && shapes[l].Spaced(PowerOfTwo(l))
      invariant forall l :: 0 <= l < |shapes| - 1 ==> shapes[l + 1] == shapes[l].Halved() && !shapes[l].IsPoint()
      decreases shapes[|shapes| - 1].Size()
    {
      var d := shapes[|shapes| - 1];
      var next := d.Halved();
      d.HalvedKeeps(PowerOfTwo(|shapes| - 1));
      if next == d { return; }
      shapes := shapes + [next];
    }
  }

  // ------------------------------------------------------------ face weights

  /** A level's weights along one axis (`level_params`), for spacing `sRef`
      along the finest-spaced axis. */
  datatype Weights = Weights(g: real, openLo: real, openHi: real, lastFace: real, frac: real)
  {
    predicate Positive() {
      g > 0.0 && openLo > 0.0 && openHi > 0.0 && lastFace > 0.0 && 0.0 < frac <= 1.0
    }
  }

  /** Where cell `i` sits: the middle of the fine cells it covers. */
  function Centroid(a: Axis, i: nat): real {
    if i == a.n - 1 then (Product(a.n as real - 1.0, a.s as real) + a.n0 as real) / 2.0
    else Product(i as real + 0.5, a.s as real)
  }

  /** The weights, from a cell's size, the distances its faces span and the
      last cell's extent. */
  function WeightsOver(sRef: real, s: real, lo: real, hi: real, step: real, part: real): Weights
    requires s != 0.0 && lo != 0.0 && hi != 0.0 && step != 0.0
  {
    var g := (sRef / s) * (sRef / s);
    Weights(g, g * s / lo, g * s / hi, g * s / step, part / s)
  }

  /** The distance the face between the last two cells spans; a single cell
      has none, and weighs as a full face. */
  function LastStep(a: Axis): real {
    if a.n >= 2 then Centroid(a, a.n - 1) - Centroid(a, a.n - 2) else a.s as real
  }

  function LastPart(a: Axis): real {
    a.n0 as real - Product(a.n as real - 1.0, a.s as real)
  }

  function LevelWeights(a: Axis, sRef: nat): Weights
    requires a.Covers() && sRef >= 1
  {
    Distances(a);
    WeightsOver(sRef as real, a.s as real, Centroid(a, 0) + 0.5,
      a.n0 as real + 0.5 - Centroid(a, a.n - 1), LastStep(a), LastPart(a))
  }

  /** The distances a weight divides by are positive. */
  lemma Distances(a: Axis)
    requires a.Covers()
    ensures a.s as real > 0.0 && Centroid(a, 0) > 0.0 && a.n0 as real + 0.5 - Centroid(a, a.n - 1) > 0.0
      && LastStep(a) > 0.0
    ensures 0.0 < LastPart(a) <= a.s as real
  {
    hide Product; hide Axis.Covers;
    CoversReally(a);
    HalfMore(0.0, a.s as real);
    HalfMore(a.n as real - 2.0, a.s as real);
  }

  lemma CoversReally(a: Axis)
    requires a.Covers()
    ensures a.n >= 1 && a.s as real > 0.0
    ensures Product(a.n as real - 1.0, a.s as real) < a.n0 as real
      <= Product(a.n as real - 1.0, a.s as real) + a.s as real
  {
    AsReals(a.n - 1, a.s);
    AsReals(a.n, a.s);
    HalfMore(a.n as real - 1.0, a.s as real);
  }

  lemma AsReals(n: nat, s: nat)
    ensures (n * s) as real == n as real * s as real
  {
  }

  lemma Ratio(a: real, b: real)
    requires a > 0.0 && b > 0.0
    ensures a / b > 0.0
  {
  }

  /** Every face weight is positive, the last cell's extent is in (0, 1] of a
      cell, and the cells' widths add up to the domain. */
  lemma WeightsPositive(a: Axis, sRef: nat)
    requires a.Covers() && sRef >= 1
    ensures var w := LevelWeights(a, sRef);
      && w.Positive()
      && Product(a.n as real - 1.0, a.s as real) + w.frac * a.s as real == a.n0 as real
  {
    hide WeightsOver; hide Centroid; hide LastStep;
    Distances(a);
    OverPositive(sRef as real, a.s as real, Centroid(a, 0) + 0.5,
      a.n0 as real + 0.5 - Centroid(a, a.n - 1), LastStep(a), LastPart(a));
  }

  lemma OverPositive(sRef: real, s: real, lo: real, hi: real, step: real, part: real)
    requires sRef > 0.0 && s > 0.0 && lo > 0.0 && hi > 0.0 && step > 0.0 && 0.0 < part <= s
    ensures var w := WeightsOver(sRef, s, lo, hi, step, part);
      w.Positive() && w.frac * s == part
  {
    var q := sRef / s;
    Ratio(sRef, s);
    SquarePositive(q);
    ProductPositive(q * q, s);
    Ratio(q * q * s, lo);
    Ratio(q * q * s, hi);
    Ratio(q * q * s, step);
    Fraction(part, s);
  }

  lemma SquarePositive(q: real)
    requires q > 0.0
    ensures q * q > 0.0
  {
  }

  lemma ProductPositive(a: real, b: real)
    requires a > 0.0 && b > 0.0
    ensures a * b > 0.0
  {
  }

  lemma Fraction(part: real, s: real)
    requires 0.0 < part <= s
    ensures 0.0 < part / s <= 1.0 && part / s * s == part
  {
  }

  /** Along an axis of single fine cells, of any length, every weight is 1. */
  lemma FineWeightsAreOne(n: nat)
    requires n >= 1
    ensures Axis(n, 1, n).Covers() && LevelWeights(Axis(n, 1, n), 1) == Weights(1.0, 1.0, 1.0, 1.0, 1.0)
  {
    Distances(Axis(n, 1, n));
    assert Centroid(Axis(n, 1, n), 0) == 0.5;
  }

  // ------------------------------------------------------------ the stencil

  datatype Cell = Cell(x: nat, y: nat, z: nat)
  {
    function On(axis: nat): nat {
      if axis == 0 then x else if axis == 1 then y else z
    }

    /** The neighbour on the high side of an axis. */
    function Up(axis: nat): Cell {
      if axis == 0 then Cell(x + 1, y, z) else if axis == 1 then Cell(x, y + 1, z) else Cell(x, y, z + 1)
    }

    predicate Red() {
      (x + y + z) % 2 == 0
    }

    /** Neighbours have different colours. */
    lemma UpFlips(axis: nat)
      ensures Up(axis).Red() != Red()
    {
    }
  }

  /** A level's stencil: its axes and their weights, which domain faces are
      open, and each cell's root of its fluid fraction (1 without solids). */
  datatype Stencil = Stencil(shape: LevelShape, weights: (Weights, Weights, Weights), open: (nat, nat) -> bool,
      root: Cell -> real)
  {
    function AxisOf(axis: nat): Axis {
      if axis == 0 then shape.x else if axis == 1 then shape.y else shape.z
    }

    function On(axis: nat): Weights {
      if axis == 0 then weights.0 else if axis == 1 then weights.1 else weights.2
    }

    ghost predicate Valid() {
      && (forall axis: nat :: axis < 3 ==> On(axis).Positive())
      && (forall c: Cell :: root(c) >= 0.0)
    }

    /** A cell in the partial last layer of another axis has a smaller face. */
    function Extent(c: Cell, axis: nat): real {
      if c.On(axis) + 1 == AxisOf(axis).n then On(axis).frac else 1.0
    }

    function FaceArea(c: Cell, axis: nat): real {
      (if axis != 0 then Extent(c, 0) else 1.0)
      * (if axis != 1 then Extent(c, 1) else 1.0)
      * (if axis != 2 then Extent(c, 2) else 1.0)
    }

    /** `inner_weight`: what `c` computes for the face it shares with `q`. */
    function InnerWeight(c: Cell, q: Cell, axis: nat, high: bool): real {
      var last := if high then c.On(axis) + 2 == AxisOf(axis).n else c.On(axis) + 1 == AxisOf(axis).n;
      FaceArea(c, axis) * (if last then On(axis).lastFace else On(axis).g) * (root(c) * root(q))
    }

    function OpenWeight(c: Cell, axis: nat, high: bool): real {
      FaceArea(c, axis) * (if high then On(axis).openHi else On(axis).openLo) * (root(c) * root(c))
    }

    /** A face weighs the same from below as from above. */
    lemma FaceAgrees(c: Cell, axis: nat)
      requires axis < 3
      ensures InnerWeight(c, c.Up(axis), axis, true) == InnerWeight(c.Up(axis), c, axis, false)
    {
      var q := c.Up(axis);
      assert FaceArea(c, axis) == FaceArea(q, axis);
      assert root(c) * root(q) == root(q) * root(c);
    }

    /** The weight `c`'s row gives `q`: 0 unless they share a face. */
    function Weight(c: Cell, q: Cell): real {
      if q == c.Up(0) then InnerWeight(c, q, 0, true) else if c == q.Up(0) then InnerWeight(c, q, 0, false)
      else if q == c.Up(1) then InnerWeight(c, q, 1, true) else if c == q.Up(1) then InnerWeight(c, q, 1, false)
      else if q == c.Up(2) then InnerWeight(c, q, 2, true) else if c == q.Up(2) then InnerWeight(c, q, 2, false)
      else 0.0
    }

    lemma WeightSymmetric(c: Cell, q: Cell)
      ensures Weight(c, q) == Weight(q, c)
    {
      hide Stencil.InnerWeight;
      FaceAgrees(c, 0);
      FaceAgrees(c, 1);
      FaceAgrees(c, 2);
      FaceAgrees(q, 0);
      FaceAgrees(q, 1);
      FaceAgrees(q, 2);
    }

    lemma ExtentPositive(c: Cell, axis: nat)
      requires Valid() && axis < 3
      ensures Extent(c, axis) > 0.0
    {
      assert On(axis).Positive();
    }

    lemma AreaPositive(c: Cell, axis: nat)
      requires Valid()
      ensures FaceArea(c, axis) > 0.0
    {
      hide Stencil.Valid; hide Stencil.Extent;
      ExtentPositive(c, 0);
      ExtentPositive(c, 1);
      ExtentPositive(c, 2);
      Positive3(if axis != 0 then Extent(c, 0) else 1.0,
        if axis != 1 then Extent(c, 1) else 1.0,
        if axis != 2 then Extent(c, 2) else 1.0);
    }

    lemma FaceNotNegative(c: Cell, q: Cell, axis: nat, high: bool)
      requires Valid() && axis < 3
      ensures InnerWeight(c, q, axis, high) >= 0.0 && OpenWeight(c, axis, high) >= 0.0
    {
      hide Stencil.FaceArea;
      AreaPositive(c, axis);
      var w := On(axis);
      assert w.Positive();
      NotNegative3(FaceArea(c, axis), w.g, root(c), root(q));
      NotNegative3(FaceArea(c, axis), w.lastFace, root(c), root(q));
      NotNegative3(FaceArea(c, axis), w.openHi, root(c), root(c));
      NotNegative3(FaceArea(c, axis), w.openLo, root(c), root(c));
    }

    lemma WeightNotNegative(c: Cell, q: Cell)
      requires Valid()
      ensures Weight(c, q) >= 0.0
    {
      hide Stencil.InnerWeight; hide Stencil.Valid;
      forall axis: nat, high: bool | axis < 3 ensures InnerWeight(c, q, axis, high) >= 0.0 {
        FaceNotNegative(c, q, axis, high);
      }
    }

    /** The open faces around a cell. */
    function OpenAround(c: Cell): real {
      OpenOn(c, 0) + OpenOn(c, 1) + OpenOn(c, 2)
    }

    function OpenOn(c: Cell, axis: nat): real {
      (if c.On(axis) == 0 && open(axis, 0) then OpenWeight(c, axis, false) else 0.0)
      + if c.On(axis) + 1 == AxisOf(axis).n && open(axis, 1) then OpenWeight(c, axis, true) else 0.0
    }

    lemma OpenNotNegative(c: Cell)
      requires Valid()
      ensures OpenAround(c) >= 0.0
    {
      hide Stencil.OpenWeight; hide Stencil.Valid;
      forall axis: nat, high: bool | axis < 3 ensures OpenWeight(c, axis, high) >= 0.0 {
        FaceNotNegative(c, c, axis, high);
      }
    }

    /** The level the solver's kernels work on: the fluid cells in some order. */
    function LevelOver(cells: seq<Cell>, k: real, prolong: Matrix, kappa: real): Level {
      Level(|cells|,
        (i: nat, j: nat) => if i < |cells| && j < |cells| then Weight(cells[i], cells[j]) else 0.0,
        (i: nat) => if i < |cells| then OpenAround(cells[i]) else 0.0,
        (i: nat) => i < |cells| && cells[i].Red(),
        k, prolong, kappa)
    }

    /** The stencil's weights are symmetric and never negative, and cells that
        share a face have different colours: what the solve relies on. */
    lemma LevelIsValid(cells: seq<Cell>, k: real, prolong: Matrix, kappa: real)
      requires Valid() && k > 0.0 && kappa > 0.0
      ensures LevelOver(cells, k, prolong, kappa).Valid()
    {
      hide Stencil.Valid; hide Stencil.InnerWeight; hide Stencil.OpenAround;
      var level := LevelOver(cells, k, prolong, kappa);
      forall i, j | 0 <= i < level.n && 0 <= j < level.n
        ensures level.weight(i, j) == level.weight(j, i) && level.weight(i, j) >= 0.0
        ensures level.red(i) == level.red(j) ==> level.weight(i, j) == 0.0
      {
        WeightSymmetric(cells[i], cells[j]);
        WeightNotNegative(cells[i], cells[j]);
        ColoursDiffer(cells[i], cells[j]);
      }
      forall i | 0 <= i < level.n ensures level.open(i) >= 0.0 { OpenNotNegative(cells[i]); }
    }

    lemma ColoursDiffer(c: Cell, q: Cell)
      ensures c.Red() == q.Red() ==> Weight(c, q) == 0.0
    {
      hide Stencil.InnerWeight; hide Cell.Red; hide Cell.Up;
      forall axis: nat | axis < 3 ensures c.Up(axis).Red() != c.Red() && q.Up(axis).Red() != q.Red() {
        c.UpFlips(axis);
        q.UpFlips(axis);
      }
    }
  }

  lemma Positive3(a: real, b: real, c: real)
    requires a > 0.0 && b > 0.0 && c > 0.0
    ensures a * b * c > 0.0
  {
    ProductPositive(a, b);
    ProductPositive(a * b, c);
  }

  lemma NotNegative3(a: real, b: real, c: real, d: real)
    requires a > 0.0 && b > 0.0 && c >= 0.0 && d >= 0.0
    ensures a * b * (c * d) >= 0.0
  {
    ProductPositive(a, b);
    ProductNotNegative(c, d);
    ProductNotNegative(a * b, c * d);
  }

  // ------------------------------------------------------------ the transfers

  /** One axis of prolongation for a fine cell: two coarse points and their
      weights. Points -1 and `nc` are the open faces', where p = 0. */
  datatype Between = Between(i0: int, i1: int, w0: real, w1: real)
  {
    /** The weight of coarse point `c`. */
    function To(c: int): real {
      (if i0 == c then w0 else 0.0) + if i1 == c then w1 else 0.0
    }
  }

  /** The coarse point at or below a fine cell's centre (`prolong_axis`). */
  function PointBelow(fine: Axis, coarse: Axis, j: nat): int
    requires coarse.Covers()
  {
    var x, last := Centroid(fine, j), coarse.n - 1;
    var f := (x / coarse.s as real - 0.5).Floor;
    var i := if f < -1 then -1 else if f > last then last else f;
    if i < last && i + 1 >= 0 && x >= Centroid(coarse, i + 1) then i + 1 else i
  }

  /** `prolong_axis`: linear between the coarse points around a fine cell's
      centre; beyond a wall the last value holds. */
  function ProlongAxis(fine: Axis, coarse: Axis, openLo: bool, openHi: bool, j: nat): Between
    requires fine.Covers() && coarse == fine.Halved() && j < fine.n
  {
    fine.HalvedCovers();
    if fine.n == coarse.n then Between(j, j, 1.0, 0.0) else
    var x, n0, last := Centroid(fine, j), fine.n0 as real, coarse.n - 1;
    Distances(coarse);
    var i := PointBelow(fine, coarse, j);
    BelowIsNear(fine, coarse, j);
    if i < 0 then
      if !openLo then Between(0, 0, 1.0, 0.0) else
      var t := (x + 0.5) / (Centroid(coarse, 0) + 0.5);
      Between(-1, 0, 1.0 - t, t)
    else if i == last then
      if !openHi then Between(i, i, 1.0, 0.0) else
      var t := (x - Centroid(coarse, i)) / (n0 + 0.5 - Centroid(coarse, i));
      Between(i, i + 1, 1.0 - t, t)
    else
      Rising(coarse, i);
      var t := (x - Centroid(coarse, i)) / (Centroid(coarse, i + 1) - Centroid(coarse, i));
      Between(i, i + 1, 1.0 - t, t)
  }

  /** A cell's centre is in its lower half, and a full cell's is its middle. */
  lemma CentreRange(a: Axis, i: nat)
    requires a.Covers() && i < a.n
    ensures a.s as real > 0.0
      && Product(i as real, a.s as real) < Centroid(a, i) <= Product(i as real, a.s as real) + 0.5 * a.s as real
    ensures i + 1 < a.n ==> Centroid(a, i) == Product(i as real, a.s as real) + 0.5 * a.s as real
  {
    hide Product; hide Axis.Covers;
    CoversReally(a);
    HalfMore(i as real, a.s as real);
  }

  lemma HalfMore(i: real, s: real)
    ensures Product(i + 0.5, s) == Product(i, s) + 0.5 * s && Product(i + 1.0, s) == Product(i, s) + s
    ensures Product(0.0, s) == 0.0
  {
  }

  /** Centres rise along an axis. */
  lemma Rising(a: Axis, i: nat)
    requires a.Covers() && i + 1 < a.n
    ensures Centroid(a, i) < Centroid(a, i + 1)
  {
    hide Centroid; hide Axis.Covers; hide Product;
    CentreRange(a, i);
    CentreRange(a, i + 1);
    HalfMore(i as real, a.s as real);
  }

  lemma HalvedSpacing(a: Axis)
    requires a.n > 1
    ensures a.Halved().s as real == 2.0 * a.s as real
  {
  }

  /** Where a fine cell's centre is, in coarse cells. */
  lemma CentreFloor(fine: Axis, coarse: Axis, j: nat)
    requires fine.Covers() && fine.n > 1 && coarse == fine.Halved() && j < fine.n
    ensures coarse.Covers()
    ensures (Centroid(fine, j) / coarse.s as real - 0.5).Floor == (j - 1) / 2
  {
    hide Centroid; hide Axis.Covers; hide Axis.Halved; hide Product;
    fine.HalvedCovers();
    HalvedSpacing(fine);
    CentreRange(fine, j);
    Halving(Centroid(fine, j), fine.s as real, j);
  }

  lemma TwiceHalf(x: real, s: real)
    requires s > 0.0
    ensures x / (2.0 * s) == 0.5 * (x / s)
  {
    TwiceHalfOf(x, s, x / s, x / (2.0 * s));
  }

  lemma TwiceHalfOf(x: real, s: real, t: real, y: real)
    requires s > 0.0 && t == x / s && y == x / (2.0 * s)
    ensures y == 0.5 * t
  {
    assert t * s == x;
    assert y * (2.0 * s) == x;
    assert (2.0 * y - t) * s == 0.0;
  }

  lemma Halving(x: real, s: real, j: nat)
    requires s > 0.0 && Product(j as real, s) < x <= Product(j as real, s) + 0.5 * s
    ensures (x / (2.0 * s) - 0.5).Floor == (j - 1) / 2
  {
    hide Product;
    Quotient(x, s);
    TwiceHalf(x, s);
    var t := x / s;
    AtMost(t, j as real, 0.0, s, 0.0);
    AtMost(j as real, t, 0.5, s, 0.5 * s);
    HalfFloor(t, j);
  }

  lemma HalfFloor(t: real, j: nat)
    requires j as real < t && t <= j as real + 0.5
    ensures (0.5 * t - 0.5).Floor == (j - 1) / 2
  {
    var h := (j - 1) / 2;
    assert 2 * h + 1 <= j <= 2 * h + 2;
    assert h as real <= 0.5 * t - 0.5 <= h as real + 0.75;
  }

  /** Comparing multiples of `s > 0`, an offset `d` apart. */
  lemma AtMost(a: real, b: real, d: real, s: real, ds: real)
    requires s > 0.0 && ds == d * s
    ensures b <= a + d <==> Product(b, s) <= Product(a, s) + ds
  {
    Positive(a + d - b, s);
    assert (a + d - b) * s == a * s + d * s - b * s;
  }

  lemma Positive(e: real, s: real)
    requires s > 0.0
    ensures e >= 0.0 <==> e * s >= 0.0
  {
  }

  /** The point below is that floor, or the coarse level's partial last cell
      just above it, and never above a centre. */
  lemma BelowIsNear(fine: Axis, coarse: Axis, j: nat)
    requires fine.Covers() && fine.n > 1 && coarse == fine.Halved() && j < fine.n && coarse.Covers()
    ensures var i := PointBelow(fine, coarse, j);
      && -1 <= i < coarse.n && (i == (j - 1) / 2 || (i == (j - 1) / 2 + 1 && i == coarse.n - 1))
  {
    CentreFloor(fine, coarse, j);
    var f, last := (j - 1) / 2, coarse.n - 1;
    assert coarse.n == (fine.n + 1) / 2 && -1 <= f <= last;
    if f + 1 < last {
      FullCentre(fine, coarse, j, f);
    }
  }

  /** A full coarse cell's centre is beyond the fine cell whose floor is below it. */
  lemma FullCentre(fine: Axis, coarse: Axis, j: nat, f: int)
    requires fine.Covers() && fine.n > 1 && coarse == fine.Halved() && j < fine.n && coarse.Covers()
    requires f == (Centroid(fine, j) / coarse.s as real - 0.5).Floor && -1 <= f && f + 1 < coarse.n - 1
    ensures Centroid(fine, j) < Centroid(coarse, f + 1)
  {
    hide Centroid; hide Axis.Covers; hide Axis.Halved; hide Product;
    CentreRange(coarse, f + 1);
    BeyondFloor(Centroid(fine, j), coarse.s as real, f);
  }

  lemma BeyondFloor(x: real, s: real, f: int)
    requires s > 0.0 && f == (x / s - 0.5).Floor
    ensures x < Product((f + 1) as real, s) + 0.5 * s
  {
    hide Product;
    var y := x / s;
    Quotient(x, s);
    FloorBounds(y - 0.5, f);
    AtMost(y, (f + 1) as real, -0.5, s, -0.5 * s);
  }

  lemma FloorBounds(r: real, f: int)
    requires f == r.Floor
    ensures f as real <= r < f as real + 1.0
  {
  }

  lemma Quotient(x: real, s: real)
    requires s > 0.0
    ensures Product(x / s, s) == x
  {
  }

  /** Restriction gathers all of prolongation's transpose: every fine cell
      that gives a coarse cell any weight lies in the window it scans. */
  lemma WindowCovers(fine: Axis, coarse: Axis, openLo: bool, openHi: bool, j: nat, c: nat)
    requires fine.Covers() && coarse == fine.Halved() && j < fine.n && c < coarse.n
    requires ProlongAxis(fine, coarse, openLo, openHi, j).To(c) != 0.0
    ensures if fine.n == coarse.n then j == c else 2 * c - 2 <= j <= 2 * c + 3
  {
    fine.HalvedCovers();
    if fine.n != coarse.n { BelowIsNear(fine, coarse, j); }
  }

  function WindowLow(fine: Axis, coarse: Axis, c: nat): nat {
    if fine.n == coarse.n then c else if 2 * c >= 2 then 2 * c - 2 else 0
  }

  function WindowHigh(fine: Axis, coarse: Axis, c: nat): nat {
    if fine.n == coarse.n then c + 1 else if 2 * c + 4 <= fine.n then 2 * c + 4 else fine.n
  }

  /** Interpolation weights sum to 1 and neither is negative. */
  lemma ProlongInterpolates(fine: Axis, coarse: Axis, openLo: bool, openHi: bool, j: nat)
    requires fine.Covers() && coarse == fine.Halved() && j < fine.n
    ensures var p := ProlongAxis(fine, coarse, openLo, openHi, j);
      p.w0 + p.w1 == 1.0 && 0.0 <= p.w0 && 0.0 <= p.w1
  {
    fine.HalvedCovers();
    if fine.n != coarse.n {
      Bracketed(fine, coarse, j);
      Distances(coarse);
      var x, n0, last, i := Centroid(fine, j), fine.n0 as real, coarse.n - 1, PointBelow(fine, coarse, j);
      if i < 0 {
        Unit(x + 0.5, Centroid(coarse, 0) + 0.5);
      } else if i == last {
        Unit(x - Centroid(coarse, i), n0 + 0.5 - Centroid(coarse, i));
      } else {
        Rising(coarse, i);
        Unit(x - Centroid(coarse, i), Centroid(coarse, i + 1) - Centroid(coarse, i));
      }
    }
  }

  lemma Unit(a: real, b: real)
    requires 0.0 <= a <= b && b > 0.0
    ensures 0.0 <= a / b <= 1.0
  {
  }

  /** A fine centre lies between the points it is interpolated from. */
  lemma Bracketed(fine: Axis, coarse: Axis, j: nat)
    requires fine.Covers() && fine.n > 1 && coarse == fine.Halved() && coarse.Covers() && j < fine.n
    ensures var x, i, last := Centroid(fine, j), PointBelow(fine, coarse, j), coarse.n - 1;
      && 0.0 <= x <= fine.n0 as real && -1 <= i <= last
      && (i < 0 ==> x <= Centroid(coarse, 0))
      && (i == last ==> Centroid(coarse, i) <= x)
      && (0 <= i < last ==> Centroid(coarse, i) <= x <= Centroid(coarse, i + 1))
  {
    hide Centroid; hide Axis.Covers;
    BelowIsNear(fine, coarse, j);
    CentreFloor(fine, coarse, j);
    Inside(fine, j);
    var i, f, last := PointBelow(fine, coarse, j), (j - 1) / 2, coarse.n - 1;
    if f >= 0 { AtLeastCentre(fine, coarse, j, f); }
    if f + 1 < last { FullCentre(fine, coarse, j, f); }
  }

  lemma Inside(a: Axis, j: nat)
    requires a.Covers() && j < a.n
    ensures 0.0 <= Centroid(a, j) <= a.n0 as real
  {
    ProductNotNegative(j as real, a.s as real);
    CentreRange(a, j);
    Distances(a);
    if j < a.n - 1 { InsideFull(a, j); }
  }

  lemma ProductNotNegative(a: real, b: real)
    requires a >= 0.0 && b >= 0.0
    ensures Product(a, b) >= 0.0
  {
  }

  lemma InsideFull(a: Axis, j: nat)
    requires a.Covers() && j < a.n - 1
    ensures Centroid(a, j) <= a.n0 as real
  {
    hide Centroid; hide Axis.Covers; hide Product;
    CentreRange(a, j);
    LastPartIs(a);
    AtMost(a.n as real - 1.0, j as real, -0.5, a.s as real, -0.5 * a.s as real);
  }

  lemma LastPartIs(a: Axis)
    requires a.Covers()
    ensures Product(a.n as real - 1.0, a.s as real) < a.n0 as real
  {
    CoversReally(a);
  }

  /** The floor's own centre is at or below the fine cell's. */
  lemma AtLeastCentre(fine: Axis, coarse: Axis, j: nat, f: nat)
    requires fine.Covers() && fine.n > 1 && coarse == fine.Halved() && j < fine.n && coarse.Covers()
    requires f == (Centroid(fine, j) / coarse.s as real - 0.5).Floor && f < coarse.n
    ensures Centroid(coarse, f) <= Centroid(fine, j)
  {
    hide Centroid; hide Axis.Covers; hide Axis.Halved; hide Product;
    CentreRange(coarse, f);
    AboveFloor(Centroid(fine, j), coarse.s as real, f);
  }

  lemma AboveFloor(x: real, s: real, f: nat)
    requires s > 0.0 && f == (x / s - 0.5).Floor
    ensures Product(f as real, s) + 0.5 * s <= x
  {
    hide Product;
    var y := x / s;
    Quotient(x, s);
    FloorBounds(y - 0.5, f);
    AtMost(y, f as real, -0.5, s, -0.5 * s);
  }
}
