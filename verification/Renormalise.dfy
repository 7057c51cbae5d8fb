/** What prolongation does beside solid cells (elements-ember
    `shaders/prolong_norm.wgsl`): corners in solid cells drop out and the others
    make up for them. */
module Renormalisation {
  import opened Geometry
  import opened Transfers

  // ------------------------------------------------------------ the eight corners

  /** Where the `b`-th corner of a fine cell lies along each axis, and its weight. */
  function Across(a: AxisPair, j: nat, bit: nat): (int, real)
    requires a.fine.Covers()
  {
    Pick(a.From(j), bit % 2)
  }

  function CornerWeight(t: Transfer, f: Cell, b: nat): real
    requires t.Valid()
  {
    Triple(Across(t.x, f.x, b).1, Across(t.y, f.y, b / 2).1, Across(t.z, f.z, b / 4).1)
  }

  function Triple(a: real, b: real, c: real): real {
    a * b * c
  }

  function CornerCell(t: Transfer, f: Cell, b: nat): Cell
    requires t.Valid()
  {
    Cell(Clip(Across(t.x, f.x, b).0), Clip(Across(t.y, f.y, b / 2).0), Clip(Across(t.z, f.z, b / 4).0))
  }

  /** The corner is an open face's point, which holds 0. */
  predicate IsOpen(t: Transfer, f: Cell, b: nat)
    requires t.Valid()
  {
    Beyond(t, Across(t.x, f.x, b).0, Across(t.y, f.y, b / 2).0, Across(t.z, f.z, b / 4).0)
  }

  predicate Drops(t: Transfer, f: Cell, b: nat)
    requires t.Valid()
  {
    CornerWeight(t, f, b) != 0.0 && !IsOpen(t, f, b) && t.coarseSolid(CornerCell(t, f, b))
  }

  function KeptTo(t: Transfer, f: Cell, n: nat): real
    requires t.Valid()
  {
    if n == 0 then 0.0 else KeptTo(t, f, n - 1) + if Drops(t, f, n - 1) then 0.0 else CornerWeight(t, f, n - 1)
  }

  predicate DropsBefore(t: Transfer, f: Cell, n: nat)
    requires t.Valid()
  {
    exists b :: 0 <= b < n && Drops(t, f, b)
  }

  /** What a fine cell's weights are scaled by. */
  function Scale(t: Transfer, f: Cell): real
    requires t.Valid()
  {
    if t.solid(f) then 0.0
    else if !DropsBefore(t, f, 8) then 1.0
    else if KeptTo(t, f, 8) > 0.0 then 1.0 / KeptTo(t, f, 8)
    else 0.0
  }

  /** `prolong_norm.wgsl` for one fine cell. */
  method ProlongNorm(t: Transfer, f: Cell) returns (norm: real)
    requires t.Valid()
    ensures norm == Scale(t, f)
  {
    hide AxisPair.From; hide Triple;
    if t.solid(f) { return 0.0; }
    var ax, ay, az := t.x.From(f.x), t.y.From(f.y), t.z.From(f.z);
    var kept, dropped := 0.0, false;
    for b := 0 to 8
      invariant kept == KeptTo(t, f, b) && dropped == DropsBefore(t, f, b)
    {
      var px, py, pz := Pick(ax, b % 2), Pick(ay, b / 2 % 2), Pick(az, b / 4 % 2);
      var w := Triple(px.1, py.1, pz.1);
      assert dropped || Drops(t, f, b) <==> DropsBefore(t, f, b + 1);
      if w == 0.0 { continue; }
      if !Beyond(t, px.0, py.0, pz.0) && t.coarseSolid(Cell(px.0, py.0, pz.0)) {
        dropped := true;
        continue;
      }
      kept := kept + w;
    }
    norm := if kept > 0.0 then 1.0 / kept else 0.0;
    if !dropped { norm := 1.0; }
  }

  // ------------------------------------------------------------ what it is for

  predicate InFine(t: Transfer, f: Cell) {
    f.x < t.x.fine.n && f.y < t.y.fine.n && f.z < t.z.fine.n
  }

  /** The transfer uses what the kernel computes. */
  ghost predicate Renormalises(t: Transfer) {
    t.Valid() && t.solids && forall f: Cell :: InFine(t, f) ==> t.norm(f) == Scale(t, f)
  }

  lemma {:induction false} NothingDropped(t: Transfer, f: Cell, n: nat)
    requires t.Valid() && !DropsBefore(t, f, n)
    ensures KeptTo(t, f, n) == WeightTo(t, f, n)
  {
    hide CornerWeight; hide Drops;
    if n > 0 {
      assert !Drops(t, f, n - 1);
      NothingDropped(t, f, n - 1);
    }
  }

  function WeightTo(t: Transfer, f: Cell, n: nat): real
    requires t.Valid()
  {
    if n == 0 then 0.0 else WeightTo(t, f, n - 1) + CornerWeight(t, f, n - 1)
  }

  /** One axis's two weights. */
  lemma TwoWeights(a: AxisPair, j: nat)
    requires a.fine.Covers() && j < a.fine.n
    ensures Across(a, j, 0).1 + Across(a, j, 1).1 == 1.0 && Across(a, j, 0).1 >= 0.0 && Across(a, j, 1).1 >= 0.0
  {
    hide ProlongAxis;
    a.fine.HalvedCovers();
    ProlongInterpolates(a.fine, a.Coarse(), a.openLo, a.openHi, j);
  }

  lemma Corners(t: Transfer, f: Cell)
    requires t.Valid()
    ensures var (x0, x1, y0, y1, z0, z1) := (Across(t.x, f.x, 0).1, Across(t.x, f.x, 1).1, Across(t.y, f.y, 0).1,
        Across(t.y, f.y, 1).1, Across(t.z, f.z, 0).1, Across(t.z, f.z, 1).1);
      && CornerWeight(t, f, 0) == Triple(x0, y0, z0) && CornerWeight(t, f, 1) == Triple(x1, y0, z0)
      && CornerWeight(t, f, 2) == Triple(x0, y1, z0) && CornerWeight(t, f, 3) == Triple(x1, y1, z0)
      && CornerWeight(t, f, 4) == Triple(x0, y0, z1) && CornerWeight(t, f, 5) == Triple(x1, y0, z1)
      && CornerWeight(t, f, 6) == Triple(x0, y1, z1) && CornerWeight(t, f, 7) == Triple(x1, y1, z1)
  {
    hide AxisPair.From; hide Triple;
  }

  lemma AllWeights(t: Transfer, f: Cell)
    requires t.Valid() && InFine(t, f)
    ensures WeightTo(t, f, 8) == 1.0
  {
    Corners(t, f);
    TwoWeights(t.x, f.x);
    TwoWeights(t.y, f.y);
    TwoWeights(t.z, f.z);
    WeightUnfolds(t, f);
    hide CornerWeight; hide Across; hide Triple;
    Cube(Across(t.x, f.x, 0).1, Across(t.x, f.x, 1).1, Across(t.y, f.y, 0).1, Across(t.y, f.y, 1).1,
      Across(t.z, f.z, 0).1, Across(t.z, f.z, 1).1);
  }

  lemma WeightUnfolds(t: Transfer, f: Cell)
    requires t.Valid()
    ensures WeightTo(t, f, 8) == CornerWeight(t, f, 0) + CornerWeight(t, f, 1) + CornerWeight(t, f, 2)
      + CornerWeight(t, f, 3) + CornerWeight(t, f, 4) + CornerWeight(t, f, 5) + CornerWeight(t, f, 6)
      + CornerWeight(t, f, 7)
  {
    hide CornerWeight;
    WeightNext(t, f, 0);
    WeightNext(t, f, 1);
    WeightNext(t, f, 2);
    WeightNext(t, f, 3);
    WeightNext(t, f, 4);
    WeightNext(t, f, 5);
    WeightNext(t, f, 6);
    WeightNext(t, f, 7);
  }

  lemma WeightNext(t: Transfer, f: Cell, n: nat)
    requires t.Valid()
    ensures WeightTo(t, f, 0) == 0.0 && WeightTo(t, f, n + 1) == WeightTo(t, f, n) + CornerWeight(t, f, n)
  {
    hide CornerWeight;
  }

  lemma Cube(x0: real, x1: real, y0: real, y1: real, z0: real, z1: real)
    requires x0 + x1 == 1.0 && y0 + y1 == 1.0 && z0 + z1 == 1.0
    ensures Triple(x0, y0, z0) + Triple(x1, y0, z0) + Triple(x0, y1, z0) + Triple(x1, y1, z0) + Triple(x0, y0, z1)
      + Triple(x1, y0, z1) + Triple(x0, y1, z1) + Triple(x1, y1, z1) == 1.0
  {
    Layer(x0, x1, y0, y1, z0);
    Layer(x0, x1, y0, y1, z1);
  }

  lemma Layer(x0: real, x1: real, y0: real, y1: real, z: real)
    requires x0 + x1 == 1.0 && y0 + y1 == 1.0
    ensures Triple(x0, y0, z) + Triple(x1, y0, z) + Triple(x0, y1, z) + Triple(x1, y1, z) == z
  {
    Edge(x0, x1, y0 * z);
    Edge(x0, x1, y1 * z);
    Edge(y0, y1, z);
    assert Triple(x0, y0, z) == x0 * (y0 * z) && Triple(x1, y0, z) == x1 * (y0 * z);
    assert Triple(x0, y1, z) == x0 * (y1 * z) && Triple(x1, y1, z) == x1 * (y1 * z);
  }

  lemma Edge(a: real, b: real, c: real)
    requires a + b == 1.0
    ensures a * c + b * c == c
  {
    assert a * c + b * c == (a + b) * c;
  }

  /** A fluid cell's kept weights, renormalised, sum to 1, unless none are kept. */
  lemma KeptSumsToOne(t: Transfer, f: Cell)
    requires t.Valid() && InFine(t, f) && !t.solid(f) && KeptTo(t, f, 8) > 0.0
    ensures KeptTo(t, f, 8) * Scale(t, f) == 1.0
  {
    hide KeptTo; hide DropsBefore; hide WeightTo;
    if !DropsBefore(t, f, 8) {
      NothingDropped(t, f, 8);
      AllWeights(t, f);
    }
  }

  /** No corner with a weight is an open face's point. */
  ghost predicate Inside(t: Transfer, f: Cell)
    requires t.Valid()
  {
    forall b :: 0 <= b < 8 ==> CornerWeight(t, f, b) == 0.0 || !IsOpen(t, f, b)
  }

  lemma ConstantCorner(t: Transfer, f: Cell, v: real, b: nat)
    requires t.Valid() && t.solids && (CornerWeight(t, f, b) == 0.0 || !IsOpen(t, f, b))
    ensures CornerOf(t, (c: Cell) => v, t.x.From(f.x), t.y.From(f.y), t.z.From(f.z), b)
      == (if Drops(t, f, b) then 0.0 else CornerWeight(t, f, b)) * v
  {
    hide AxisPair.From; hide Corner; hide Beyond;
    CornerIs(t, (c: Cell) => v, Across(t.x, f.x, b), Across(t.y, f.y, b / 2), Across(t.z, f.z, b / 4));
  }

  lemma {:induction false} ConstantCorners(t: Transfer, f: Cell, v: real, n: nat)
    requires t.Valid() && t.solids && n <= 8 && Inside(t, f)
    ensures CornersTo(t, (c: Cell) => v, t.x.From(f.x), t.y.From(f.y), t.z.From(f.z), n) == KeptTo(t, f, n) * v
  {
    hide AxisPair.From; hide CornerOf; hide CornerWeight; hide Drops; hide IsOpen;
    if n > 0 {
      ConstantCorners(t, f, v, n - 1);
      ConstantCorner(t, f, v, n - 1);
      Together(KeptTo(t, f, n - 1), if Drops(t, f, n - 1) then 0.0 else CornerWeight(t, f, n - 1), v);
    }
  }

  lemma Together(a: real, b: real, v: real)
    ensures a * v + b * v == (a + b) * v
  {
  }

  /** Beside solid cells too, a constant correction arrives unchanged, wherever
      a corner is kept and none is an open face's. */
  lemma ConstantArrives(t: Transfer, f: Cell, v: real)
    requires Renormalises(t) && InFine(t, f) && !t.solid(f) && Inside(t, f) && KeptTo(t, f, 8) > 0.0
    ensures t.Prolonged(f, (c: Cell) => v) == v
  {
    hide Transfer.Prolonged; hide CornersTo; hide KeptTo; hide Inside; hide Scale; hide AxisPair.From;
    ConstantCorners(t, f, v, 8);
    CornersAreRow(t, (c: Cell) => v, f);
    KeptSumsToOne(t, f);
    Reordered(KeptTo(t, f, 8), v, Scale(t, f));
  }

  lemma Reordered(a: real, v: real, s: real)
    requires a * s == 1.0
    ensures a * v * s == v
  {
    assert a * v * s == a * s * v;
  }

  /** Where every corner with a weight is solid, nothing arrives. */
  lemma NothingArrives(t: Transfer, f: Cell, e: Grid)
    requires Renormalises(t) && InFine(t, f) && !t.solid(f) && KeptTo(t, f, 8) <= 0.0
    ensures t.Prolonged(f, e) == 0.0
  {
    hide Transfer.Prolonged; hide CornersTo; hide KeptTo; hide WeightTo; hide DropsBefore; hide AxisPair.From;
    if !DropsBefore(t, f, 8) {
      NothingDropped(t, f, 8);
      AllWeights(t, f);
    }
    CornersAreRow(t, e, f);
  }

  /** A mask with nothing solid in it leaves the transfers as they are without one. */
  lemma EmptyMask(t: Transfer, f: Cell, c: Cell)
    requires Renormalises(t) && InFine(t, f) && forall q: Cell :: !t.solid(q) && !t.coarseSolid(q)
    ensures t.P(f, c) == t.(solids := false).P(f, c)
  {
    hide AxisPair.Weight; hide CornerWeight; hide IsOpen; hide CornerCell;
    assert !DropsBefore(t, f, 8);
    assert t.Norm(f) == 1.0;
  }
}
