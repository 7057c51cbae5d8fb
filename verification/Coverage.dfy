/** Velocity metrics over measured cells (elements-ember `metrics.rs`), and the
    check that a cache's missing velocities cannot reach them (the benchmark's
    `examples/common/mantaflow.rs`). Arrays are read by their coordinates. */
module Coverage {
  import opened Values
  import opened Geometry

  predicate InDomain(c: Cell, cells: Dims) {
    c.x < cells.x && c.y < cells.y && c.z < cells.z
  }

  /** The face between a cell and its neighbour below along an axis. */
  type Faces = (nat, Cell) -> real

  datatype Sample = Sample(cells: Dims, dx: real, density: Cell -> real, faces: Faces, solid: Cell -> bool,
      root: real -> real)
  {
    predicate IsSolid(c: Cell) {
      InDomain(c, cells) && solid(c)
    }

    predicate InSmoke(c: Cell) {
      density(c) > SMOKE_THRESHOLD
    }
  }

  const SMOKE_THRESHOLD: real := 1.0 / 1_000_000.0

  // ------------------------------------------------------------ the coverage check

  /** Whether the face below `c` along an axis touches a solid cell; outside the
      domain nothing is solid. */
  predicate WallBelow(s: Sample, c: Cell, axis: nat) {
    s.IsSolid(c) || (c.On(axis) > 0 && s.IsSolid(Down(c, axis)))
  }

  function Down(c: Cell, axis: nat): (d: Cell)
    requires c.On(axis) > 0
    ensures d.Up(axis) == c
  {
    if axis == 0 then Cell(c.x - 1, c.y, c.z)
    else if axis == 1 then Cell(c.x, c.y - 1, c.z)
    else Cell(c.x, c.y, c.z - 1)
  }

  /** All three faces the cell's value holds are wall faces. */
  predicate WallsOnly(s: Sample, c: Cell) {
    WallBelow(s, c, 0) && WallBelow(s, c, 1) && WallBelow(s, c, 2)
  }

  datatype CacheError = MissingVelocity(cell: Cell, density: real, count: nat)

  function Unexplained(s: Sample, missing: seq<Cell>): (u: seq<Cell>)
    ensures forall c :: c in u <==> c in missing && !WallsOnly(s, c)
  {
    if missing == [] then [] else
      (if WallsOnly(s, missing[0]) then [] else [missing[0]]) + Unexplained(s, missing[1..])
  }

  /** `check_coverage`: how many missing cells it accepts, or the first it cannot. */
  function CheckCoverage(s: Sample, missing: seq<Cell>): (r: Result<nat, CacheError>)
    ensures r.Ok? <==> forall c :: c in missing ==> WallsOnly(s, c)
    ensures r.Ok? ==> r.value == |missing|
    ensures r.Err? ==>
      r.error.cell in missing && !WallsOnly(s, r.error.cell)
      && r.error.density == s.density(r.error.cell) && r.error.count > 0
  {
    var u := Unexplained(s, missing);
    if u == [] then
      assert forall c :: c in missing && !WallsOnly(s, c) ==> c in u;
      Ok(|missing|)
    else
      assert u[0] in u;
      Err(MissingVelocity(u[0], s.density(u[0]), |u|))
  }

  /** A missing cell is accepted exactly when it is solid itself or has a solid
      cell below it on every axis. */
  lemma WallsExactly(s: Sample, c: Cell)
    ensures WallsOnly(s, c) <==>
      || (c.x < s.cells.x && c.y < s.cells.y && c.z < s.cells.z && s.solid(c))
      || (c.x > 0 && s.IsSolid(Cell(c.x - 1, c.y, c.z)) && c.y > 0 && s.IsSolid(Cell(c.x, c.y - 1, c.z))
          && c.z > 0 && s.IsSolid(Cell(c.x, c.y, c.z - 1)))
  {
    assert c.On(0) == c.x && c.On(1) == c.y && c.On(2) == c.z;
    if c.x > 0 { assert Down(c, 0) == Cell(c.x - 1, c.y, c.z); }
    if c.y > 0 { assert Down(c, 1) == Cell(c.x, c.y - 1, c.z); }
    if c.z > 0 { assert Down(c, 2) == Cell(c.x, c.y, c.z - 1); }
  }

  /** The first missing cell with a face that is no wall is the `i`-th. */
  predicate IsFirst(s: Sample, missing: seq<Cell>, i: nat) {
    i < |missing| && !WallsOnly(s, missing[i]) && forall j :: 0 <= j < i ==> WallsOnly(s, missing[j])
  }

  /** A refusal names that cell. */
  lemma {:induction false} RefusalNamesFirst(s: Sample, missing: seq<Cell>)
    requires CheckCoverage(s, missing).Err?
    ensures exists i: nat :: IsFirst(s, missing, i) && missing[i] == CheckCoverage(s, missing).error.cell
    decreases |missing|
  {
    hide WallsOnly;
    if !WallsOnly(s, missing[0]) {
      assert IsFirst(s, missing, 0);
    } else {
      var rest := missing[1..];
      assert Unexplained(s, missing) == Unexplained(s, rest);
      RefusalNamesFirst(s, rest);
      var i: nat :| IsFirst(s, rest, i) && rest[i] == CheckCoverage(s, rest).error.cell;
      forall j | 0 <= j < i + 1 ensures WallsOnly(s, missing[j]) {
        if j > 0 { assert missing[j] == rest[j - 1]; }
      }
      assert missing[i + 1] == rest[i];
      assert IsFirst(s, missing, i + 1);
    }
  }

  // ------------------------------------------------------------ the metrics

  /** Within one cell of `c` on every axis. */
  predicate Near(c: Cell, q: Cell) {
    c.x <= q.x + 1 && q.x <= c.x + 1 && c.y <= q.y + 1 && q.y <= c.y + 1 && c.z <= q.z + 1 && q.z <= c.z + 1
  }

  ghost predicate IsMeasured(s: Sample, c: Cell) {
    && 1 <= c.x && c.x + 2 <= s.cells.x && 1 <= c.y && c.y + 2 <= s.cells.y && 1 <= c.z && c.z + 2 <= s.cells.z
    && forall q: Cell :: Near(c, q) ==> !s.solid(q) && 1_000_000.0 * s.density(q) > 1.0
  }

  /** `measured`: the 27 cells scanned, stopping at the first that is solid or
      out of the smoke. */
  method Measured(s: Sample, c: Cell) returns (r: bool)
    ensures r == IsMeasured(s, c)
  {
    if !(1 <= c.x && c.x + 2 <= s.cells.x && 1 <= c.y && c.y + 2 <= s.cells.y
         && 1 <= c.z && c.z + 2 <= s.cells.z) {
      return false;
    }
    for z := c.z - 1 to c.z + 2
      invariant forall q: Cell :: Near(c, q) && q.z < z ==> !s.solid(q) && s.InSmoke(q)
    {
      for y := c.y - 1 to c.y + 2
        invariant forall q: Cell :: Near(c, q) && (q.z < z || (q.z == z && q.y < y)) ==> !s.solid(q) && s.InSmoke(q)
      {
        for x := c.x - 1 to c.x + 2
          invariant forall q: Cell ::
            Near(c, q) && (q.z < z || (q.z == z && (q.y < y || (q.y == y && q.x < x)))) ==>
              !s.solid(q) && s.InSmoke(q)
        {
          var n := Cell(x, y, z);
          assert Near(c, n);
          if s.solid(n) { return false; }
          if !s.InSmoke(n) { return false; }
        }
      }
    }
    return true;
  }

  /** `face_divergence`. */
  function FaceDivergence(s: Sample, c: Cell): real
    requires s.dx != 0.0
  {
    (s.faces(0, c.Up(0)) - s.faces(0, c) + s.faces(1, c.Up(1)) - s.faces(1, c)
      + s.faces(2, c.Up(2)) - s.faces(2, c)) / s.dx
  }

  /** `cell_centred`: halfway between the lower and the upper face. */
  function Centred(s: Sample, axis: nat, c: Cell): real {
    0.5 * (s.faces(axis, c) + s.faces(axis, c.Up(axis)))
  }

  /** A central difference of component `a` along `axis`. */
  function Slope(s: Sample, a: nat, axis: nat, c: Cell): real
    requires s.dx != 0.0 && c.On(axis) > 0
  {
    (Centred(s, a, c.Up(axis)) - Centred(s, a, Down(c, axis))) / (2.0 * s.dx)
  }

  /** Sums of squares of the curl's components: its magnitude, squared. */
  function CurlSquared(s: Sample, c: Cell): real
    requires s.dx != 0.0 && c.x > 0 && c.y > 0 && c.z > 0
  {
    var wx := Slope(s, 2, 1, c) - Slope(s, 1, 2, c);
    var wy := Slope(s, 0, 2, c) - Slope(s, 2, 0, c);
    var wz := Slope(s, 1, 0, c) - Slope(s, 0, 1, c);
    wx * wx + wy * wy + wz * wz
  }

  function SpeedSquared(s: Sample, c: Cell): real {
    Centred(s, 0, c) * Centred(s, 0, c) + Centred(s, 1, c) * Centred(s, 1, c) + Centred(s, 2, c) * Centred(s, 2, c)
  }

  /** The running totals of the velocity metrics. */
  datatype Totals = Totals(count: nat, divMax: real, divSquared: real, energy: real, vorticity: real)

  function Abs(x: real): real {
    if x < 0.0 then -x else x
  }

  function Max(a: real, b: real): real {
    if a < b then b else a
  }

  /** One measured cell's share. */
  function AddCell(s: Sample, t: Totals, c: Cell): Totals
    requires s.dx != 0.0 && c.x > 0 && c.y > 0 && c.z > 0
  {
    AddShare(t, FaceDivergence(s, c), SpeedSquared(s, c), s.root(CurlSquared(s, c)), s.dx * s.dx * s.dx)
  }

  function AddShare(t: Totals, d: real, speed2: real, curl: real, dv: real): Totals {
    Totals(t.count + 1, Max(t.divMax, Abs(d)), t.divSquared + d * d,
      t.energy + 0.5 * speed2 * dv, t.vorticity + curl * dv)
  }

  ghost function Visit(s: Sample, t: Totals, c: Cell): Totals
    requires s.dx != 0.0
  {
    if IsMeasured(s, c) then AddCell(s, t, c) else t
  }

  ghost function RowTotals(s: Sample, t: Totals, j: nat, k: nat, n: nat): Totals
    requires s.dx != 0.0
  {
    if n == 0 then t else Visit(s, RowTotals(s, t, j, k, n - 1), Cell(n - 1, j, k))
  }

  ghost function PlaneTotals(s: Sample, t: Totals, k: nat, n: nat): Totals
    requires s.dx != 0.0
  {
    if n == 0 then t else RowTotals(s, PlaneTotals(s, t, k, n - 1), n - 1, k, s.cells.x)
  }

  ghost function BoxTotals(s: Sample, t: Totals, n: nat): Totals
    requires s.dx != 0.0
  {
    if n == 0 then t else PlaneTotals(s, BoxTotals(s, t, n - 1), n - 1, s.cells.y)
  }

  const NOTHING := Totals(0, 0.0, 0.0, 0.0, 0.0)

  /** `measure`'s velocity half: the totals over every measured cell, and the
      root mean square of the divergence, 0 when nothing is measured. */
  method Measure(s: Sample) returns (t: Totals, divRms: real)
    requires s.dx != 0.0
    ensures t == BoxTotals(s, NOTHING, s.cells.z)
    ensures divRms == if t.count == 0 then 0.0 else s.root(t.divSquared / t.count as real)
  {
    t := NOTHING;
    for k := 0 to s.cells.z
      invariant t == BoxTotals(s, NOTHING, k)
    {
      ghost var plane := t;
      for j := 0 to s.cells.y
        invariant t == PlaneTotals(s, plane, k, j)
      {
        ghost var row := t;
        for i := 0 to s.cells.x
          invariant t == RowTotals(s, row, j, k, i)
        {
          var measured := Measured(s, Cell(i, j, k));
          if measured { t := AddCell(s, t, Cell(i, j, k)); }
        }
      }
    }
    divRms := if t.count == 0 then 0.0 else s.root(t.divSquared / t.count as real);
  }

  // ------------------------------------------------------------ what the metrics measure

  /** A velocity of degree two without mixed terms: component `a` is
      `constant(a)` plus, for each axis, `slope(a, axis) * p + bend(a, axis) * p * p`. */
  datatype Flow = Flow(constant: nat -> real, slope: (nat, nat) -> real, bend: (nat, nat) -> real)
  {
    function Part(a: nat, axis: nat, p: real): real {
      slope(a, axis) * p + bend(a, axis) * p * p
    }

    function At(a: nat, x: real, y: real, z: real): real {
      constant(a) + Part(a, 0, x) + Part(a, 1, y) + Part(a, 2, z)
    }

    /** The derivative of component `a` along an axis. */
    function Gradient(a: nat, axis: nat, p: real): real {
      slope(a, axis) + 2.0 * bend(a, axis) * p
    }

    function Divergence(x: real, y: real, z: real): real {
      Gradient(0, 0, x) + Gradient(1, 1, y) + Gradient(2, 2, z)
    }

    /** The square of the speed, and of the curl. */
    function Speed2(x: real, y: real, z: real): real {
      At(0, x, y, z) * At(0, x, y, z) + At(1, x, y, z) * At(1, x, y, z) + At(2, x, y, z) * At(2, x, y, z)
    }

    function Curl2(x: real, y: real, z: real): real {
      var i := Gradient(2, 1, y) - Gradient(1, 2, z);
      var j := Gradient(0, 2, z) - Gradient(2, 0, x);
      var k := Gradient(1, 0, x) - Gradient(0, 1, y);
      i * i + j * j + k * k
    }
  }

  function Edge(k: nat, dx: real): real {
    k as real * dx
  }

  function Centre(k: nat, dx: real): real {
    (k as real + 0.5) * dx
  }

  /** Where a face of a cell lies on an axis: on the cell's edge along its own. */
  function Place(own: nat, axis: nat, k: nat, dx: real): real {
    if own == axis then Edge(k, dx) else Centre(k, dx)
  }

  /** Every face holds the flow's value at its own centre. */
  ghost predicate IsSampled(s: Sample, f: Flow) {
    forall a: nat, c: Cell :: a < 3 ==>
      s.faces(a, c) == f.At(a, Place(a, 0, c.x, s.dx), Place(a, 1, c.y, s.dx), Place(a, 2, c.z, s.dx))
  }

  lemma FaceIs(s: Sample, f: Flow, a: nat, c: Cell)
    requires IsSampled(s, f) && a < 3
    ensures s.faces(a, c) == f.At(a, Place(a, 0, c.x, s.dx), Place(a, 1, c.y, s.dx), Place(a, 2, c.z, s.dx))
  {
    hide Flow.At; hide Place;
  }

  lemma StepUp(f: Flow, a: nat, axis: nat, k: nat, dx: real)
    ensures f.Part(a, axis, Edge(k + 1, dx)) - f.Part(a, axis, Edge(k, dx)) == f.Gradient(a, axis, Centre(k, dx)) * dx
  {
    var p, g, h := Edge(k, dx), f.slope(a, axis), f.bend(a, axis);
    assert Edge(k + 1, dx) == p + dx && Centre(k, dx) == p + 0.5 * dx;
    hide Edge; hide Centre;
    assert h * (p + dx) * (p + dx) == h * p * p + 2.0 * h * p * dx + h * dx * dx;
  }

  lemma Quotient(n: real, k: real, d: real)
    requires d != 0.0 && n == k * d
    ensures n / d == k
  {
  }

  /** What flows out of a cell along an axis, less what flows in. */
  lemma FaceStep(s: Sample, f: Flow, a: nat, c: Cell)
    requires IsSampled(s, f) && a < 3
    ensures s.faces(a, c.Up(a)) - s.faces(a, c) == f.Gradient(a, a, Centre(c.On(a), s.dx)) * s.dx
  {
    hide Flow.Part; hide Flow.Gradient; hide IsSampled; hide Edge; hide Centre;
    FaceIs(s, f, a, c);
    FaceIs(s, f, a, c.Up(a));
    StepUp(f, a, a, c.On(a), s.dx);
    assert a == 0 || a == 1 || a == 2;
  }

  /** The divergence of a cell is that of the flow at its centre. */
  lemma DivergenceIsExact(s: Sample, f: Flow, c: Cell)
    requires s.dx != 0.0 && IsSampled(s, f)
    ensures FaceDivergence(s, c) == f.Divergence(Centre(c.x, s.dx), Centre(c.y, s.dx), Centre(c.z, s.dx))
  {
    hide Flow.Gradient; hide IsSampled; hide Centre;
    FaceStep(s, f, 0, c);
    FaceStep(s, f, 1, c);
    FaceStep(s, f, 2, c);
    var x, y, z := f.Gradient(0, 0, Centre(c.x, s.dx)), f.Gradient(1, 1, Centre(c.y, s.dx)),
      f.Gradient(2, 2, Centre(c.z, s.dx));
    var n := s.faces(0, c.Up(0)) - s.faces(0, c) + s.faces(1, c.Up(1)) - s.faces(1, c)
      + s.faces(2, c.Up(2)) - s.faces(2, c);
    assert n == x * s.dx + y * s.dx + z * s.dx == (x + y + z) * s.dx;
    Quotient(n, x + y + z, s.dx);
  }

  /** Halfway between two faces, a quarter of the bend is left over. */
  lemma Halfway(f: Flow, a: nat, axis: nat, k: nat, dx: real)
    ensures 0.5 * (f.Part(a, axis, Edge(k, dx)) + f.Part(a, axis, Edge(k + 1, dx)))
      == f.Part(a, axis, Centre(k, dx)) + f.bend(a, axis) * dx * dx / 4.0
  {
    var p, h := Edge(k, dx), f.bend(a, axis);
    assert Edge(k + 1, dx) == p + dx && Centre(k, dx) == p + 0.5 * dx;
    hide Edge; hide Centre;
    assert h * (p + dx) * (p + dx) == h * p * p + 2.0 * h * p * dx + h * dx * dx;
    assert h * (p + 0.5 * dx) * (p + 0.5 * dx) == h * p * p + h * p * dx + h * dx * dx / 4.0;
  }

  /** A component at a cell's centre. */
  function Middle(f: Flow, a: nat, c: Cell, dx: real): real {
    f.At(a, Centre(c.x, dx), Centre(c.y, dx), Centre(c.z, dx))
  }

  /** Centring gives the flow at the centre, but for that quarter. */
  lemma CentredIs(s: Sample, f: Flow, a: nat, c: Cell)
    requires IsSampled(s, f) && a < 3
    ensures Centred(s, a, c) == Middle(f, a, c, s.dx) + f.bend(a, a) * s.dx * s.dx / 4.0
  {
    hide Flow.Part; hide IsSampled; hide Edge; hide Centre;
    FaceIs(s, f, a, c);
    FaceIs(s, f, a, c.Up(a));
    Halfway(f, a, a, c.On(a), s.dx);
    assert a == 0 || a == 1 || a == 2;
  }

  lemma StepAcross(f: Flow, a: nat, axis: nat, k: nat, dx: real)
    requires k > 0
    ensures f.Part(a, axis, Centre(k + 1, dx)) - f.Part(a, axis, Centre(k - 1, dx))
      == f.Gradient(a, axis, Centre(k, dx)) * (2.0 * dx)
  {
    var p, h := Centre(k, dx), f.bend(a, axis);
    assert Centre(k + 1, dx) == p + dx && Centre(k - 1, dx) == p - dx;
    hide Centre;
    assert h * (p + dx) * (p + dx) == h * p * p + 2.0 * h * p * dx + h * dx * dx;
    assert h * (p - dx) * (p - dx) == h * p * p - 2.0 * h * p * dx + h * dx * dx;
  }

  /** A central difference is the flow's derivative at the centre. */
  lemma SlopeIsExact(s: Sample, f: Flow, a: nat, axis: nat, c: Cell)
    requires s.dx != 0.0 && IsSampled(s, f) && a < 3 && axis < 3 && c.On(axis) > 0
    ensures Slope(s, a, axis, c) == f.Gradient(a, axis, Centre(c.On(axis), s.dx))
  {
    hide Flow.Part; hide Flow.Gradient; hide Centred; hide IsSampled; hide Centre;
    CentredIs(s, f, a, c.Up(axis));
    CentredIs(s, f, a, Down(c, axis));
    StepAcross(f, a, axis, c.On(axis), s.dx);
    assert axis == 0 || axis == 1 || axis == 2;
    var n := Centred(s, a, c.Up(axis)) - Centred(s, a, Down(c, axis));
    assert n == Middle(f, a, c.Up(axis), s.dx) - Middle(f, a, Down(c, axis), s.dx)
      == f.Part(a, axis, Centre(c.On(axis) + 1, s.dx)) - f.Part(a, axis, Centre(c.On(axis) - 1, s.dx));
    Quotient(n, f.Gradient(a, axis, Centre(c.On(axis), s.dx)), 2.0 * s.dx);
  }

  lemma CurlIsExact(s: Sample, f: Flow, c: Cell)
    requires s.dx != 0.0 && IsSampled(s, f) && c.x > 0 && c.y > 0 && c.z > 0
    ensures CurlSquared(s, c) == f.Curl2(Centre(c.x, s.dx), Centre(c.y, s.dx), Centre(c.z, s.dx))
  {
    hide Flow.Gradient; hide Slope; hide IsSampled; hide Centre;
    SlopeIsExact(s, f, 2, 1, c);
    SlopeIsExact(s, f, 1, 2, c);
    SlopeIsExact(s, f, 0, 2, c);
    SlopeIsExact(s, f, 2, 0, c);
    SlopeIsExact(s, f, 1, 0, c);
    SlopeIsExact(s, f, 0, 1, c);
  }

  lemma SpeedIsExact(s: Sample, f: Flow, c: Cell)
    requires IsSampled(s, f) && f.bend(0, 0) == f.bend(1, 1) == f.bend(2, 2) == 0.0
    ensures SpeedSquared(s, c) == f.Speed2(Centre(c.x, s.dx), Centre(c.y, s.dx), Centre(c.z, s.dx))
  {
    hide Flow.At; hide Centred; hide IsSampled; hide Centre;
    CentredIs(s, f, 0, c);
    CentredIs(s, f, 1, c);
    CentredIs(s, f, 2, c);
    NoBend(s.dx);
  }

  lemma NoBend(dx: real)
    ensures 0.0 * dx * dx / 4.0 == 0.0
  {
  }

  /** So one measured cell adds the flow's own divergence, energy and curl,
      each taken at the cell's centre. */
  lemma ShareIsExact(s: Sample, f: Flow, t: Totals, c: Cell)
    requires s.dx != 0.0 && IsSampled(s, f) && c.x > 0 && c.y > 0 && c.z > 0
    requires f.bend(0, 0) == f.bend(1, 1) == f.bend(2, 2) == 0.0
    ensures var x, y, z := Centre(c.x, s.dx), Centre(c.y, s.dx), Centre(c.z, s.dx);
      IsShare(t, AddCell(s, t, c), f.Divergence(x, y, z), f.Speed2(x, y, z), s.root(f.Curl2(x, y, z)), s.dx)
  {
    hide Flow.Divergence; hide Flow.Speed2; hide Flow.Curl2; hide FaceDivergence; hide SpeedSquared; hide CurlSquared;
    hide IsSampled;
    hide IsShare; hide AddCell; hide Centre;
    DivergenceIsExact(s, f, c);
    SpeedIsExact(s, f, c);
    CurlIsExact(s, f, c);
    AddsShare(s, t, c);
  }

  /** `r` is `t` with one more cell in it: its divergence `d` in the maximum and
      in the squares, half its speed squared and its curl times its volume. */
  ghost predicate IsShare(t: Totals, r: Totals, d: real, speed2: real, curl: real, dx: real) {
    && r.count == t.count + 1
    && r.divMax >= t.divMax && r.divMax >= d && r.divMax >= -d
    && (r.divMax == t.divMax || r.divMax == d || r.divMax == -d)
    && r.divSquared == t.divSquared + d * d
    && 2.0 * (r.energy - t.energy) == speed2 * (dx * dx * dx)
    && r.vorticity - t.vorticity == curl * (dx * dx * dx)
  }

  lemma AddsShare(s: Sample, t: Totals, c: Cell)
    requires s.dx != 0.0 && c.x > 0 && c.y > 0 && c.z > 0
    ensures IsShare(t, AddCell(s, t, c), FaceDivergence(s, c), SpeedSquared(s, c), s.root(CurlSquared(s, c)), s.dx)
  {
    hide FaceDivergence; hide SpeedSquared; hide CurlSquared;
  }

  // ------------------------------------------------------------ what the check buys

  /** Two readings of one frame that differ only where the cache has nothing:
      on the faces of missing cells, and on faces beyond the last cells. */
  ghost predicate SameKnown(s: Sample, s': Sample, missing: seq<Cell>) {
    && s' == s.(faces := s'.faces)
    && forall axis: nat, c: Cell ::
       axis < 3 && InDomain(c, s.cells) && c !in missing ==> s'.faces(axis, c) == s.faces(axis, c)
  }

  /** A face between two fluid cells of the domain is never a missing cell's. */
  lemma FluidFaceKnown(s: Sample, s': Sample, missing: seq<Cell>, axis: nat, c: Cell)
    requires CheckCoverage(s, missing).Ok? && SameKnown(s, s', missing) && axis < 3
    requires InDomain(c, s.cells) && c.On(axis) > 0 && !s.solid(c) && !s.solid(Down(c, axis))
    ensures s'.faces(axis, c) == s.faces(axis, c)
  {
    if c in missing {
      assert WallsOnly(s, c);
      assert WallBelow(s, c, axis);
    }
  }

  /** Both faces of a near cell on an axis it is not offset along are known. */
  lemma CentreKnown(s: Sample, s': Sample, missing: seq<Cell>, c: Cell, axis: nat, q: Cell)
    requires CheckCoverage(s, missing).Ok? && SameKnown(s, s', missing) && axis < 3
    requires IsMeasured(s, c) && Near(c, q) && q.On(axis) == c.On(axis)
    ensures Centred(s', axis, q) == Centred(s, axis, q)
    ensures s'.faces(axis, q) == s.faces(axis, q) && s'.faces(axis, q.Up(axis)) == s.faces(axis, q.Up(axis))
  {
    hide CheckCoverage; hide SameKnown; hide Sample.InSmoke;
    assert Near(c, Down(q, axis)) && Near(c, q.Up(axis));
    FluidFaceKnown(s, s', missing, axis, q);
    assert Down(q.Up(axis), axis) == q;
    FluidFaceKnown(s, s', missing, axis, q.Up(axis));
  }

  /** A measured cell adds the same to every metric. */
  lemma CellUnchanged(s: Sample, s': Sample, missing: seq<Cell>, t: Totals, c: Cell)
    requires s.dx != 0.0 && CheckCoverage(s, missing).Ok? && SameKnown(s, s', missing)
    ensures s'.dx != 0.0 && Visit(s', t, c) == Visit(s, t, c)
  {
    MeasuredUnchanged(s, s', missing, c);
    hide CheckCoverage; hide CurlSquared; hide SpeedSquared; hide IsMeasured; hide FaceDivergence; hide AddCell;
    if IsMeasured(s, c) {
      OwnFaces(s, s', missing, c);
      CurlUnchanged(s, s', missing, c);
      AddsSame(s, s', t, c);
    }
  }

  lemma AddsSame(s: Sample, s': Sample, t: Totals, c: Cell)
    requires s.dx != 0.0 && c.x > 0 && c.y > 0 && c.z > 0 && s'.dx == s.dx && s'.root == s.root
    requires FaceDivergence(s', c) == FaceDivergence(s, c) && SpeedSquared(s', c) == SpeedSquared(s, c)
      && CurlSquared(s', c) == CurlSquared(s, c)
    ensures AddCell(s', t, c) == AddCell(s, t, c)
  {
    hide CurlSquared; hide SpeedSquared; hide FaceDivergence; hide AddShare;
  }

  lemma MeasuredUnchanged(s: Sample, s': Sample, missing: seq<Cell>, c: Cell)
    requires SameKnown(s, s', missing)
    ensures IsMeasured(s', c) <==> IsMeasured(s, c)
    ensures IsMeasured(s, c) ==> c.x > 0 && c.y > 0 && c.z > 0
  {
  }

  lemma CurlUnchanged(s: Sample, s': Sample, missing: seq<Cell>, c: Cell)
    requires s.dx != 0.0 && CheckCoverage(s, missing).Ok? && SameKnown(s, s', missing) && IsMeasured(s, c)
    ensures c.x > 0 && c.y > 0 && c.z > 0 && s'.dx != 0.0 && CurlSquared(s', c) == CurlSquared(s, c)
  {
    hide CheckCoverage; hide Slope;
    SlopeKnown(s, s', missing, c, 2, 1);
    SlopeKnown(s, s', missing, c, 1, 2);
    SlopeKnown(s, s', missing, c, 0, 2);
    SlopeKnown(s, s', missing, c, 2, 0);
    SlopeKnown(s, s', missing, c, 1, 0);
    SlopeKnown(s, s', missing, c, 0, 1);
  }

  lemma OwnFaces(s: Sample, s': Sample, missing: seq<Cell>, c: Cell)
    requires s.dx != 0.0 && CheckCoverage(s, missing).Ok? && SameKnown(s, s', missing) && IsMeasured(s, c)
    ensures s'.dx == s.dx && FaceDivergence(s', c) == FaceDivergence(s, c) && SpeedSquared(s', c) == SpeedSquared(s, c)
  {
    hide CheckCoverage; hide IsMeasured;
    forall axis: nat | axis < 3
      ensures Centred(s', axis, c) == Centred(s, axis, c)
      ensures s'.faces(axis, c) == s.faces(axis, c) && s'.faces(axis, c.Up(axis)) == s.faces(axis, c.Up(axis))
    {
      CentreKnown(s, s', missing, c, axis, c);
    }
    assert s'.faces(0, c) == s.faces(0, c) && s'.faces(1, c) == s.faces(1, c) && s'.faces(2, c) == s.faces(2, c);
    assert Centred(s', 0, c) == Centred(s, 0, c) && Centred(s', 1, c) == Centred(s, 1, c)
      && Centred(s', 2, c) == Centred(s, 2, c);
  }

  lemma SlopeKnown(s: Sample, s': Sample, missing: seq<Cell>, c: Cell, a: nat, axis: nat)
    requires s.dx != 0.0 && CheckCoverage(s, missing).Ok? && SameKnown(s, s', missing) && IsMeasured(s, c) && a < 3
      && axis < 3 && a != axis
    ensures c.On(axis) > 0 && s'.dx == s.dx && Slope(s', a, axis, c) == Slope(s, a, axis, c)
  {
    hide CheckCoverage; hide Centred;
    CentreKnown(s, s', missing, c, a, c.Up(axis));
    CentreKnown(s, s', missing, c, a, Down(c, axis));
  }

  lemma {:induction false} RowUnchanged(s: Sample, s': Sample, missing: seq<Cell>, t: Totals, j: nat, k: nat, n: nat)
    requires s.dx != 0.0 && s'.dx != 0.0 && CheckCoverage(s, missing).Ok? && SameKnown(s, s', missing)
    ensures RowTotals(s', t, j, k, n) == RowTotals(s, t, j, k, n)
  {
    hide CheckCoverage; hide SameKnown; hide Visit;
    if n > 0 {
      RowUnchanged(s, s', missing, t, j, k, n - 1);
      CellUnchanged(s, s', missing, RowTotals(s, t, j, k, n - 1), Cell(n - 1, j, k));
    }
  }

  lemma {:induction false} PlaneUnchanged(s: Sample, s': Sample, missing: seq<Cell>, t: Totals, k: nat, n: nat)
    requires s.dx != 0.0 && s'.dx != 0.0 && CheckCoverage(s, missing).Ok? && SameKnown(s, s', missing)
    ensures PlaneTotals(s', t, k, n) == PlaneTotals(s, t, k, n)
  {
    hide CheckCoverage; hide RowTotals;
    if n > 0 {
      PlaneUnchanged(s, s', missing, t, k, n - 1);
      RowUnchanged(s, s', missing, PlaneTotals(s, t, k, n - 1), n - 1, k, s.cells.x);
    }
  }

  /** A frame the check accepts gives the same velocity metrics whatever is
      put in its missing cells' faces or in any face at the domain's far edge. */
  lemma {:induction false} MetricsUnchanged(s: Sample, s': Sample, missing: seq<Cell>, t: Totals, n: nat)
    requires s.dx != 0.0 && s'.dx != 0.0 && CheckCoverage(s, missing).Ok? && SameKnown(s, s', missing)
    ensures BoxTotals(s', t, n) == BoxTotals(s, t, n)
  {
    hide CheckCoverage; hide PlaneTotals;
    if n > 0 {
      MetricsUnchanged(s, s', missing, t, n - 1);
      PlaneUnchanged(s, s', missing, BoxTotals(s, t, n - 1), n - 1, s.cells.y);
    }
  }
}
