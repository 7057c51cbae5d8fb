/** The fluid cells of a level, numbered (elements-ember `shaders/residual.wgsl`,
    `pressure_level.wgsl`, `restrict.wgsl`, `prolong_add.wgsl`): what the kernels
    read around a cell of the grid is what the solve's matrices say, row by row. */
module FluidCells {
  import opened Device
  import opened Geometry
  import opened Kernels
  import opened Vectors
  import Mgpcg
  import Transfers

  type Grid = Cell -> real

  /** `cells` lists the cells `inside`, each once. */
  ghost predicate Numbers(cells: seq<Cell>, inside: Cell -> bool) {
    && (forall i, j :: 0 <= i < j < |cells| ==> cells[i] != cells[j])
    && (forall c: Cell :: c in cells <==> inside(c))
  }

  function Values(cells: seq<Cell>, f: Grid): (v: Vec)
    ensures |v| == |cells| && forall i :: 0 <= i < |v| ==> v[i] == f(cells[i])
  {
    seq(|cells|, i requires 0 <= i < |cells| => f(cells[i]))
  }

  function One(): Grid {
    (c: Cell) => 1.0
  }

  // ------------------------------------------------------------ the walk around a cell

  function Down(c: Cell, axis: nat): Cell {
    if axis == 0 then c.(x := if c.x > 0 then c.x - 1 else 0)
    else if axis == 1 then c.(y := if c.y > 0 then c.y - 1 else 0)
    else c.(z := if c.z > 0 then c.z - 1 else 0)
  }

  /** The cell on one side of `c`, where the grid goes on. */
  function Beside(c: Cell, axis: nat, high: bool): Cell {
    if high then c.Up(axis) else Down(c, axis)
  }

  predicate IsBeside(c: Cell, q: Cell, axis: nat, high: bool) {
    if high then q == c.Up(axis) else c == q.Up(axis)
  }

  lemma BesideIs(c: Cell, q: Cell, axis: nat, high: bool)
    requires axis < 3
    ensures IsBeside(c, q, axis, high) <==> (high || c.On(axis) > 0) && q == Beside(c, axis, high)
  {
  }

  lemma NothingTimes(a: real)
    ensures Product(0.0, a) == 0.0
  {
  }

  /** What a level's kernels are bound to: its stencil, its solid cells, the
      squared spacing and the pressure scale. */
  datatype Bound = Bound(s: Stencil, solid: Cell -> bool, dx2: real, scale: real)
  {
    ghost predicate Valid() {
      s.Valid() && dx2 > 0.0 && scale > 0.0
    }

    predicate InGrid(c: Cell) {
      c.x < s.shape.x.n && c.y < s.shape.y.n && c.z < s.shape.z.n
    }

    function Fluid(): Cell -> bool {
      (c: Cell) => InGrid(c) && !solid(c)
    }

    /** The grid goes on past `c` on that side. */
    predicate GoesOn(c: Cell, axis: nat, high: bool) {
      if high then c.On(axis) + 1 < s.AxisOf(axis).n else c.On(axis) > 0
    }

    /** What the face on one side of `c` adds to the weighted sum of `p`. */
    function FaceSum(c: Cell, axis: nat, high: bool, p: Grid): real {
      var q := Beside(c, axis, high);
      if GoesOn(c, axis, high) && !solid(q) then Share(c, q, axis, high, p) else 0.0
    }

    function Share(c: Cell, q: Cell, axis: nat, high: bool, p: Grid): real {
      Product(s.InnerWeight(c, q, axis, high), p(q))
    }

    function WalkSum(c: Cell, p: Grid): real {
      FaceSum(c, 0, false, p) + FaceSum(c, 0, true, p) + FaceSum(c, 1, false, p)
      + FaceSum(c, 1, true, p) + FaceSum(c, 2, false, p) + FaceSum(c, 2, true, p)
    }

    /** What it adds to the count: an open face of the domain counts too. */
    function FaceCount(c: Cell, axis: nat, high: bool): real {
      if GoesOn(c, axis, high) then FaceSum(c, axis, high, One())
      else if s.open(axis, if high then 1 else 0) then s.OpenWeight(c, axis, high) else 0.0
    }

    function WalkCount(c: Cell): real {
      FaceCount(c, 0, false) + FaceCount(c, 0, true) + FaceCount(c, 1, false)
      + FaceCount(c, 1, true) + FaceCount(c, 2, false) + FaceCount(c, 2, true)
    }

    /** The level whose matrices the solve's results are about. */
    ghost predicate Numbered(level: Level, cells: seq<Cell>) {
      && Valid() && Numbers(cells, Fluid()) && level.kappa > 0.0 && level.k > 0.0
      && level == s.LevelOver(cells, scale / dx2, level.prolong, level.kappa)
    }

    // -------------------------------------------------- the walk is a row

    /** What one side adds once the cells in `met` have been met. */
    function Met(c: Cell, axis: nat, high: bool, p: Grid, met: seq<Cell>): real {
      var q := Beside(c, axis, high);
      if (high || c.On(axis) > 0) && q in met then Share(c, q, axis, high, p) else 0.0
    }

    function MetSum(c: Cell, p: Grid, met: seq<Cell>): real {
      Met(c, 0, false, p, met) + Met(c, 0, true, p, met) + Met(c, 1, false, p, met)
      + Met(c, 1, true, p, met) + Met(c, 2, false, p, met) + Met(c, 2, true, p, met)
    }

    /** What `q` adds if it is the neighbour on that side. */
    function Own(c: Cell, q: Cell, axis: nat, high: bool, p: Grid): real {
      if IsBeside(c, q, axis, high) then Share(c, q, axis, high, p) else 0.0
    }

    lemma MeetFace(c: Cell, axis: nat, high: bool, p: Grid, met: seq<Cell>, q: Cell)
      requires axis < 3 && q !in met
      ensures Met(c, axis, high, p, met + [q]) == Met(c, axis, high, p, met) + Own(c, q, axis, high, p)
    {
      hide Bound.Share; hide Beside; hide IsBeside;
      BesideIs(c, q, axis, high);
    }

    /** One more cell adds its entry of the row. */
    lemma MeetOne(c: Cell, p: Grid, met: seq<Cell>, q: Cell)
      requires q !in met
      ensures MetSum(c, p, met + [q]) == MetSum(c, p, met) + Product(s.Weight(c, q), p(q))
    {
      hide Bound.Met; hide Bound.Own; hide Product; hide Stencil.Weight;
      MeetFace(c, 0, false, p, met, q);
      MeetFace(c, 0, true, p, met, q);
      MeetFace(c, 1, false, p, met, q);
      MeetFace(c, 1, true, p, met, q);
      MeetFace(c, 2, false, p, met, q);
      MeetFace(c, 2, true, p, met, q);
      EntryIs(c, q, p);
    }

    /** A cell is beside `c` on one side at most. */
    lemma EntryIs(c: Cell, q: Cell, p: Grid)
      ensures Product(s.Weight(c, q), p(q)) == Own(c, q, 0, false, p) + Own(c, q, 0, true, p) + Own(c, q, 1, false, p)
        + Own(c, q, 1, true, p) + Own(c, q, 2, false, p) + Own(c, q, 2, true, p)
    {
      hide Product; hide Stencil.InnerWeight;
      NothingTimes(p(q));
    }

    lemma {:induction false} RowMeets(level: Level, cells: seq<Cell>, i: nat, p: Grid, m: nat)
      requires Numbered(level, cells) && i < |cells| && m <= |cells|
      ensures RowTo(level.weight, i, Values(cells, p), m) == MetSum(cells[i], p, cells[..m])
    {
      hide Product; hide Stencil.Weight; hide Bound.Valid; hide Bound.Fluid; hide RowTo; hide Bound.MetSum;
      RowStep(level.weight, i, Values(cells, p), m);
      if m == 0 {
        NobodyMet(cells[i], p);
      } else {
        RowMeets(level, cells, i, p, m - 1);
        assert cells[..m] == cells[..m - 1] + [cells[m - 1]];
        MeetOne(cells[i], p, cells[..m - 1], cells[m - 1]);
      }
    }

    lemma NobodyMet(c: Cell, p: Grid)
      ensures MetSum(c, p, []) == 0.0
    {
    }

    /** Once every fluid cell has been met, a side adds what the kernel adds. */
    lemma AllMet(c: Cell, axis: nat, high: bool, p: Grid, cells: seq<Cell>)
      requires axis < 3 && InGrid(c) && Numbers(cells, Fluid())
      ensures Met(c, axis, high, p, cells) == FaceSum(c, axis, high, p)
    {
      hide Bound.Share;
    }

    /** The six-neighbour walk is the matrix's row: the weighted sum and the
        total weight alike, open faces included. */
    lemma WalkIsRow(level: Level, cells: seq<Cell>, i: nat, p: Grid)
      requires Numbered(level, cells) && i < |cells|
      ensures WalkSum(cells[i], p) == level.Around(i, Values(cells, p))
      ensures WalkCount(cells[i]) == level.Count(i)
    {
      assert InGrid(cells[i]) by { assert cells[i] in cells; }
      assert cells[..|cells|] == cells;
      assert Values(cells, One()) == Ones(|cells|);
      hide Bound.Met; hide Bound.FaceSum; hide Bound.Valid; hide Bound.Fluid; hide RowTo; hide Stencil.OpenAround;
      RowMeets(level, cells, i, p, |cells|);
      RowMeets(level, cells, i, One(), |cells|);
      forall axis: nat, high: bool, f: Grid | axis < 3 && f in {p, One()}
        ensures Met(cells[i], axis, high, f, cells) == FaceSum(cells[i], axis, high, f)
      {
        AllMet(cells[i], axis, high, f, cells);
      }
      CountSplits(cells[i]);
    }

    lemma CountSplits(c: Cell)
      requires InGrid(c)
      ensures WalkCount(c) == WalkSum(c, One()) + s.OpenAround(c)
    {
      hide Bound.Share; hide Stencil.OpenWeight;
    }

    // -------------------------------------------------- the kernels

    /** One face of the walk. */
    method Look(c: Cell, axis: nat, high: bool, p: Grid, sum0: real, count0: real) returns (sum: real, count: real)
      requires axis < 3 && InGrid(c)
      ensures sum == sum0 + FaceSum(c, axis, high, p) && count == count0 + FaceCount(c, axis, high)
    {
      sum, count := sum0, count0;
      if (if high then c.On(axis) + 1 < s.AxisOf(axis).n else c.On(axis) > 0) {
        var q := Beside(c, axis, high);
        if !solid(q) {
          var w := s.InnerWeight(c, q, axis, high);
          sum := sum + w * p(q);
          count := count + w;
        }
      } else if s.open(axis, if high then 1 else 0) {
        count := count + s.OpenWeight(c, axis, high);
      }
    }

    method Walk(c: Cell, p: Grid) returns (sum: real, count: real)
      requires InGrid(c)
      ensures sum == WalkSum(c, p) && count == WalkCount(c)
    {
      hide Bound.FaceSum; hide Bound.FaceCount;
      sum, count := 0.0, 0.0;
      sum, count := Look(c, 0, false, p, sum, count);
      sum, count := Look(c, 0, true, p, sum, count);
      sum, count := Look(c, 1, false, p, sum, count);
      sum, count := Look(c, 1, true, p, sum, count);
      sum, count := Look(c, 2, false, p, sum, count);
      sum, count := Look(c, 2, true, p, sum, count);
    }

    lemma ListedIsFluid(cells: seq<Cell>, i: nat)
      requires Numbers(cells, Fluid()) && i < |cells|
      ensures InGrid(cells[i]) && !solid(cells[i])
    {
      assert cells[i] in cells;
    }

    lemma ResidualRow(level: Level, cells: seq<Cell>, i: nat, p: Grid, div: Grid)
      requires Numbered(level, cells) && i < |cells|
      ensures var c := cells[i];
        Minus(Values(cells, div), level.ApplyA(Values(cells, p)))[i]
          == KernelResidual(scale, dx2, div(c), WalkSum(c, p), WalkCount(c), p(c))
    {
      hide Bound.WalkSum; hide Bound.WalkCount; hide Level.Valid; hide Level.Around; hide Level.Count;
      hide Level.ApplyA;
      hide KernelResidual; hide Level.Residual;
      var x, b, c := Values(cells, p), Values(cells, div), cells[i];
      s.LevelIsValid(cells, scale / dx2, level.prolong, level.kappa);
      WalkIsRow(level, cells, i, p);
      level.ResidualIs(x, b);
      ResidualAt(level, x, b, i);
      SameResidual(scale, dx2, div(c), WalkSum(c, p), WalkCount(c), p(c));
    }

    lemma RelaxedRow(level: Level, cells: seq<Cell>, i: nat, p: Grid, div: Grid, colour: bool)
      requires Numbered(level, cells) && i < |cells|
      ensures var c, x := cells[i], Values(cells, p);
        Plus(x, level.Jacobi(colour, Minus(Values(cells, div), level.ApplyA(x))))[i]
          == if c.Red() != colour || WalkCount(c) == 0.0 then p(c)
             else KernelRelaxed(scale, dx2, div(c), WalkSum(c, p), WalkCount(c))
    {
      hide Bound.WalkSum; hide Bound.WalkCount; hide Level.Valid; hide Level.Around; hide Level.Count;
      hide Level.ApplyA;
      hide KernelRelaxed; hide Level.Relaxed; hide Level.Jacobi; hide Cell.Red;
      var x, b, c := Values(cells, p), Values(cells, div), cells[i];
      s.LevelIsValid(cells, scale / dx2, level.prolong, level.kappa);
      WalkIsRow(level, cells, i, p);
      level.RelaxIs(x, b, colour);
      RelaxedAt(level, x, b, colour, i);
      if WalkCount(c) != 0.0 { SameRelaxed(scale, dx2, div(c), WalkSum(c, p), WalkCount(c)); }
    }

    /** `residual.wgsl` for one cell: the matrix's residual, and 0 where solid. */
    method Residual(ghost level: Level, ghost cells: seq<Cell>, c: Cell, p: Grid, div: Grid) returns (r: real)
      requires Numbered(level, cells) && InGrid(c)
      ensures r == if solid(c) then 0.0 else div(c) - scale * ((WalkSum(c, p) - WalkCount(c) * p(c)) / dx2)
      ensures forall i :: 0 <= i < |cells| && cells[i] == c ==>
        r == Minus(Values(cells, div), level.ApplyA(Values(cells, p)))[i]
    {
      hide Bound.WalkSum; hide Bound.WalkCount; hide Level.ApplyA; hide Numbers;
      forall i | 0 <= i < |cells| && cells[i] == c
        ensures !solid(c)
        ensures Minus(Values(cells, div), level.ApplyA(Values(cells, p)))[i]
          == KernelResidual(scale, dx2, div(c), WalkSum(c, p), WalkCount(c), p(c))
      {
        ListedIsFluid(cells, i);
        ResidualRow(level, cells, i, p, div);
      }
      if solid(c) { return 0.0; }
      var sum, count := Walk(c, p);
      var lap := (sum - count * p(c)) / dx2;
      r := div(c) - scale * lap;
    }

    /** `pressure_level.wgsl` for one cell of one colour's pass: what the cell
        holds afterwards. */
    method Relax(ghost level: Level, ghost cells: seq<Cell>, c: Cell, p: Grid, div: Grid, colour: bool)
      returns (v: real)
      requires Numbered(level, cells) && InGrid(c)
      ensures solid(c) ==> v == if c.Red() == colour then 0.0 else p(c)
      ensures c.Red() != colour || (!solid(c) && WalkCount(c) == 0.0) ==> v == p(c)
      ensures c.Red() == colour && !solid(c) && WalkCount(c) != 0.0 ==>
        div(c) == scale * ((WalkSum(c, p) - WalkCount(c) * v) / dx2)
      ensures forall i :: 0 <= i < |cells| && cells[i] == c ==>
        var x := Values(cells, p);
        v == Plus(x, level.Jacobi(colour, Minus(Values(cells, div), level.ApplyA(x))))[i]
    {
      hide Bound.WalkSum; hide Bound.WalkCount; hide Level.ApplyA; hide Level.Jacobi; hide Numbers; hide KernelRelaxed;
      forall i | 0 <= i < |cells| && cells[i] == c
        ensures !solid(c)
        ensures var x := Values(cells, p);
          Plus(x, level.Jacobi(colour, Minus(Values(cells, div), level.ApplyA(x))))[i]
            == if c.Red() != colour || WalkCount(c) == 0.0 then p(c)
               else KernelRelaxed(scale, dx2, div(c), WalkSum(c, p), WalkCount(c))
      {
        ListedIsFluid(cells, i);
        RelaxedRow(level, cells, i, p, div, colour);
      }
      v := p(c);
      if c.Red() != colour { return; }
      if solid(c) { return 0.0; }
      var sum, count := Walk(c, p);
      if count == 0.0 { return; }
      v := KernelRelaxed(scale, dx2, div(c), sum, count);
      RelaxedSolves(scale, dx2, div(c), sum, count);
    }
  }

  // ------------------------------------------------------------ the same numbers, divided in another order

  function KernelResidual(scale: real, dx2: real, b: real, sum: real, count: real, v: real): real
    requires dx2 != 0.0
  {
    b - scale * ((sum - count * v) / dx2)
  }

  lemma SameResidual(scale: real, dx2: real, b: real, sum: real, count: real, v: real)
    requires dx2 != 0.0
    ensures KernelResidual(scale, dx2, b, sum, count, v) == b - Product(scale / dx2, sum - Product(count, v))
  {
    Divided(scale, sum - count * v, dx2);
  }

  lemma Divided(k: real, v: real, d: real)
    requires d != 0.0
    ensures k * (v / d) == k / d * v
  {
  }

  /** What the sweep stores: the right-hand side taken from the sum, over the count. */
  function KernelRelaxed(scale: real, dx2: real, b: real, sum: real, count: real): real
    requires scale != 0.0 && count != 0.0
  {
    (sum - dx2 * b / scale) / count
  }

  /** What the sweep stores solves the cell's own equation. */
  lemma RelaxedSolves(scale: real, dx2: real, b: real, sum: real, count: real)
    requires scale > 0.0 && dx2 > 0.0 && count != 0.0
    ensures b == scale * ((sum - count * KernelRelaxed(scale, dx2, b, sum, count)) / dx2)
  {
    var v, q := KernelRelaxed(scale, dx2, b, sum, count), dx2 * b / scale;
    Undone(sum - q, count);
    assert sum - count * v == q;
    Undone(dx2 * b, scale);
    Undone(q, dx2);
    var t := q / dx2;
    assert t * dx2 == q && q * scale == dx2 * b;
    assert (scale * t - b) * dx2 == 0.0;
  }

  lemma SameRelaxed(scale: real, dx2: real, b: real, sum: real, count: real)
    requires scale > 0.0 && dx2 > 0.0 && count != 0.0
    ensures scale / dx2 > 0.0
    ensures KernelRelaxed(scale, dx2, b, sum, count) == (sum - b / (scale / dx2)) / count
  {
    Positive(scale, dx2);
    Inverted(b, scale, dx2);
  }

  lemma Positive(k: real, d: real)
    requires k > 0.0 && d > 0.0
    ensures k / d > 0.0
  {
  }

  lemma Inverted(v: real, k: real, d: real)
    requires k != 0.0 && d != 0.0 && k / d != 0.0
    ensures v / (k / d) == d * v / k
  {
    var q := k / d;
    Undone(k, d);
    Undone(v, q);
    Undone(d * v, k);
    Joined(v / q, d * v / k, q, d, k, v);
  }

  lemma Undone(a: real, b: real)
    requires b != 0.0
    ensures a / b * b == a
  {
  }

  lemma Joined(a: real, b: real, q: real, d: real, k: real, v: real)
    requires k != 0.0 && q * d == k && a * q == v && b * k == d * v
    ensures a == b
  {
    assert a * k == d * (a * q);
    assert (a - b) * k == 0.0;
  }

  lemma ResidualAt(level: Level, x: Vec, b: Vec, i: nat)
    requires |x| == |b| == level.n && i < level.n
    ensures level.Residual(x, b)[i] == b[i] - Product(level.k, level.Around(i, x) - Product(level.Count(i), x[i]))
  {
    hide Level.Around; hide Level.Count;
  }

  lemma RelaxedAt(level: Level, x: Vec, b: Vec, colour: bool, i: nat)
    requires |x| == |b| == level.n && i < level.n && level.k != 0.0
    ensures level.Relaxed(x, b, colour)[i]
      == if level.red(i) == colour && level.Count(i) != 0.0 then
           (level.Around(i, x) - b[i] / level.k) / level.Count(i)
         else x[i]
  {
    hide Level.Around; hide Level.Count;
  }

  /** On the finest level, without fractions, every face weighs exactly 1. */
  lemma FineFacesAreOne(s: Stencil, c: Cell, q: Cell, axis: nat, high: bool)
    requires forall a: nat :: s.On(a) == Weights(1.0, 1.0, 1.0, 1.0, 1.0)
    requires forall f: Cell :: s.root(f) == 1.0
    ensures s.InnerWeight(c, q, axis, high) == 1.0 && s.OpenWeight(c, axis, high) == 1.0
  {
    assert s.Extent(c, 0) == 1.0 && s.Extent(c, 1) == 1.0 && s.Extent(c, 2) == 1.0;
  }

  /** A domain of one cell with an open face is one `Mgpcg.LeavesTextbook` speaks of. */
  lemma OneCellDomain(s: Stencil, k: real, prolong: Matrix)
    requires s.Valid() && k > 0.0 && s.OpenAround(Cell(0, 0, 0)) > 0.0
    ensures Mgpcg.IsOneCell(s.LevelOver([Cell(0, 0, 0)], k, prolong, 1.0))
  {
    hide Stencil.Valid; hide Stencil.OpenAround; hide Level.Valid;
    s.LevelIsValid([Cell(0, 0, 0)], k, prolong, 1.0);
  }

  // ------------------------------------------------------------ sums over the grid

  lemma {:induction false} SumChange(f: nat -> real, g: nat -> real, j: nat, n: nat)
    requires forall i: nat :: i != j ==> f(i) == g(i)
    ensures Transfers.SumTo(f, n) == Transfers.SumTo(g, n) + if j < n then f(j) - g(j) else 0.0
  {
    if n > 0 { SumChange(f, g, j, n - 1); }
  }

  /** Changing one cell of a grid changes its sum by as much. */
  lemma SumChange3(f: Grid, g: Grid, q: Cell, nx: nat, ny: nat, nz: nat)
    requires q.x < nx && q.y < ny && q.z < nz
    requires forall c: Cell :: c != q ==> f(c) == g(c)
    ensures Transfers.Sum3(f, nx, ny, nz) == Transfers.Sum3(g, nx, ny, nz) + f(q) - g(q)
  {
    hide Transfers.SumTo;
    forall y: nat, z: nat
      ensures Transfers.AlongY(f, z, nx)(y)
        == Transfers.AlongY(g, z, nx)(y) + if y == q.y && z == q.z then f(q) - g(q) else 0.0
    {
      SumChange(Transfers.AlongX(f, y, z), Transfers.AlongX(g, y, z), q.x, nx);
    }
    forall z: nat
      ensures Transfers.AlongZ(f, nx, ny)(z) == Transfers.AlongZ(g, nx, ny)(z) + if z == q.z then f(q) - g(q) else 0.0
    {
      SumChange(Transfers.AlongY(f, z, nx), Transfers.AlongY(g, z, nx), q.y, ny);
    }
    SumChange(Transfers.AlongZ(f, nx, ny), Transfers.AlongZ(g, nx, ny), q.z, nz);
  }

  predicate InBox(c: Cell, nx: nat, ny: nat, nz: nat) {
    c.x < nx && c.y < ny && c.z < nz
  }

  lemma EmptyBox(f: Grid, nx: nat, ny: nat, nz: nat)
    requires forall c: Cell :: InBox(c, nx, ny, nz) ==> f(c) == 0.0
    ensures Transfers.Sum3(f, nx, ny, nz) == 0.0
  {
    hide Transfers.SumTo;
    forall y: nat, z: nat | y < ny && z < nz ensures Transfers.AlongY(f, z, nx)(y) == 0.0 {
      EmptyLine(Transfers.AlongX(f, y, z), nx);
    }
    forall z: nat | z < nz ensures Transfers.AlongZ(f, nx, ny)(z) == 0.0 {
      EmptyLine(Transfers.AlongY(f, z, nx), ny);
    }
    EmptyLine(Transfers.AlongZ(f, nx, ny), nz);
  }

  lemma EmptyLine(f: nat -> real, n: nat)
    requires forall i: nat :: i < n ==> f(i) == 0.0
    ensures Transfers.SumTo(f, n) == 0.0
  {
    Transfers.SumFlat(f, 0, n);
  }

  /** A sum over the listed cells is the sum over the grid, of anything that is
      0 at the grid's other cells. */
  lemma {:induction false} ListedSum(cells: seq<Cell>, f: Grid, nx: nat, ny: nat, nz: nat)
    requires forall i, j :: 0 <= i < j < |cells| ==> cells[i] != cells[j]
    requires forall i :: 0 <= i < |cells| ==> InBox(cells[i], nx, ny, nz)
    requires forall c: Cell :: InBox(c, nx, ny, nz) && c !in cells ==> f(c) == 0.0
    ensures SumTo(Values(cells, f), |cells|) == Transfers.Sum3(f, nx, ny, nz)
  {
    hide Transfers.Sum3; hide SumTo;
    if cells == [] {
      EmptyBox(f, nx, ny, nz);
      NothingListed(Values(cells, f));
    } else {
      var m := |cells| - 1;
      var q := cells[m];
      var g := (c: Cell) => if c == q then 0.0 else f(c);
      assert cells == cells[..m] + [q];
      ListedSum(cells[..m], g, nx, ny, nz);
      SumChange3(f, g, q, nx, ny, nz);
      LastListed(cells, f, g);
    }
  }

  lemma NothingListed(v: Vec)
    ensures SumTo(v, 0) == 0.0
  {
  }

  lemma LastListed(cells: seq<Cell>, f: Grid, g: Grid)
    requires |cells| > 0
    requires forall i :: 0 <= i < |cells| - 1 ==> f(cells[i]) == g(cells[i])
    ensures var m := |cells| - 1;
      SumTo(Values(cells, f), |cells|) == SumTo(Values(cells[..m], g), m) + f(cells[m])
  {
    SamePrefix(Values(cells, f), Values(cells[..|cells| - 1], g), |cells| - 1);
  }

  lemma {:induction false} SamePrefix(u: Vec, v: Vec, n: nat)
    requires n <= |u| && n <= |v| && forall i :: 0 <= i < n ==> u[i] == v[i]
    ensures SumTo(u, n) == SumTo(v, n)
  {
    if n > 0 { SamePrefix(u, v, n - 1); }
  }

  // ------------------------------------------------------------ the transfers are the hierarchy's

  lemma RestrictedRow(h: Hierarchy, l: nat, r: Vec, j: nat)
    requires l + 1 < h.Depth() && |r| == h.Cells(l) && j < h.Cells(l + 1)
    ensures h.Restricted(l, r)[j] == Product(h.levels[l].kappa, RowTo(Transpose(h.levels[l].prolong), j, r, |r|))
  {
    hide RowTo;
  }

  /** A transfer between the grids of two levels, and those levels' fluid cells,
      fine and coarse, numbered. */
  datatype Levelled = Levelled(t: Transfers.Transfer, fine: seq<Cell>, coarse: seq<Cell>)
  {
    ghost predicate Valid() {
      && t.Valid()
      && Numbers(fine, (f: Cell) => InBox(f, t.x.fine.n, t.y.fine.n, t.z.fine.n) && !t.IsSolid(f))
      && Numbers(coarse, (c: Cell) => t.InCoarse(c) && !t.IsCoarseSolid(c))
    }

    /** The prolongation's matrix on those numbers. */
    function Entries(): Matrix
      requires t.Valid()
    {
      (i: nat, j: nat) => if i < |fine| && j < |coarse| then t.P(fine[i], coarse[j]) else 0.0
    }

    function Kappa(): real {
      t.x.Kappa() * t.y.Kappa() * t.z.Kappa()
    }

    /** Level `l` of the hierarchy carries this transfer. */
    ghost predicate Carried(h: Hierarchy, l: nat) {
      && Valid() && l + 1 < h.Depth() && h.Cells(l) == |fine| && h.Cells(l + 1) == |coarse|
      && h.levels[l].prolong == Entries() && h.levels[l].kappa == Kappa()
    }

    lemma {:induction false} RowIsSum(i: nat, e: Grid, m: nat)
      requires t.Valid() && i < |fine| && m <= |coarse|
      ensures RowTo(Entries(), i, Values(coarse, e), m) == SumTo(Values(coarse, t.Row(fine[i], e)), m)
    {
      hide Transfers.Transfer.P;
      if m > 0 { RowIsSum(i, e, m - 1); }
    }

    lemma {:induction false} ColumnIsSum(j: nat, r: Grid, m: nat)
      requires t.Valid() && j < |coarse| && m <= |fine|
      ensures RowTo(Transpose(Entries()), j, Values(fine, r), m) == SumTo(Values(fine, t.Column(coarse[j], r)), m)
    {
      hide Transfers.Transfer.P;
      if m > 0 { ColumnIsSum(j, r, m - 1); }
    }

    lemma CellIsSum(f: Cell, e: Grid)
      requires Valid() && !t.IsSolid(f)
      ensures SumTo(Values(coarse, t.Row(f, e)), |coarse|) == t.Prolonged(f, e)
    {
      hide Transfers.AxisPair.Weight; hide SumTo; hide Transfers.Sum3;
      forall c: Cell | t.InCoarse(c) && c !in coarse ensures t.Row(f, e)(c) == 0.0 {
        assert t.P(f, c) == 0.0;
      }
      forall i | 0 <= i < |coarse| ensures t.InCoarse(coarse[i]) { assert coarse[i] in coarse; }
      ListedSum(coarse, t.Row(f, e), t.x.Coarse().n, t.y.Coarse().n, t.z.Coarse().n);
    }

    lemma GatheredIsSum(c: Cell, r: Grid)
      requires Valid() && !t.IsCoarseSolid(c)
      ensures Product(Kappa(), SumTo(Values(fine, t.Column(c, r)), |fine|)) == t.Restricted(c, r)
    {
      hide Transfers.AxisPair.Weight; hide SumTo; hide Transfers.Sum3;
      forall f: Cell | InBox(f, t.x.fine.n, t.y.fine.n, t.z.fine.n) && f !in fine ensures t.Column(c, r)(f) == 0.0 {
        assert t.P(f, c) == 0.0;
      }
      forall i | 0 <= i < |fine| ensures InBox(fine[i], t.x.fine.n, t.y.fine.n, t.z.fine.n) { assert fine[i] in fine; }
      ListedSum(fine, t.Column(c, r), t.x.fine.n, t.y.fine.n, t.z.fine.n);
    }

    /** What `prolong_add.wgsl` adds to a fine fluid cell is the hierarchy's
        prolongation there. */
    lemma ProlongationIs(h: Hierarchy, l: nat, e: Grid, i: nat)
      requires Carried(h, l) && i < |fine|
      ensures h.Prolonged(l, Values(coarse, e))[i] == t.Prolonged(fine[i], e)
    {
      assert !t.IsSolid(fine[i]) by { assert fine[i] in fine; }
      hide Transfers.Transfer.P; hide SumTo; hide RowTo; hide Transfers.Transfer.Prolonged; hide Levelled.Entries;
      hide Levelled.Valid;
      RowIsSum(i, e, |coarse|);
      CellIsSum(fine[i], e);
    }

    /** What `restrict.wgsl` leaves at a coarse fluid cell is the hierarchy's
        restriction there. */
    lemma RestrictionIs(h: Hierarchy, l: nat, r: Grid, j: nat)
      requires Carried(h, l) && j < |coarse|
      ensures h.Restricted(l, Values(fine, r))[j] == t.Restricted(coarse[j], r)
    {
      assert !t.IsCoarseSolid(coarse[j]) by { assert coarse[j] in coarse; }
      hide Transfers.Transfer.P; hide SumTo; hide RowTo; hide Transfers.Transfer.Restricted; hide Levelled.Entries;
      hide Levelled.Valid;
      hide Levelled.Kappa; hide Product; hide Hierarchy.Restricted;
      RestrictedRow(h, l, Values(fine, r), j);
      ColumnIsSum(j, r, |fine|);
      GatheredIsSum(coarse[j], r);
    }
  }
}
