/** The procedural plank shack (elements-ember `shack.rs`), over the reals. */
module Shacks {
  import opened Meshes

  datatype ShackParams = ShackParams(width: real, depth: real, height: real,
                                     plankHeight: real, thickness: real, gap: real, seed: bv64)
  {
    /** Sizes that make walls: a footprint wider than two thicknesses. */
    predicate Sized() {
      plankHeight > 0.0 && thickness > 0.0 && width > 2.0 * thickness && depth > 2.0 * thickness
    }

    function Pitch(): real {
      plankHeight + gap
    }

    /** Whole rows that fit under the roof. */
    function Rows(): nat
      requires Pitch() != 0.0
    {
      var n := (height / Pitch()).Floor;
      if n < 0 then 0 else n
    }

    function Roof(): Box {
      Box(Point(-width / 2.0 - thickness, -depth / 2.0 - thickness, height),
          Point(width / 2.0 + thickness, depth / 2.0 + thickness, height + thickness))
    }

    function Base(row: nat): real {
      row as real * Pitch()
    }

    /** The rows a wall gets never meet each other, and the roof clears the one
        nearest to it. With a negative pitch rows go down, to a roof below. */
    predicate Spaced()
      requires Pitch() != 0.0
    {
      var n := Rows();
      n == 0 || ((n == 1 || plankHeight <= if Pitch() > 0.0 then Pitch() else -Pitch()) && RoofClears(n - 1))
    }

    predicate RoofClears(row: nat) {
      if Pitch() > 0.0 then Base(row) + plankHeight <= height else height + thickness <= Base(row)
    }

    /** South, north, west and east planks of a row; the side walls sit between
        the front and the back. */
    function Plank(row: nat, wall: nat): Box {
      var hw, hd, t := width / 2.0, depth / 2.0, thickness;
      var z0 := Base(row);
      var z1 := z0 + plankHeight;
      if wall == 0 then Box(Point(-hw, -hd, z0), Point(hw, -hd + t, z1))
      else if wall == 1 then Box(Point(-hw, hd - t, z0), Point(hw, hd, z1))
      else if wall == 2 then Box(Point(-hw, -hd + t, z0), Point(-hw + t, hd - t, z1))
      else Box(Point(hw - t, -hd + t, z0), Point(hw, hd - t, z1))
    }
  }

  // ------------------------------------------------------------ the dice

  /** SplitMix64's state after `n` draws. */
  function StateAfter(seed: bv64, n: nat): bv64 {
    if n == 0 then seed else StateAfter(seed, n - 1) + 0x9E37_79B9_7F4A_7C15
  }

  /** What a state rolls. */
  function Roll(state: bv64): bv64 {
    var a := (state ^ (state >> 30)) * 0xBF58_476D_1CE4_E5B9;
    var b := (a ^ (a >> 27)) * 0x94D0_49BB_1331_11EB;
    b ^ (b >> 31)
  }

  /** SplitMix64's first number from seed 0. */
  lemma FirstRoll()
    ensures Roll(StateAfter(0, 1)) == 0xE220_A839_7B1D_CDAF
  {
  }

  /** Whether plank `n` of the build is kept, by its own roll. */
  function Kept(p: ShackParams, keeps: bv64 -> bool, n: nat): bool {
    keeps(Roll(StateAfter(p.seed, n + 1)))
  }

  /** The roof and the planks kept among the first `n`. */
  function BoxesTo(p: ShackParams, keeps: bv64 -> bool, n: nat): seq<Box> {
    if n == 0 then [p.Roof()] else
      BoxesTo(p, keeps, n - 1) + if Kept(p, keeps, n - 1) then [p.Plank((n - 1) / 4, (n - 1) % 4)] else []
  }

  // ------------------------------------------------------------ what it is made of

  function TotalVolume(boxes: seq<Box>): real {
    if boxes == [] then 0.0 else TotalVolume(boxes[..|boxes| - 1]) + boxes[|boxes| - 1].Volume()
  }

  /** No two boxes share any volume: some axis separates them. */
  predicate Separated(a: Box, b: Box) {
    || a.max.x <= b.min.x || b.max.x <= a.min.x
    || a.max.y <= b.min.y || b.max.y <= a.min.y
    || a.max.z <= b.min.z || b.max.z <= a.min.z
  }

  ghost predicate Apart(boxes: seq<Box>) {
    forall i, j :: 0 <= i < j < |boxes| ==> Separated(boxes[i], boxes[j])
  }

  predicate Holds(b: Box, q: Point) {
    b.min.x <= q.x <= b.max.x && b.min.y <= q.y <= b.max.y && b.min.z <= q.z <= b.max.z
  }

  predicate InRow(p: ShackParams, row: nat, q: Point) {
    row as real * (p.plankHeight + p.gap) <= q.z <= row as real * (p.plankHeight + p.gap) + p.plankHeight
  }

  /** A row's four planks are the footprint's rim, one thickness wide, over the
      row's height; the roof overhangs the footprint by a thickness all round. */
  lemma PlanksAreRim(p: ShackParams, row: nat, q: Point)
    requires p.Sized()
    ensures (exists wall: nat :: wall < 4 && Holds(p.Plank(row, wall), q)) <==>
      && InRow(p, row, q)
      && -p.width <= 2.0 * q.x <= p.width && -p.depth <= 2.0 * q.y <= p.depth
      && (2.0 * q.x <= -p.width + 2.0 * p.thickness || 2.0 * q.x >= p.width - 2.0 * p.thickness
          || 2.0 * q.y <= -p.depth + 2.0 * p.thickness || 2.0 * q.y >= p.depth - 2.0 * p.thickness)
    ensures Holds(p.Roof(), q) <==>
      && -p.width - 2.0 * p.thickness <= 2.0 * q.x <= p.width + 2.0 * p.thickness
      && -p.depth - 2.0 * p.thickness <= 2.0 * q.y <= p.depth + 2.0 * p.thickness
      && p.height <= q.z <= p.height + p.thickness
  {
    hide Holds;
    RimParts(p, row, q);
    if wall: nat :| wall < 4 && Holds(p.Plank(row, wall), q) {
      assert wall == 0 || wall == 1 || wall == 2 || wall == 3;
    }
  }

  lemma RimParts(p: ShackParams, row: nat, q: Point)
    requires p.Sized()
    ensures var (x, y, w, d, t) := (2.0 * q.x, 2.0 * q.y, p.width, p.depth, 2.0 * p.thickness);
      && (Holds(p.Plank(row, 0), q) <==> InRow(p, row, q) && -w <= x <= w && -d <= y <= t - d)
      && (Holds(p.Plank(row, 1), q) <==> InRow(p, row, q) && -w <= x <= w && d - t <= y <= d)
      && (Holds(p.Plank(row, 2), q) <==> InRow(p, row, q) && -w <= x <= t - w && t - d <= y <= d - t)
      && (Holds(p.Plank(row, 3), q) <==> InRow(p, row, q) && w - t <= x <= w && t - d <= y <= d - t)
      && (Holds(p.Roof(), q) <==>
           -w - t <= x <= w + t && -d - t <= y <= d + t && p.height <= q.z <= p.height + p.thickness)
  {
    assert p.Base(row) == row as real * (p.plankHeight + p.gap);
    hide ShackParams.Base;
  }

  lemma PlankProper(p: ShackParams, row: nat, wall: nat)
    requires p.Sized()
    ensures p.Plank(row, wall).Proper() && p.Roof().Proper()
  {
  }

  lemma ProperVolume(b: Box)
    requires b.Proper()
    ensures b.Volume() > 0.0
  {
    Positive3(b.Width(), b.Depth(), b.Height());
  }

  lemma Positive3(a: real, b: real, c: real)
    requires a > 0.0 && b > 0.0 && c > 0.0
    ensures a * b * c > 0.0
  {
    assert a * b > 0.0;
  }

  /** Far enough apart, a later row starts past the end of an earlier one. */
  lemma RowsApart(p: ShackParams, a: nat, b: nat)
    requires p.Pitch() != 0.0 && a < b && 0.0 < p.plankHeight
    requires p.plankHeight <= if p.Pitch() > 0.0 then p.Pitch() else -p.Pitch()
    ensures if p.Pitch() > 0.0 then p.Base(a) + p.plankHeight <= p.Base(b) else p.Base(b) + p.plankHeight <= p.Base(a)
  {
    hide ShackParams.Pitch;
    Steps(a as real, b as real, p.plankHeight, if p.Pitch() > 0.0 then p.Pitch() else -p.Pitch());
  }

  lemma Steps(a: real, b: real, part: real, pitch: real)
    requires a + 1.0 <= b && 0.0 < part <= pitch
    ensures a * pitch + part <= b * pitch
  {
    var rest := b - a - 1.0;
    assert rest * pitch >= 0.0;
    assert rest * pitch == b * pitch - a * pitch - pitch;
  }

  /** Rows go one way. */
  lemma RowsMonotone(p: ShackParams, a: nat, b: nat)
    requires a <= b
    ensures p.Pitch() > 0.0 ==> p.Base(a) <= p.Base(b)
    ensures p.Pitch() < 0.0 ==> p.Base(b) <= p.Base(a)
  {
    hide ShackParams.Pitch;
    assert p.Base(b) - p.Base(a) == (b - a) as real * p.Pitch();
  }

  /** The rows end under the roof, and with a negative pitch above it; one more
      would not. */
  lemma RowsFit(p: ShackParams)
    requires p.Pitch() != 0.0 && (p.Rows() > 0 || (p.Pitch() > 0.0 && p.height >= 0.0))
    ensures if p.Pitch() > 0.0 then p.Base(p.Rows()) <= p.height else p.Base(p.Rows()) >= p.height
    ensures if p.Pitch() > 0.0 then p.height < p.Base(p.Rows() + 1) else p.height > p.Base(p.Rows() + 1)
  {
    var pitch, n := p.Pitch(), p.Rows() as real;
    var q := p.height / pitch;
    assert n <= q < n + 1.0;
    NextBase(p, p.Rows());
    assert p.Base(p.Rows()) == n * pitch;
    hide ShackParams.Pitch; hide ShackParams.Base; hide ShackParams.Rows;
    WholePitches(p.height, pitch, n, q);
  }

  lemma WholePitches(height: real, pitch: real, n: real, q: real)
    requires pitch != 0.0 && q == height / pitch && n <= q < n + 1.0
    ensures if pitch > 0.0 then n * pitch <= height < n * pitch + pitch else n * pitch >= height > n * pitch + pitch
  {
    var low, high := q - n, n + 1.0 - q;
    assert q * pitch == height;
    assert low * pitch == height - n * pitch && high * pitch == n * pitch + pitch - height;
    if pitch > 0.0 { assert low * pitch >= 0.0 && high * pitch > 0.0; }
    else { assert low * pitch <= 0.0 && high * pitch < 0.0; }
  }

  /** A gap that is not negative spaces the rows. */
  lemma GapsSpace(p: ShackParams)
    requires p.Sized() && p.gap >= 0.0
    ensures p.Pitch() > 0.0 && p.Spaced()
  {
    if p.Rows() > 0 {
      RowsFit(p);
      RowsApart(p, p.Rows() - 1, p.Rows());
    }
  }

  lemma PlanksSeparated(p: ShackParams, i: nat, j: nat)
    requires p.Sized() && p.Pitch() != 0.0 && p.Spaced() && i < j < 4 * p.Rows()
    ensures Separated(p.Plank(i / 4, i % 4), p.Plank(j / 4, j % 4))
  {
    hide ShackParams.Pitch; hide ShackParams.Base; hide ShackParams.Rows; hide ShackParams.RoofClears;
    if i / 4 < j / 4 { RowsApart(p, i / 4, j / 4); }
  }

  lemma RoofSeparated(p: ShackParams, i: nat)
    requires p.Sized() && p.Pitch() != 0.0 && p.Spaced() && i < 4 * p.Rows()
    ensures Separated(p.Roof(), p.Plank(i / 4, i % 4))
  {
    hide ShackParams.Pitch; hide ShackParams.Base; hide ShackParams.Rows;
    RowsMonotone(p, i / 4, p.Rows() - 1);
  }

  /** Every box is the roof or one of the first `n` planks. */
  lemma {:induction false} BoxIsPlank(p: ShackParams, keeps: bv64 -> bool, n: nat, k: nat) returns (i: nat)
    requires 0 < k < |BoxesTo(p, keeps, n)|
    ensures i < n && BoxesTo(p, keeps, n)[k] == p.Plank(i / 4, i % 4)
  {
    hide ShackParams.Plank;
    if k < |BoxesTo(p, keeps, n - 1)| {
      i := BoxIsPlank(p, keeps, n - 1, k);
    } else {
      i := n - 1;
    }
  }

  /** Spaced rows never overlap, nor does the roof, whichever planks are kept. */
  lemma {:induction false} BoxesApart(p: ShackParams, keeps: bv64 -> bool, n: nat)
    requires p.Sized() && p.Pitch() != 0.0 && p.Spaced() && n <= 4 * p.Rows()
    ensures Apart(BoxesTo(p, keeps, n)) && |BoxesTo(p, keeps, n)| > 0 && BoxesTo(p, keeps, n)[0] == p.Roof()
  {
    hide ShackParams.Plank; hide ShackParams.Roof; hide ShackParams.Rows; hide ShackParams.Pitch;
    hide ShackParams.Spaced; hide Separated; hide Kept; hide ShackParams.Sized;
    if n > 0 {
      BoxesApart(p, keeps, n - 1);
      var before := BoxesTo(p, keeps, n - 1);
      forall k | 0 <= k < |before| ensures Separated(before[k], p.Plank((n - 1) / 4, (n - 1) % 4)) {
        if k == 0 {
          RoofSeparated(p, n - 1);
        } else {
          var i := BoxIsPlank(p, keeps, n - 1, k);
          PlanksSeparated(p, i, n - 1);
        }
      }
    }
  }

  /** With every plank kept, box `k + 1` is plank `k`. */
  lemma {:induction false} AllKept(p: ShackParams, n: nat, k: nat)
    requires k < n
    ensures |BoxesTo(p, _ => true, n)| == n + 1 && BoxesTo(p, _ => true, n)[0] == p.Roof()
    ensures BoxesTo(p, _ => true, n)[k + 1] == p.Plank(k / 4, k % 4)
  {
    hide ShackParams.Plank; hide ShackParams.Roof; hide Roll;
    if n > 1 { AllKept(p, n - 1, if k < n - 1 then k else 0); }
  }

  /** Otherwise planks can overlap: the second row the first, or the row
      nearest the roof the roof. */
  lemma TooClose(p: ShackParams)
    requires p.Sized() && p.Pitch() != 0.0 && !p.Spaced()
    ensures !Apart(BoxesTo(p, _ => true, 4 * p.Rows()))
  {
    hide BoxesTo; hide ShackParams.Base; hide ShackParams.Rows; hide Separated;
    var last, n, boxes := p.Rows() - 1, 4 * p.Rows(), BoxesTo(p, _ => true, 4 * p.Rows());
    AllKept(p, n, 0);
    if p.RoofClears(last) {
      AllKept(p, n, 4);
      SecondMeetsFirst(p);
      assert !Separated(boxes[1], boxes[5]);
    } else {
      AllKept(p, n, 4 * last);
      LastMeetsRoof(p);
      assert !Separated(boxes[0], boxes[4 * last + 1]);
    }
  }

  lemma SecondMeetsFirst(p: ShackParams)
    requires p.Sized() && p.plankHeight > (if p.Pitch() > 0.0 then p.Pitch() else -p.Pitch())
    ensures !Separated(p.Plank(0, 0), p.Plank(1, 0))
  {
    assert p.Base(0) == 0.0 && p.Base(1) == p.Pitch();
    hide ShackParams.Base; hide ShackParams.Pitch;
  }

  lemma LastMeetsRoof(p: ShackParams)
    requires p.Sized() && p.Pitch() != 0.0 && p.Rows() > 0 && !p.RoofClears(p.Rows() - 1)
    ensures !Separated(p.Roof(), p.Plank(p.Rows() - 1, 0))
  {
    hide ShackParams.Pitch; hide ShackParams.Rows;
    RowsFit(p);
    NextBase(p, p.Rows() - 1);
    hide ShackParams.Base;
  }

  lemma NextBase(p: ShackParams, row: nat)
    ensures p.Base(row + 1) == p.Base(row) + p.Pitch()
  {
    hide ShackParams.Pitch;
  }

  /** Spaced rows are exactly those no choice of planks makes overlap. */
  lemma ApartExactly(p: ShackParams)
    requires p.Sized() && p.Pitch() != 0.0
    ensures p.Spaced() <==> forall keeps: bv64 -> bool :: Apart(BoxesTo(p, keeps, 4 * p.Rows()))
  {
    hide ShackParams.Rows; hide BoxesTo; hide Apart; hide ShackParams.Spaced; hide ShackParams.Pitch;
    if p.Spaced() {
      forall keeps: bv64 -> bool ensures Apart(BoxesTo(p, keeps, 4 * p.Rows())) { BoxesApart(p, keeps, 4 * p.Rows()); }
    } else {
      TooClose(p);
    }
  }

  // ------------------------------------------------------------ building it

  /** A mesh made of these boxes: closed, and as big as they are. */
  ghost predicate Made(mesh: Mesh, boxes: seq<Box>) {
    mesh.Valid() && mesh.Closed() && mesh.Volume() == TotalVolume(boxes)
  }

  lemma MadeByMerging(mesh: Mesh, boxes: seq<Box>, b: Box)
    requires Made(mesh, boxes)
    ensures Made(Merged(mesh, BoxMesh(b)), boxes + [b])
  {
    hide Mesh.Valid; hide Mesh.Closed; hide Mesh.Volume; hide Merged; hide BoxMesh; hide Box.Volume;
    BoxClosed(b);
    MergedClosed(mesh, BoxMesh(b));
    MergedVolume(mesh, BoxMesh(b));
    BoxVolume(b);
    assert (boxes + [b])[..|boxes + [b]| - 1] == boxes;
  }

  lemma NothingMade()
    ensures Made(Mesh([], []), [])
  {
  }

  /** Every box has room inside, so together they do. */
  lemma {:induction false} VolumePositive(p: ShackParams, keeps: bv64 -> bool, n: nat)
    requires p.Sized()
    ensures TotalVolume(BoxesTo(p, keeps, n)) > 0.0
  {
    hide ShackParams.Plank; hide ShackParams.Roof; hide Kept; hide Box.Volume; hide Box.Proper; hide ShackParams.Sized;
    var row, wall := if n == 0 then 0 else (n - 1) / 4, if n == 0 then 0 else (n - 1) % 4;
    PlankProper(p, row, wall);
    ProperVolume(p.Roof());
    ProperVolume(p.Plank(row, wall));
    if n > 0 {
      VolumePositive(p, keeps, n - 1);
      TotalSnoc(BoxesTo(p, keeps, n - 1), p.Plank(row, wall));
      assert BoxesTo(p, keeps, n - 1) + [] == BoxesTo(p, keeps, n - 1);
    } else {
      assert [p.Roof()] == [] + [p.Roof()];
      TotalSnoc([], p.Roof());
    }
  }

  lemma TotalSnoc(boxes: seq<Box>, b: Box)
    ensures TotalVolume([]) == 0.0 && TotalVolume(boxes + [b]) == TotalVolume(boxes) + b.Volume()
  {
    assert (boxes + [b])[..|boxes + [b]| - 1] == boxes;
  }

  /** `shack`: for any sizes, any seed and any rule of which rolls keep a plank,
      a closed mesh of the roof and the planks kept, whose volume is theirs; with
      sizes that make walls it is wound outwards, and with spaced rows nothing
      overlaps. */
  method Shack(p: ShackParams, keeps: bv64 -> bool) returns (mesh: Mesh)
    requires p.Pitch() != 0.0
    ensures var boxes := BoxesTo(p, keeps, 4 * p.Rows());
      && mesh.Valid() && mesh.Closed() && mesh.Volume() == TotalVolume(boxes)
      && (p.Sized() ==> mesh.Volume() > 0.0)
      && (p.Sized() && p.Spaced() ==> Apart(boxes))
  {
    hide ShackParams.Plank; hide ShackParams.Roof; hide ShackParams.Rows; hide Roll; hide TotalVolume; hide Apart;
    hide Mesh.Valid; hide Mesh.Closed; hide Mesh.Volume; hide Merged; hide BoxMesh; hide Box.Proper;
    hide ShackParams.Sized;
    hide ShackParams.Spaced; hide ShackParams.Pitch;
    var rows := p.Rows();
    var rng := p.seed;
    mesh := Mesh([], []);
    NothingMade();
    MadeByMerging(mesh, [], p.Roof());
    mesh := Merged(mesh, BoxMesh(p.Roof()));
    assert [] + [p.Roof()] == BoxesTo(p, keeps, 0);
    for row := 0 to rows
      invariant Made(mesh, BoxesTo(p, keeps, 4 * row)) && rng == StateAfter(p.seed, 4 * row)
    {
      for wall := 0 to 4
        invariant Made(mesh, BoxesTo(p, keeps, 4 * row + wall)) && rng == StateAfter(p.seed, 4 * row + wall)
      {
        ghost var n := 4 * row + wall;
        rng := rng + 0x9E37_79B9_7F4A_7C15;
        assert n / 4 == row && n % 4 == wall;
        if keeps(Roll(rng)) {
          MadeByMerging(mesh, BoxesTo(p, keeps, n), p.Plank(row, wall));
          mesh := Merged(mesh, BoxMesh(p.Plank(row, wall)));
        }
        assert BoxesTo(p, keeps, n + 1)
          == BoxesTo(p, keeps, n) + if Kept(p, keeps, n) then [p.Plank(row, wall)] else [];
        assert BoxesTo(p, keeps, n) + [] == BoxesTo(p, keeps, n);
      }
    }
    if p.Sized() { VolumePositive(p, keeps, 4 * rows); }
    if p.Sized() && p.Spaced() { BoxesApart(p, keeps, 4 * rows); }
  }
}
