/** Triangle meshes (elements-ember `mesh.rs`): boxes, merging, and what makes
    a mesh closed and outward-wound. */
module Meshes {

  datatype Point = Point(x: real, y: real, z: real)

  datatype Mesh = Mesh(positions: seq<Point>, indices: seq<nat>)
  {
    /** What `validate` asks of the indices: whole triangles, all in range. */
    predicate Valid() {
      |indices| % 3 == 0 && forall i :: 0 <= i < |indices| ==> indices[i] < |positions|
    }

    /** Directed edge `e`: corner `e` of its triangle to the next. */
    function Edge(e: nat): (nat, nat)
      requires e < |indices| && |indices| % 3 == 0
    {
      (indices[e], if e % 3 == 2 then indices[e - 2] else indices[e + 1])
    }

    /** Every directed edge once, and its reverse once. */
    ghost predicate Closed()
      requires |indices| % 3 == 0
    {
      && (forall e, f :: 0 <= e < |indices| && 0 <= f < |indices| && Edge(e) == Edge(f) ==> e == f)
      && (forall e :: 0 <= e < |indices| ==> HasReverse(e))
    }

    ghost predicate HasReverse(e: nat)
      requires e < |indices| && |indices| % 3 == 0
    {
      exists f :: 0 <= f < |indices| && Edge(f) == (Edge(e).1, Edge(e).0)
    }

    /** Triangle `t`'s corners, as a determinant. */
    function Triangle(t: nat): real
      requires Valid() && 3 * t + 2 < |indices|
    {
      Det(positions[indices[3 * t]], positions[indices[3 * t + 1]], positions[indices[3 * t + 2]])
    }

    /** Six times the signed volume of the first `n` triangles, from the origin. */
    function SixVolume(n: nat): real
      requires Valid() && 3 * n <= |indices|
    {
      if n == 0 then 0.0 else SixVolume(n - 1) + Triangle(n - 1)
    }

    function Volume(): real
      requires Valid()
    {
      SixVolume(|indices| / 3) / 6.0
    }
  }

  function Det(a: Point, b: Point, c: Point): real {
    a.x * (b.y * c.z - b.z * c.y) - a.y * (b.x * c.z - b.z * c.x) + a.z * (b.x * c.y - b.y * c.x)
  }

  // ------------------------------------------------------------ merging

  function Shifted(indices: seq<nat>, base: nat): (r: seq<nat>)
    ensures |r| == |indices| && forall i :: 0 <= i < |indices| ==> r[i] == indices[i] + base
  {
    seq(|indices|, i requires 0 <= i < |indices| => indices[i] + base)
  }

  /** `merge`: append, offsetting the indices. */
  function Merged(m: Mesh, other: Mesh): Mesh {
    Mesh(m.positions + other.positions, m.indices + Shifted(other.indices, |m.positions|))
  }

  /** Every corner of every triangle stays where it was, the first mesh's first. */
  lemma MergedKeeps(m: Mesh, other: Mesh, e: nat)
    requires m.Valid() && other.Valid() && e < |m.indices| + |other.indices|
    ensures var both := Merged(m, other);
      && |both.indices| == |m.indices| + |other.indices| && both.indices[e] < |both.positions|
      && both.positions[both.indices[e]] ==
         if e < |m.indices| then m.positions[m.indices[e]]
         else other.positions[other.indices[e - |m.indices|]]
  {
  }

  /** Each part keeps its own edges. */
  lemma MergedEdge(m: Mesh, other: Mesh, e: nat)
    requires m.Valid() && other.Valid() && e < |m.indices| + |other.indices|
    ensures var both := Merged(m, other);
      && |both.indices| % 3 == 0 && |both.indices| == |m.indices| + |other.indices|
      && both.Edge(e) == if e < |m.indices| then m.Edge(e)
        else (other.Edge(e - |m.indices|).0 + |m.positions|, other.Edge(e - |m.indices|).1 + |m.positions|)
  {
    if e >= |m.indices| { assert (e - |m.indices|) % 3 == e % 3; }
  }

  lemma MergedValid(m: Mesh, other: Mesh)
    requires m.Valid() && other.Valid()
    ensures Merged(m, other).Valid() && |Merged(m, other).indices| == |m.indices| + |other.indices|
  {
  }

  /** Merging closed meshes gives a closed mesh. */
  lemma MergedClosed(m: Mesh, other: Mesh)
    requires m.Valid() && other.Valid() && m.Closed() && other.Closed()
    ensures Merged(m, other).Valid() && Merged(m, other).Closed()
  {
    hide Merged; hide Mesh.Edge; hide Mesh.HasReverse;
    MergedValid(m, other);
    var both := Merged(m, other);
    forall e, f | 0 <= e < |both.indices| && 0 <= f < |both.indices| && both.Edge(e) == both.Edge(f) ensures e == f {
      MergedOnce(m, other, e, f);
    }
    forall e | 0 <= e < |both.indices| ensures both.HasReverse(e) {
      MergedReverse(m, other, e);
    }
  }

  lemma MergedOnce(m: Mesh, other: Mesh, e: nat, f: nat)
    requires m.Valid() && other.Valid() && m.Closed() && other.Closed()
    requires e < |Merged(m, other).indices| && f < |Merged(m, other).indices|
    requires |Merged(m, other).indices| % 3 == 0 && Merged(m, other).Edge(e) == Merged(m, other).Edge(f)
    ensures e == f
  {
    var k := |m.indices|;
    MergedEdge(m, other, e);
    MergedEdge(m, other, f);
    EdgeInRange(m, if e < k then e else 0);
    EdgeInRange(m, if f < k then f else 0);
    hide Merged; hide Mesh.Edge; hide Mesh.HasReverse;
    if e < k && f < k {
      assert m.Edge(e) == m.Edge(f);
    } else if e >= k && f >= k {
      assert other.Edge(e - k) == other.Edge(f - k);
    }
  }

  lemma EdgeInRange(m: Mesh, e: nat)
    requires m.Valid()
    ensures e < |m.indices| ==> m.Edge(e).0 < |m.positions| && m.Edge(e).1 < |m.positions|
  {
  }

  lemma MergedReverse(m: Mesh, other: Mesh, e: nat)
    requires m.Valid() && other.Valid() && m.Closed() && other.Closed() && e < |m.indices| + |other.indices|
    ensures |Merged(m, other).indices| == |m.indices| + |other.indices| && |Merged(m, other).indices| % 3 == 0
    ensures Merged(m, other).HasReverse(e)
  {
    hide Mesh.Edge;
    var both, k := Merged(m, other), |m.indices|;
    MergedEdge(m, other, e);
    if e < k {
      assert m.HasReverse(e);
      var f :| 0 <= f < k && m.Edge(f) == (m.Edge(e).1, m.Edge(e).0);
      MergedEdge(m, other, f);
      assert both.Edge(f) == (both.Edge(e).1, both.Edge(e).0);
    } else {
      assert other.HasReverse(e - k);
      var f :| 0 <= f < |other.indices| && other.Edge(f) == (other.Edge(e - k).1, other.Edge(e - k).0);
      MergedEdge(m, other, f + k);
      assert both.Edge(f + k) == (both.Edge(e).1, both.Edge(e).0);
    }
  }

  lemma MergedTriangle(m: Mesh, other: Mesh, t: nat, k: nat)
    requires m.Valid() && other.Valid() && |m.indices| == 3 * k && 3 * t + 2 < |m.indices| + |other.indices|
    ensures Merged(m, other).Valid() && |Merged(m, other).indices| == |m.indices| + |other.indices|
    ensures Merged(m, other).Triangle(t) == if t < k then m.Triangle(t) else other.Triangle(t - k)
  {
    hide Det;
    MergedValid(m, other);
  }

  lemma {:induction false} MergedFirst(m: Mesh, other: Mesh, k: nat, n: nat)
    requires m.Valid() && other.Valid() && |m.indices| == 3 * k && n <= k
    ensures Merged(m, other).Valid() && |Merged(m, other).indices| == |m.indices| + |other.indices|
    ensures Merged(m, other).SixVolume(n) == m.SixVolume(n)
  {
    hide Mesh.Valid; hide Merged; hide Mesh.Triangle;
    MergedValid(m, other);
    if n > 0 {
      MergedFirst(m, other, k, n - 1);
      MergedTriangle(m, other, n - 1, k);
    }
  }

  lemma {:induction false} MergedSecond(m: Mesh, other: Mesh, k: nat, n: nat)
    requires m.Valid() && other.Valid() && |m.indices| == 3 * k && 3 * n <= |other.indices|
    ensures Merged(m, other).Valid() && |Merged(m, other).indices| == |m.indices| + |other.indices|
    ensures Merged(m, other).SixVolume(k + n) == m.SixVolume(k) + other.SixVolume(n)
  {
    hide Mesh.Valid; hide Merged; hide Mesh.Triangle;
    MergedValid(m, other);
    if n == 0 {
      MergedFirst(m, other, k, k);
    } else {
      MergedSecond(m, other, k, n - 1);
      MergedTriangle(m, other, k + n - 1, k);
    }
  }

  /** Merging adds the volumes. */
  lemma MergedVolume(m: Mesh, other: Mesh)
    requires m.Valid() && other.Valid()
    ensures Merged(m, other).Valid() && Merged(m, other).Volume() == m.Volume() + other.Volume()
  {
    hide *;
    var k, n := |m.indices| / 3, |other.indices| / 3;
    Thirds(m);
    Thirds(other);
    MergedSecond(m, other, k, n);
    SumOverSix(m.SixVolume(k), other.SixVolume(n));
    WholeVolume(m, k);
    WholeVolume(other, n);
    WholeVolume(Merged(m, other), k + n);
  }

  lemma Thirds(m: Mesh)
    requires m.Valid()
    ensures |m.indices| == 3 * (|m.indices| / 3)
  {
  }

  lemma SumOverSix(a: real, b: real)
    ensures (a + b) / 6.0 == a / 6.0 + b / 6.0
  {
  }

  lemma WholeVolume(m: Mesh, n: nat)
    requires m.Valid() && |m.indices| == 3 * n
    ensures m.Volume() == m.SixVolume(n) / 6.0
  {
  }

  // ------------------------------------------------------------ boxes

  datatype Box = Box(min: Point, max: Point)
  {
    function Width(): real { max.x - min.x }
    function Depth(): real { max.y - min.y }
    function Height(): real { max.z - min.z }

    function Volume(): real { Width() * Depth() * Height() }

    predicate Proper() { Width() > 0.0 && Depth() > 0.0 && Height() > 0.0 }

    /** Corner `i`: the high side of each axis whose bit is set. */
    function Corner(i: nat): Point {
      Point(if i % 2 == 0 then min.x else max.x,
        if i / 2 % 2 == 0 then min.y else max.y,
        if i / 4 % 2 == 0 then min.z else max.z)
    }
  }

  /** A box's triangles, two a side: -x, +x, -y, +y, -z, +z. */
  function BoxTriangle(t: nat): (nat, nat, nat) {
    match t
    case 0 => (0, 4, 6)
    case 1 => (0, 6, 2)
    case 2 => (1, 3, 7)
    case 3 => (1, 7, 5)
    case 4 => (0, 1, 5)
    case 5 => (0, 5, 4)
    case 6 => (2, 6, 7)
    case 7 => (2, 7, 3)
    case 8 => (0, 2, 3)
    case 9 => (0, 3, 1)
    case 10 => (4, 5, 7)
    case 11 => (4, 7, 6)
    case _ => (0, 0, 0)
  }

  function BoxIndex(e: nat): nat {
    var t := BoxTriangle(e / 3);
    if e % 3 == 0 then t.0 else if e % 3 == 1 then t.1 else t.2
  }

  lemma BoxIndexInRange(e: nat)
    ensures BoxIndex(e) < 8
  {
  }

  /** `box_mesh`. */
  function BoxMesh(b: Box): (m: Mesh)
    ensures m.Valid() && |m.indices| == 36
  {
    assert forall e: nat :: BoxIndex(e) < 8 by { forall e: nat ensures BoxIndex(e) < 8 { BoxIndexInRange(e); } }
    Mesh(seq(8, i requires 0 <= i < 8 => b.Corner(i)), seq(36, e requires 0 <= e < 36 => BoxIndex(e)))
  }

  /** A box mesh has the box's eight corners, and no other. */
  lemma BoxSpans(b: Box, q: Point)
    ensures q in BoxMesh(b).positions <==>
      (q.x == b.min.x || q.x == b.max.x) && (q.y == b.min.y || q.y == b.max.y) && (q.z == b.min.z || q.z == b.max.z)
  {
    var c := BoxMesh(b).positions;
    assert forall i :: 0 <= i < 8 ==> c[i] == b.Corner(i);
    var i := (if q.x == b.min.x then 0 else 1) + (if q.y == b.min.y then 0 else 2) + if q.z == b.min.z then 0 else 4;
    assert c[i] == b.Corner(i);
  }

  /** Where a box's edge from corner `a` to corner `b` is; 36 where there is none. */
  function BoxEdgeAt(a: nat, b: nat): nat {
    match a
    case 0 => (match b case 1 => 12 case 2 => 24 case 3 => 27 case 4 => 0 case 5 => 15 case 6 => 3 case _ => 36)
    case 1 => (match b case 0 => 29 case 3 => 6 case 5 => 13 case 7 => 9 case _ => 36)
    case 2 => (match b case 0 => 5 case 3 => 25 case 6 => 18 case 7 => 21 case _ => 36)
    case 3 => (match b case 0 => 26 case 1 => 28 case 2 => 23 case 7 => 7 case _ => 36)
    case 4 => (match b case 0 => 17 case 5 => 30 case 6 => 1 case 7 => 33 case _ => 36)
    case 5 => (match b case 0 => 14 case 1 => 11 case 4 => 16 case 7 => 31 case _ => 36)
    case 6 => (match b case 0 => 2 case 2 => 4 case 4 => 35 case 7 => 19 case _ => 36)
    case 7 => (match b case 1 => 8 case 2 => 20 case 3 => 22 case 4 => 32 case 5 => 10 case 6 => 34 case _ => 36)
    case _ => 36
  }

  function BoxEdgeEnd(e: nat): nat {
    if e % 3 == 2 then BoxIndex(3 * (e / 3)) else BoxIndex(e + 1)
  }

  /** The table finds edge `e`, and finds its reverse. */
  predicate Found(e: nat) {
    var f := BoxEdgeAt(BoxEdgeEnd(e), BoxIndex(e));
    BoxEdgeAt(BoxIndex(e), BoxEdgeEnd(e)) == e && f < 36 && BoxIndex(f) == BoxEdgeEnd(e) && BoxEdgeEnd(f) == BoxIndex(e)
  }

  lemma IndicesAre()
    ensures BoxIndex(0) == 0 && BoxIndex(1) == 4 && BoxIndex(2) == 6 && BoxIndex(3) == 0 && BoxIndex(4) == 6
      && BoxIndex(5) == 2
    ensures BoxIndex(6) == 1 && BoxIndex(7) == 3 && BoxIndex(8) == 7 && BoxIndex(9) == 1 && BoxIndex(10) == 7
      && BoxIndex(11) == 5
    ensures BoxIndex(12) == 0 && BoxIndex(13) == 1 && BoxIndex(14) == 5 && BoxIndex(15) == 0 && BoxIndex(16) == 5
      && BoxIndex(17) == 4
    ensures BoxIndex(18) == 2 && BoxIndex(19) == 6 && BoxIndex(20) == 7 && BoxIndex(21) == 2 && BoxIndex(22) == 7
      && BoxIndex(23) == 3
    ensures BoxIndex(24) == 0 && BoxIndex(25) == 2 && BoxIndex(26) == 3 && BoxIndex(27) == 0 && BoxIndex(28) == 3
      && BoxIndex(29) == 1
    ensures BoxIndex(30) == 4 && BoxIndex(31) == 5 && BoxIndex(32) == 7 && BoxIndex(33) == 4 && BoxIndex(34) == 7
      && BoxIndex(35) == 6
  {
  }

  lemma LowXFound()
    ensures Found(0) && Found(1) && Found(2) && Found(3) && Found(4) && Found(5)
  {
    hide BoxTriangle; hide BoxIndex;
    IndicesAre();
  }

  lemma HighXFound()
    ensures Found(6) && Found(7) && Found(8) && Found(9) && Found(10) && Found(11)
  {
    hide BoxTriangle; hide BoxIndex;
    IndicesAre();
  }

  lemma LowYFound()
    ensures Found(12) && Found(13) && Found(14) && Found(15) && Found(16) && Found(17)
  {
    hide BoxTriangle; hide BoxIndex;
    IndicesAre();
  }

  lemma HighYFound()
    ensures Found(18) && Found(19) && Found(20) && Found(21) && Found(22) && Found(23)
  {
    hide BoxTriangle; hide BoxIndex;
    IndicesAre();
  }

  lemma LowZFound()
    ensures Found(24) && Found(25) && Found(26) && Found(27) && Found(28) && Found(29)
  {
    hide BoxTriangle; hide BoxIndex;
    IndicesAre();
  }

  lemma HighZFound()
    ensures Found(30) && Found(31) && Found(32) && Found(33) && Found(34) && Found(35)
  {
    hide BoxTriangle; hide BoxIndex;
    IndicesAre();
  }

  /** The table is right about every edge, side by side. */
  lemma TableFinds(e: nat)
    requires e < 36
    ensures Found(e)
  {
    hide *;
    if e < 12 {
      LowXFound();
      HighXFound();
    } else if e < 24 {
      LowYFound();
      HighYFound();
    } else {
      LowZFound();
      HighZFound();
    }
  }

  lemma BoxEdgeIs(b: Box, e: nat)
    requires e < 36
    ensures BoxMesh(b).Edge(e) == (BoxIndex(e), BoxEdgeEnd(e))
  {
    hide BoxTriangle;
  }

  /** A box is closed: each of its 36 directed edges once, reverse and all. */
  lemma BoxClosed(b: Box)
    ensures BoxMesh(b).Closed()
  {
    hide BoxIndex; hide BoxEdgeEnd; hide BoxEdgeAt; hide BoxMesh; hide Mesh.Edge;
    var m := BoxMesh(b);
    forall e: nat | e < 36 ensures Found(e) && m.Edge(e) == (BoxIndex(e), BoxEdgeEnd(e)) {
      TableFinds(e);
      BoxEdgeIs(b, e);
    }
    forall e, f | 0 <= e < 36 && 0 <= f < 36 && m.Edge(e) == m.Edge(f) ensures e == f {
      assert Found(e) && Found(f);
    }
    forall e | 0 <= e < 36 ensures m.HasReverse(e) {
      assert Found(e);
      var f := BoxEdgeAt(BoxEdgeEnd(e), BoxIndex(e));
      assert m.Edge(f) == (m.Edge(e).1, m.Edge(e).0);
    }
  }

  /** One triangle of a box, as a determinant of corners. */
  function TriangleOf(b: Box, t: nat): real {
    var (i, j, k) := BoxTriangle(t);
    Det(b.Corner(i), b.Corner(j), b.Corner(k))
  }

  lemma SixVolumeStep(b: Box, n: nat)
    requires n < 12
    ensures BoxMesh(b).SixVolume(n + 1) == BoxMesh(b).SixVolume(n) + TriangleOf(b, n)
  {
    hide Det; hide Box.Corner; hide BoxTriangle;
    var m := BoxMesh(b);
    var t := BoxTriangle(n);
    assert m.indices[3 * n] == BoxIndex(3 * n) == t.0;
    assert m.indices[3 * n + 1] == BoxIndex(3 * n + 1) == t.1;
    assert m.indices[3 * n + 2] == BoxIndex(3 * n + 2) == t.2;
  }

  /** A box mesh's signed volume is the box's: it is wound outwards. */
  lemma BoxVolume(b: Box)
    ensures BoxMesh(b).Volume() == b.Volume()
  {
    hide Box.Volume; hide BoxMesh; hide Mesh.SixVolume; hide TriangleOf;
    FirstSides(b);
    LastSides(b);
    SidesAlongX(b);
    SidesAlongY(b);
    SidesAlongZ(b);
  }

  lemma FirstSides(b: Box)
    ensures BoxMesh(b).SixVolume(6)
      == TriangleOf(b, 0) + TriangleOf(b, 1) + TriangleOf(b, 2) + TriangleOf(b, 3) + TriangleOf(b, 4) + TriangleOf(b, 5)
  {
    hide BoxMesh; hide TriangleOf;
    assert BoxMesh(b).SixVolume(0) == 0.0;
    hide Mesh.SixVolume;
    SixVolumeStep(b, 0);
    SixVolumeStep(b, 1);
    SixVolumeStep(b, 2);
    SixVolumeStep(b, 3);
    SixVolumeStep(b, 4);
    SixVolumeStep(b, 5);
  }

  lemma LastSides(b: Box)
    ensures BoxMesh(b).SixVolume(12) == BoxMesh(b).SixVolume(6)
      + TriangleOf(b, 6) + TriangleOf(b, 7) + TriangleOf(b, 8) + TriangleOf(b, 9) + TriangleOf(b, 10)
        + TriangleOf(b, 11)
  {
    hide BoxMesh; hide TriangleOf; hide Mesh.SixVolume;
    SixVolumeStep(b, 6);
    SixVolumeStep(b, 7);
    SixVolumeStep(b, 8);
    SixVolumeStep(b, 9);
    SixVolumeStep(b, 10);
    SixVolumeStep(b, 11);
  }

  lemma SidesAlongX(b: Box)
    ensures TriangleOf(b, 0) + TriangleOf(b, 1) + TriangleOf(b, 2) + TriangleOf(b, 3) == 2.0 * b.Volume()
  {
  }

  lemma SidesAlongY(b: Box)
    ensures TriangleOf(b, 4) + TriangleOf(b, 5) + TriangleOf(b, 6) + TriangleOf(b, 7) == 2.0 * b.Volume()
  {
  }

  lemma SidesAlongZ(b: Box)
    ensures TriangleOf(b, 8) + TriangleOf(b, 9) + TriangleOf(b, 10) + TriangleOf(b, 11) == 2.0 * b.Volume()
  {
  }
}
