/** The 5-4-3 tree, built voxel by voxel from an array (elements-io `vdb/tree.rs`). */
module VdbTree {
  import opened Values
  import opened MapSums
  import opened VdbBits

  /** A 32-bit float, as its bits. */
  type Float = bv32

  datatype Leaf = Leaf(valueMask: BitMask, values: seq<Float>)

  datatype Internal = Internal(childMask: BitMask, leaves: map<nat, Leaf>)

  datatype Tree = Tree(rootMask: BitMask, internals: map<nat, Internal>)

  datatype IoError =
    | FieldTooLarge(dims: Dims)
    | LengthMismatch(expected: nat, got: nat)
    | NoGrids
    | DuplicateGrid(name: seq<bv8>)

  // ------------------------------------------------------------ what a tree holds

  /** Leaf `i` of node `r` holds `seen`: active exactly where it has a voxel,
      with its value there and the background elsewhere. */
  ghost predicate LeafHolds(leaf: Leaf, r: nat, i: nat, background: Float, seen: map<Coord, Float>) {
    && leaf.valueMask.Valid() && leaf.valueMask.bits == LEAF_VOXELS && |leaf.values| == LEAF_VOXELS
    && forall v: nat :: v < LEAF_VOXELS ==>
        && (leaf.valueMask.Get(v) <==> CoordAt(r, i, v) in seen)
        && leaf.values[v] == if CoordAt(r, i, v) in seen then seen[CoordAt(r, i, v)] else background
  }

  ghost predicate LeafWanted(r: nat, i: nat, seen: map<Coord, Float>) {
    exists c :: c in seen && InternalNodeSlotOffset(c) == r && InternalChildOffset(c) == i
  }

  ghost predicate NodeWanted(r: nat, seen: map<Coord, Float>) {
    exists c :: c in seen && InternalNodeSlotOffset(c) == r
  }

  /** A mask's bits are exactly a map's keys. */
  ghost predicate MaskIs(mask: BitMask, keys: set<nat>)
    requires mask.Valid()
  {
    forall j: nat :: mask.Get(j) <==> j in keys
  }

  lemma MaskSet(mask: BitMask, keys: set<nat>, j: nat)
    requires mask.Valid() && MaskIs(mask, keys) && j < mask.bits
    ensures MaskIs(mask.Set(j), keys + {j})
    ensures forall k: nat :: k in keys ==> k < mask.bits
  {
    assert forall k: nat :: k in keys ==> mask.Get(k);
  }

  /** Node `r` has exactly the leaves some voxel needs, and its mask says so. */
  ghost predicate NodeHolds(node: Internal, r: nat, background: Float, seen: map<Coord, Float>) {
    && node.childMask.Valid() && node.childMask.bits == INTERNAL_CHILDREN
    && MaskIs(node.childMask, node.leaves.Keys)
    && (forall i: nat :: i in node.leaves <==> LeafWanted(r, i, seen))
    && (forall i: nat :: i in node.leaves ==> LeafHolds(node.leaves[i], r, i, background, seen))
  }

  ghost predicate Holds(tree: Tree, background: Float, seen: map<Coord, Float>) {
    && tree.rootMask.Valid() && tree.rootMask.bits == ROOT_CHILD_CHILDREN
    && MaskIs(tree.rootMask, tree.internals.Keys)
    && (forall r: nat :: r in tree.internals <==> NodeWanted(r, seen))
    && (forall r: nat :: r in tree.internals ==> NodeHolds(tree.internals[r], r, background, seen))
    && (forall c :: c in seen ==> InReach(c))
  }

  // ------------------------------------------------------------ one voxel

  function FreshLeaf(background: Float): Leaf {
    Leaf(NewMask(LEAF_VOXELS), seq(LEAF_VOXELS, _ => background))
  }

  function FreshNode(): Internal {
    Internal(NewMask(INTERNAL_CHILDREN), map[])
  }

  function LeafSet(leaf: Leaf, v: nat, value: Float): Leaf
    requires leaf.valueMask.Valid() && v < leaf.valueMask.bits && v < |leaf.values|
  {
    Leaf(leaf.valueMask.Set(v), leaf.values[v := value])
  }

  function NodeSet(node: Internal, i: nat, leaf: Leaf): Internal
    requires node.childMask.Valid() && i < node.childMask.bits
  {
    Internal(node.childMask.Set(i), node.leaves[i := leaf])
  }

  function TreeSet(tree: Tree, r: nat, node: Internal): Tree
    requires tree.rootMask.Valid() && r < tree.rootMask.bits
  {
    Tree(tree.rootMask.Set(r), tree.internals[r := node])
  }

  lemma FreshLeafHolds(r: nat, i: nat, background: Float, seen: map<Coord, Float>)
    requires r < ROOT_CHILD_CHILDREN && i < INTERNAL_CHILDREN && !LeafWanted(r, i, seen)
    ensures LeafHolds(FreshLeaf(background), r, i, background, seen)
  {
    forall v: nat | v < LEAF_VOXELS ensures CoordAt(r, i, v) !in seen {
      VoxelHasAddress(r, i, v);
    }
  }

  /** Setting a voxel's own place in its leaf. */
  lemma LeafSetHolds(leaf: Leaf, r: nat, i: nat, v: nat, value: Float, background: Float, seen: map<Coord, Float>)
    requires r < ROOT_CHILD_CHILDREN && i < INTERNAL_CHILDREN && v < LEAF_VOXELS
    requires LeafHolds(leaf, r, i, background, seen)
    ensures LeafHolds(LeafSet(leaf, v, value), r, i, background, seen[CoordAt(r, i, v) := value])
  {
    VoxelHasAddress(r, i, v);
    forall w: nat | w < LEAF_VOXELS && w != v ensures CoordAt(r, i, w) != CoordAt(r, i, v) {
      VoxelHasAddress(r, i, w);
    }
  }

  /** Another leaf does not notice. */
  lemma OtherLeafHolds(leaf: Leaf, r: nat, i: nat, c: Coord, value: Float, background: Float, seen: map<Coord, Float>)
    requires r < ROOT_CHILD_CHILDREN && i < INTERNAL_CHILDREN
    requires InternalNodeSlotOffset(c) != r || InternalChildOffset(c) != i
    requires LeafHolds(leaf, r, i, background, seen)
    ensures LeafHolds(leaf, r, i, background, seen[c := value])
  {
    forall w: nat | w < LEAF_VOXELS ensures CoordAt(r, i, w) != c {
      VoxelHasAddress(r, i, w);
    }
  }

  lemma WantedAfter(r: nat, i: nat, c: Coord, value: Float, seen: map<Coord, Float>)
    ensures LeafWanted(r, i, seen[c := value])
      <==> LeafWanted(r, i, seen) || (InternalNodeSlotOffset(c) == r && InternalChildOffset(c) == i)
    ensures NodeWanted(r, seen[c := value]) <==> NodeWanted(r, seen) || InternalNodeSlotOffset(c) == r
  {
    hide InternalNodeSlotOffset; hide InternalChildOffset;
    var after := seen[c := value];
    assert c in after;
    assert forall d :: d in seen ==> d in after;
  }

  /** The voxel's node after setting it. */
  lemma NodeSetHolds(node: Internal, r: nat, leaf: Leaf, c: Coord, value: Float, background: Float,
      seen: map<Coord, Float>)
    requires InReach(c) && InternalNodeSlotOffset(c) == r
    requires NodeHolds(node, r, background, seen)
    requires LeafHolds(leaf, r, InternalChildOffset(c), background, seen[c := value])
    ensures InternalChildOffset(c) < INTERNAL_CHILDREN
    ensures NodeHolds(NodeSet(node, InternalChildOffset(c), leaf), r, background, seen[c := value])
  {
    AddressNamesVoxel(c);
    var i, after := InternalChildOffset(c), seen[c := value];
    var node' := NodeSet(node, i, leaf);
    MaskSet(node.childMask, node.leaves.Keys, i);
    assert node'.leaves.Keys == node.leaves.Keys + {i};
    hide MaskIs; hide InternalNodeSlotOffset; hide InternalChildOffset; hide LeafHolds; hide LeafWanted; hide CoordAt;
    hide InReach; hide BitMask.Get; hide BitMask.Set;
    forall j: nat ensures j in node'.leaves <==> LeafWanted(r, j, after) {
      WantedAfter(r, j, c, value, seen);
    }
    forall j: nat | j in node'.leaves ensures LeafHolds(node'.leaves[j], r, j, background, after) {
      if j != i {
        OtherLeafHolds(node.leaves[j], r, j, c, value, background, seen);
      }
    }
  }

  lemma OtherNodeHolds(node: Internal, r: nat, c: Coord, value: Float, background: Float, seen: map<Coord, Float>)
    requires r < ROOT_CHILD_CHILDREN && InternalNodeSlotOffset(c) != r && NodeHolds(node, r, background, seen)
    ensures NodeHolds(node, r, background, seen[c := value])
  {
    hide InternalNodeSlotOffset; hide InternalChildOffset; hide LeafHolds; hide LeafWanted; hide CoordAt;
    forall j: nat ensures LeafWanted(r, j, seen[c := value]) <==> LeafWanted(r, j, seen) {
      WantedAfter(r, j, c, value, seen);
    }
    MaskSet(node.childMask, node.leaves.Keys, 0);
    forall j: nat | j in node.leaves ensures LeafHolds(node.leaves[j], r, j, background, seen[c := value]) {
      OtherLeafHolds(node.leaves[j], r, j, c, value, background, seen);
    }
  }

  lemma TreeSetHolds(tree: Tree, node: Internal, c: Coord, value: Float, background: Float, seen: map<Coord, Float>)
    requires InReach(c) && Holds(tree, background, seen)
    requires NodeHolds(node, InternalNodeSlotOffset(c), background, seen[c := value])
    ensures InternalNodeSlotOffset(c) < ROOT_CHILD_CHILDREN
    ensures Holds(TreeSet(tree, InternalNodeSlotOffset(c), node), background, seen[c := value])
  {
    AddressNamesVoxel(c);
    var r, after := InternalNodeSlotOffset(c), seen[c := value];
    var tree' := TreeSet(tree, r, node);
    MaskSet(tree.rootMask, tree.internals.Keys, r);
    assert tree'.internals.Keys == tree.internals.Keys + {r};
    hide MaskIs; hide InternalNodeSlotOffset; hide InternalChildOffset; hide NodeHolds; hide NodeWanted; hide CoordAt;
    hide InReach; hide BitMask.Get; hide BitMask.Set;
    forall q: nat ensures q in tree'.internals <==> NodeWanted(q, after) {
      WantedAfter(q, 0, c, value, seen);
    }
    forall q: nat | q in tree'.internals ensures NodeHolds(tree'.internals[q], q, background, after) {
      if q != r {
        OtherNodeHolds(tree.internals[q], q, c, value, background, seen);
      }
    }
  }

  // ------------------------------------------------------------ counting

  function LeafCounts(leaves: map<nat, Leaf>): (m: map<nat, nat>)
    ensures m.Keys == leaves.Keys && forall i :: i in leaves ==> m[i] == leaves[i].valueMask.CountOnes()
  {
    map i | i in leaves :: leaves[i].valueMask.CountOnes()
  }

  ghost function NodeCount(node: Internal): nat {
    Sum(LeafCounts(node.leaves))
  }

  ghost function NodeCounts(internals: map<nat, Internal>): (m: map<nat, nat>)
    ensures m.Keys == internals.Keys && forall r :: r in internals ==> m[r] == NodeCount(internals[r])
  {
    map r | r in internals :: NodeCount(internals[r])
  }

  /** The active voxels of a whole tree, by its leaves' masks. */
  ghost function ActiveCount(tree: Tree): nat {
    Sum(NodeCounts(tree.internals))
  }

  lemma CountNodeSet(node: Internal, i: nat, leaf: Leaf)
    requires node.childMask.Valid() && i < node.childMask.bits
    ensures NodeCount(NodeSet(node, i, leaf)) + (if i in node.leaves then node.leaves[i].valueMask.CountOnes() else 0)
         == NodeCount(node) + leaf.valueMask.CountOnes()
  {
    hide BitMask.Set; hide BitMask.CountOnes;
    var before, n := LeafCounts(node.leaves), leaf.valueMask.CountOnes();
    assert LeafCounts(NodeSet(node, i, leaf).leaves) == before[i := n];
    SumInsert(before, i, n);
    if i in before { SumRemove(before, i); }
  }

  lemma CountTreeSet(tree: Tree, r: nat, node: Internal)
    requires tree.rootMask.Valid() && r < tree.rootMask.bits
    ensures ActiveCount(TreeSet(tree, r, node)) + (if r in tree.internals then NodeCount(tree.internals[r]) else 0)
         == ActiveCount(tree) + NodeCount(node)
  {
    hide BitMask.Set; hide NodeCount;
    var before, n := NodeCounts(tree.internals), NodeCount(node);
    assert NodeCounts(TreeSet(tree, r, node).internals) == before[r := n];
    SumInsert(before, r, n);
    if r in before { SumRemove(before, r); }
  }

  lemma FreshCounts(background: Float)
    ensures FreshLeaf(background).valueMask.CountOnes() == 0 && NodeCount(FreshNode()) == 0
  {
    NewMaskCounts(LEAF_VOXELS, LEAF_VOXELS / 64);
    assert LeafCounts(map[]) == map[];
  }

  // ------------------------------------------------------------ the loop

  /** The slot's node, or an empty one no voxel has needed yet. */
  method NodeFor(tree: Tree, r: nat, background: Float, ghost seen: map<Coord, Float>) returns (node: Internal)
    requires r < ROOT_CHILD_CHILDREN && Holds(tree, background, seen)
    ensures NodeHolds(node, r, background, seen)
    ensures node == if r in tree.internals then tree.internals[r] else FreshNode()
  {
    hide InternalNodeSlotOffset; hide InternalChildOffset; hide LeafHolds; hide CoordAt; hide InReach;
    node := if r in tree.internals then tree.internals[r] else FreshNode();
  }

  method LeafFor(node: Internal, r: nat, i: nat, background: Float, ghost seen: map<Coord, Float>) returns (leaf: Leaf)
    requires r < ROOT_CHILD_CHILDREN && i < INTERNAL_CHILDREN && NodeHolds(node, r, background, seen)
    ensures LeafHolds(leaf, r, i, background, seen)
    ensures leaf == if i in node.leaves then node.leaves[i] else FreshLeaf(background)
  {
    if i in node.leaves {
      leaf := node.leaves[i];
    } else {
      leaf := FreshLeaf(background);
      FreshLeafHolds(r, i, background, seen);
    }
  }

  /** One voxel entered in the tree: its bits set on all three levels. */
  method Place(tree: Tree, c: Coord, value: Float, background: Float, ghost seen: map<Coord, Float>) returns (t: Tree)
    requires InReach(c) && Holds(tree, background, seen) && c !in seen
    ensures Holds(t, background, seen[c := value]) && ActiveCount(t) == ActiveCount(tree) + 1
  {
    AddressNamesVoxel(c);
    var r, i, v := InternalNodeSlotOffset(c), InternalChildOffset(c), LeafVoxelOffset(c);
    hide InternalNodeSlotOffset; hide InternalChildOffset; hide LeafVoxelOffset; hide CoordAt; hide InReach; hide Holds;
    hide NodeHolds; hide LeafWanted; hide NodeWanted; hide BitMask.Get; hide BitMask.Set; hide BitMask.CountOnes;
    hide NodeCount; hide ActiveCount;
    var node := NodeFor(tree, r, background, seen);
    var leaf := LeafFor(node, r, i, background, seen);
    var leaf' := LeafSet(leaf, v, value);
    LeafSetHolds(leaf, r, i, v, value, background, seen);
    leaf.valueMask.CountAfterSet(v);
    HoldsMasks(tree, background, seen);
    NodeMasks(node, r, background, seen);
    var node' := NodeSet(node, i, leaf');
    NodeSetHolds(node, r, leaf', c, value, background, seen);
    CountNodeSet(node, i, leaf');
    FreshCounts(background);
    t := TreeSet(tree, r, node');
    TreeSetHolds(tree, node', c, value, background, seen);
    CountTreeSet(tree, r, node');
  }

  lemma HoldsMasks(tree: Tree, background: Float, seen: map<Coord, Float>)
    requires Holds(tree, background, seen)
    ensures tree.rootMask.Valid() && tree.rootMask.bits == ROOT_CHILD_CHILDREN
  {
  }

  lemma NodeMasks(node: Internal, r: nat, background: Float, seen: map<Coord, Float>)
    requires NodeHolds(node, r, background, seen)
    ensures node.childMask.Valid() && node.childMask.bits == INTERNAL_CHILDREN
  {
  }

  ghost predicate Inside(c: Coord, dims: Dims) {
    c.x < dims.x && c.y < dims.y && c.z < dims.z
  }

  /** A voxel's place in the dense array, x fastest. */
  function Linear(c: Coord, dims: Dims): nat {
    (c.z * dims.y + c.y) * dims.x + c.x
  }

  /** The array's order: x steps first, then y, then z, with nothing between. */
  lemma LinearScans(c: Coord, dims: Dims)
    requires Inside(c, dims)
    ensures Linear(Coord(0, 0, 0), dims) == 0
    ensures Linear(Coord(c.x + 1, c.y, c.z), dims) == Linear(c, dims) + 1
    ensures c.x == dims.x - 1 ==> Linear(Coord(0, c.y + 1, c.z), dims) == Linear(c, dims) + 1
    ensures c.x == dims.x - 1 && c.y == dims.y - 1 ==> Linear(Coord(0, 0, c.z + 1), dims) == Linear(c, dims) + 1
  {
    var row := c.z * dims.y + c.y;
    assert (row + 1) * dims.x == row * dims.x + dims.x;
    assert (c.z + 1) * dims.y == c.z * dims.y + dims.y;
  }

  /** Before `(x, y, z)` in the array's order. */
  ghost predicate Before(c: Coord, x: nat, y: nat, z: nat) {
    c.z < z || (c.z == z && (c.y < y || (c.y == y && c.x < x)))
  }

  /** `seen` is the part of the dense array before `(x, y, z)`. */
  ghost predicate DenseTo(seen: map<Coord, Float>, values: seq<Float>, dims: Dims, x: nat, y: nat, z: nat) {
    && |values| == dims.Voxels()
    && (forall c :: c in seen <==> Inside(c, dims) && Before(c, x, y, z))
    && (forall c :: c in seen ==> Linear(c, dims) < |values| && seen[c] == values[Linear(c, dims)])
  }

  ghost predicate IsDense(seen: map<Coord, Float>, values: seq<Float>, dims: Dims) {
    && |values| == dims.Voxels()
    && (forall c :: c in seen <==> Inside(c, dims))
    && (forall c :: c in seen ==> Linear(c, dims) < |values| && seen[c] == values[Linear(c, dims)])
  }

  lemma LinearInside(c: Coord, dims: Dims)
    requires Inside(c, dims)
    ensures Linear(c, dims) < dims.Voxels()
  {
    RowFits(c.z, dims.z, dims.y);
    RowFits(c.z * dims.y + c.y, dims.z * dims.y, dims.x);
    ProductTurns(dims.x, dims.y, dims.z);
  }

  lemma {:induction false} RowFits(a: nat, b: nat, n: nat)
    requires a < b
    ensures a * n + n <= b * n
  {
    NextMultiple(b - 1, n);
    if a < b - 1 { RowFits(a, b - 1, n); }
  }

  lemma NextMultiple(a: nat, n: nat)
    ensures (a + 1) * n == a * n + n
  {
  }

  lemma ProductTurns(x: nat, y: nat, z: nat)
    ensures z * y * x == x * y * z
  {
  }

  lemma DenseStep(seen: map<Coord, Float>, values: seq<Float>, dims: Dims, x: nat, y: nat, z: nat)
    requires DenseTo(seen, values, dims, x, y, z) && Inside(Coord(x, y, z), dims)
    ensures Linear(Coord(x, y, z), dims) < |values| && Coord(x, y, z) !in seen
    ensures DenseTo(seen[Coord(x, y, z) := values[Linear(Coord(x, y, z), dims)]], values, dims, x + 1, y, z)
  {
    LinearInside(Coord(x, y, z), dims);
    hide Linear;
  }

  lemma DenseRow(seen: map<Coord, Float>, values: seq<Float>, dims: Dims, y: nat, z: nat)
    ensures DenseTo(seen, values, dims, dims.x, y, z) <==> DenseTo(seen, values, dims, 0, y + 1, z)
    ensures DenseTo(seen, values, dims, 0, dims.y, z) <==> DenseTo(seen, values, dims, 0, 0, z + 1)
    ensures DenseTo(seen, values, dims, 0, 0, dims.z) <==> IsDense(seen, values, dims)
  {
    hide Linear;
    assert forall c :: Inside(c, dims) && Before(c, dims.x, y, z) <==> Inside(c, dims) && Before(c, 0, y + 1, z);
    assert forall c :: Inside(c, dims) && Before(c, 0, dims.y, z) <==> Inside(c, dims) && Before(c, 0, 0, z + 1);
    assert forall c :: Inside(c, dims) && Before(c, 0, 0, dims.z) <==> Inside(c, dims);
  }

  /** `build_tree`: every voxel of the array bucketed, in the array's order. */
  method BuildTree(values: seq<Float>, dims: Dims, background: Float)
    returns (r: Result<Tree, IoError>, ghost seen: map<Coord, Float>)
    ensures r.Err? <==>
      dims.x > ROOT_CHILD_DIM || dims.y > ROOT_CHILD_DIM || dims.z > ROOT_CHILD_DIM || |values| != dims.Voxels()
    ensures r.Err? ==> r.error == if dims.x > ROOT_CHILD_DIM || dims.y > ROOT_CHILD_DIM || dims.z > ROOT_CHILD_DIM
      then FieldTooLarge(dims) else LengthMismatch(dims.Voxels(), |values|)
    ensures r.Ok? ==>
      IsDense(seen, values, dims) && Holds(r.value, background, seen) && ActiveCount(r.value) == dims.Voxels()
  {
    hide Holds; hide ActiveCount; hide Dims.Voxels; hide Linear; hide DenseTo; hide IsDense; hide Placed;
    seen := map[];
    if dims.x > ROOT_CHILD_DIM || dims.y > ROOT_CHILD_DIM || dims.z > ROOT_CHILD_DIM {
      return Err(FieldTooLarge(dims)), seen;
    }
    if |values| != dims.Voxels() {
      return Err(LengthMismatch(dims.Voxels(), |values|)), seen;
    }
    var tree := Tree(NewMask(ROOT_CHILD_CHILDREN), map[]);
    EmptyHolds(background);
    EmptyDense(values, dims);
    for z := 0 to dims.z
      invariant Holds(tree, background, seen) && DenseTo(seen, values, dims, 0, 0, z)
      invariant ActiveCount(tree) == Placed(dims, 0, 0, z)
    {
      for y := 0 to dims.y
        invariant Holds(tree, background, seen) && DenseTo(seen, values, dims, 0, y, z)
        invariant ActiveCount(tree) == Placed(dims, 0, y, z)
      {
        for x := 0 to dims.x
          invariant Holds(tree, background, seen) && DenseTo(seen, values, dims, x, y, z)
          invariant ActiveCount(tree) == Placed(dims, x, y, z)
        {
          var c := Coord(x, y, z);
          DenseStep(seen, values, dims, x, y, z);
          tree := Place(tree, c, values[Linear(c, dims)], background, seen);
          seen := seen[c := values[Linear(c, dims)]];
          PlacedSteps(dims, x, y, z);
        }
        PlacedSteps(dims, 0, y, z);
        DenseRow(seen, values, dims, y, z);
      }
      PlacedSteps(dims, 0, 0, z);
      DenseRow(seen, values, dims, 0, z);
    }
    DenseRow(seen, values, dims, 0, 0);
    PlacedAll(dims);
    r := Ok(tree);
  }

  lemma EmptyDense(values: seq<Float>, dims: Dims)
    requires |values| == dims.Voxels()
    ensures DenseTo(map[], values, dims, 0, 0, 0) && Placed(dims, 0, 0, 0) == 0
  {
  }

  /** How many voxels come before `(x, y, z)`. */
  ghost function Placed(dims: Dims, x: nat, y: nat, z: nat): nat {
    (z * dims.y + y) * dims.x + x
  }

  lemma PlacedSteps(dims: Dims, x: nat, y: nat, z: nat)
    ensures Placed(dims, x + 1, y, z) == Placed(dims, x, y, z) + 1
    ensures Placed(dims, dims.x, y, z) == Placed(dims, 0, y + 1, z)
    ensures Placed(dims, 0, dims.y, z) == Placed(dims, 0, 0, z + 1)
  {
    assert (z * dims.y + y) * dims.x + dims.x == (z * dims.y + (y + 1)) * dims.x;
    assert z * dims.y + dims.y == (z + 1) * dims.y;
  }

  lemma PlacedAll(dims: Dims)
    ensures Placed(dims, 0, 0, dims.z) == dims.Voxels()
  {
    ProductTurns(dims.x, dims.y, dims.z);
  }

  lemma EmptyHolds(background: Float)
    ensures var tree := Tree(NewMask(ROOT_CHILD_CHILDREN), map[]);
      Holds(tree, background, map[]) && ActiveCount(tree) == 0
  {
    assert NodeCounts(map[]) == map[];
  }

  // ------------------------------------------------------------ reading it back

  /** The leaf a voxel's address leads to, by the maps. */
  function LeafAt(tree: Tree, c: Coord): Option<Leaf> {
    var r, i := InternalNodeSlotOffset(c), InternalChildOffset(c);
    if r in tree.internals && i in tree.internals[r].leaves then Some(tree.internals[r].leaves[i]) else None
  }

  /** What a reader of the tree sees at a voxel: whether it is active, and its value. */
  function Lookup(tree: Tree, c: Coord, background: Float): (bool, Float) {
    match LeafAt(tree, c)
    case None => (false, background)
    case Some(leaf) =>
      var v := LeafVoxelOffset(c);
      if 64 * |leaf.valueMask.words| == leaf.valueMask.bits && v < |leaf.values| then
        (leaf.valueMask.Get(v), leaf.values[v])
      else (false, background)
  }

  /** A tree of a dense field agrees with it everywhere in reach: a voxel is
      active exactly inside the field, and holds its value there and the
      background elsewhere. */
  lemma TreeIsDense(tree: Tree, seen: map<Coord, Float>, values: seq<Float>, dims: Dims, background: Float, c: Coord)
    requires Holds(tree, background, seen) && IsDense(seen, values, dims) && InReach(c)
    ensures Inside(c, dims) ==> Linear(c, dims) < |values|
    ensures Lookup(tree, c, background) ==
      if Inside(c, dims) then (true, values[Linear(c, dims)]) else (false, background)
  {
    var r, i, v := InternalNodeSlotOffset(c), InternalChildOffset(c), LeafVoxelOffset(c);
    AddressNamesVoxel(c);
    assert Inside(c, dims) <==> c in seen;
    hide InternalNodeSlotOffset; hide InternalChildOffset; hide LeafVoxelOffset; hide CoordAt; hide Linear;
    hide Dims.Voxels; hide Inside;
    if c in seen {
      assert NodeWanted(r, seen) && LeafWanted(r, i, seen);
      assert LeafHolds(tree.internals[r].leaves[i], r, i, background, seen);
    } else if LeafAt(tree, c).Some? {
      assert NodeHolds(tree.internals[r], r, background, seen);
      assert LeafHolds(tree.internals[r].leaves[i], r, i, background, seen);
    }
  }
}
