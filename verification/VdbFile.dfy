/** The file a list of grids becomes, and a reader that follows its offsets
    back to them (elements-io `vdb/tree.rs`, `vdb/writer.rs`). */
module VdbFile {
  import opened LittleEndian
  import opened Values
  import opened VdbBits
  import opened VdbTree
  import opened VdbBytes

  // ------------------------------------------------------------ a tree in file order

  /** One node as the topology pass writes it: its mask, then its leaves'. */
  datatype Outline = Outline(childMask: BitMask, masks: seq<BitMask>)

  /** One node with its leaves in mask order. */
  datatype NodeList = NodeList(childMask: BitMask, leaves: seq<Leaf>)
  {
    function Outlined(): Outline {
      Outline(childMask, seq(|leaves|, i requires 0 <= i < |leaves| => leaves[i].valueMask))
    }
  }

  /** How many bits are set below a set bit: its place in mask order. */
  function Rank(m: BitMask, j: nat): (k: nat)
    requires m.Valid() && m.Get(j)
    ensures k < |m.IterOnes()| && m.IterOnes()[k] == j
  {
    OnesPrefix(m, j, m.bits);
    |m.OnesBelow(j)|
  }

  lemma {:induction false} OnesPrefix(m: BitMask, j: nat, n: nat)
    requires m.Valid() && m.Get(j) && j < n <= m.bits
    ensures |m.OnesBelow(j)| < |m.OnesBelow(n)| && m.OnesBelow(n)[|m.OnesBelow(j)|] == j
  {
    hide WordBit; hide BitMask.Get;
    if j < n - 1 { OnesPrefix(m, j, n - 1); }
  }

  /** What the write passes need of a tree, and `build_tree` gives: sizes, and
      masks that match the maps. */
  ghost predicate NodeSound(node: Internal) {
    && node.childMask.Valid() && node.childMask.bits == INTERNAL_CHILDREN && MaskIs(node.childMask, node.leaves.Keys)
    && forall i: nat :: i in node.leaves ==> LeafSound(node.leaves[i])
  }

  ghost predicate LeafSound(leaf: Leaf) {
    leaf.valueMask.Valid() && leaf.valueMask.bits == LEAF_VOXELS && |leaf.values| == LEAF_VOXELS
  }

  ghost predicate TreeSound(tree: Tree) {
    && tree.rootMask.Valid() && tree.rootMask.bits == ROOT_CHILD_CHILDREN && MaskIs(tree.rootMask, tree.internals.Keys)
    && forall r: nat :: r in tree.internals ==> NodeSound(tree.internals[r])
  }

  lemma BuiltIsSound(tree: Tree, background: Float, seen: map<Coord, Float>)
    requires Holds(tree, background, seen)
    ensures TreeSound(tree)
  {
    forall r: nat | r in tree.internals ensures NodeSound(tree.internals[r]) {
      BuiltNodeIsSound(tree.internals[r], r, background, seen);
    }
  }

  lemma BuiltNodeIsSound(node: Internal, r: nat, background: Float, seen: map<Coord, Float>)
    requires NodeHolds(node, r, background, seen)
    ensures NodeSound(node)
  {
    forall i: nat | i in node.leaves ensures LeafSound(node.leaves[i]) {
      assert LeafHolds(node.leaves[i], r, i, background, seen);
    }
  }

  function ListNode(node: Internal): (l: NodeList)
    requires NodeSound(node)
  {
    var ones := node.childMask.IterOnes();
    assert forall k :: 0 <= k < |ones| ==> ones[k] in ones;
    NodeList(node.childMask, seq(|ones|, k requires 0 <= k < |ones| => node.leaves[ones[k]]))
  }

  function ListTree(tree: Tree): (l: seq<NodeList>)
    requires TreeSound(tree)
    ensures |l| == |tree.rootMask.IterOnes()|
  {
    var ones := tree.rootMask.IterOnes();
    assert forall k :: 0 <= k < |ones| ==> ones[k] in ones;
    seq(|ones|, k requires 0 <= k < |ones| => ListNode(tree.internals[ones[k]]))
  }

  ghost predicate ListSound(l: NodeList) {
    && l.childMask.Valid() && l.childMask.bits == INTERNAL_CHILDREN && |l.leaves| == |l.childMask.IterOnes()|
    && forall i :: 0 <= i < |l.leaves| ==> LeafSound(l.leaves[i])
  }

  /** The node a list stands for. */
  function Relist(l: NodeList): Internal
    requires ListSound(l)
  {
    Internal(l.childMask, map i | i in Elements(l.childMask) :: l.leaves[Rank(l.childMask, i)])
  }

  function Elements(m: BitMask): (s: set<nat>)
    requires m.Valid()
    ensures forall j: nat :: j in s <==> m.Get(j)
  {
    set j | j in m.IterOnes()
  }

  /** The tree a root mask and its nodes in order stand for. */
  function Retree(root: BitMask, nodes: seq<NodeList>): Tree
    requires root.Valid() && |nodes| == |root.IterOnes()| && forall k :: 0 <= k < |nodes| ==> ListSound(nodes[k])
  {
    Tree(root, map r | r in Elements(root) :: Relist(nodes[Rank(root, r)]))
  }

  lemma RelistNode(node: Internal)
    requires NodeSound(node)
    ensures ListSound(ListNode(node)) && Relist(ListNode(node)) == node
  {
    hide BitMask.Get; hide BitMask.IterOnes;
    var l, ones := ListNode(node), node.childMask.IterOnes();
    forall k | 0 <= k < |ones| ensures LeafSound(l.leaves[k]) {
      assert ones[k] in ones;
      assert ones[k] in node.leaves;
    }
    assert Relist(l).leaves == node.leaves;
  }

  /** Listing a tree in file order loses nothing. */
  lemma RetreeTree(tree: Tree)
    requires TreeSound(tree)
    ensures forall k :: 0 <= k < |ListTree(tree)| ==> ListSound(ListTree(tree)[k])
    ensures Retree(tree.rootMask, ListTree(tree)) == tree
  {
    hide BitMask.Get; hide BitMask.IterOnes; hide ListSound; hide NodeSound; hide ListNode; hide Relist;
    var l, ones := ListTree(tree), tree.rootMask.IterOnes();
    forall k | 0 <= k < |ones|
      ensures ListSound(l[k]) && l[k] == ListNode(tree.internals[ones[k]]) && Relist(l[k]) == tree.internals[ones[k]]
    {
      assert ones[k] in ones;
      assert ones[k] in tree.internals;
      RelistNode(tree.internals[ones[k]]);
    }
    assert Retree(tree.rootMask, l).internals == tree.internals;
  }

  // ------------------------------------------------------------ the passes

  function MaskBytes(m: BitMask): Bytes {
    Concat(Word, m.words, |m.words|)
  }

  /** The byte saying which values of a node follow. */
  const NO_MASK_OR_INACTIVE_VALS: bv8 := 0
  const NO_MASK_AND_ALL_VALS: bv8 := 6

  function OutlineBytes(o: Outline): Bytes {
    MaskBytes(o.childMask) + MaskBytes(NewMask(INTERNAL_CHILDREN)) + [NO_MASK_OR_INACTIVE_VALS]
    + Concat(MaskBytes, o.masks, |o.masks|)
  }

  function LeafBytes(leaf: Leaf): Bytes {
    MaskBytes(leaf.valueMask) + [NO_MASK_AND_ALL_VALS] + Concat(Half, leaf.values, |leaf.values|)
  }

  function Preamble(background: Float): Bytes {
    Le(1, 4) + Half(background) + Le(0, 4) + Le(1, 4) + (Half(0) + Half(0) + Half(0))
  }

  /** The topology pass: node masks and leaf masks, no values. */
  function Topology(root: BitMask, outlines: seq<Outline>, background: Float): Bytes {
    Preamble(background) + MaskBytes(root) + MaskBytes(NewMask(ROOT_CHILD_CHILDREN)) + [NO_MASK_OR_INACTIVE_VALS]
    + Concat(OutlineBytes, outlines, |outlines|)
  }

  function NodeBytes(l: NodeList): Bytes {
    Concat(LeafBytes, l.leaves, |l.leaves|)
  }

  /** The value pass: per leaf, its mask and all its voxels. */
  function Data(nodes: seq<NodeList>): Bytes {
    Concat(NodeBytes, nodes, |nodes|)
  }

  // ------------------------------------------------------------ reading the passes

  function ReadMask(s: Bytes, at: nat, bits: nat): Read<BitMask> {
    match ReadMany(s, at, ReadWord, bits / 64)
    case Bad => Bad
    case Got(words, next) => Got(BitMask(words, bits), next)
  }

  lemma ReadMaskBack(s: Bytes, at: nat, m: BitMask)
    requires m.Valid() && At(s, at, MaskBytes(m))
    ensures ReadMask(s, at, m.bits) == Got(m, at + |MaskBytes(m)|)
  {
    hide Word; hide ReadWord; hide Concat; hide ReadMany; hide At;
    forall i: nat, p: nat | i < |m.words| && At(s, p, Word(m.words[i]))
      ensures ReadWord(s, p) == Got(m.words[i], p + |Word(m.words[i])|)
    {
      ReadWordBack(s, p, m.words[i]);
    }
    ReadManyBack(s, at, Word, ReadWord, m.words, |m.words|);
    assert m.words[..|m.words|] == m.words;
  }

  /** One byte that must be there. */
  function Expect(s: Bytes, at: nat, b: bv8): Read<bv8> {
    if at < |s| && s[at] == b then Got(b, at + 1) else Bad
  }

  function ReadLeafMask(s: Bytes, at: nat): Read<BitMask> {
    ReadMask(s, at, 512)
  }

  function ReadOutline(s: Bytes, at: nat): Read<Outline> {
    match ReadMask(s, at, 4096)
    case Bad => Bad
    case Got(childMask, a) =>
      match ReadMask(s, a, 4096)
      case Bad => Bad
      case Got(tiles, b) =>
        match Expect(s, b, 0)
        case Bad => Bad
        case Got(_, c) =>
          if !(64 * |childMask.words| == childMask.bits) || !tiles.NoneSet() then Bad else
          match ReadMany(s, c, ReadLeafMask, |childMask.IterOnes()|)
          case Bad => Bad
          case Got(masks, d) => Got(Outline(childMask, masks), d)
  }

  ghost predicate OutlineSound(o: Outline) {
    && o.childMask.Valid() && o.childMask.bits == INTERNAL_CHILDREN && |o.masks| == |o.childMask.IterOnes()|
    && forall i :: 0 <= i < |o.masks| ==> o.masks[i].Valid() && o.masks[i].bits == LEAF_VOXELS
  }

  lemma ReadLeafMasksBack(s: Bytes, at: nat, masks: seq<BitMask>)
    requires forall i :: 0 <= i < |masks| ==> masks[i].Valid() && masks[i].bits == LEAF_VOXELS
    requires At(s, at, Concat(MaskBytes, masks, |masks|))
    ensures ReadMany(s, at, ReadLeafMask, |masks|) == Got(masks, at + |Concat(MaskBytes, masks, |masks|)|)
  {
    hide Concat; hide ReadMany; hide At; hide MaskBytes; hide ReadMask;
    forall i: nat, p: nat | i < |masks| && At(s, p, MaskBytes(masks[i]))
      ensures ReadLeafMask(s, p) == Got(masks[i], p + |MaskBytes(masks[i])|)
    {
      ReadMaskBack(s, p, masks[i]);
    }
    ReadManyBack(s, at, MaskBytes, ReadLeafMask, masks, |masks|);
    assert masks[..|masks|] == masks;
  }

  lemma ReadOutlineBack(s: Bytes, at: nat, o: Outline)
    requires OutlineSound(o) && At(s, at, OutlineBytes(o))
    ensures ReadOutline(s, at) == Got(o, at + |OutlineBytes(o)|)
  {
    hide ReadMask; hide MaskBytes; hide Concat; hide ReadMany; hide Expect; hide At; hide NewMask;
    hide BitMask.IterOnes; hide ReadLeafMask;
    var empty := NewMask(INTERNAL_CHILDREN);
    var a, b, c, d := MaskBytes(o.childMask), MaskBytes(empty), [NO_MASK_OR_INACTIVE_VALS],
      Concat(MaskBytes, o.masks, |o.masks|);
    FourParts(s, at, a, b, c, d);
    ReadMaskBack(s, at, o.childMask);
    ReadMaskBack(s, at + |a|, empty);
    ExpectBack(s, at + |a| + |b|, NO_MASK_OR_INACTIVE_VALS);
    ReadLeafMasksBack(s, at + |a| + |b| + 1, o.masks);
  }

  lemma ExpectBack(s: Bytes, at: nat, b: bv8)
    requires At(s, at, [b])
    ensures Expect(s, at, b) == Got(b, at + 1)
  {
    assert s[at..at + 1][0] == s[at];
  }

  lemma FourParts(s: Bytes, at: nat, a: Bytes, b: Bytes, c: Bytes, d: Bytes)
    ensures At(s, at, a + b + c + d) <==>
      At(s, at, a) && At(s, at + |a|, b) && At(s, at + |a| + |b|, c) && At(s, at + |a| + |b| + |c|, d)
  {
    hide At;
    AtConcat(s, at, a + b + c, d);
    AtConcat(s, at, a + b, c);
    AtConcat(s, at, a, b);
  }

  function ReadLeaf(s: Bytes, at: nat): Read<Leaf> {
    match ReadMask(s, at, 512)
    case Bad => Bad
    case Got(mask, a) =>
      match Expect(s, a, 6)
      case Bad => Bad
      case Got(_, b) =>
        match ReadMany(s, b, ReadHalf, 512)
        case Bad => Bad
        case Got(values, c) => Got(Leaf(mask, values), c)
  }

  lemma ReadLeafBack(s: Bytes, at: nat, leaf: Leaf)
    requires LeafSound(leaf) && At(s, at, LeafBytes(leaf))
    ensures ReadLeaf(s, at) == Got(leaf, at + |LeafBytes(leaf)|)
  {
    hide MaskBytes; hide Concat; hide ReadMany; hide At; hide Half; hide ReadHalf; hide ReadMask; hide Expect;
    var a, b, c := MaskBytes(leaf.valueMask), [NO_MASK_AND_ALL_VALS], Concat(Half, leaf.values, |leaf.values|);
    AtConcat(s, at, a + b, c);
    AtConcat(s, at, a, b);
    ReadMaskBack(s, at, leaf.valueMask);
    ExpectBack(s, at + |a|, NO_MASK_AND_ALL_VALS);
    forall i: nat, p: nat | i < |leaf.values| && At(s, p, Half(leaf.values[i]))
      ensures ReadHalf(s, p) == Got(leaf.values[i], p + |Half(leaf.values[i])|)
    {
      ReadHalfBack(s, p, leaf.values[i]);
    }
    ReadManyBack(s, at + |a| + 1, Half, ReadHalf, leaf.values, |leaf.values|);
    assert leaf.values[..|leaf.values|] == leaf.values;
  }

  /** Everything the topology pass tells a reader. */
  datatype TreeShape = TreeShape(root: BitMask, background: Float, outlines: seq<Outline>)

  ghost predicate TopologySound(t: TreeShape) {
    && t.root.Valid() && t.root.bits == ROOT_CHILD_CHILDREN && |t.outlines| == |t.root.IterOnes()|
    && forall k :: 0 <= k < |t.outlines| ==> OutlineSound(t.outlines[k])
  }

  function ReadPreamble(s: Bytes, at: nat): Read<Float> {
    if at + 28 <= |s| && UnLe(s[at..at + 4]) == 1 && UnLe(s[at + 8..at + 12]) == 0 && UnLe(s[at + 12..at + 16]) == 1
       && UnLe(s[at + 16..at + 20]) == 0 && UnLe(s[at + 20..at + 24]) == 0 && UnLe(s[at + 24..at + 28]) == 0
    then Got(UnHalf(s[at + 4..at + 8]), at + 28) else Bad
  }

  lemma NoBytes()
    ensures UnLe(Half(0)) == 0
  {
    assert Half(0) == [0, 0, 0, 0];
    assert UnLe([0]) == 0 + 256 * UnLe([]);
    assert [0, 0, 0, 0][1..] == [0, 0, 0] && [0, 0, 0][1..] == [0, 0] && [0, 0][1..] == [0];
  }

  lemma Reads(s: Bytes, at: nat, b: Bytes)
    requires At(s, at, b)
    ensures at + |b| <= |s| && s[at..at + |b|] == b
  {
  }

  lemma ReadPreambleBack(s: Bytes, at: nat, background: Float)
    requires At(s, at, Preamble(background))
    ensures ReadPreamble(s, at) == Got(background, at + |Preamble(background)|)
  {
    hide Le; hide UnLe; hide Power; hide Half; hide UnHalf; hide At;
    var a, b, c, d, e := Le(1, 4), Half(background), Le(0, 4), Le(1, 4), Half(0);
    AtConcat(s, at, a + b + c + d, e + e + e);
    FourParts(s, at, a, b, c, d);
    AtConcat(s, at + 16, e + e, e);
    AtConcat(s, at + 16, e, e);
    UnHalfOfHalf(background);
    Powers();
    UnLeOfLe(1, 4);
    UnLeOfLe(0, 4);
    NoBytes();
    Reads(s, at, a);
    Reads(s, at + 4, b);
    Reads(s, at + 8, c);
    Reads(s, at + 12, d);
    Reads(s, at + 16, e);
    Reads(s, at + 20, e);
    Reads(s, at + 24, e);
  }

  function ReadTopology(s: Bytes, at: nat): Read<TreeShape> {
    match ReadPreamble(s, at)
    case Bad => Bad
    case Got(background, a) =>
      match ReadMask(s, a, 32768)
      case Bad => Bad
      case Got(root, b) =>
        match ReadMask(s, b, 32768)
        case Bad => Bad
        case Got(tiles, c) =>
          match Expect(s, c, 0)
          case Bad => Bad
          case Got(_, d) =>
            if !(64 * |root.words| == root.bits) || !tiles.NoneSet() then Bad else
            match ReadMany(s, d, ReadOutline, |root.IterOnes()|)
            case Bad => Bad
            case Got(outlines, e) => Got(TreeShape(root, background, outlines), e)
  }

  lemma ReadOutlinesBack(s: Bytes, at: nat, os: seq<Outline>)
    requires forall k :: 0 <= k < |os| ==> OutlineSound(os[k])
    requires At(s, at, Concat(OutlineBytes, os, |os|))
    ensures ReadMany(s, at, ReadOutline, |os|) == Got(os, at + |Concat(OutlineBytes, os, |os|)|)
  {
    hide Concat; hide ReadMany; hide At; hide OutlineBytes; hide ReadOutline; hide OutlineSound;
    forall i: nat, p: nat | i < |os| && At(s, p, OutlineBytes(os[i]))
      ensures ReadOutline(s, p) == Got(os[i], p + |OutlineBytes(os[i])|)
    {
      ReadOutlineBack(s, p, os[i]);
    }
    ReadManyBack(s, at, OutlineBytes, ReadOutline, os, |os|);
    assert os[..|os|] == os;
  }

  lemma ReadTopologyBack(s: Bytes, at: nat, t: TreeShape)
    requires TopologySound(t) && At(s, at, Topology(t.root, t.outlines, t.background))
    ensures ReadTopology(s, at) == Got(t, at + |Topology(t.root, t.outlines, t.background)|)
  {
    hide ReadMask; hide MaskBytes; hide Concat; hide ReadMany; hide Expect; hide At; hide NewMask;
    hide BitMask.IterOnes;
    hide ReadPreamble; hide Preamble; hide ReadOutline; hide OutlineSound;
    var empty := NewMask(ROOT_CHILD_CHILDREN);
    var a, b, c, d := Preamble(t.background), MaskBytes(t.root), MaskBytes(empty), [NO_MASK_OR_INACTIVE_VALS];
    var e := Concat(OutlineBytes, t.outlines, |t.outlines|);
    AtConcat(s, at, a + b + c + d, e);
    FourParts(s, at, a, b, c, d);
    ReadPreambleBack(s, at, t.background);
    ReadMaskBack(s, at + |a|, t.root);
    ReadMaskBack(s, at + |a| + |b|, empty);
    ExpectBack(s, at + |a| + |b| + |c|, NO_MASK_OR_INACTIVE_VALS);
    ReadOutlinesBack(s, at + |a| + |b| + |c| + 1, t.outlines);
  }

  /** The first `n` nodes' leaves, each node's as many as its outline has. */
  function ReadNodes(s: Bytes, at: nat, outlines: seq<Outline>, n: nat): Read<seq<NodeList>>
    requires n <= |outlines|
  {
    if n == 0 then Got([], at) else
      match ReadNodes(s, at, outlines, n - 1)
      case Bad => Bad
      case Got(nodes, next) =>
        match ReadMany(s, next, ReadLeaf, |outlines[n - 1].masks|)
        case Bad => Bad
        case Got(leaves, end) => Got(nodes + [NodeList(outlines[n - 1].childMask, leaves)], end)
  }

  lemma ReadLeavesBack(s: Bytes, at: nat, leaves: seq<Leaf>)
    requires forall i :: 0 <= i < |leaves| ==> LeafSound(leaves[i])
    requires At(s, at, Concat(LeafBytes, leaves, |leaves|))
    ensures ReadMany(s, at, ReadLeaf, |leaves|) == Got(leaves, at + |Concat(LeafBytes, leaves, |leaves|)|)
  {
    hide Concat; hide ReadMany; hide At; hide LeafBytes; hide ReadLeaf; hide LeafSound;
    forall i: nat, p: nat | i < |leaves| && At(s, p, LeafBytes(leaves[i]))
      ensures ReadLeaf(s, p) == Got(leaves[i], p + |LeafBytes(leaves[i])|)
    {
      ReadLeafBack(s, p, leaves[i]);
    }
    ReadManyBack(s, at, LeafBytes, ReadLeaf, leaves, |leaves|);
    assert leaves[..|leaves|] == leaves;
  }

  function Outlines(nodes: seq<NodeList>): (os: seq<Outline>)
    ensures |os| == |nodes| && forall k :: 0 <= k < |nodes| ==> os[k] == nodes[k].Outlined()
  {
    seq(|nodes|, k requires 0 <= k < |nodes| => nodes[k].Outlined())
  }

  lemma {:induction false} ReadNodesBack(s: Bytes, at: nat, nodes: seq<NodeList>, n: nat)
    requires n <= |nodes| && At(s, at, Concat(NodeBytes, nodes, n))
    requires forall k :: 0 <= k < n ==> ListSound(nodes[k])
    ensures ReadNodes(s, at, Outlines(nodes), n) == Got(nodes[..n], at + |Concat(NodeBytes, nodes, n)|)
    decreases n
  {
    hide At; hide ReadLeaf; hide LeafBytes; hide ReadMany; hide BitMask.IterOnes; hide LeafSound;
    if n == 0 {
      assert nodes[..0] == [];
    } else {
      var l := nodes[n - 1];
      AtConcat(s, at, Concat(NodeBytes, nodes, n - 1), NodeBytes(l));
      ReadNodesBack(s, at, nodes, n - 1);
      ReadLeavesBack(s, at + |Concat(NodeBytes, nodes, n - 1)|, l.leaves);
      assert Outlines(nodes)[n - 1] == l.Outlined();
      assert nodes[..n] == nodes[..n - 1] + [l];
    }
  }

  // ------------------------------------------------------------ one grid

  const COMPRESSION_ACTIVE_MASK: nat := 2

  /** The scale transform's words: the voxel size, its inverse, the inverse
      squared and half the inverse, as the float arithmetic leaves them. */
  datatype Scales = Scales(size: bv64, inverse: bv64, inverseSquared: bv64, halfInverse: bv64)
  {
    function Words(): (w: seq<bv64>)
      ensures |w| == 15
    {
      [size, size, size, size, size, size, inverse, inverse, inverse,
       inverseSquared, inverseSquared, inverseSquared, halfInverse, halfInverse, halfInverse]
    }
  }

  /** What a grid says of itself: everything a reader gets back. */
  datatype Grid = Grid(name: Bytes, entries: seq<Entry>, scale: seq<bv64>, background: Float, root: BitMask,
      nodes: seq<NodeList>)
  {
    ghost predicate Sound() {
      && |name| < 0x1_0000_0000
      && |entries| < 0x1_0000_0000 && (forall i :: 0 <= i < |entries| ==> entries[i].Fits())
      && |scale| == 15
      && root.Valid() && root.bits == ROOT_CHILD_CHILDREN && |nodes| == |root.IterOnes()|
      && forall k :: 0 <= k < |nodes| ==> ListSound(nodes[k])
    }

    function Head(): Bytes {
      Text(name) + Text(Ascii("Tree_float_5_4_3")) + Text([])
    }

    function Body(): Bytes {
      Le(COMPRESSION_ACTIVE_MASK, 4) + Metadata(entries)
        + (Text(Ascii("UniformScaleMap")) + Concat(Word, scale, |scale|))
      + Topology(root, Outlines(nodes), background)
    }

    function GridPos(start: nat): nat {
      start + |Head()| + 24
    }

    function BlockPos(start: nat): nat {
      GridPos(start) + |Body()|
    }

    function EndPos(start: nat): nat {
      BlockPos(start) + |Data(nodes)|
    }

    function Offsets(start: nat): Bytes {
      Le(GridPos(start), 8) + Le(BlockPos(start), 8) + Le(EndPos(start), 8)
    }

    /** The grid's bytes in a file they start at `start` of. */
    function Encoded(start: nat): (b: Bytes)
      ensures start + |b| == EndPos(start)
    {
      Head() + Offsets(start) + Body() + Data(nodes)
    }
  }

  datatype Descriptor = Descriptor(name: Bytes, gridPos: nat, blockPos: nat, endPos: nat)

  function ReadDescriptor(s: Bytes, at: nat): Read<Descriptor> {
    match ReadText(s, at)
    case Bad => Bad
    case Got(name, a) =>
      match ReadText(s, a)
      case Bad => Bad
      case Got(kind, b) =>
        match ReadText(s, b)
        case Bad => Bad
        case Got(parent, c) =>
          if kind != Ascii("Tree_float_5_4_3") || parent != [] || c + 24 > |s| then Bad
          else Got(Descriptor(name, UnLe(s[c..c + 8]), UnLe(s[c + 8..c + 16]), UnLe(s[c + 16..c + 24])), c + 24)
  }

  lemma ReadOffsetsBack(s: Bytes, at: nat, g: nat, b: nat, e: nat)
    requires At(s, at, Le(g, 8) + Le(b, 8) + Le(e, 8)) && g <= b <= e < 0x1_0000_0000_0000_0000
    ensures at + 24 <= |s|
    ensures UnLe(s[at..at + 8]) == g && UnLe(s[at + 8..at + 16]) == b && UnLe(s[at + 16..at + 24]) == e
  {
    hide Le; hide UnLe; hide Power;
    AtConcat(s, at, Le(g, 8) + Le(b, 8), Le(e, 8));
    AtConcat(s, at, Le(g, 8), Le(b, 8));
    Powers();
    ReadIntBack(s, at, g, 8);
    ReadIntBack(s, at + 8, b, 8);
    ReadIntBack(s, at + 16, e, 8);
  }

  lemma ReadHeadBack(s: Bytes, at: nat, g: Grid)
    requires At(s, at, g.Head()) && |g.name| < 0x1_0000_0000
    ensures ReadText(s, at) == Got(g.name, at + |Text(g.name)|)
    ensures var a := at + |Text(g.name)|;
      ReadText(s, a) == Got(Ascii("Tree_float_5_4_3"), a + |Text(Ascii("Tree_float_5_4_3"))|)
    ensures var b := at + |Text(g.name)| + |Text(Ascii("Tree_float_5_4_3"))|; ReadText(s, b) == Got([], at + |g.Head()|)
  {
    hide ReadText; hide Text; hide At; hide Ascii;
    AtConcat(s, at, Text(g.name) + Text(Ascii("Tree_float_5_4_3")), Text([]));
    AtConcat(s, at, Text(g.name), Text(Ascii("Tree_float_5_4_3")));
    ReadTextBack(s, at, g.name);
    ReadTextBack(s, at + |Text(g.name)|, Ascii("Tree_float_5_4_3"));
    ReadTextBack(s, at + |Text(g.name)| + |Text(Ascii("Tree_float_5_4_3"))|, []);
  }

  lemma ReadDescriptorBack(s: Bytes, at: nat, g: Grid, start: nat)
    requires At(s, at, g.Head() + g.Offsets(start)) && |g.name| < 0x1_0000_0000
      && g.EndPos(start) < 0x1_0000_0000_0000_0000
    ensures ReadDescriptor(s, at)
      == Got(Descriptor(g.name, g.GridPos(start), g.BlockPos(start), g.EndPos(start)), at + |g.Head()| + 24)
  {
    hide ReadText; hide Text; hide At; hide Ascii; hide Le; hide UnLe; hide Grid.Head; hide Data; hide Grid.Body;
    AtConcat(s, at, g.Head(), g.Offsets(start));
    ReadHeadBack(s, at, g);
    ReadOffsetsBack(s, at + |g.Head()|, g.GridPos(start), g.BlockPos(start), g.EndPos(start));
  }

  function ReadTransform(s: Bytes, at: nat): Read<seq<bv64>> {
    match ReadText(s, at)
    case Bad => Bad
    case Got(kind, a) => if kind == Ascii("UniformScaleMap") then ReadMany(s, a, ReadWord, 15) else Bad
  }

  lemma ReadTransformBack(s: Bytes, at: nat, words: seq<bv64>)
    requires |words| == 15 && At(s, at, Text(Ascii("UniformScaleMap")) + Concat(Word, words, |words|))
    ensures ReadTransform(s, at) == Got(words, at + |Text(Ascii("UniformScaleMap")) + Concat(Word, words, |words|)|)
  {
    hide ReadText; hide Text; hide At; hide Ascii; hide Concat; hide ReadMany; hide Word; hide ReadWord;
    var kind := Ascii("UniformScaleMap");
    AtConcat(s, at, Text(kind), Concat(Word, words, |words|));
    ReadTextBack(s, at, kind);
    forall i: nat, p: nat | i < |words| && At(s, p, Word(words[i]))
      ensures ReadWord(s, p) == Got(words[i], p + |Word(words[i])|)
    {
      ReadWordBack(s, p, words[i]);
    }
    ReadManyBack(s, at + |Text(kind)|, Word, ReadWord, words, |words|);
    assert words[..|words|] == words;
  }

  datatype BodyRead = BodyRead(entries: seq<Entry>, scale: seq<bv64>, shape: TreeShape)

  function ReadBody(s: Bytes, at: nat): Read<BodyRead> {
    match ReadInt(s, at, 4)
    case Bad => Bad
    case Got(flags, a) =>
      if flags != 2 then Bad else
      match ReadMetadata(s, a)
      case Bad => Bad
      case Got(entries, b) =>
        match ReadTransform(s, b)
        case Bad => Bad
        case Got(scale, c) =>
          match ReadTopology(s, c)
          case Bad => Bad
          case Got(t, d) => Got(BodyRead(entries, scale, t), d)
  }

  lemma OutlinesSound(g: Grid)
    requires g.Sound()
    ensures TopologySound(TreeShape(g.root, g.background, Outlines(g.nodes)))
  {
    hide BitMask.IterOnes; hide BitMask.Get;
    forall k | 0 <= k < |g.nodes| ensures OutlineSound(Outlines(g.nodes)[k]) {
      assert ListSound(g.nodes[k]);
      forall i | 0 <= i < |g.nodes[k].leaves| ensures LeafSound(g.nodes[k].leaves[i]) {
      }
    }
  }

  lemma ReadBodyBack(s: Bytes, at: nat, g: Grid)
    requires g.Sound() && At(s, at, g.Body())
    ensures ReadBody(s, at)
      == Got(BodyRead(g.entries, g.scale, TreeShape(g.root, g.background, Outlines(g.nodes))), at + |g.Body()|)
  {
    hide Text; hide At; hide Ascii; hide Concat; hide Le; hide UnLe; hide ReadInt; hide Power; hide Metadata;
    hide ReadMetadata;
    hide ReadTransform; hide Topology; hide ReadTopology; hide ListSound; hide TopologySound; hide BitMask.IterOnes;
    hide BitMask.Get;
    var a, b := Le(COMPRESSION_ACTIVE_MASK, 4), Metadata(g.entries);
    var c := Text(Ascii("UniformScaleMap")) + Concat(Word, g.scale, |g.scale|);
    var d := Topology(g.root, Outlines(g.nodes), g.background);
    FourParts(s, at, a, b, c, d);
    Powers();
    ReadIntBack(s, at, COMPRESSION_ACTIVE_MASK, 4);
    ReadMetadataBack(s, at + |a|, g.entries);
    ReadTransformBack(s, at + |a| + |b|, g.scale);
    OutlinesSound(g);
    ReadTopologyBack(s, at + |a| + |b| + |c|, TreeShape(g.root, g.background, Outlines(g.nodes)));
  }

  /** A grid, from its descriptor alone: the header at its grid offset, the
      leaves at its block offset, the next grid at its end offset. */
  function ReadGrid(s: Bytes, at: nat): Read<Grid> {
    match ReadDescriptor(s, at)
    case Bad => Bad
    case Got(d, _) =>
      match ReadBody(s, d.gridPos)
      case Bad => Bad
      case Got(b, _) =>
        match ReadNodes(s, d.blockPos, b.shape.outlines, |b.shape.outlines|)
        case Bad => Bad
        case Got(nodes, _) => Got(Grid(d.name, b.entries, b.scale, b.shape.background, b.shape.root, nodes), d.endPos)
  }

  /** No reader gives a name longer than a 32-bit length can say. */
  lemma ReadNameFits(s: Bytes, at: nat)
    requires ReadGrid(s, at).Got?
    ensures |ReadGrid(s, at).value.name| < 0x1_0000_0000
  {
    hide ReadBody; hide ReadNodes; hide UnLe; hide Power;
    Powers();
    UnLeFits(s[at..at + 4]);
  }

  /** Every grid reads back from where it was written. */
  lemma ReadGridBack(s: Bytes, start: nat, g: Grid)
    requires g.Sound() && At(s, start, g.Encoded(start)) && |s| < 0x1_0000_0000_0000_0000
    ensures ReadGrid(s, start) == Got(g, g.EndPos(start))
  {
    hide Data; hide Grid.Head; hide Grid.Body; hide Grid.Offsets; hide ReadDescriptor; hide ReadBody; hide ReadNodes;
    hide ListSound;
    hide BitMask.IterOnes; hide BitMask.Get; hide Concat; hide NodeBytes;
    FourParts(s, start, g.Head(), g.Offsets(start), g.Body(), Data(g.nodes));
    EndInside(s, start, g.Encoded(start));
    AtConcat(s, start, g.Head(), g.Offsets(start));
    ReadDescriptorBack(s, start, g, start);
    ReadBodyBack(s, g.GridPos(start), g);
    DataIs(g.nodes);
    ReadNodesBack(s, g.BlockPos(start), g.nodes, |g.nodes|);
    assert g.nodes[..|g.nodes|] == g.nodes;
  }

  lemma DataIs(nodes: seq<NodeList>)
    ensures Data(nodes) == Concat(NodeBytes, nodes, |nodes|)
  {
  }

  lemma EndInside(s: Bytes, at: nat, b: Bytes)
    requires At(s, at, b)
    ensures at + |b| <= |s|
  {
  }
}
