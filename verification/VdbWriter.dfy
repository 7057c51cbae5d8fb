/** Writing grids through a seekable stream, offsets patched once known, and
    the file read back (elements-io `vdb/writer.rs`, `vdb/tree.rs`). */
module VdbWriter {
  import opened LittleEndian
  import opened Values
  import opened VdbBits
  import opened VdbTree
  import opened VdbBytes
  import opened VdbFile

  /** `b` written over `d` at `at`, past its end where it reaches that far. */
  function Overwritten(d: Bytes, at: nat, b: Bytes): Bytes
    requires at <= |d|
  {
    d[..at] + b + if at + |b| <= |d| then d[at + |b|..] else []
  }

  /** Overwriting one part of a stream changes no other byte of it. */
  lemma PatchIs(a: Bytes, b: Bytes, c: Bytes, b': Bytes)
    requires |b| == |b'|
    ensures Overwritten(a + b + c, |a|, b') == a + b' + c
  {
  }

  class ByteWriter {
    var data: Bytes
    var position: nat

    ghost predicate AtEnd()
      reads this
    {
      position == |data|
    }

    constructor ()
      ensures data == [] && AtEnd()
    {
      data, position := [], 0;
    }

    method Raw(bytes: Bytes)
      requires position <= |data|
      modifies this
      ensures data == Overwritten(old(data), old(position), bytes) && position == old(position) + |bytes|
      ensures old(AtEnd()) ==> AtEnd() && data == old(data) + bytes
    {
      data := data[..position] + bytes + if position + |bytes| <= |data| then data[position + |bytes|..] else [];
      position := position + |bytes|;
    }

    method U8(b: bv8)
      requires AtEnd()
      modifies this
      ensures AtEnd() && data == old(data) + [b]
    {
      Raw([b]);
    }

    /** A `u32`: the low 32 bits of `n`. */
    method U32(n: nat)
      requires AtEnd()
      modifies this
      ensures AtEnd() && data == old(data) + Le(n, 4)
    {
      Raw(Le(n, 4));
    }

    method U64(n: nat)
      requires AtEnd()
      modifies this
      ensures AtEnd() && data == old(data) + Le(n, 8)
    {
      Raw(Le(n, 8));
    }

    method String(s: Bytes)
      requires AtEnd()
      modifies this
      ensures AtEnd() && data == old(data) + Text(s)
    {
      U32(|s|);
      Raw(s);
    }

    /** `patch_u64_at`: eight bytes written over, the position back at the end. */
    method PatchU64At(offset: nat, value: nat)
      requires AtEnd() && offset + 8 <= |data|
      modifies this
      ensures AtEnd() && data == Overwritten(old(data), offset, Le(value, 8)) && |data| == old(|data|)
    {
      var here := position;
      position := offset;
      Raw(Le(value, 8));
      position := here;
    }

    /** `BitMask::write`. */
    method Mask(m: BitMask)
      requires AtEnd()
      modifies this
      ensures AtEnd() && data == old(data) + MaskBytes(m)
    {
      for i := 0 to |m.words|
        invariant AtEnd() && data == old(data) + Concat(Word, m.words, i)
      {
        Raw(Word(m.words[i]));
      }
    }

    method Metadata(entries: seq<Entry>)
      requires AtEnd()
      modifies this
      ensures AtEnd() && data == old(data) + VdbBytes.Metadata(entries)
    {
      hide Record; hide Le;
      U32(|entries|);
      for i := 0 to |entries|
        invariant AtEnd() && data == old(data) + (Le(|entries|, 4) + Concat(Record, entries, i))
      {
        MetadataRecord(entries[i]);
      }
    }

    /** A name, then its value's type name, length and payload. */
    method MetadataRecord(e: Entry)
      requires AtEnd()
      modifies this
      ensures AtEnd() && data == old(data) + Record(e)
    {
      hide MetaValue.TypeName; hide MetaValue.Payload; hide MetaValue.ByteLen; hide Text; hide Le;
      String(e.name);
      String(e.value.TypeName());
      U32(e.value.ByteLen());
      Raw(e.value.Payload());
    }

    method F64s(words: seq<bv64>)
      requires AtEnd()
      modifies this
      ensures AtEnd() && data == old(data) + Concat(Word, words, |words|)
    {
      for i := 0 to |words|
        invariant AtEnd() && data == old(data) + Concat(Word, words, i)
      {
        Raw(Word(words[i]));
      }
    }

    /** `write_grid_descriptor`: the three offsets are placeholders for now. */
    method GridDescriptor(g: Grid) returns (gridPosAt: nat, blockPosAt: nat, endPosAt: nat)
      requires AtEnd()
      modifies this
      ensures AtEnd() && data == old(data) + (g.Head() + (Le(0, 8) + Le(0, 8) + Le(0, 8)))
      ensures gridPosAt == old(|data|) + |g.Head()| && blockPosAt == gridPosAt + 8 && endPosAt == gridPosAt + 16
    {
      hide Text; hide Ascii; hide Le;
      String(g.name);
      String(Ascii("Tree_float_5_4_3"));
      String([]);
      assert data == old(data) + g.Head();
      gridPosAt := position;
      U64(0);
      blockPosAt := position;
      U64(0);
      endPosAt := position;
      U64(0);
    }

    /** `write_tree_topology`. */
    method TreeTopology(tree: Tree, background: Float)
      requires AtEnd() && TreeSound(tree)
      modifies this
      ensures AtEnd() && data == old(data) + Topology(tree.rootMask, Outlines(ListTree(tree)), background)
    {
      hide BitMask.Get; hide MaskBytes; hide NewMask; hide ListTree; hide Preamble; hide OutlineBytes; hide TreeSound;
      hide Outlines; hide Concat;
      TopologyStart(tree, background);
      TopologyNodes(tree);
    }

    method TopologyNodes(tree: Tree)
      requires AtEnd() && TreeSound(tree)
      modifies this
      ensures AtEnd() && data == old(data) + Concat(OutlineBytes, Outlines(ListTree(tree)), |Outlines(ListTree(tree))|)
    {
      hide BitMask.Get; hide BitMask.IterOnes; hide ListTree; hide OutlineBytes; hide NodeList.Outlined; hide ListNode;
      ghost var outlines := Outlines(ListTree(tree));
      var ones := tree.rootMask.IterOnes();
      hide Outlines;
      for k := 0 to |ones|
        invariant AtEnd() && data == old(data) + Concat(OutlineBytes, outlines, k)
      {
        assert ones[k] in ones;
        ListedAt(tree, k);
        assert outlines[k] == ListNode(tree.internals[ones[k]]).Outlined();
        NodeTopology(tree.internals[ones[k]]);
      }
    }

    /** Everything before the first node: counts, background, origin, root masks. */
    method TopologyStart(tree: Tree, background: Float)
      requires AtEnd()
      modifies this
      ensures AtEnd() && data == old(data)
        + (Preamble(background) + MaskBytes(tree.rootMask) + MaskBytes(NewMask(ROOT_CHILD_CHILDREN))
          + [NO_MASK_OR_INACTIVE_VALS])
    {
      hide MaskBytes; hide NewMask; hide Preamble;
      RootPreamble(background);
      Mask(tree.rootMask);
      Mask(NewMask(ROOT_CHILD_CHILDREN));
      U8(NO_MASK_OR_INACTIVE_VALS);
    }

    method RootPreamble(background: Float)
      requires AtEnd()
      modifies this
      ensures AtEnd() && data == old(data) + Preamble(background)
    {
      hide Le; hide Half;
      U32(1);
      Raw(Half(background));
      U32(0);
      U32(1);
      Raw(Half(0));
      Raw(Half(0));
      Raw(Half(0));
    }

    method NodeTopology(node: Internal)
      requires AtEnd() && NodeSound(node)
      modifies this
      ensures AtEnd() && data == old(data) + OutlineBytes(ListNode(node).Outlined())
    {
      hide BitMask.Get; hide MaskBytes; hide BitMask.IterOnes; hide NewMask; hide ListNode; hide Concat;
      LeavesListed(node);
      Mask(node.childMask);
      Mask(NewMask(INTERNAL_CHILDREN));
      U8(NO_MASK_OR_INACTIVE_VALS);
      NodeMasks(node);
    }

    method NodeMasks(node: Internal)
      requires AtEnd() && NodeSound(node)
      modifies this
      ensures AtEnd()
      ensures var masks := ListNode(node).Outlined().masks; data == old(data) + Concat(MaskBytes, masks, |masks|)
    {
      hide BitMask.Get; hide MaskBytes; hide BitMask.IterOnes; hide NewMask; hide ListNode;
      ghost var masks := ListNode(node).Outlined().masks;
      var ones := node.childMask.IterOnes();
      LeavesListed(node);
      for k := 0 to |ones|
        invariant AtEnd() && data == old(data) + Concat(MaskBytes, masks, k)
      {
        assert ones[k] in ones;
        Mask(node.leaves[ones[k]].valueMask);
      }
    }

    /** `write_tree_data`. */
    method TreeData(tree: Tree)
      requires AtEnd() && TreeSound(tree)
      modifies this
      ensures AtEnd() && data == old(data) + Data(ListTree(tree))
    {
      hide BitMask.Get; hide BitMask.IterOnes; hide ListTree; hide NodeBytes;
      ghost var nodes := ListTree(tree);
      var ones := tree.rootMask.IterOnes();
      for k := 0 to |ones|
        invariant AtEnd() && data == old(data) + Concat(NodeBytes, nodes, k)
      {
        assert ones[k] in ones;
        NodeData(tree.internals[ones[k]]);
        ListedAt(tree, k);
      }
    }

    method NodeData(node: Internal)
      requires AtEnd() && NodeSound(node)
      modifies this
      ensures AtEnd() && data == old(data) + NodeBytes(ListNode(node))
    {
      hide BitMask.Get; hide BitMask.IterOnes; hide ListNode; hide LeafBytes;
      ghost var leaves := ListNode(node).leaves;
      var ones := node.childMask.IterOnes();
      LeavesListed(node);
      for k := 0 to |ones|
        invariant AtEnd() && data == old(data) + Concat(LeafBytes, leaves, k)
      {
        assert ones[k] in ones;
        LeafData(node.leaves[ones[k]]);
      }
    }

    method LeafData(leaf: Leaf)
      requires AtEnd()
      modifies this
      ensures AtEnd() && data == old(data) + LeafBytes(leaf)
    {
      hide MaskBytes; hide Half;
      Mask(leaf.valueMask);
      U8(NO_MASK_AND_ALL_VALS);
      ghost var before := data;
      for i := 0 to |leaf.values|
        invariant AtEnd() && data == before + Concat(Half, leaf.values, i)
      {
        Raw(Half(leaf.values[i]));
      }
    }

    /** `write_uniform_scale_transform`. */
    method Transform(scales: Scales)
      requires AtEnd()
      modifies this
      ensures AtEnd() && data == old(data) + (Text(Ascii("UniformScaleMap")) + Concat(Word, scales.Words(), 15))
    {
      hide Text; hide Ascii; hide Concat; hide Scales.Words;
      String(Ascii("UniformScaleMap"));
      F64s(scales.Words());
    }

    /** Everything between a grid's descriptor and its data. */
    method GridBody(g: Grid, scales: Scales, tree: Tree)
      requires AtEnd() && TreeSound(tree) && g.scale == scales.Words() && g.root == tree.rootMask
        && g.nodes == ListTree(tree)
      modifies this
      ensures AtEnd() && data == old(data) + g.Body()
    {
      hide TreeSound; hide ListTree; hide Topology; hide Le; hide Text; hide Ascii; hide Concat; hide Scales.Words;
      hide VdbBytes.Metadata;
      U32(COMPRESSION_ACTIVE_MASK);
      Metadata(g.entries);
      Transform(scales);
      TreeTopology(tree, g.background);
    }

    /** `write_one_grid`: descriptor, body, leaves, then the three offsets. */
    method OneGrid(g: Grid, scales: Scales, tree: Tree)
      requires AtEnd() && TreeSound(tree) && g.scale == scales.Words() && g.root == tree.rootMask
        && g.nodes == ListTree(tree)
      modifies this
      ensures AtEnd() && data == old(data) + g.Encoded(old(|data|))
    {
      hide TreeSound; hide ListTree; hide Data; hide Le; hide Grid.Head; hide Grid.Body; hide Overwritten;
      ghost var before := data;
      var gridPosAt, blockPosAt, endPosAt := GridDescriptor(g);
      var gridPos := position;
      GridBody(g, scales, tree);
      var blockPos := position;
      TreeData(tree);
      var endPos := position;
      ghost var head, zero, rest := before + g.Head(), Le(0, 8), g.Body() + Data(g.nodes);
      Regroup(before, g.Head(), zero + zero + zero, g.Body(), Data(g.nodes));
      assert data == head + (zero + zero + zero) + rest;
      Patched(head, zero, zero, zero, Le(gridPos, 8), Le(blockPos, 8), Le(endPos, 8), rest);
      PatchU64At(gridPosAt, gridPos);
      PatchU64At(blockPosAt, blockPos);
      PatchU64At(endPosAt, endPos);
      Regroup(before, g.Head(), Le(gridPos, 8) + Le(blockPos, 8) + Le(endPos, 8), g.Body(), Data(g.nodes));
    }
  }

  lemma Regroup(a: Bytes, p: Bytes, q: Bytes, r: Bytes, c: Bytes)
    ensures a + (p + q + r) + c == a + p + (q + r + c)
    ensures a + (p + q + r) + c == (a + p) + q + (r + c)
    ensures a + (p + q + r) + c == (a + p + q) + r + c
  {
  }

  /** Three reserved slots filled in, one after another. */
  lemma Patched(a: Bytes, p: Bytes, q: Bytes, r: Bytes, p': Bytes, q': Bytes, r': Bytes, c: Bytes)
    requires |p| == |q| == |r| == |p'| == |q'| == |r'| == 8
    ensures Overwritten(a + (p + q + r) + c, |a|, p') == a + (p' + q + r) + c
    ensures Overwritten(a + (p' + q + r) + c, |a| + 8, q') == a + (p' + q' + r) + c
    ensures Overwritten(a + (p' + q' + r) + c, |a| + 16, r') == a + (p' + q' + r') + c
  {
    hide Overwritten;
    Regroup(a, p, q, r, c);
    Regroup(a, p', q, r, c);
    Regroup(a, p', q', r, c);
    Regroup(a, p', q', r', c);
    PatchIs(a, p, q + r + c, p');
    PatchIs(a + p', q, r + c, q');
    PatchIs(a + p' + q', r, c, r');
  }

  lemma ListedAt(tree: Tree, k: nat)
    requires TreeSound(tree) && k < |tree.rootMask.IterOnes()|
    ensures tree.rootMask.IterOnes()[k] in tree.internals && NodeSound(tree.internals[tree.rootMask.IterOnes()[k]])
    ensures ListTree(tree)[k] == ListNode(tree.internals[tree.rootMask.IterOnes()[k]])
  {
    assert tree.rootMask.IterOnes()[k] in tree.rootMask.IterOnes();
  }

  lemma LeavesListed(node: Internal)
    requires NodeSound(node)
    ensures var l, ones := ListNode(node), node.childMask.IterOnes();
      && l.childMask == node.childMask && |l.leaves| == |ones|
      && forall k :: 0 <= k < |ones| ==> ones[k] in node.leaves && l.leaves[k] == node.leaves[ones[k]]
  {
    var ones := node.childMask.IterOnes();
    assert forall k :: 0 <= k < |ones| ==> ones[k] in ones;
  }

  // ------------------------------------------------------------ the file

  const OPENVDB_MAGIC: bv64 := 0x5644_4220
  const UUID: string := "00000000-0000-4000-8000-000000000000"

  /** Everything ahead of the first grid. */
  function Header(uuid: Bytes, count: nat): Bytes {
    Word(OPENVDB_MAGIC) + Le(224, 4) + Le(12, 4) + Le(0, 4) + [1] + uuid + VdbBytes.Metadata([]) + Le(count, 4)
  }

  /** The header and the first `n` grids. */
  function FileTo(grids: seq<Grid>, n: nat): Bytes
    requires n <= |grids|
  {
    if n == 0 then Header(Ascii(UUID), |grids|)
    else FileTo(grids, n - 1) + grids[n - 1].Encoded(|FileTo(grids, n - 1)|)
  }

  /** Every grid, by the offsets in its descriptor. */
  function ReadFile(s: Bytes): Option<seq<Grid>> {
    var prefix := Word(OPENVDB_MAGIC) + Le(224, 4) + Le(12, 4) + Le(0, 4) + [1];
    if |s| < 65 || s[..21] != prefix || s[57..61] != Le(0, 4) then None else
    match ReadMany(s, 65, ReadGrid, UnLe(s[61..65]))
    case Bad => None
    case Got(grids, _) => Some(grids)
  }

  lemma HeaderParts(uuid: Bytes, count: nat)
    requires |uuid| == 36
    ensures |Header(uuid, count)| == 65
    ensures Header(uuid, count)[..21] == Word(OPENVDB_MAGIC) + Le(224, 4) + Le(12, 4) + Le(0, 4) + [1]
    ensures Header(uuid, count)[21..57] == uuid
    ensures Header(uuid, count)[57..61] == Le(0, 4) && Header(uuid, count)[61..65] == Le(count, 4)
  {
    hide Le; hide Word;
    var prefix := Word(OPENVDB_MAGIC) + Le(224, 4) + Le(12, 4) + Le(0, 4) + [1];
    assert VdbBytes.Metadata([]) == Le(0, 4) + Concat(Record, [], 0) == Le(0, 4);
    assert Header(uuid, count) == prefix + uuid + Le(0, 4) + Le(count, 4);
  }

  lemma AtPrefix(s: Bytes, t: Bytes, at: nat, b: Bytes)
    requires At(s, at, b)
    ensures At(s + t, at, b)
  {
    assert (s + t)[at..at + |b|] == s[at..at + |b|];
  }

  lemma AtTail(s: Bytes, b: Bytes)
    ensures At(s + b, |s|, b)
  {
  }

  lemma {:induction false} GridsInFile(grids: seq<Grid>, n: nat, k: nat)
    requires k < n <= |grids|
    ensures At(FileTo(grids, n), |FileTo(grids, k)|, grids[k].Encoded(|FileTo(grids, k)|))
    decreases n
  {
    hide *;
    FileGrows(grids, n);
    var last := grids[n - 1].Encoded(|FileTo(grids, n - 1)|);
    if k < n - 1 {
      GridsInFile(grids, n - 1, k);
      AtPrefix(FileTo(grids, n - 1), last, |FileTo(grids, k)|, grids[k].Encoded(|FileTo(grids, k)|));
    } else {
      AtTail(FileTo(grids, n - 1), last);
    }
  }

  lemma FileGrows(grids: seq<Grid>, n: nat)
    requires 0 < n <= |grids|
    ensures FileTo(grids, n) == FileTo(grids, n - 1) + grids[n - 1].Encoded(|FileTo(grids, n - 1)|)
  {
    hide Grid.Encoded; hide Header;
  }

  lemma {:induction false} ReadGridsBack(s: Bytes, grids: seq<Grid>, n: nat)
    requires n <= |grids| && s == FileTo(grids, |grids|) && |s| < 0x1_0000_0000_0000_0000
    requires forall k :: 0 <= k < |grids| ==> grids[k].Sound()
    ensures ReadMany(s, |FileTo(grids, 0)|, ReadGrid, n) == Got(grids[..n], |FileTo(grids, n)|)
    decreases n
  {
    hide Grid.Sound; hide ReadGrid; hide Grid.Encoded; hide Header; hide At; hide Grid.EndPos;
    if n == 0 {
      assert grids[..0] == [];
    } else {
      ReadGridsBack(s, grids, n - 1);
      var start := |FileTo(grids, n - 1)|;
      GridsInFile(grids, |grids|, n - 1);
      ReadGridBack(s, start, grids[n - 1]);
      assert grids[..n] == grids[..n - 1] + [grids[n - 1]];
    }
  }

  lemma {:induction false} FileStarts(grids: seq<Grid>, n: nat)
    requires n <= |grids|
    ensures FileTo(grids, 0) <= FileTo(grids, n)
  {
    hide *;
    if n > 0 {
      FileStarts(grids, n - 1);
      FileGrows(grids, n);
    }
  }

  lemma NoGridsYet(grids: seq<Grid>)
    ensures FileTo(grids, 0) == Header(Ascii(UUID), |grids|) && |Ascii(UUID)| == 36
  {
  }

  /** A file opens with its header. */
  lemma HeaderReads(grids: seq<Grid>)
    ensures var s := FileTo(grids, |grids|);
      && |s| >= 65 && s[..21] == Word(OPENVDB_MAGIC) + Le(224, 4) + Le(12, 4) + Le(0, 4) + [1]
      && s[21..57] == Ascii(UUID) && s[57..61] == Le(0, 4) && s[61..65] == Le(|grids|, 4)
    ensures |FileTo(grids, 0)| == 65
  {
    hide *;
    NoGridsYet(grids);
    HeaderParts(Ascii(UUID), |grids|);
    FileStarts(grids, |grids|);
    var s, h := FileTo(grids, |grids|), Header(Ascii(UUID), |grids|);
    assert s[..65] == h;
    assert s[..21] == h[..21] && s[21..57] == h[21..57] && s[57..61] == h[57..61] && s[61..65] == h[61..65];
  }

  /** A four-byte number, byte by byte. */
  ghost predicate FourBytes(s: Bytes, at: nat, n: nat) {
    && at + 4 <= |s|
    && s[at] as nat == n % 256 && s[at + 1] as nat == n / 256 % 256
    && s[at + 2] as nat == n / 65536 % 256 && s[at + 3] as nat == n / 16777216 % 256
  }

  /** The first bytes of any file: the magic number, the versions, offsets
      follow, the fixed uuid, no metadata, and the number of grids. */
  ghost predicate Opens(s: Bytes, count: nat) {
    && |s| >= 65
    && s[..8] == [0x20, 0x42, 0x44, 0x56, 0, 0, 0, 0]
    && FourBytes(s, 8, 224) && FourBytes(s, 12, 12) && FourBytes(s, 16, 0) && s[20] == 1
    && s[21..57] == Ascii("00000000-0000-4000-8000-000000000000")
    && FourBytes(s, 57, 0) && FourBytes(s, 61, count)
  }

  lemma FileOpens(grids: seq<Grid>)
    ensures Opens(FileTo(grids, |grids|), |grids|)
  {
    hide FileTo; hide Le; hide Ascii; hide FourBytes; hide Word;
    HeaderReads(grids);
    var s := FileTo(grids, |grids|);
    var a, b, c, d := Word(OPENVDB_MAGIC), Le(224, 4), Le(12, 4), Le(0, 4);
    MagicBytes();
    assert s[..21] == a + b + c + d + [1];
    assert s[..8] == s[..21][..8] == a;
    assert s[8..12] == s[..21][8..12] == b;
    assert s[12..16] == s[..21][12..16] == c;
    assert s[16..20] == s[..21][16..20] == d;
    assert s[20] == s[..21][20] == 1;
    NumberAt(s, 8, 224);
    NumberAt(s, 12, 12);
    NumberAt(s, 16, 0);
    NumberAt(s, 57, 0);
    NumberAt(s, 61, |grids|);
  }

  lemma MagicBytes()
    ensures Word(OPENVDB_MAGIC) == [0x20, 0x42, 0x44, 0x56, 0, 0, 0, 0]
  {
  }

  lemma NumberAt(s: Bytes, at: nat, n: nat)
    requires at + 4 <= |s| && s[at..at + 4] == Le(n, 4)
    ensures FourBytes(s, at, n)
  {
    LeBytes(n);
    hide Le;
    var b := s[at..at + 4];
    assert s[at] == b[0] && s[at + 1] == b[1] && s[at + 2] == b[2] && s[at + 3] == b[3];
  }

  /** The reader undoes the writer: masks, values, metadata and names. */
  lemma ReadFileBack(grids: seq<Grid>)
    requires |grids| < 0x1_0000_0000 && |FileTo(grids, |grids|)| < 0x1_0000_0000_0000_0000
    requires forall k :: 0 <= k < |grids| ==> grids[k].Sound()
    ensures ReadFile(FileTo(grids, |grids|)) == Some(grids)
  {
    hide Grid.Sound; hide ReadGrid; hide Le; hide UnLe; hide Power; hide Word; hide ReadMany; hide FileTo;
    HeaderReads(grids);
    Powers();
    UnLeOfLe(|grids|, 4);
    SmallModulo(|grids|, Power(4));
    ReadGridsBack(FileTo(grids, |grids|), grids, |grids|);
    assert grids[..|grids|] == grids;
  }

  // ------------------------------------------------------------ writing fields

  datatype GridSpec = GridSpec(name: Bytes, values: seq<Float>)

  function Last(n: nat): bv32 {
    ((if n == 0 then 0 else n - 1) % 0x1_0000_0000) as bv32
  }

  lemma NarrowsBack(n: nat)
    requires n < 0x1_0000_0000
    ensures ((n % 0x1_0000_0000) as bv32) as int == n
  {
  }

  lemma LastIs(n: nat)
    requires n <= ROOT_CHILD_DIM
    ensures Last(n) as int == if n == 0 then 0 else n - 1
  {
    NarrowsBack(if n == 0 then 0 else n - 1);
  }

  lemma CountIs(dims: Dims)
    requires dims.x <= ROOT_CHILD_DIM && dims.y <= ROOT_CHILD_DIM && dims.z <= ROOT_CHILD_DIM
    ensures ((dims.Voxels() % 0x1_0000_0000_0000_0000) as bv64) as int == dims.x * dims.y * dims.z
  {
    Product(dims.x, dims.y, 4096, 4096);
    Product(dims.x * dims.y, dims.z, 4096 * 4096, 4096);
    WideBack(dims.Voxels());
  }

  lemma Product(a: nat, b: nat, c: nat, d: nat)
    requires a <= c && b <= d
    ensures 0 <= a * b <= c * d
  {
    assert a * b <= c * b <= c * d;
  }

  lemma WideBack(n: nat)
    requires n < 0x1_0000_0000_0000_0000
    ensures ((n % 0x1_0000_0000_0000_0000) as bv64) as int == n
  {
  }

  /** A grid's own metadata: its display name, its box, its class, its size. */
  function Entries(name: Bytes, dims: Dims): seq<Entry> {
    [Entry(Ascii("name"), MetaString(name)),
     Entry(Ascii("file_bbox_min"), MetaVec3i(0, 0, 0)),
     Entry(Ascii("file_bbox_max"), MetaVec3i(Last(dims.x), Last(dims.y), Last(dims.z))),
     Entry(Ascii("class"), MetaString(Ascii("unknown"))),
     Entry(Ascii("file_voxel_count"), MetaI64((dims.Voxels() % 0x1_0000_0000_0000_0000) as bv64))]
  }

  /** What those entries say to a reader, field by field. */
  ghost predicate Tells(e: seq<Entry>, name: Bytes, dims: Dims) {
    && |e| == 5
    && e[0] == Entry(Ascii("name"), MetaString(name))
    && e[1] == Entry(Ascii("file_bbox_min"), MetaVec3i(0, 0, 0))
    && e[2].name == Ascii("file_bbox_max") && e[2].value.MetaVec3i?
       && e[2].value.x as int == (if dims.x == 0 then 0 else dims.x - 1)
       && e[2].value.y as int == (if dims.y == 0 then 0 else dims.y - 1)
       && e[2].value.z as int == (if dims.z == 0 then 0 else dims.z - 1)
    && e[3] == Entry(Ascii("class"), MetaString(Ascii("unknown")))
    && e[4].name == Ascii("file_voxel_count") && e[4].value.MetaI64?
       && e[4].value.l as int == dims.x * dims.y * dims.z
  }

  lemma EntriesTell(name: Bytes, dims: Dims)
    requires dims.x <= ROOT_CHILD_DIM && dims.y <= ROOT_CHILD_DIM && dims.z <= ROOT_CHILD_DIM
    ensures Tells(Entries(name, dims), name, dims)
  {
    hide Last; hide Ascii; hide Dims.Voxels;
    LastIs(dims.x);
    LastIs(dims.y);
    LastIs(dims.z);
    CountIs(dims);
  }

  /** The transform's fifteen words: the size twice as a vector, then what its
      inverse gives. */
  ghost predicate ScaledBy(w: seq<bv64>, scales: Scales) {
    && |w| == 15
    && (forall i :: 0 <= i < 6 ==> w[i] == scales.size)
    && (forall i :: 6 <= i < 9 ==> w[i] == scales.inverse)
    && (forall i :: 9 <= i < 12 ==> w[i] == scales.inverseSquared)
    && (forall i :: 12 <= i < 15 ==> w[i] == scales.halfInverse)
  }

  lemma WordsScale(scales: Scales)
    ensures ScaledBy(scales.Words(), scales)
  {
  }

  ghost predicate Active(tree: Tree, c: Coord, background: Float) {
    InReach(c) && Lookup(tree, c, background).0
  }

  /** The box in the metadata is the least one around the voxels read back, and
      the count is how many there are. */
  lemma BoxIsTight(g: Grid, spec: GridSpec, dims: Dims, scales: Scales, background: Float)
    requires ReadsAs(g, spec, dims, scales, background)
      && dims.x <= ROOT_CHILD_DIM && dims.y <= ROOT_CHILD_DIM && dims.z <= ROOT_CHILD_DIM
    ensures |g.entries| == 5 && g.entries[2].value.MetaVec3i? && g.entries[4].value.MetaI64?
    ensures var tree, box := Retree(g.root, g.nodes), g.entries[2].value;
      && (forall c :: Active(tree, c, background) ==>
            c.x <= box.x as int && c.y <= box.y as int && c.z <= box.z as int)
      && ((exists c :: Active(tree, c, background)) ==>
            Active(tree, Coord(0, 0, 0), background)
            && Active(tree, Coord(box.x as int, box.y as int, box.z as int), background))
      && g.entries[4].value.l as int == ActiveCount(tree)
  {
    hide Active; hide ActiveCount; hide Retree; hide ListSound; hide BitMask.IterOnes; hide FieldAt;
    hide Ascii; hide ScaledBy;
    var tree, box := Retree(g.root, g.nodes), g.entries[2].value;
    ActiveInside(tree, spec.values, dims, background);
    if c :| Active(tree, c, background) {
      assert Inside(c, dims);
      assert Inside(Coord(box.x as int, box.y as int, box.z as int), dims);
      assert Inside(Coord(0, 0, 0), dims);
    }
  }

  lemma ActiveInside(tree: Tree, values: seq<Float>, dims: Dims, background: Float)
    requires IsField(tree, values, dims, background)
      && dims.x <= ROOT_CHILD_DIM && dims.y <= ROOT_CHILD_DIM && dims.z <= ROOT_CHILD_DIM
    ensures forall c :: Active(tree, c, background) <==> Inside(c, dims)
  {
    hide Lookup; hide Linear; hide ActiveCount;
    forall c ensures Active(tree, c, background) <==> Inside(c, dims) {
      if InReach(c) { assert FieldAt(tree, values, dims, background, c); }
    }
  }

  function GridOf(name: Bytes, dims: Dims, scales: Scales, background: Float, tree: Tree): Grid
    requires TreeSound(tree)
  {
    Grid(name, Entries(name, dims), scales.Words(), background, tree.rootMask, ListTree(tree))
  }

  lemma GridIsSound(name: Bytes, dims: Dims, scales: Scales, background: Float, tree: Tree)
    requires TreeSound(tree) && |name| < 0x1_0000_0000
    ensures GridOf(name, dims, scales, background, tree).Sound()
  {
    hide BitMask.Get; hide BitMask.IterOnes; hide ListSound; hide ListTree; hide TreeSound; hide Last; hide Dims.Voxels;
    hide Ascii;
    RetreeTree(tree);
    TreeRoot(tree);
    var entries := Entries(name, dims);
    assert forall i :: 0 <= i < 5 ==> entries[i].Fits();
  }

  lemma TreeRoot(tree: Tree)
    requires TreeSound(tree)
    ensures tree.rootMask.Valid() && tree.rootMask.bits == ROOT_CHILD_CHILDREN
  {
  }

  /** A tree that is the field, for whoever reads it. */
  ghost predicate IsField(tree: Tree, values: seq<Float>, dims: Dims, background: Float) {
    && |values| == dims.Voxels() && ActiveCount(tree) == dims.Voxels()
    && forall c :: InReach(c) ==> FieldAt(tree, values, dims, background, c)
  }

  ghost predicate FieldAt(tree: Tree, values: seq<Float>, dims: Dims, background: Float, c: Coord) {
    && (Inside(c, dims) ==> Linear(c, dims) < |values|)
    && Lookup(tree, c, background) == if Inside(c, dims) then (true, values[Linear(c, dims)]) else (false, background)
  }

  lemma BuiltIsField(tree: Tree, seen: map<Coord, Float>, values: seq<Float>, dims: Dims, background: Float)
    requires Holds(tree, background, seen) && IsDense(seen, values, dims) && ActiveCount(tree) == dims.Voxels()
    ensures TreeSound(tree) && IsField(tree, values, dims, background)
  {
    hide Lookup; hide Linear; hide Inside; hide Holds; hide InReach; hide ActiveCount; hide TreeSound;
    BuiltIsSound(tree, background, seen);
    forall c | InReach(c) ensures FieldAt(tree, values, dims, background, c) {
      TreeIsDense(tree, seen, values, dims, background, c);
    }
  }

  predicate HasDuplicate(grids: seq<GridSpec>, i: nat)
    requires i < |grids|
  {
    exists j :: 0 <= j < i && grids[j].name == grids[i].name
  }

  /** The first name given twice, if any. */
  method FindDuplicate(grids: seq<GridSpec>) returns (i: nat)
    ensures i <= |grids| && (i < |grids| ==> HasDuplicate(grids, i))
    ensures forall k :: 0 <= k < i ==> !HasDuplicate(grids, k)
  {
    i := 0;
    while i < |grids|
      invariant i <= |grids| && forall k :: 0 <= k < i ==> !HasDuplicate(grids, k)
    {
      var j := 0;
      while j < i
        invariant j <= i && forall k :: 0 <= k < j ==> grids[k].name != grids[i].name
      {
        if grids[j].name == grids[i].name { return; }
        j := j + 1;
      }
      i := i + 1;
    }
  }

  /** The fields a tree can hold, each as long as the dims say. */
  ghost predicate AllFit(grids: seq<GridSpec>, dims: Dims) {
    && dims.x <= 4096 && dims.y <= 4096 && dims.z <= 4096
    && forall k :: 0 <= k < |grids| ==> |grids[k].values| == dims.Voxels()
  }

  /** The lengths the format keeps in 32 bits. */
  ghost predicate LengthsFit(grids: seq<GridSpec>) {
    && |grids| < 0x1_0000_0000
    && forall k :: 0 <= k < |grids| ==> |grids[k].name| < 0x1_0000_0000
  }

  /** Field `i` is the first whose length is not what the dims say. */
  ghost predicate FirstMismatch(grids: seq<GridSpec>, dims: Dims, i: nat) {
    && i < |grids| && |grids[i].values| != dims.Voxels()
    && forall k :: 0 <= k < i ==> |grids[k].values| == dims.Voxels()
  }

  /** Dims no tree can hold are named before any length is looked at, and then
      the first field of the wrong length is. */
  ghost predicate SizeError(grids: seq<GridSpec>, dims: Dims, e: IoError) {
    if dims.x > 4096 || dims.y > 4096 || dims.z > 4096 then e == FieldTooLarge(dims)
    else exists i: nat :: FirstMismatch(grids, dims, i) && e == LengthMismatch(dims.Voxels(), |grids[i].values|)
  }

  /** Every tree is built before anything is written. */
  method BuildAll(grids: seq<GridSpec>, dims: Dims, background: Float) returns (r: Result<seq<Tree>, IoError>)
    ensures r.Ok? <==> grids == [] || AllFit(grids, dims)
    ensures r.Ok? ==> |r.value| == |grids|
    ensures r.Ok? ==> forall k ::
      0 <= k < |grids| ==> TreeSound(r.value[k]) && IsField(r.value[k], grids[k].values, dims, background)
    ensures r.Err? ==> SizeError(grids, dims, r.error)
  {
    hide TreeSound; hide IsField; hide Dims.Voxels; hide Holds; hide IsDense; hide ActiveCount;
    var trees := [];
    for i := 0 to |grids|
      invariant |trees| == i
        && (i > 0 ==> dims.x <= ROOT_CHILD_DIM && dims.y <= ROOT_CHILD_DIM && dims.z <= ROOT_CHILD_DIM)
      invariant forall k :: 0 <= k < i ==> |grids[k].values| == dims.Voxels()
      invariant forall k :: 0 <= k < i ==> TreeSound(trees[k]) && IsField(trees[k], grids[k].values, dims, background)
    {
      ghost var seen;
      var built: Result<Tree, IoError>;
      built, seen := BuildTree(grids[i].values, dims, background);
      if built.Err? {
        assert |grids[i].values| != dims.Voxels() ==> FirstMismatch(grids, dims, i);
        return Err(built.error);
      }
      BuiltIsField(built.value, seen, grids[i].values, dims, background);
      trees := trees + [built.value];
    }
    r := Ok(trees);
  }

  /** What reading a file back must give for one field. */
  ghost predicate ReadsAs(g: Grid, spec: GridSpec, dims: Dims, scales: Scales, background: Float) {
    && g.Sound()
    && g.name == spec.name && g.background == background
    && Tells(g.entries, spec.name, dims) && ScaledBy(g.scale, scales)
    && IsField(Retree(g.root, g.nodes), spec.values, dims, background)
  }

  /** A reader following the offsets gets every field back: name, metadata,
      transform and values. */
  ghost predicate ReadsBack(bytes: Bytes, grids: seq<GridSpec>, dims: Dims, scales: Scales, background: Float) {
    && ReadFile(bytes).Some? && |ReadFile(bytes).value| == |grids|
    && forall k :: 0 <= k < |grids| ==> ReadsAs(ReadFile(bytes).value[k], grids[k], dims, scales, background)
  }

  /** No file, however it was written, reads as more grids or longer names than
      32-bit lengths can say. */
  lemma ReadFileFits(s: Bytes)
    requires ReadFile(s).Some?
    ensures |ReadFile(s).value| < 0x1_0000_0000
    ensures forall k :: 0 <= k < |ReadFile(s).value| ==> |ReadFile(s).value[k].name| < 0x1_0000_0000
  {
    hide ReadGrid; hide ReadMany; hide UnLe; hide Power; hide Le; hide Word;
    Powers();
    UnLeFits(s[61..65]);
    var n, gs := UnLe(s[61..65]), ReadFile(s).value;
    ReadManyReads(s, 65, ReadGrid, n);
    forall k | 0 <= k < n ensures |gs[k].name| < 0x1_0000_0000 {
      assert IsRead(s, ReadGrid, gs[k]);
      var p: nat :| ReadGrid(s, p).Got? && ReadGrid(s, p).value == gs[k];
      ReadNameFits(s, p);
    }
  }

  lemma LongIsLost(s: Bytes, grids: seq<GridSpec>, dims: Dims, scales: Scales, background: Float)
    requires ReadsBack(s, grids, dims, scales, background)
    ensures LengthsFit(grids)
  {
    hide ReadFile; hide Grid.Sound; hide IsField; hide Retree; hide Tells; hide ScaledBy;
    ReadFileFits(s);
    forall k | 0 <= k < |grids| ensures |grids[k].name| < 0x1_0000_0000 {
      assert ReadsAs(ReadFile(s).value[k], grids[k], dims, scales, background);
    }
  }

  /** `write_float_grids`: the bytes of the file, or why there are none. They
      read back exactly while names and counts fit the fields they are cast to. */
  method WriteFloatGrids(grids: seq<GridSpec>, dims: Dims, scales: Scales, background: Float)
    returns (r: Result<Bytes, IoError>)
    ensures grids == [] <==> r == Err(NoGrids)
    ensures r.Err? && r.error.DuplicateGrid? <==> exists i :: 0 <= i < |grids| && HasDuplicate(grids, i)
    ensures r.Err? && r.error.DuplicateGrid? ==> exists i ::
      && 0 <= i < |grids| && HasDuplicate(grids, i) && grids[i].name == r.error.name
      && forall j :: 0 <= j < i ==> !HasDuplicate(grids, j)
    ensures r.Err? ==> r.error.NoGrids? || r.error.DuplicateGrid? || SizeError(grids, dims, r.error)
    ensures r.Ok? <==> grids != [] && AllFit(grids, dims) && forall i :: 0 <= i < |grids| ==> !HasDuplicate(grids, i)
    ensures r.Ok? ==> Opens(r.value, |grids|)
    ensures r.Ok? && |r.value| < 0x1_0000_0000_0000_0000 ==>
      (ReadsBack(r.value, grids, dims, scales, background) <==> LengthsFit(grids))
  {
    hide TreeSound; hide IsField; hide Dims.Voxels; hide HasDuplicate; hide Grid.Sound; hide GridOf; hide ReadFile;
    hide FirstMismatch; hide FileTo; hide Header; hide Grid.Encoded; hide ReadsAs; hide Opens;
    if grids == [] { return Err(NoGrids); }
    var i := FindDuplicate(grids);
    if i < |grids| { return Err(DuplicateGrid(grids[i].name)); }
    var built := BuildAll(grids, dims, background);
    if built.Err? { return Err(built.error); }
    var trees := built.value;
    ghost var written := Described(grids, dims, scales, background, trees);
    var w := new ByteWriter();
    WriteArchive(w, grids, dims, scales, background, trees);
    r := Ok(w.data);
    FileOpens(written);
    if LengthsFit(grids) && |w.data| < 0x1_0000_0000_0000_0000 {
      DescribedReads(grids, dims, scales, background, trees);
      ReadFileBack(written);
    }
    if ReadsBack(w.data, grids, dims, scales, background) { LongIsLost(w.data, grids, dims, scales, background); }
  }

  /** The grids a list of fields and their trees become. */
  ghost function Described(grids: seq<GridSpec>, dims: Dims, scales: Scales, background: Float,
      trees: seq<Tree>): (gs: seq<Grid>)
    requires |trees| == |grids| && forall k :: 0 <= k < |trees| ==> TreeSound(trees[k])
    ensures |gs| == |grids| && forall k ::
      0 <= k < |grids| ==> gs[k] == GridOf(grids[k].name, dims, scales, background, trees[k])
  {
    seq(|grids|, k requires 0 <= k < |grids| => GridOf(grids[k].name, dims, scales, background, trees[k]))
  }

  lemma DescribedReads(grids: seq<GridSpec>, dims: Dims, scales: Scales, background: Float, trees: seq<Tree>)
    requires |trees| == |grids| && forall k ::
      0 <= k < |trees| ==> TreeSound(trees[k]) && IsField(trees[k], grids[k].values, dims, background)
    requires forall k :: 0 <= k < |grids| ==> |grids[k].name| < 0x1_0000_0000
    requires dims.x <= ROOT_CHILD_DIM && dims.y <= ROOT_CHILD_DIM && dims.z <= ROOT_CHILD_DIM
    ensures var gs := Described(grids, dims, scales, background, trees);
      forall k :: 0 <= k < |gs| ==> gs[k].Sound() && ReadsAs(gs[k], grids[k], dims, scales, background)
  {
    hide TreeSound; hide IsField; hide Retree; hide Grid.Sound; hide ListTree; hide Entries; hide Scales.Words;
    hide ListSound; hide Tells; hide ScaledBy;
    WordsScale(scales);
    var gs := Described(grids, dims, scales, background, trees);
    forall k | 0 <= k < |gs| ensures gs[k].Sound() && ReadsAs(gs[k], grids[k], dims, scales, background) {
      GridIsSound(grids[k].name, dims, scales, background, trees[k]);
      EntriesTell(grids[k].name, dims);
      RetreeTree(trees[k]);
    }
  }

  /** The header, then each grid after the last. */
  method WriteArchive(w: ByteWriter, grids: seq<GridSpec>, dims: Dims, scales: Scales, background: Float,
      trees: seq<Tree>)
    requires w.AtEnd() && w.data == [] && |trees| == |grids| && forall k :: 0 <= k < |trees| ==> TreeSound(trees[k])
    modifies w
    ensures w.AtEnd() && w.data == FileTo(Described(grids, dims, scales, background, trees), |grids|)
  {
    hide TreeSound; hide Header; hide Grid.Encoded; hide ListTree; hide Entries; hide Scales.Words;
    ghost var gs := Described(grids, dims, scales, background, trees);
    ArchiveHeader(w, Ascii(UUID), |grids|);
    for k := 0 to |grids|
      invariant w.AtEnd() && w.data == FileTo(gs, k)
    {
      w.OneGrid(GridOf(grids[k].name, dims, scales, background, trees[k]), scales, trees[k]);
    }
  }

  /** `write_archive_header_with_count`, for a well-formed uuid. */
  method ArchiveHeader(w: ByteWriter, uuid: Bytes, count: nat)
    requires w.AtEnd()
    modifies w
    ensures w.AtEnd() && w.data == old(w.data) + Header(uuid, count)
  {
    hide Le; hide Word; hide VdbBytes.Metadata;
    w.Raw(Word(OPENVDB_MAGIC));
    w.U32(224);
    w.U32(12);
    w.U32(0);
    w.U8(1);
    w.Raw(uuid);
    w.Metadata([]);
    w.U32(count);
  }
}
