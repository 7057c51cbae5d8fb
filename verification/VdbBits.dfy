/** Addresses and masks of the 5-4-3 tree (elements-io `vdb/tree.rs`). */
module VdbBits {

  const LEAF_VOXELS: nat := 512
  const INTERNAL_CHILDREN: nat := 4096
  const ROOT_CHILD_CHILDREN: nat := 32768
  const ROOT_CHILD_DIM: nat := 4096

  datatype Coord = Coord(x: nat, y: nat, z: nat)

  // ------------------------------------------------------------ addresses

  /** A voxel's place in its leaf. */
  function LeafVoxelOffset(c: Coord): nat {
    c.x % 8 * 64 + c.y % 8 * 8 + c.z % 8
  }

  /** A leaf's place in its internal node. */
  function InternalChildOffset(c: Coord): nat {
    c.x % 128 / 8 * 256 + c.y % 128 / 8 * 16 + c.z % 128 / 8
  }

  /** An internal node's place in the root child. */
  function InternalNodeSlotOffset(c: Coord): nat {
    c.x % 4096 / 128 * 1024 + c.y % 4096 / 128 * 32 + c.z % 4096 / 128
  }

  /** The voxel an address names. */
  function CoordAt(r: nat, i: nat, v: nat): Coord {
    Coord(r / 1024 * 128 + i / 256 * 8 + v / 64,
          r / 32 % 32 * 128 + i / 16 % 16 * 8 + v / 8 % 8,
          r % 32 * 128 + i % 16 * 8 + v % 8)
  }

  ghost predicate InReach(c: Coord) {
    c.x < ROOT_CHILD_DIM && c.y < ROOT_CHILD_DIM && c.z < ROOT_CHILD_DIM
  }

  /** The fields of a coordinate's 32-bit word: 3 bits of voxel, 4 of leaf, 5 of slot. */
  function VoxelBits(x: bv32): bv32 { x & 7 }
  function ChildBits(x: bv32): bv32 { (x & 127) >> 3 }
  function SlotBits(x: bv32): bv32 { (x & 4095) >> 7 }

  /** The three offsets as the source computes them, by masks and shifts. */
  function LeafVoxelWord(x: bv32, y: bv32, z: bv32): bv32 {
    (VoxelBits(x) << 6) | (VoxelBits(y) << 3) | VoxelBits(z)
  }

  function InternalChildWord(x: bv32, y: bv32, z: bv32): bv32 {
    (ChildBits(x) << 8) | (ChildBits(y) << 4) | ChildBits(z)
  }

  function InternalNodeSlotWord(x: bv32, y: bv32, z: bv32): bv32 {
    (SlotBits(x) << 10) | (SlotBits(y) << 5) | SlotBits(z)
  }

  /** A word as the number it stands for. */
  function Number(x: bv32): nat { x as nat }

  function CoordOf(x: bv32, y: bv32, z: bv32): Coord {
    Coord(Number(x), Number(y), Number(z))
  }

  /** For every voxel in reach, masks and shifts give the numbers the tree is
      addressed by. */
  lemma BitForms(x: bv32, y: bv32, z: bv32)
    requires x < 4096 && y < 4096 && z < 4096
    ensures InReach(CoordOf(x, y, z))
    ensures Number(LeafVoxelWord(x, y, z)) == LeafVoxelOffset(CoordOf(x, y, z))
    ensures Number(InternalChildWord(x, y, z)) == InternalChildOffset(CoordOf(x, y, z))
    ensures Number(InternalNodeSlotWord(x, y, z)) == InternalNodeSlotOffset(CoordOf(x, y, z))
  {
    hide VoxelBits; hide ChildBits; hide SlotBits; hide LeafVoxelWord; hide InternalChildWord;
    hide InternalNodeSlotWord; hide Number;
    AxisOfWord(x);
    AxisOfWord(y);
    AxisOfWord(z);
    JoinedLeaf(x, y, z);
    JoinedChild(x, y, z);
    JoinedSlot(x, y, z);
  }

  /** One axis of a word: its three fields are the coordinate's digits. */
  lemma AxisOfWord(x: bv32)
    requires x < 4096
    ensures Number(x) < 4096
    ensures Number(VoxelBits(x)) == Number(x) % 8
    ensures Number(ChildBits(x)) == Number(x) % 128 / 8
    ensures Number(SlotBits(x)) == Number(x) % 4096 / 128
  {
    hide VoxelBits; hide ChildBits; hide SlotBits; hide Number;
    WordOfFields(x);
    SmallFields(SlotBits(x), ChildBits(x), VoxelBits(x));
    JoinedAxis(SlotBits(x), ChildBits(x), VoxelBits(x));
    AxisJoins(Number(SlotBits(x)), Number(ChildBits(x)), Number(VoxelBits(x)));
  }

  lemma WordOfFields(x: bv32)
    requires x < 4096
    ensures x == (SlotBits(x) << 7) | (ChildBits(x) << 3) | VoxelBits(x)
    ensures VoxelBits(x) < 8 && ChildBits(x) < 16 && SlotBits(x) < 32
  {
  }

  lemma SmallFields(r: bv32, i: bv32, v: bv32)
    requires r < 32 && i < 16 && v < 8
    ensures Number(r) < 32 && Number(i) < 16 && Number(v) < 8
  {
  }

  /** Fields that do not overlap add up. */
  lemma JoinedAxis(r: bv32, i: bv32, v: bv32)
    requires r < 32 && i < 16 && v < 8
    ensures Number((r << 7) | (i << 3) | v) == Number(r) * 128 + Number(i) * 8 + Number(v)
  {
  }

  lemma JoinedLeaf(x: bv32, y: bv32, z: bv32)
    ensures Number(LeafVoxelWord(x, y, z))
      == Number(VoxelBits(x)) * 64 + Number(VoxelBits(y)) * 8 + Number(VoxelBits(z))
  {
    assert VoxelBits(x) < 8 && VoxelBits(y) < 8 && VoxelBits(z) < 8;
    hide VoxelBits; hide Number;
    JoinedLeafFields(VoxelBits(x), VoxelBits(y), VoxelBits(z));
  }

  lemma JoinedLeafFields(a: bv32, b: bv32, c: bv32)
    requires a < 8 && b < 8 && c < 8
    ensures Number((a << 6) | (b << 3) | c) == Number(a) * 64 + Number(b) * 8 + Number(c)
  {
  }

  lemma JoinedChild(x: bv32, y: bv32, z: bv32)
    ensures Number(InternalChildWord(x, y, z))
      == Number(ChildBits(x)) * 256 + Number(ChildBits(y)) * 16 + Number(ChildBits(z))
  {
    assert ChildBits(x) < 16 && ChildBits(y) < 16 && ChildBits(z) < 16;
    hide ChildBits; hide Number;
    JoinedChildFields(ChildBits(x), ChildBits(y), ChildBits(z));
  }

  lemma JoinedChildFields(a: bv32, b: bv32, c: bv32)
    requires a < 16 && b < 16 && c < 16
    ensures Number((a << 8) | (b << 4) | c) == Number(a) * 256 + Number(b) * 16 + Number(c)
  {
  }

  lemma JoinedSlot(x: bv32, y: bv32, z: bv32)
    ensures Number(InternalNodeSlotWord(x, y, z))
      == Number(SlotBits(x)) * 1024 + Number(SlotBits(y)) * 32 + Number(SlotBits(z))
  {
    assert SlotBits(x) < 32 && SlotBits(y) < 32 && SlotBits(z) < 32;
    hide SlotBits; hide Number;
    JoinedSlotFields(SlotBits(x), SlotBits(y), SlotBits(z));
  }

  lemma JoinedSlotFields(a: bv32, b: bv32, c: bv32)
    requires a < 32 && b < 32 && c < 32
    ensures Number((a << 10) | (b << 5) | c) == Number(a) * 1024 + Number(b) * 32 + Number(c)
  {
  }

  /** On any words, in reach or not, they are the sums of products and
      remainders in the words' own arithmetic. */
  lemma WordForms(x: bv32, y: bv32, z: bv32)
    ensures LeafVoxelWord(x, y, z) == x % 8 * 64 + y % 8 * 8 + z % 8
    ensures InternalChildWord(x, y, z) == x % 128 / 8 * 256 + y % 128 / 8 * 16 + z % 128 / 8
    ensures InternalNodeSlotWord(x, y, z) == x % 4096 / 128 * 1024 + y % 4096 / 128 * 32 + z % 4096 / 128
  {
    LeafForm(x, y, z);
    ChildForm(x, y, z);
    SlotForm(x, y, z);
  }

  lemma LeafForm(x: bv32, y: bv32, z: bv32)
    ensures LeafVoxelWord(x, y, z) == x % 8 * 64 + y % 8 * 8 + z % 8
  {
  }

  lemma ChildForm(x: bv32, y: bv32, z: bv32)
    ensures InternalChildWord(x, y, z) == x % 128 / 8 * 256 + y % 128 / 8 * 16 + z % 128 / 8
  {
  }

  lemma SlotForm(x: bv32, y: bv32, z: bv32)
    ensures InternalNodeSlotWord(x, y, z) == x % 4096 / 128 * 1024 + y % 4096 / 128 * 32 + z % 4096 / 128
  {
  }

  /** Every voxel in reach has its own address, inside the three nodes. */
  lemma AddressNamesVoxel(c: Coord)
    requires InReach(c)
    ensures InternalNodeSlotOffset(c) < ROOT_CHILD_CHILDREN && InternalChildOffset(c) < INTERNAL_CHILDREN
      && LeafVoxelOffset(c) < LEAF_VOXELS
    ensures CoordAt(InternalNodeSlotOffset(c), InternalChildOffset(c), LeafVoxelOffset(c)) == c
  {
    AxisSplits(c.x);
    AxisSplits(c.y);
    AxisSplits(c.z);
    Digits32(c.x / 128, c.y / 128, c.z / 128);
    Digits16(c.x % 128 / 8, c.y % 128 / 8, c.z % 128 / 8);
    Digits8(c.x % 8, c.y % 8, c.z % 8);
  }

  /** Every address is some voxel's. */
  lemma VoxelHasAddress(r: nat, i: nat, v: nat)
    requires r < ROOT_CHILD_CHILDREN && i < INTERNAL_CHILDREN && v < LEAF_VOXELS
    ensures var c := CoordAt(r, i, v);
      InReach(c) && InternalNodeSlotOffset(c) == r && InternalChildOffset(c) == i && LeafVoxelOffset(c) == v
  {
    AxisJoins(r / 1024, i / 256, v / 64);
    AxisJoins(r / 32 % 32, i / 16 % 16, v / 8 % 8);
    AxisJoins(r % 32, i % 16, v % 8);
    FromDigits(r, i, v);
  }

  lemma FromDigits(r: nat, i: nat, v: nat)
    requires r < ROOT_CHILD_CHILDREN && i < INTERNAL_CHILDREN && v < LEAF_VOXELS
    ensures r / 1024 * 1024 + r / 32 % 32 * 32 + r % 32 == r
    ensures i / 256 * 256 + i / 16 % 16 * 16 + i % 16 == i
    ensures v / 64 * 64 + v / 8 % 8 * 8 + v % 8 == v
  {
  }

  /** One axis: 5 bits of slot, 4 of leaf, 3 of voxel. */
  lemma AxisSplits(a: nat)
    requires a < 4096
    ensures a % 4096 / 128 == a / 128 < 32 && a % 128 / 8 < 16 && a % 8 < 8
    ensures a / 128 * 128 + a % 128 / 8 * 8 + a % 8 == a
  {
  }

  lemma AxisJoins(r: nat, i: nat, v: nat)
    requires r < 32 && i < 16 && v < 8
    ensures var a := r * 128 + i * 8 + v;
      a < 4096 && a % 4096 / 128 == r && a % 128 / 8 == i && a % 8 == v
  {
  }

  /** Three digits of a base are told apart again. */
  lemma Digits32(x: nat, y: nat, z: nat)
    requires x < 32 && y < 32 && z < 32
    ensures var n := x * 1024 + y * 32 + z; n < 32768 && n / 1024 == x && n / 32 % 32 == y && n % 32 == z
  {
    FirstDigit32(x, y * 32 + z);
    LastDigit32(x * 32 + y, z);
    LastDigit32(x, y);
  }

  lemma FirstDigit32(x: nat, rest: nat)
    requires rest < 1024
    ensures (x * 1024 + rest) / 1024 == x
  {
  }

  lemma LastDigit32(x: nat, y: nat)
    requires y < 32
    ensures (x * 32 + y) / 32 == x && (x * 32 + y) % 32 == y
  {
  }

  lemma Digits16(x: nat, y: nat, z: nat)
    requires x < 16 && y < 16 && z < 16
    ensures var n := x * 256 + y * 16 + z; n < 4096 && n / 256 == x && n / 16 % 16 == y && n % 16 == z
  {
  }

  lemma Digits8(x: nat, y: nat, z: nat)
    requires x < 8 && y < 8 && z < 8
    ensures var n := x * 64 + y * 8 + z; n < 512 && n / 64 == x && n / 8 % 8 == y && n % 8 == z
  {
  }

  // ------------------------------------------------------------ masks

  /** The word with bit `k` alone. */
  function Bit(k: nat): bv64
    requires k < 64
  {
    1 << (k as bv8)
  }

  /** Bit 0 is the lowest, and each bit is worth twice the one below it. */
  lemma BitDoubles(k: bv8)
    requires k < 63
    ensures Bit(0) == 1 && Bit((k + 1) as nat) == 2 * Bit(k as nat)
  {
    ShiftBack(k);
    ShiftBack(k + 1);
    ShiftDoubles(k);
  }

  lemma ShiftBack(k: bv8)
    requires k < 64
    ensures k as nat < 64 && Bit(k as nat) == 1 << k
  {
  }

  lemma ShiftDoubles(k: bv8)
    requires k < 63
    ensures (1 as bv64) << (k + 1) == 2 * ((1 as bv64) << k)
  {
  }

  predicate Has(w: bv64, bit: bv64) {
    w & bit != 0
  }

  function With(w: bv64, bit: bv64): bv64 {
    w | bit
  }

  /** Whether bit `k` of a word is set. */
  predicate WordBit(w: bv64, k: nat)
    requires k < 64
  {
    Has(w, Bit(k))
  }

  lemma ShiftedBits(w: bv64, j: bv8, k: bv8)
    requires j < 64 && k < 64
    ensures Has(With(w, 1 << k), 1 << j) <==> j == k || Has(w, 1 << j)
  {
    MaskedBits(w, j, k);
    assert Has(With(w, 1 << k), 1 << j) == ((w | (1 << k)) & (1 << j) != 0);
    assert Has(w, 1 << j) == (w & (1 << j) != 0);
    hide *;
  }

  lemma MaskedBits(w: bv64, j: bv8, k: bv8)
    requires j < 64 && k < 64
    ensures (w | (1 << k)) & (1 << j) != 0 <==> j == k || w & (1 << j) != 0
  {
  }

  lemma SmallWord(k: nat)
    requires k < 64
    ensures (k as bv8) as nat == k
  {
  }

  lemma SmallWordBound(k: nat)
    requires k < 64
    ensures k as bv8 < 64
  {
  }

  lemma SetWordBit(w: bv64, j: nat, k: nat)
    requires j < 64 && k < 64
    ensures WordBit(With(w, Bit(k)), j) <==> j == k || WordBit(w, j)
  {
    hide Bit; hide Has; hide With;
    var a, b := ShiftAmounts(j, k);
    ShiftedBits(w, a, b);
  }

  lemma ShiftAmounts(j: nat, k: nat) returns (a: bv8, b: bv8)
    requires j < 64 && k < 64
    ensures a < 64 && b < 64 && (a == b <==> j == k) && Bit(j) == 1 << a && Bit(k) == 1 << b
  {
    a, b := j as bv8, k as bv8;
    SmallWord(j);
    SmallWord(k);
    SmallWordBound(j);
    SmallWordBound(k);
  }

  /** `count_ones` of one word's first `n` bits. */
  function Ones(w: bv64, n: nat): nat
    requires n <= 64
  {
    if n == 0 then 0 else Ones(w, n - 1) + if WordBit(w, n - 1) then 1 else 0
  }

  lemma {:induction false} OnesAfterSet(w: bv64, k: nat, n: nat)
    requires k < 64 && n <= 64 && !WordBit(w, k)
    ensures Ones(With(w, Bit(k)), n) == Ones(w, n) + if k < n then 1 else 0
  {
    if n > 0 {
      OnesAfterSet(w, k, n - 1);
      SetWordBit(w, n - 1, k);
    }
  }

  lemma {:induction false} OnesOfNone(n: nat)
    requires n <= 64
    ensures Ones(0, n) == 0
  {
    if n > 0 { OnesOfNone(n - 1); }
  }

  /** A bit array in 64-bit words, least significant bit first. */
  datatype BitMask = BitMask(words: seq<bv64>, bits: nat)
  {
    ghost predicate Valid() {
      64 * |words| == bits
    }

    predicate Get(index: nat)
      requires 64 * |words| == bits
    {
      index < bits && WordBit(words[index / 64], index % 64)
    }

    predicate NoneSet() {
      forall i :: 0 <= i < |words| ==> words[i] == 0
    }

    function Set(index: nat): (m: BitMask)
      requires Valid() && index < bits
      ensures m.Valid() && m.bits == bits
      ensures forall j: nat :: m.Get(j) <==> j == index || Get(j)
    {
      var m := BitMask(words[index / 64 := With(words[index / 64], Bit(index % 64))], bits);
      assert forall j: nat :: m.Get(j) <==> j == index || Get(j) by {
        forall j: nat ensures m.Get(j) <==> j == index || Get(j) {
          if j < bits && j / 64 == index / 64 { SetWordBit(words[index / 64], j % 64, index % 64); }
        }
      }
      m
    }

    function CountOnes(): nat {
      Count(words, |words|)
    }

    lemma CountAfterSet(index: nat)
      requires Valid() && index < bits && !Get(index)
      ensures Set(index).CountOnes() == CountOnes() + 1
    {
      var p, k := index / 64, index % 64;
      var w, ws := words[p], words;
      var m := Set(index);
      assert m.words == ws[p := With(w, Bit(k))] && !WordBit(w, k);
      hide *;
      OnesAfterSet(w, k, 64);
      CountUpdate(ws, p, With(w, Bit(k)), |ws|);
      CountIs(m);
      CountIs(this);
    }

    static lemma CountIs(m: BitMask)
      ensures m.CountOnes() == Count(m.words, |m.words|)
    {
    }

    /** The set bits below `n`, in order: `iter_ones`. */
    function OnesBelow(n: nat): (s: seq<nat>)
      requires Valid() && n <= bits
      ensures forall j: nat :: j in s <==> j < n && Get(j)
      ensures forall a, b :: 0 <= a < b < |s| ==> s[a] < s[b]
    {
      if n == 0 then [] else
        var s := OnesBelow(n - 1);
        assert forall a :: 0 <= a < |s| ==> s[a] in s;
        s + if Get(n - 1) then [n - 1] else []
    }

    function IterOnes(): (s: seq<nat>)
      requires Valid()
      ensures forall j: nat :: j in s <==> Get(j)
      ensures forall a, b :: 0 <= a < b < |s| ==> s[a] < s[b]
    {
      OnesBelow(bits)
    }
  }

  /** A mask with nothing set; sizes are whole words. */
  function NewMask(bits: nat): (m: BitMask)
    requires bits % 64 == 0
    ensures m.Valid() && m.bits == bits && m.NoneSet()
    ensures forall j: nat :: !m.Get(j)
  {
    BitMask(seq(bits / 64, _ => 0), bits)
  }

  /** `count_ones` of the first `n` words. */
  function Count(words: seq<bv64>, n: nat): nat
    requires n <= |words|
  {
    if n == 0 then 0 else Count(words, n - 1) + Ones(words[n - 1], 64)
  }

  lemma {:induction false} CountUpdate(words: seq<bv64>, p: nat, w: bv64, n: nat)
    requires p < |words| && n <= |words|
    ensures Count(words[p := w], n) == Count(words, n) + if p < n then Ones(w, 64) - Ones(words[p], 64) else 0
  {
    if n > 0 { CountUpdate(words, p, w, n - 1); }
  }

  lemma {:induction false} NewMaskCounts(bits: nat, n: nat)
    requires bits % 64 == 0 && n <= bits / 64
    ensures Count(NewMask(bits).words, n) == 0
  {
    if n > 0 {
      NewMaskCounts(bits, n - 1);
      OnesOfNone(64);
    }
  }
}
