/** Little-endian numbers in byte strings, and reading them back. */
module LittleEndian {

  type Bytes = seq<bv8>

  /** What a read gives: the value, and where the next one starts. */
  datatype Read<+T> = Got(value: T, next: nat) | Bad

  /** `b` is in `s` at `at`. */
  ghost predicate At(s: Bytes, at: nat, b: Bytes) {
    at + |b| <= |s| && s[at..at + |b|] == b
  }

  lemma AtConcat(s: Bytes, at: nat, a: Bytes, b: Bytes)
    ensures At(s, at, a + b) <==> At(s, at, a) && At(s, at + |a|, b)
  {
    if at + |a + b| <= |s| {
      assert s[at..at + |a + b|] == s[at..at + |a|] + s[at + |a|..at + |a| + |b|];
      if At(s, at, a + b) {
        assert s[at..at + |a|] == (a + b)[..|a|] == a;
        assert s[at + |a|..at + |a| + |b|] == (a + b)[|a|..] == b;
      }
    }
  }

  // ------------------------------------------------------------ integers

  function Power(k: nat): nat {
    if k == 0 then 1 else 256 * Power(k - 1)
  }

  /** The byte `n`, counted up from 0. */
  function ByteOf(n: nat): bv8 {
    if n == 0 then 0 else ByteOf(n - 1) + 1
  }

  lemma {:induction false} SmallByte(n: nat)
    requires n < 256
    ensures ByteOf(n) as nat == n
  {
    if n > 0 {
      SmallByte(n - 1);
      NextByte(ByteOf(n - 1));
    }
  }

  lemma NextByte(b: bv8)
    requires b as nat < 255
    ensures (b + 1) as nat == b as nat + 1
  {
  }

  /** `n`, truncated to `k` bytes, least significant first. */
  function Le(n: nat, k: nat): (b: Bytes)
    ensures |b| == k
  {
    if k == 0 then [] else [ByteOf(n % 256)] + Le(n / 256, k - 1)
  }

  function UnLe(b: Bytes): nat {
    if b == [] then 0 else b[0] as nat + 256 * UnLe(b[1..])
  }

  /** Reading `k` bytes back gives the number modulo what they can hold. */
  lemma {:induction false} UnLeOfLe(n: nat, k: nat)
    ensures Power(k) > 0 && UnLe(Le(n, k)) == n % Power(k)
  {
    if k > 0 {
      UnLeOfLe(n / 256, k - 1);
      SmallByte(n % 256);
      var b := Le(n, k);
      assert b[1..] == Le(n / 256, k - 1);
      ModPeels(n, Power(k - 1));
    }
  }

  lemma ModPeels(n: nat, m: nat)
    requires m > 0
    ensures n % (256 * m) == n % 256 + 256 * (n / 256 % m)
  {
    var q := n / 256 / m;
    var r := n % 256 + 256 * (n / 256 % m);
    assert n == 256 * (n / 256) + n % 256;
    assert n / 256 == m * q + n / 256 % m;
    assert n == 256 * m * q + r by { assert 256 * (m * q) == 256 * m * q; }
    assert r < 256 * m by { assert n / 256 % m <= m - 1; assert 256 * (n / 256 % m) <= 256 * (m - 1); }
    Remainder(n, 256 * m, q, r);
  }

  lemma Remainder(n: nat, m: nat, q: nat, r: nat)
    requires m > 0 && n == m * q + r && r < m
    ensures n % m == r
  {
    var k := n / m - q;
    assert m * k == r - n % m by { assert m * (n / m) + n % m == n; }
    assert k >= 1 ==> m * (k - 1) >= 0;
    assert k <= -1 ==> m * (-k - 1) >= 0;
  }

  lemma SmallModulo(n: nat, m: nat)
    requires n < m
    ensures n % m == n
  {
  }

  lemma Powers()
    ensures Power(4) == 0x1_0000_0000 && Power(8) == 0x1_0000_0000_0000_0000
  {
    assert Power(1) == 256 && Power(2) == 65536 && Power(3) == 16777216;
    assert Power(5) == 256 * Power(4) && Power(6) == 256 * Power(5) && Power(7) == 256 * Power(6);
  }

  /** `k` bytes hold no more than they can. */
  lemma {:induction false} UnLeFits(b: Bytes)
    ensures UnLe(b) < Power(|b|)
  {
    if b != [] {
      UnLeFits(b[1..]);
      ByteFits(b[0]);
    }
  }

  lemma ByteFits(b: bv8)
    ensures b as nat < 256
  {
  }

  /** The number four bytes hold. */
  lemma UnLeBytes(b: Bytes)
    requires |b| == 4
    ensures UnLe(b) == b[0] as nat + 256 * b[1] as nat + 65536 * b[2] as nat + 16777216 * b[3] as nat
  {
    assert b[1..][1..] == b[2..] && b[2..][1..] == b[3..] && b[3..][1..] == [];
    assert UnLe(b) == b[0] as nat + 256 * UnLe(b[1..]);
    assert UnLe(b[1..]) == b[1] as nat + 256 * UnLe(b[2..]);
    assert UnLe(b[2..]) == b[2] as nat + 256 * UnLe(b[3..]);
    assert UnLe(b[3..]) == b[3] as nat + 256 * UnLe([]);
  }

  /** The bytes four are written as. */
  lemma LeBytes(n: nat)
    ensures var b := Le(n, 4);
      && b[0] as nat == n % 256 && b[1] as nat == n / 256 % 256
      && b[2] as nat == n / 65536 % 256 && b[3] as nat == n / 16777216 % 256
  {
    var m := n / 256;
    var p := m / 256;
    assert n / 65536 == p && n / 16777216 == p / 256;
    SmallByte(n % 256);
    SmallByte(m % 256);
    SmallByte(p % 256);
    SmallByte(p / 256 % 256);
    hide ByteOf;
    assert Le(p / 256, 1)[0] == ByteOf(p / 256 % 256);
    assert Le(p, 2)[0] == ByteOf(p % 256) && Le(p, 2)[1] == Le(p / 256, 1)[0];
    assert Le(m, 3)[0] == ByteOf(m % 256) && Le(m, 3)[1] == Le(p, 2)[0] && Le(m, 3)[2] == Le(p, 2)[1];
  }

  function ReadInt(s: Bytes, at: nat, k: nat): Read<nat> {
    if at + k <= |s| then Got(UnLe(s[at..at + k]), at + k) else Bad
  }

  lemma ReadIntBack(s: Bytes, at: nat, n: nat, k: nat)
    requires At(s, at, Le(n, k)) && n < Power(k)
    ensures ReadInt(s, at, k) == Got(n, at + k)
  {
    hide Le; hide UnLe; hide Power;
    UnLeOfLe(n, k);
    SmallModulo(n, Power(k));
  }

  // ------------------------------------------------------------ bit patterns

  function Word(w: bv64): (b: Bytes)
    ensures |b| == 8
  {
    [(w & 255) as bv8, ((w >> 8) & 255) as bv8, ((w >> 16) & 255) as bv8, ((w >> 24) & 255) as bv8,
     ((w >> 32) & 255) as bv8, ((w >> 40) & 255) as bv8, ((w >> 48) & 255) as bv8, (w >> 56) as bv8]
  }

  function UnWord(b: Bytes): bv64
    requires |b| == 8
  {
    (b[0] as bv64) | ((b[1] as bv64) << 8) | ((b[2] as bv64) << 16) | ((b[3] as bv64) << 24)
    | ((b[4] as bv64) << 32) | ((b[5] as bv64) << 40) | ((b[6] as bv64) << 48) | ((b[7] as bv64) << 56)
  }

  /** The lowest byte comes first. */
  lemma WordSum(w: bv64)
    ensures var b := Word(w);
      w == b[0] as bv64 + 0x100 * b[1] as bv64 + 0x1_0000 * b[2] as bv64 + 0x100_0000 * b[3] as bv64
        + 0x1_0000_0000 * b[4] as bv64 + 0x100_0000_0000 * b[5] as bv64 + 0x1_0000_0000_0000 * b[6] as bv64
        + 0x100_0000_0000_0000 * b[7] as bv64
  {
  }

  lemma UnWordOfWord(w: bv64)
    ensures UnWord(Word(w)) == w
  {
  }

  function Half(f: bv32): (b: Bytes)
    ensures |b| == 4
  {
    [(f & 255) as bv8, ((f >> 8) & 255) as bv8, ((f >> 16) & 255) as bv8, (f >> 24) as bv8]
  }

  function UnHalf(b: Bytes): bv32
    requires |b| == 4
  {
    (b[0] as bv32) | ((b[1] as bv32) << 8) | ((b[2] as bv32) << 16) | ((b[3] as bv32) << 24)
  }

  lemma HalfSum(f: bv32)
    ensures var b := Half(f);
      f == b[0] as bv32 + 0x100 * b[1] as bv32 + 0x1_0000 * b[2] as bv32 + 0x100_0000 * b[3] as bv32
  {
  }

  lemma UnHalfOfHalf(f: bv32)
    ensures UnHalf(Half(f)) == f
  {
  }

  function ReadWord(s: Bytes, at: nat): Read<bv64> {
    if at + 8 <= |s| then Got(UnWord(s[at..at + 8]), at + 8) else Bad
  }

  function ReadHalf(s: Bytes, at: nat): Read<bv32> {
    if at + 4 <= |s| then Got(UnHalf(s[at..at + 4]), at + 4) else Bad
  }

  lemma ReadWordBack(s: Bytes, at: nat, w: bv64)
    requires At(s, at, Word(w))
    ensures ReadWord(s, at) == Got(w, at + 8)
  {
    hide UnWord; hide Word;
    UnWordOfWord(w);
  }

  lemma ReadHalfBack(s: Bytes, at: nat, f: bv32)
    requires At(s, at, Half(f))
    ensures ReadHalf(s, at) == Got(f, at + 4)
  {
    hide UnHalf; hide Half;
    UnHalfOfHalf(f);
  }

  // ------------------------------------------------------------ lists

  /** The first `n` items, one after another. */
  function Concat<T>(encode: T -> Bytes, items: seq<T>, n: nat): Bytes
    requires n <= |items|
  {
    if n == 0 then [] else Concat(encode, items, n - 1) + encode(items[n - 1])
  }

  function ReadMany<T>(s: Bytes, at: nat, read: (Bytes, nat) -> Read<T>, n: nat): Read<seq<T>> {
    if n == 0 then Got([], at) else
      match ReadMany(s, at, read, n - 1)
      case Bad => Bad
      case Got(items, next) =>
        match read(s, next)
        case Bad => Bad
        case Got(item, end) => Got(items + [item], end)
  }

  /** `item` is what `read` gives somewhere in `s`. */
  ghost predicate IsRead<T(!new)>(s: Bytes, read: (Bytes, nat) -> Read<T>, item: T) {
    exists p: nat :: read(s, p).Got? && read(s, p).value == item
  }

  /** Whatever is read, so many items are, each by the item's reader. */
  lemma {:induction false} ReadManyReads<T(!new)>(s: Bytes, at: nat, read: (Bytes, nat) -> Read<T>, n: nat)
    requires ReadMany(s, at, read, n).Got?
    ensures |ReadMany(s, at, read, n).value| == n
    ensures forall item :: item in ReadMany(s, at, read, n).value ==> IsRead(s, read, item)
  {
    if n > 0 {
      ReadManyReads(s, at, read, n - 1);
      var before := ReadMany(s, at, read, n - 1);
      assert IsRead(s, read, read(s, before.next).value);
    }
  }

  /** Items that each read back, read back one after another. */
  lemma {:induction false} ReadManyBack<T>(s: Bytes, at: nat, encode: T -> Bytes, read: (Bytes, nat) -> Read<T>,
      items: seq<T>, n: nat)
    requires n <= |items| && At(s, at, Concat(encode, items, n))
    requires forall i: nat, p: nat ::
      i < n && At(s, p, encode(items[i])) ==> read(s, p) == Got(items[i], p + |encode(items[i])|)
    ensures ReadMany(s, at, read, n) == Got(items[..n], at + |Concat(encode, items, n)|)
    decreases n
  {
    hide At;
    if n == 0 {
      assert items[..0] == [];
    } else {
      AtConcat(s, at, Concat(encode, items, n - 1), encode(items[n - 1]));
      ReadManyBack(s, at, encode, read, items, n - 1);
      assert items[..n] == items[..n - 1] + [items[n - 1]];
    }
  }
}
