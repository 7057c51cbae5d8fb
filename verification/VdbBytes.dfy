/** Little-endian fields and typed metadata, and a reader that undoes them
    (elements-io `vdb/writer.rs`). */
module VdbBytes {
  import opened LittleEndian
  import opened Values

  // ------------------------------------------------------------ strings

  function Text(s: Bytes): Bytes {
    Le(|s|, 4) + s
  }

  function ReadText(s: Bytes, at: nat): Read<Bytes> {
    match ReadInt(s, at, 4)
    case Bad => Bad
    case Got(n, next) => if next + n <= |s| then Got(s[next..next + n], next + n) else Bad
  }

  /** A string reads back exactly when its length fits the 32 bits it is cast to. */
  lemma ReadTextBack(s: Bytes, at: nat, t: Bytes)
    requires At(s, at, Text(t))
    ensures ReadText(s, at) == Got(t, at + |Text(t)|) <==> |t| < 0x1_0000_0000
  {
    AtConcat(s, at, Le(|t|, 4), t);
    UnLeOfLe(|t|, 4);
    Powers();
    hide Le; hide UnLe; hide Power;
    var n := |t| % 0x1_0000_0000;
    assert ReadInt(s, at, 4) == Got(n, at + 4);
    if |t| >= 0x1_0000_0000 {
      assert n < |t|;
      assert |s[at + 4..at + 4 + n]| == n;
    }
  }

  /** A known short ASCII string. */
  function Ascii(s: string): (b: Bytes)
    ensures |b| == |s|
  {
    seq(|s|, i requires 0 <= i < |s| => ByteOf(s[i] as int % 256))
  }

  // ------------------------------------------------------------ metadata

  datatype MetaValue =
    | MetaString(s: Bytes)
    | MetaBool(b: bool)
    | MetaI32(i: bv32)
    | MetaI64(l: bv64)
    | MetaF32(f: bv32)
    | MetaVec3i(x: bv32, y: bv32, z: bv32)
  {
    function TypeName(): Bytes {
      match this
      case MetaString(_) => Ascii("string")
      case MetaBool(_) => Ascii("bool")
      case MetaI32(_) => Ascii("int32")
      case MetaI64(_) => Ascii("int64")
      case MetaF32(_) => Ascii("float")
      case MetaVec3i(_, _, _) => Ascii("vec3i")
    }

    function ByteLen(): nat {
      match this
      case MetaString(s) => |s|
      case MetaBool(_) => 1
      case MetaI32(_) => 4
      case MetaF32(_) => 4
      case MetaI64(_) => 8
      case MetaVec3i(_, _, _) => 12
    }

    function Payload(): Bytes {
      match this
      case MetaString(s) => s
      case MetaBool(b) => [if b then 1 else 0]
      case MetaI32(i) => Half(i)
      case MetaF32(f) => Half(f)
      case MetaI64(l) => Word(l)
      case MetaVec3i(x, y, z) => Half(x) + Half(y) + Half(z)
    }

    lemma LengthIsPayload()
      ensures |Payload()| == ByteLen()
    {
    }

    function Encoded(): Bytes {
      Text(TypeName()) + Le(ByteLen(), 4) + Payload()
    }
  }

  /** A payload by its type's name. */
  function Decode(name: Bytes, p: Bytes): Option<MetaValue> {
    if name == Ascii("string") then Some(MetaString(p))
    else if name == Ascii("bool") && |p| == 1 then Some(MetaBool(p[0] != 0))
    else if name == Ascii("int32") && |p| == 4 then Some(MetaI32(UnHalf(p)))
    else if name == Ascii("int64") && |p| == 8 then Some(MetaI64(UnWord(p)))
    else if name == Ascii("float") && |p| == 4 then Some(MetaF32(UnHalf(p)))
    else if name == Ascii("vec3i") && |p| == 12 then Some(MetaVec3i(UnHalf(p[..4]), UnHalf(p[4..8]), UnHalf(p[8..])))
    else None
  }

  function ReadMeta(s: Bytes, at: nat): Read<MetaValue> {
    match ReadText(s, at)
    case Bad => Bad
    case Got(name, next) =>
      match ReadInt(s, next, 4)
      case Bad => Bad
      case Got(n, start) =>
        if start + n <= |s| then
          match Decode(name, s[start..start + n])
          case None => Bad
          case Some(v) => Got(v, start + n)
        else Bad
  }

  /** The six type names are told apart. */
  lemma NamesDiffer()
    ensures |Ascii("string")| == 6 && |Ascii("bool")| == 4
      && |Ascii("int32")| == |Ascii("int64")| == |Ascii("float")| == |Ascii("vec3i")| == 5
    ensures Ascii("int32") != Ascii("int64") && Ascii("float") != Ascii("vec3i")
    ensures Ascii("float") !in {Ascii("int32"), Ascii("int64")} && Ascii("vec3i") !in {Ascii("int32"), Ascii("int64")}
  {
    hide Ascii;
    Letter("int32", 3);
    Letter("int64", 3);
    Letter("int32", 0);
    Letter("int64", 0);
    Letter("float", 0);
    Letter("vec3i", 0);
  }

  lemma Letter(s: string, i: nat)
    requires i < |s| && s[i] as int < 256
    ensures Ascii(s)[i] as nat == s[i] as int
  {
    SmallByte(s[i] as int);
  }

  lemma DecodeBack(v: MetaValue)
    ensures Decode(v.TypeName(), v.Payload()) == Some(v)
  {
    NamesDiffer();
    hide Ascii; hide Word; hide Half; hide UnWord; hide UnHalf;
    match v
    case MetaString(_) =>
    case MetaBool(_) =>
    case MetaI32(i) => UnHalfOfHalf(i);
    case MetaF32(f) => UnHalfOfHalf(f);
    case MetaI64(l) => UnWordOfWord(l);
    case MetaVec3i(x, y, z) =>
      UnHalfOfHalf(x);
      UnHalfOfHalf(y);
      UnHalfOfHalf(z);
      var p := v.Payload();
      assert p[..4] == Half(x) && p[4..8] == Half(y) && p[8..] == Half(z);
  }

  /** Every metadata value reads back, whose string fits its length field. */
  lemma ReadMetaBack(s: Bytes, at: nat, v: MetaValue)
    requires At(s, at, v.Encoded()) && v.ByteLen() < 0x1_0000_0000
    ensures ReadMeta(s, at) == Got(v, at + |v.Encoded()|)
  {
    var name, len, p := v.TypeName(), Le(v.ByteLen(), 4), v.Payload();
    assert v.Encoded() == Text(name) + len + p;
    ShortNames(v);
    hide *;
    AtConcat(s, at, Text(name) + len, p);
    AtConcat(s, at, Text(name), len);
    ReadTextBack(s, at, name);
    Powers();
    ReadIntBack(s, at + |Text(name)|, v.ByteLen(), 4);
    v.LengthIsPayload();
    DecodeBack(v);
    ReadMetaParts(s, at, v, at + |Text(name)|);
  }

  lemma ReadMetaParts(s: Bytes, at: nat, v: MetaValue, next: nat)
    requires ReadText(s, at) == Got(v.TypeName(), next) && ReadInt(s, next, 4) == Got(v.ByteLen(), next + 4)
    requires At(s, next + 4, v.Payload()) && |v.Payload()| == v.ByteLen()
      && Decode(v.TypeName(), v.Payload()) == Some(v)
    ensures ReadMeta(s, at) == Got(v, next + 4 + v.ByteLen())
  {
    hide ReadText; hide ReadInt; hide Decode; hide MetaValue.TypeName; hide MetaValue.Payload;
  }

  lemma ShortNames(v: MetaValue)
    ensures |v.TypeName()| < 0x1_0000_0000
  {
  }

  datatype Entry = Entry(name: Bytes, value: MetaValue)
  {
    function Encoded(): Bytes {
      Text(name) + value.Encoded()
    }

    predicate Fits() {
      |name| < 0x1_0000_0000 && value.ByteLen() < 0x1_0000_0000
    }
  }

  function Record(e: Entry): Bytes {
    e.Encoded()
  }

  function ReadRecord(s: Bytes, at: nat): Read<Entry> {
    match ReadText(s, at)
    case Bad => Bad
    case Got(name, start) =>
      match ReadMeta(s, start)
      case Bad => Bad
      case Got(v, end) => Got(Entry(name, v), end)
  }

  lemma ReadRecordBack(s: Bytes, at: nat, e: Entry)
    requires At(s, at, Record(e)) && e.Fits()
    ensures ReadRecord(s, at) == Got(e, at + |Record(e)|)
  {
    hide Text; hide MetaValue.Encoded; hide ReadText; hide ReadMeta; hide At; hide MetaValue.ByteLen;
    AtConcat(s, at, Text(e.name), e.value.Encoded());
    ReadTextBack(s, at, e.name);
    ReadMetaBack(s, at + |Text(e.name)|, e.value);
  }

  /** A metadata map: a count, then its records. */
  function Metadata(entries: seq<Entry>): Bytes {
    Le(|entries|, 4) + Concat(Record, entries, |entries|)
  }

  function ReadMetadata(s: Bytes, at: nat): Read<seq<Entry>> {
    match ReadInt(s, at, 4)
    case Bad => Bad
    case Got(n, next) => ReadMany(s, next, ReadRecord, n)
  }

  lemma ReadMetadataBack(s: Bytes, at: nat, entries: seq<Entry>)
    requires At(s, at, Metadata(entries)) && |entries| < 0x1_0000_0000 && forall i ::
      0 <= i < |entries| ==> entries[i].Fits()
    ensures ReadMetadata(s, at) == Got(entries, at + |Metadata(entries)|)
  {
    hide At; hide Concat; hide ReadMany; hide Record; hide ReadRecord; hide Le; hide UnLe; hide Power; hide ReadInt;
    var records := Concat(Record, entries, |entries|);
    AtConcat(s, at, Le(|entries|, 4), records);
    Powers();
    ReadIntBack(s, at, |entries|, 4);
    forall i: nat, p: nat | i < |entries| && At(s, p, Record(entries[i]))
      ensures ReadRecord(s, p) == Got(entries[i], p + |Record(entries[i])|)
    {
      ReadRecordBack(s, p, entries[i]);
    }
    ReadManyBack(s, at + 4, Record, ReadRecord, entries, |entries|);
    assert entries[..|entries|] == entries;
  }
}
