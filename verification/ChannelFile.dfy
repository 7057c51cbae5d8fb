/** The frame channel's file: its geometry, checked before anything is
    allocated or mapped (elements-ipc `channel.rs`). */
module ChannelFile {
  import opened LittleEndian
  import opened Values

  const U64: nat := 0x1_0000_0000_0000_0000
  const U32: nat := 0x1_0000_0000
  const CHANNEL_MAGIC: nat := 0x4346_4C45
  const CHANNEL_VERSION: nat := 1
  const CHANNEL_HEADER_BYTES: nat := 64

  datatype ChannelError =
    | BadMagic(found: nat)
    | UnsupportedVersion(version: nat)
    | LengthMismatch(expected: nat, got: nat)
    | FieldTooLarge(dims: Dims, channels: nat)

  datatype Geometry = Geometry(values: nat, bufferBytes: nat)

  function CheckedMul(a: nat, b: nat): Option<nat> {
    if a * b < U64 then Some(a * b) else None
  }

  function CheckedAdd(a: nat, b: nat): Option<nat> {
    if a + b < U64 then Some(a + b) else None
  }

  function Then(a: Option<nat>, b: nat): Option<nat> {
    match a
    case None => None
    case Some(v) => CheckedMul(v, b)
  }

  /** `checked_value_count_and_bytes`, product by product. */
  function CheckedValueCountAndBytes(dims: Dims, channels: nat): Result<Geometry, ChannelError> {
    var values := Then(Then(CheckedMul(dims.x, dims.y), dims.z), channels);
    var bytes := Then(values, 4);
    if bytes.None? then Err(FieldTooLarge(dims, channels)) else
    var doubled := CheckedMul(bytes.value, 2);
    if doubled.None? || CheckedAdd(doubled.value, CHANNEL_HEADER_BYTES).None? then Err(FieldTooLarge(dims, channels))
    else Ok(Geometry(values.value, bytes.value))
  }

  ghost predicate Words32(dims: Dims, channels: nat) {
    dims.x < U32 && dims.y < U32 && dims.z < U32 && channels < U32
  }

  /** For 32-bit dims the check passes exactly when the voxel count and the
      whole file fit 64 bits, and then the products are exact. */
  lemma CheckedExactly(dims: Dims, channels: nat)
    requires Words32(dims, channels)
    ensures var r := CheckedValueCountAndBytes(dims, channels);
      var voxels := dims.x * dims.y * dims.z;
      && (r.Ok? <==> voxels < 0x1_0000_0000_0000_0000 && 8 * (voxels * channels) + 64 < 0x1_0000_0000_0000_0000)
      && (r.Ok? ==> r.value == Geometry(voxels * channels, 4 * (voxels * channels)))
      && (r.Err? ==> r.error == FieldTooLarge(dims, channels))
  {
    SmallProduct(dims.x, dims.y);
  }

  lemma SmallProduct(x: nat, y: nat)
    requires x < U32 && y < U32
    ensures x * y < U64
  {
    ProductGrows(x, U32, y);
    ProductGrows(y, U32, U32);
  }

  lemma ProductGrows(a: nat, b: nat, n: nat)
    requires a <= b
    ensures a * n <= b * n
  {
    assert (b - a) * n >= 0;
  }

  /** The voxel count is checked before the channels multiply it: no channels
      at all, a 64-byte file, is still refused for a huge box. */
  lemma EmptyChannelRefused()
    ensures var dims := Dims(0xFFFF_FFFF, 0xFFFF_FFFF, 0xFFFF_FFFF);
      CheckedValueCountAndBytes(dims, 0) == Err(FieldTooLarge(dims, 0))
        && 8 * (dims.Voxels() * 0) + 64 == 64
  {
  }

  /** The file `create` leaves: the header, its reserved tail, two zero buffers. */
  function Created(dims: Dims, channels: nat, bufferBytes: nat): Bytes {
    (Le(CHANNEL_MAGIC, 4) + Le(CHANNEL_VERSION, 4) + (Le(dims.x, 4) + Le(dims.y, 4) + Le(dims.z, 4)) + Le(channels, 4))
    + (Le(bufferBytes, 8) + Le(0, 8)) + Zeros(24 + 2 * bufferBytes)
  }

  function Zeros(n: nat): (b: Bytes)
    ensures |b| == n
  {
    seq(n, _ => 0)
  }

  function U32At(b: Bytes, at: nat): nat
    requires at + 4 <= |b|
  {
    UnLe(b[at..at + 4])
  }

  function U64At(b: Bytes, at: nat): nat
    requires at + 8 <= |b|
  {
    UnLe(b[at..at + 8])
  }

  datatype Opened = Opened(dims: Dims, channels: nat, geometry: Geometry)

  /** `FrameReader::open`: nothing in the file is trusted before it is checked. */
  function Open(b: Bytes): Result<Opened, ChannelError> {
    if |b| < CHANNEL_HEADER_BYTES then Err(BadMagic(0))
    else if U32At(b, 0) != CHANNEL_MAGIC then Err(BadMagic(U32At(b, 0)))
    else if U32At(b, 4) != CHANNEL_VERSION then Err(UnsupportedVersion(U32At(b, 4)))
    else
      var dims, channels, bytes := Dims(U32At(b, 8), U32At(b, 12), U32At(b, 16)), U32At(b, 20), U64At(b, 24);
      match CheckedValueCountAndBytes(dims, channels)
      case Err(e) => Err(e)
      case Ok(g) =>
        if bytes != g.bufferBytes then Err(LengthMismatch(g.bufferBytes, bytes))
        else if CheckedAdd(CHANNEL_HEADER_BYTES, 2 * g.bufferBytes).None? then Err(FieldTooLarge(dims, channels))
        else if |b| < CHANNEL_HEADER_BYTES + 2 * g.bufferBytes
          then Err(LengthMismatch(CHANNEL_HEADER_BYTES + 2 * g.bufferBytes, |b|))
        else Ok(Opened(dims, channels, g))
  }

  lemma {:induction false} ByteRange(b: Bytes)
    ensures UnLe(b) < Power(|b|)
  {
    if b != [] {
      ByteRange(b[1..]);
      assert b[0] as nat < 256;
    }
  }

  /** Whatever bytes a file holds, a channel that opens has both its buffers
      inside the file and as long as its dims say: no copy of either buffer
      can leave the mapping. */
  lemma OpenedIsInBounds(b: Bytes, i: nat)
    requires Open(b).Ok? && i < 2
    ensures var o := Open(b).value;
      && o.geometry.bufferBytes == 4 * o.geometry.values
      && o.geometry.values == o.dims.x * o.dims.y * o.dims.z * o.channels
      && 64 + i * o.geometry.bufferBytes + o.geometry.bufferBytes <= |b|
  {
    var o := Open(b).value;
    ByteRange(b[8..12]);
    ByteRange(b[12..16]);
    ByteRange(b[16..20]);
    ByteRange(b[20..24]);
    Powers();
    hide UnLe; hide Power; hide CheckedValueCountAndBytes;
    CheckedExactly(o.dims, o.channels);
  }

  /** What `create` writes, `open` accepts, with the same dims and channels. */
  lemma CreatedOpens(dims: Dims, channels: nat)
    requires Words32(dims, channels) && CheckedValueCountAndBytes(dims, channels).Ok?
    ensures var g := CheckedValueCountAndBytes(dims, channels).value;
      Open(Created(dims, channels, g.bufferBytes)) == Ok(Opened(dims, channels, g))
  {
    hide Le; hide UnLe; hide Power; hide CheckedValueCountAndBytes; hide CheckedAdd;
    CheckedExactly(dims, channels);
    var g := CheckedValueCountAndBytes(dims, channels).value;
    HeaderFields(dims, channels, g.bufferBytes);
    SumFits(64 + 2 * g.bufferBytes);
  }

  lemma SumFits(total: nat)
    requires 64 <= total < U64
    ensures CheckedAdd(64, total - 64).Some?
  {
  }

  /** The file starts with the letters E, L, F and C. */
  lemma MagicFirst(dims: Dims, channels: nat, bytes: nat)
    ensures var b := Created(dims, channels, bytes);
      |b| >= 64 && b[0] as nat == 0x45 && b[1] as nat == 0x4C && b[2] as nat == 0x46 && b[3] as nat == 0x43
  {
    hide Le;
    LeBytes(CHANNEL_MAGIC);
    assert Created(dims, channels, bytes)[..4] == Le(CHANNEL_MAGIC, 4);
  }

  /** Every field of the header, where the format puts it. */
  lemma HeaderFields(dims: Dims, channels: nat, bytes: nat)
    requires Words32(dims, channels) && bytes < U64
    ensures var b := Created(dims, channels, bytes);
      && |b| == 64 + 2 * bytes
      && U32At(b, 0) == 0x4346_4C45 && U32At(b, 4) == 1
      && U32At(b, 8) == dims.x && U32At(b, 12) == dims.y && U32At(b, 16) == dims.z
      && U32At(b, 20) == channels && U64At(b, 24) == bytes
  {
    hide Le; hide UnLe; hide Power;
    var b := Created(dims, channels, bytes);
    Powers();
    Field(b, 0, CHANNEL_MAGIC, 4);
    Field(b, 4, CHANNEL_VERSION, 4);
    Field(b, 8, dims.x, 4);
    Field(b, 12, dims.y, 4);
    Field(b, 16, dims.z, 4);
    Field(b, 20, channels, 4);
    Field(b, 24, bytes, 8);
  }

  lemma Field(b: Bytes, at: nat, n: nat, k: nat)
    requires at + k <= |b| && b[at..at + k] == Le(n, k) && n < Power(k)
    ensures UnLe(b[at..at + k]) == n
  {
    hide Le; hide UnLe; hide Power;
    UnLeOfLe(n, k);
    SmallModulo(n, Power(k));
  }
}
