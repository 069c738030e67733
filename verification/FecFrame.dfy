/** Block metadata of parity frames, packed in the frame header (tunnel/fec.go). A flag word is its number; fields
    are read and cleared by place value. */
module FecFrame {

  import opened Common

  const DATA_MAX: nat := 8
  const PARITY_MAX: nat := 4
  const PARITY_EXT_MAX: nat := 8
  const PREFIX: nat := 2
  const MAX_DATA: nat := 1394
  const MAX_SEQ: nat := 0xFFFF_FFFF_FFFF_FFFF
  const CMD_FEC: Byte := 0x0D

  datatype Frame = Frame(cmd: Byte, seqNo: nat, flags: nat, data: Bytes)

  datatype Parity = Parity(base: nat, k: int, m: int, index: int, data: Bytes, ext: bool)

  /** The field of the given width that starts at place value `place`. */
  function Field(flags: nat, place: nat, width: nat): (v: nat)
    requires place > 0 && width > 0
    ensures v < width
  {
    flags / place % width
  }

  function ParityCap(ext: bool): nat { if ext then PARITY_EXT_MAX else PARITY_MAX }

  predicate Packable(p: Parity) {
    && p.base != 0
    && 1 <= p.k <= DATA_MAX
    && 1 <= p.m <= ParityCap(p.ext)
    && 0 <= p.index < p.m
    && PREFIX <= |p.data| <= MAX_DATA
  }

  /** Bits 4 to 10 hold k - 1 and the low bits of m - 1 and the index; with the extension bits 2 and 3 hold the high
      bits of m - 1 and the index. All other bits stay. */
  function Packed(p: Parity, flags: nat): nat
    requires Packable(p)
  {
    flags - Field(flags, 16, 128) * 16 + LowBits(p) + if p.ext then HighBits(p) - Field(flags, 4, 4) * 4 else 0
  }

  function LowBits(p: Parity): int { (p.k - 1) * 16 + (p.m - 1) % 4 * 128 + p.index % 4 * 512 }

  function HighBits(p: Parity): int { (if p.m - 1 >= 4 then 4 else 0) + (if p.index >= 4 then 8 else 0) }

  /** applyToFrame: None leaves the frame unsent. */
  method ApplyToFrame(p: Parity, f: Frame) returns (r: Option<Frame>)
    ensures r == Applied(p, f)
    ensures r.Some? <==> && p.base != 0 && 1 <= p.k <= 8 && 1 <= p.m <= (if p.ext then 8 else 4)
                         && 0 <= p.index < p.m && 2 <= |p.data| <= 1394
    ensures r.Some? ==> r.value.seqNo == p.base && r.value.data == p.data && r.value.cmd == f.cmd
  {
    var maxParity := PARITY_MAX;
    if p.ext { maxParity := PARITY_EXT_MAX; }
    if p.base == 0 || p.k < 1 || p.k > DATA_MAX || p.m < 1 || p.m > maxParity || p.index < 0 || p.index >= p.m
       || |p.data| < PREFIX || |p.data| > MAX_DATA {
      return None;
    }
    var flags := f.flags - Field(f.flags, 16, 128) * 16;
    if p.ext { flags := flags - Field(f.flags, 4, 4) * 4; }
    flags := flags + LowBits(p);
    if p.ext { flags := flags + HighBits(p); }
    assert flags == Packed(p, f.flags);
    return Some(f.(seqNo := p.base, flags := flags, data := p.data));
  }

  function Applied(p: Parity, f: Frame): Option<Frame> {
    if Packable(p) then Some(f.(seqNo := p.base, flags := Packed(p, f.flags), data := p.data)) else None
  }

  /** m - 1 as packed. */
  function ParityField(flags: nat, ext: bool): (v: nat)
    ensures v < ParityCap(ext)
  {
    Field(flags, 128, 4) + if ext && Field(flags, 4, 2) == 1 then 4 else 0
  }

  function IndexField(flags: nat, ext: bool): nat {
    Field(flags, 512, 4) + if ext && Field(flags, 8, 2) == 1 then 4 else 0
  }

  /** parseFECParityFrameExt. */
  function Parsed(f: Frame, ext: bool): (r: Option<Parity>)
    ensures r.Some? ==> 1 <= r.value.k <= DATA_MAX && 1 <= r.value.m <= ParityCap(ext)
    ensures r.Some? ==> 0 <= r.value.index < r.value.m && |r.value.data| >= PREFIX && r.value.base > 0
  {
    var m1 := ParityField(f.flags, ext);
    var index := IndexField(f.flags, ext);
    var k := Field(f.flags, 16, 8) + 1;
    if f.cmd != CMD_FEC || f.seqNo == 0 || |f.data| < PREFIX then None
    else if index >= m1 + 1 then None
    else if f.seqNo > MAX_SEQ - (k - 1) then None
    else Some(Parity(f.seqNo, k, m1 + 1, index, f.data, false))
  }

  lemma FieldsOf(a: nat, b2: nat, b3: nat, d: nat, e: nat, g: nat, hi: nat, flags: nat)
    requires a < 4 && b2 < 2 && b3 < 2 && d < 8 && e < 4 && g < 4
    requires flags == a + 4 * b2 + 8 * b3 + 16 * d + 128 * e + 512 * g + 2048 * hi
    ensures Field(flags, 4, 2) == b2 && Field(flags, 8, 2) == b3 && Field(flags, 16, 8) == d
    ensures Field(flags, 128, 4) == e && Field(flags, 512, 4) == g
    ensures flags % 4 == a && flags / 2048 == hi
  {
    assert flags / 4 == b2 + 2 * b3 + 4 * d + 32 * e + 128 * g + 512 * hi;
    assert flags / 8 == b3 + 2 * d + 16 * e + 64 * g + 256 * hi;
    assert flags / 16 == d + 8 * e + 32 * g + 128 * hi;
    assert flags / 128 == e + 4 * g + 16 * hi;
    assert flags / 512 == g + 4 * hi;
  }

  /** What clearing the metadata leaves: the two lowest bits, bits 2 and 3, and everything from bit 11 up. */
  lemma ClearedParts(flags: nat)
    ensures flags - Field(flags, 16, 128) * 16
            == flags % 4 + 4 * Field(flags, 4, 2) + 8 * Field(flags, 8, 2) + 2048 * (flags / 2048)
    ensures Field(flags, 4, 4) == Field(flags, 4, 2) + 2 * Field(flags, 8, 2)
  {
    assert flags == flags % 4 + 4 * (flags / 4);
    assert flags / 4 == flags / 4 % 2 + 2 * (flags / 8);
    assert flags / 8 == flags / 8 % 2 + 2 * (flags / 16);
    assert flags / 16 == flags / 16 % 128 + 128 * (flags / 2048);
  }

  function HighM(p: Parity, flags: nat): (b: nat)
    requires Packable(p)
    ensures b < 2
  {
    if !p.ext then Field(flags, 4, 2) else if p.m - 1 >= 4 then 1 else 0
  }

  function HighIndex(p: Parity, flags: nat): (b: nat)
    requires Packable(p)
    ensures b < 2
  {
    if !p.ext then Field(flags, 8, 2) else if p.index >= 4 then 1 else 0
  }

  lemma PackedParts(p: Parity, flags: nat)
    requires Packable(p)
    ensures Packed(p, flags) == flags % 4 + 4 * HighM(p, flags) + 8 * HighIndex(p, flags) + 16 * (p.k - 1)
                                + 128 * ((p.m - 1) % 4) + 512 * (p.index % 4) + 2048 * (flags / 2048)
  {
    ClearedParts(flags);
  }

  lemma PackedFields(p: Parity, flags: nat)
    requires Packable(p)
    ensures var packed := Packed(p, flags);
            && Field(packed, 16, 8) == p.k - 1
            && Field(packed, 128, 4) == (p.m - 1) % 4 && Field(packed, 4, 2) == HighM(p, flags)
            && Field(packed, 512, 4) == p.index % 4 && Field(packed, 8, 2) == HighIndex(p, flags)
            && packed % 4 == flags % 4 && packed / 2048 == flags / 2048
  {
    PackedParts(p, flags);
    FieldsOf(flags % 4, HighM(p, flags), HighIndex(p, flags), p.k - 1, (p.m - 1) % 4, p.index % 4, flags / 2048,
             Packed(p, flags));
  }

  lemma PackedReads(p: Parity, flags: nat)
    requires Packable(p)
    ensures var packed := Packed(p, flags);
            && Field(packed, 16, 8) == p.k - 1
            && ParityField(packed, p.ext) == p.m - 1 && IndexField(packed, p.ext) == p.index
  {
    PackedFields(p, flags);
  }

  /** The metadata survives the header, standard or extended, whatever other flags are set. */
  lemma MetadataRoundTrip(p: Parity, f: Frame)
    requires Packable(p) && f.cmd == CMD_FEC && p.base + p.k - 1 <= MAX_SEQ
    ensures Parsed(Applied(p, f).value, p.ext) == Some(p.(ext := false))
  {
    PackedReads(p, f.flags);
  }

  /** Packing changes no flag outside the metadata bits. */
  lemma OtherFlagsStay(p: Parity, flags: nat)
    requires Packable(p)
    ensures var packed := Packed(p, flags);
            && packed % 4 == flags % 4 && packed / 2048 == flags / 2048
            && (!p.ext ==> Field(packed, 4, 2) == Field(flags, 4, 2) && Field(packed, 8, 2) == Field(flags, 8, 2))
  {
    PackedFields(p, flags);
  }
}
