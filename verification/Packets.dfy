/** Shreds as a sender writes them (the layout of src/parser.rs): the parser reads back what was written. */
module Packets {
  import opened Bytes
  import opened Variant
  import opened Parser

  function Zeros(n: nat): (s: seq<byte>)
    ensures |s| == n && forall i :: 0 <= i < n ==> s[i] == 0
  {
    seq(n, _ => 0)
  }

  // ---------- Any packet with a data header ----------

  /** A flags byte: bits 7 and 6, and the reference tick below them. */
  datatype Flags = Flags(high: bool, complete: bool, tick: nat)

  function FlagsByte(f: Flags): byte
    requires f.tick < 64
  {
    (if f.high then 128 else 0) + (if f.complete then 64 else 0) + f.tick
  }

  /** What stands in a packet that is long enough for a data header, behind an empty signature. */
  datatype Wire = Wire(mark: byte, slot: nat, index: nat, version: nat, fecSetIndex: nat, parentOffset: nat,
    flags: Flags, size: nat, body: seq<byte>)

  ghost predicate WireFits(w: Wire)
  {
    && w.slot <= U64_MAX && w.index <= U32_MAX && w.version <= U16_MAX && w.fecSetIndex <= U32_MAX
    && w.parentOffset <= U16_MAX && w.flags.tick < 64 && w.size <= U16_MAX
  }

  /** The fields common to both kinds. */
  function CommonHeader(sig: seq<byte>, mark: byte, slot: nat, index: nat, version: nat, fecSetIndex: nat)
    : (s: seq<byte>)
    requires |sig| == 64
    ensures |s| == 0x53
  {
    sig + [mark] + LeEncode(slot, 8) + LeEncode(index, 4) + LeEncode(version, 2) + LeEncode(fecSetIndex, 4)
  }

  function DataFields(w: Wire): (s: seq<byte>)
    requires w.flags.tick < 64
    ensures |s| == 5
  {
    LeEncode(w.parentOffset, 2) + [FlagsByte(w.flags)] + LeEncode(w.size, 2)
  }

  function WireBytes(sig: seq<byte>, w: Wire): (s: seq<byte>)
    requires |sig| == 64 && w.flags.tick < 64
    ensures |s| == 88 + |w.body|
  {
    CommonHeader(sig, w.mark, w.slot, w.index, w.version, w.fecSetIndex) + DataFields(w) + w.body
  }

  // ---------- Shreds ----------

  /** A data shred on the wire, followed by whatever pads or proves it. */
  function WireOf(d: DataShred, flags: Flags, tail: seq<byte>): Wire
  {
    Wire(VariantByte(d.variant), d.slot, d.index, d.version, d.fecSetIndex, d.parentOffset, flags, 88 + |d.payload|,
         d.payload + tail)
  }

  function DataPacket(d: DataShred, flags: Flags, tail: seq<byte>): (s: seq<byte>)
    requires flags.tick < 64
    ensures |s| == 88 + |d.payload| + |tail|
  {
    WireBytes(Zeros(64), WireOf(d, flags, tail))
  }

  /** What a sender can put into a data shred: batch end and last in slot are the two high bits of the flags,
      whatever the tick. */
  ghost predicate DataFits(d: DataShred, flags: Flags, tail: seq<byte>)
  {
    && d.variant.IsData() && d.fecSetIndex <= d.index && WireFits(WireOf(d, flags, tail))
    && d.batchComplete == flags.complete && d.lastInSlot == (flags.high && flags.complete)
    && 88 + |d.payload| <= 1203 && d.rawLen == 88 + |d.payload| + |tail|
  }

  function CodeFields(numData: nat, numCoding: nat, position: nat): (s: seq<byte>)
    ensures |s| == 6
  {
    LeEncode(numData, 2) + LeEncode(numCoding, 2) + LeEncode(position, 2)
  }

  /** A code shred's header and what follows it. */
  function CodeBytes(sig: seq<byte>, c: CodeShred, body: seq<byte>): (s: seq<byte>)
    requires |sig| == 64
    ensures |s| == 89 + |body|
  {
    CommonHeader(sig, VariantByte(c.variant), c.slot, c.index, c.version, c.fecSetIndex)
    + CodeFields(c.numData, c.numCoding, c.position) + body
  }

  /** The coded part of a code shred: its header and the coding shard. */
  function CodedPart(c: CodeShred, shard: seq<byte>): (s: seq<byte>)
    ensures |s| == 89 + |shard|
  {
    CodeBytes(Zeros(64), c, shard)
  }

  /** A code shred with its Merkle suffix. */
  function CodePacket(c: CodeShred, suffix: seq<byte>): seq<byte>
  {
    c.coded + suffix
  }

  /** What a sender can put into a code shred. */
  ghost predicate CodeFits(c: CodeShred, suffix: seq<byte>)
  {
    && c.variant.IsCode() && |suffix| == c.variant.MerkleSuffix()
    && c.slot <= U64_MAX && c.index <= U32_MAX && c.fecSetIndex <= U32_MAX && c.version <= U16_MAX
    && 0 < c.numData <= U16_MAX && c.position < c.numCoding <= U16_MAX
    && 89 <= |c.coded| && c.coded == CodedPart(c, c.coded[89..])
  }

  // ---------- Reading back ----------

  /** The bytes of `mid` where it stands. */
  lemma SliceAt(raw: seq<byte>, pre: seq<byte>, mid: seq<byte>, post: seq<byte>)
    requires raw == pre + mid + post
    ensures |pre| + |mid| <= |raw| && raw[|pre|..|pre| + |mid|] == mid
  {
  }

  lemma FieldAt(raw: seq<byte>, pre: seq<byte>, n: nat, width: nat, post: seq<byte>)
    requires raw == pre + LeEncode(n, width) + post && n < Pow256(width)
    ensures |pre| + width <= |raw| && Field(raw, |pre|, width) == n
  {
    SliceAt(raw, pre, LeEncode(n, width), post);
    LeRoundTrip(n, width);
  }

  lemma CommonReads(raw: seq<byte>, sig: seq<byte>, mark: byte, slot: nat, index: nat, version: nat,
    fecSetIndex: nat, rest: seq<byte>)
    requires |sig| == 64 && raw == CommonHeader(sig, mark, slot, index, version, fecSetIndex) + rest
    requires slot <= U64_MAX && index <= U32_MAX && version <= U16_MAX && fecSetIndex <= U32_MAX
    ensures |raw| >= DATA_PARENT_OFFSET && raw[VARIANT_OFFSET] == mark
    ensures Field(raw, SLOT_OFFSET, 8) == slot && Field(raw, INDEX_OFFSET, 4) == index
    ensures Field(raw, VERSION_OFFSET, 2) == version && Field(raw, FEC_SET_INDEX_OFFSET, 4) == fecSetIndex
  {
    hide LeEncode, LeNat, Pow256, Field;
    Widths();
    var s, i, v, f := LeEncode(slot, 8), LeEncode(index, 4), LeEncode(version, 2), LeEncode(fecSetIndex, 4);
    var start := sig + [mark];
    assert raw == start + s + (i + v + f + rest);
    FieldAt(raw, start, slot, 8, i + v + f + rest);
    assert raw == (start + s) + i + (v + f + rest);
    FieldAt(raw, start + s, index, 4, v + f + rest);
    assert raw == (start + s + i) + v + (f + rest);
    FieldAt(raw, start + s + i, version, 2, f + rest);
    FieldAt(raw, start + s + i + v, fecSetIndex, 4, rest);
  }

  lemma DataReads(sig: seq<byte>, w: Wire)
    requires |sig| == 64 && WireFits(w)
    ensures var raw := WireBytes(sig, w);
            && raw[VARIANT_OFFSET] == w.mark
            && Field(raw, SLOT_OFFSET, 8) == w.slot && Field(raw, INDEX_OFFSET, 4) == w.index
            && Field(raw, VERSION_OFFSET, 2) == w.version && Field(raw, FEC_SET_INDEX_OFFSET, 4) == w.fecSetIndex
            && Field(raw, DATA_PARENT_OFFSET, 2) == w.parentOffset && raw[DATA_FLAGS_OFFSET] == FlagsByte(w.flags)
            && Field(raw, DATA_SIZE_OFFSET, 2) == w.size && raw[DATA_HEADER_SIZE..] == w.body
  {
    hide LeEncode, LeNat, Pow256, Field, CommonHeader;
    Widths();
    var raw, head := WireBytes(sig, w), CommonHeader(sig, w.mark, w.slot, w.index, w.version, w.fecSetIndex);
    assert raw == head + (DataFields(w) + w.body);
    CommonReads(raw, sig, w.mark, w.slot, w.index, w.version, w.fecSetIndex, DataFields(w) + w.body);
    var parent, flags, size := LeEncode(w.parentOffset, 2), [FlagsByte(w.flags)], LeEncode(w.size, 2);
    assert raw == head + parent + (flags + size + w.body);
    FieldAt(raw, head, w.parentOffset, 2, flags + size + w.body);
    assert raw == (head + parent + flags) + size + w.body;
    FieldAt(raw, head + parent + flags, w.size, 2, w.body);
  }

  /** Both flags are exactly the two high bits, whatever the six below. */
  lemma FlagsRead(f: Flags)
    requires f.tick < 64
    ensures DataComplete(FlagsByte(f)) <==> f.complete
    ensures LastInSlot(FlagsByte(f)) <==> f.high && f.complete
  {
  }

  function PayloadOf(w: Wire): seq<byte>
  {
    if 88 < w.size <= 88 + |w.body| then w.body[..w.size - 88] else []
  }

  /** The shred of the legacy route: its set is its own index. */
  function Legacy(w: Wire): DataShred
  {
    DataShred(w.slot, w.index, 0, w.index, 0, PayloadOf(w), w.flags.complete, w.flags.high && w.flags.complete,
              DataLegacy, 88 + |w.body|)
  }

  function Typed(w: Wire, variant: VariantKind): DataShred
  {
    DataShred(w.slot, w.index, w.version, w.fecSetIndex, w.parentOffset, PayloadOf(w), w.flags.complete,
              w.flags.high && w.flags.complete, variant, 88 + |w.body|)
  }

  /** Exactly what becomes of a packet marked as a data shred of some variant, or not marked as any. It is
      taken as marked if its set does not lie past its index and its declared size is at most 1203; else by
      the legacy route; and in either case refused if the declared size lies past its end. */
  lemma DataParsedExactly(sig: seq<byte>, w: Wire, variant: VariantKind)
    requires |sig| == 64 && WireFits(w) && variant.IsData()
    ensures w.mark == VariantByte(variant) ==>
              ParseKind(WireBytes(sig, w)) ==
                if w.fecSetIndex <= w.index && w.size <= 1203 then
                  if w.size <= 88 + |w.body| then Ok(Data(Typed(w, variant))) else Err(PayloadInvalid)
                else if w.size <= 88 + |w.body| then Ok(Data(Legacy(w))) else Err(PayloadInvalid)
    ensures (forall k: VariantKind :: w.mark != VariantByte(k)) ==>
              ParseKind(WireBytes(sig, w))
              == if w.size <= 88 + |w.body| then Ok(Data(Legacy(w))) else Err(UnknownVariant)
  {
    hide LeEncode, LeNat, Pow256, Field, Classify, VariantByte, CommonHeader, WireBytes, DataComplete, LastInSlot,
      FlagsByte;
    DataReads(sig, w);
    FlagsRead(w.flags);
    var raw := WireBytes(sig, w);
    ClassifyRoundTrip(variant, w.mark);
    if w.size <= |raw| {
      PayloadIs(raw, w);
    }
    if Classify(w.mark).Some? {
      ClassifyRoundTrip(Classify(w.mark).value, w.mark);
    }
  }

  lemma PayloadIs(raw: seq<byte>, w: Wire)
    requires |raw| == 88 + |w.body| && raw[88..] == w.body && w.size <= |raw|
    ensures PayloadUpTo(raw, w.size) == PayloadOf(w)
  {
  }

  /** Every packet that is long enough has this form. */
  lemma EveryPacketIsWire(raw: seq<byte>) returns (sig: seq<byte>, w: Wire)
    requires |raw| >= 88
    ensures |sig| == 64 && WireFits(w) && raw == WireBytes(sig, w)
  {
    hide LeEncode, LeNat, Pow256;
    Widths();
    var flags := raw[85];
    sig := raw[..64];
    w := Wire(raw[64], LeNat(raw[65..73]), LeNat(raw[73..77]), LeNat(raw[77..79]), LeNat(raw[79..83]),
              LeNat(raw[83..85]), Flags(flags / 128 == 1, flags / 64 % 2 == 1, flags % 64), LeNat(raw[86..88]),
              raw[88..]);
    LeNatRoundTrip(raw[65..73]);
    LeNatRoundTrip(raw[73..77]);
    LeNatRoundTrip(raw[77..79]);
    LeNatRoundTrip(raw[79..83]);
    LeNatRoundTrip(raw[83..85]);
    LeNatRoundTrip(raw[86..88]);
    assert FlagsByte(w.flags) == flags;
    assert raw == raw[..64] + [raw[64]] + raw[65..73] + raw[73..77] + raw[77..79] + raw[79..83]
                  + (raw[83..85] + [flags] + raw[86..88]) + raw[88..];
  }

  /** Every data shred a sender can write is parsed as that shred, whatever the tick. */
  lemma DataRoundTrip(d: DataShred, flags: Flags, tail: seq<byte>)
    requires DataFits(d, flags, tail)
    ensures ParseKind(DataPacket(d, flags, tail)) == Ok(Data(d))
    ensures Field(DataPacket(d, flags, tail), DATA_SIZE_OFFSET, 2) == 88 + |d.payload|
  {
    hide ParseKind, Field, WireBytes, VariantByte;
    var w := WireOf(d, flags, tail);
    DataReads(Zeros(64), w);
    DataParsedExactly(Zeros(64), w, d.variant);
    assert PayloadOf(w) == d.payload;
  }

  /** Exactly what becomes of a packet marked as a code shred of some variant that is long enough for a code
      header: refused without shards of either kind, with a position past the coding shreds, or if its
      Merkle suffix leaves nothing; else what precedes the suffix is the coded part. */
  lemma CodeParsedExactly(sig: seq<byte>, c: CodeShred, body: seq<byte>)
    requires |sig| == 64 && c.variant.IsCode() && c.numData <= U16_MAX && c.numCoding <= U16_MAX
    requires c.position <= U16_MAX
    requires c.slot <= U64_MAX && c.index <= U32_MAX && c.fecSetIndex <= U32_MAX && c.version <= U16_MAX
    ensures var raw := CodeBytes(sig, c, body);
            ParseKind(raw) ==
              if c.numData == 0 || c.numCoding == 0 || c.position >= c.numCoding
                || c.variant.MerkleSuffix() >= |raw| then
                Err(PayloadInvalid)
              else Ok(Code(c.(coded := raw[..|raw| - c.variant.MerkleSuffix()])))
  {
    hide LeEncode, LeNat, Pow256, Field, Classify, VariantByte, CommonHeader;
    Widths();
    ClassifyRoundTrip(c.variant, VariantByte(c.variant));
    var mark := VariantByte(c.variant);
    var raw, head := CodeBytes(sig, c, body), CommonHeader(sig, mark, c.slot, c.index, c.version, c.fecSetIndex);
    var n, k, p := LeEncode(c.numData, 2), LeEncode(c.numCoding, 2), LeEncode(c.position, 2);
    assert raw == head + (n + k + p + body);
    CommonReads(raw, sig, mark, c.slot, c.index, c.version, c.fecSetIndex, n + k + p + body);
    assert raw == head + n + (k + p + body);
    FieldAt(raw, head, c.numData, 2, k + p + body);
    assert raw == (head + n) + k + (p + body);
    FieldAt(raw, head + n, c.numCoding, 2, p + body);
    FieldAt(raw, head + n + k, c.position, 2, body);
  }

  /** Every code shred a sender can write is parsed as that shred. */
  lemma CodeRoundTrip(c: CodeShred, suffix: seq<byte>)
    requires CodeFits(c, suffix)
    ensures ParseKind(CodePacket(c, suffix)) == Ok(Code(c))
  {
    hide ParseKind, CommonHeader;
    var body := c.coded[89..] + suffix;
    assert CodePacket(c, suffix) == CodeBytes(Zeros(64), c, body);
    CodeParsedExactly(Zeros(64), c, body);
  }
}
