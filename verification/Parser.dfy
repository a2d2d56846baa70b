/** Shred header parsing (src/parser.rs). */
module Parser {
  import opened Bytes
  import opened Variant

  const VARIANT_OFFSET: nat := 0x40
  const SLOT_OFFSET: nat := 0x41
  const INDEX_OFFSET: nat := 0x49
  const VERSION_OFFSET: nat := 0x4D
  const FEC_SET_INDEX_OFFSET: nat := 0x4F
  const DATA_PARENT_OFFSET: nat := 0x53
  const DATA_FLAGS_OFFSET: nat := 0x55
  const DATA_SIZE_OFFSET: nat := 0x56
  const DATA_HEADER_SIZE: nat := 0x58

  const CODE_NUM_DATA_OFFSET: nat := 0x53
  const CODE_NUM_CODING_OFFSET: nat := 0x55
  const CODE_POSITION_OFFSET: nat := 0x57
  const CODE_HEADER_SIZE: nat := 0x59

  const MAX_DATA_SHRED_SIZE: nat := 1203

  datatype DataShred = DataShred(
    slot: nat, index: nat, version: nat, fecSetIndex: nat, parentOffset: nat, payload: seq<byte>,
    batchComplete: bool, lastInSlot: bool, variant: VariantKind, rawLen: nat)

  datatype CodeShred = CodeShred(
    slot: nat, index: nat, version: nat, fecSetIndex: nat, numData: nat, numCoding: nat, position: nat,
    coded: seq<byte>, variant: VariantKind)

  datatype ShredKind = Data(data: DataShred) | Code(code: CodeShred)

  datatype ParseError = TooShort | UnknownVariant | PayloadInvalid

  datatype ParseResult = Ok(kind: ShredKind) | Err(error: ParseError)

  /** The DATA_COMPLETE bit, 0b0100_0000. */
  predicate DataComplete(flags: byte)
  {
    (flags / 64) % 2 == 1
  }

  /** Both LAST_IN_SLOT bits, 0b1100_0000. */
  predicate LastInSlot(flags: byte)
  {
    flags / 64 == 3
  }

  function Field(raw: seq<byte>, offset: nat, width: nat): nat
    requires offset + width <= |raw|
  {
    LeNat(raw[offset..offset + width])
  }

  function ParseKind(raw: seq<byte>): ParseResult
  {
    if |raw| < DATA_HEADER_SIZE then Err(TooShort)
    else
      var slot := Field(raw, SLOT_OFFSET, 8);
      var index := Field(raw, INDEX_OFFSET, 4);
      var version := Field(raw, VERSION_OFFSET, 2);
      var fecSetIndex := Field(raw, FEC_SET_INDEX_OFFSET, 4);
      match Classify(raw[VARIANT_OFFSET])
      case Some(kind) =>
        if kind.IsData() then ParseDataWithKind(raw, slot, index, version, fecSetIndex, kind)
        else ParseCodeWithKind(raw, slot, index, version, fecSetIndex, kind)
      case None =>
        match ParseDataLegacyFallback(raw, slot, index)
        case Ok(k) => Ok(k)
        case Err(_) => Err(UnknownVariant)
  }

  function PayloadUpTo(raw: seq<byte>, size: nat): seq<byte>
    requires size <= |raw|
  {
    if size > DATA_HEADER_SIZE then raw[DATA_HEADER_SIZE..size] else []
  }

  function ParseDataWithKind(raw: seq<byte>, slot: nat, index: nat, version: nat, fecSetIndex: nat,
                             variant: VariantKind): ParseResult
    requires |raw| >= DATA_HEADER_SIZE
  {
    if fecSetIndex > index then ParseDataLegacyFallback(raw, slot, index)
    else
      var parentOffset := Field(raw, DATA_PARENT_OFFSET, 2);
      var flags := raw[DATA_FLAGS_OFFSET];
      var size := Field(raw, DATA_SIZE_OFFSET, 2);
      if size > MAX_DATA_SHRED_SIZE then ParseDataLegacyFallback(raw, slot, index)
      else if size > |raw| then Err(PayloadInvalid)
      else Ok(Data(DataShred(slot, index, version, fecSetIndex, parentOffset, PayloadUpTo(raw, size),
                             DataComplete(flags), LastInSlot(flags), variant, |raw|)))
  }

  function ParseCodeWithKind(raw: seq<byte>, slot: nat, index: nat, version: nat, fecSetIndex: nat,
                             variant: VariantKind): ParseResult
    requires |raw| >= DATA_HEADER_SIZE
  {
    if |raw| < CODE_HEADER_SIZE then Err(TooShort)
    else
      var numData := Field(raw, CODE_NUM_DATA_OFFSET, 2);
      var numCoding := Field(raw, CODE_NUM_CODING_OFFSET, 2);
      var position := Field(raw, CODE_POSITION_OFFSET, 2);
      if numData == 0 || numCoding == 0 || position >= numCoding then Err(PayloadInvalid)
      else
        var suffix := variant.MerkleSuffix();
        if suffix >= |raw| then Err(PayloadInvalid)
        else Ok(Code(CodeShred(slot, index, version, fecSetIndex, numData, numCoding, position,
                               raw[..|raw| - suffix], variant)))
  }

  function ParseDataLegacyFallback(raw: seq<byte>, slot: nat, index: nat): ParseResult
    requires |raw| >= DATA_HEADER_SIZE
  {
    var flags := raw[DATA_FLAGS_OFFSET];
    var size := Field(raw, DATA_SIZE_OFFSET, 2);
    if size > |raw| then Err(PayloadInvalid)
    else Ok(Data(DataShred(slot, index, 0, index, 0, PayloadUpTo(raw, size),
                           DataComplete(flags), LastInSlot(flags), DataLegacy, |raw|)))
  }

  /** What every accepted data shred guarantees the rest of the pipeline, whichever of the three
      routes (typed, oversized or misordered fallback, unknown variant) accepted it. */
  lemma DataShredBounds(raw: seq<byte>)
    requires ParseKind(raw).Ok? && ParseKind(raw).kind.Data?
    ensures var d := ParseKind(raw).kind.data;
            && DATA_HEADER_SIZE + |d.payload| <= |raw|
            && d.payload == raw[DATA_HEADER_SIZE..DATA_HEADER_SIZE + |d.payload|]
            && d.fecSetIndex <= d.index <= U32_MAX
            && d.slot <= U64_MAX && d.version <= U16_MAX && d.parentOffset <= U16_MAX
            && (d.lastInSlot ==> d.batchComplete)
            && d.variant.IsData()
            && (d.variant.DataMerkle? ==> DATA_HEADER_SIZE + |d.payload| <= MAX_DATA_SHRED_SIZE)
  {
    Widths();
    LeNatBound(raw[INDEX_OFFSET..INDEX_OFFSET + 4]);
    LeNatBound(raw[SLOT_OFFSET..SLOT_OFFSET + 8]);
    LeNatBound(raw[VERSION_OFFSET..VERSION_OFFSET + 2]);
    LeNatBound(raw[DATA_PARENT_OFFSET..DATA_PARENT_OFFSET + 2]);
    assert LeNat(raw[INDEX_OFFSET..INDEX_OFFSET + 4]) == Field(raw, INDEX_OFFSET, 4);
    assert LeNat(raw[SLOT_OFFSET..SLOT_OFFSET + 8]) == Field(raw, SLOT_OFFSET, 8);
  }

  /** What every accepted code shred guarantees. */
  lemma CodeShredBounds(raw: seq<byte>)
    requires ParseKind(raw).Ok? && ParseKind(raw).kind.Code?
    ensures var c := ParseKind(raw).kind.code;
            && 0 < c.numData <= U16_MAX && c.position < c.numCoding <= U16_MAX
            && |c.coded| + c.variant.MerkleSuffix() == |raw| && c.coded == raw[..|c.coded|] && c.coded != []
            && c.fecSetIndex <= U32_MAX && c.slot <= U64_MAX
            && c.variant.IsCode()
  {
    Widths();
    LeNatBound(raw[FEC_SET_INDEX_OFFSET..FEC_SET_INDEX_OFFSET + 4]);
    LeNatBound(raw[SLOT_OFFSET..SLOT_OFFSET + 8]);
    LeNatBound(raw[CODE_NUM_DATA_OFFSET..CODE_NUM_DATA_OFFSET + 2]);
    LeNatBound(raw[CODE_NUM_CODING_OFFSET..CODE_NUM_CODING_OFFSET + 2]);
    assert LeNat(raw[FEC_SET_INDEX_OFFSET..FEC_SET_INDEX_OFFSET + 4]) == Field(raw, FEC_SET_INDEX_OFFSET, 4);
    assert LeNat(raw[SLOT_OFFSET..SLOT_OFFSET + 8]) == Field(raw, SLOT_OFFSET, 8);
  }

  /** Exactly which packets are refused, and with which error. */
  lemma RejectedExactly(raw: seq<byte>)
    ensures ParseKind(raw) == Err(TooShort) <==>
            || |raw| < DATA_HEADER_SIZE
            || (|raw| == DATA_HEADER_SIZE && Classify(raw[VARIANT_OFFSET]).Some?
                && Classify(raw[VARIANT_OFFSET]).value.IsCode())
    ensures ParseKind(raw) == Err(UnknownVariant) <==>
            && |raw| >= DATA_HEADER_SIZE
            && Classify(raw[VARIANT_OFFSET]).None?
            && Field(raw, DATA_SIZE_OFFSET, 2) > |raw|
  {
  }

  ghost predicate AgreeOn(a: seq<byte>, b: seq<byte>, lo: nat, hi: nat)
  {
    lo <= hi <= |a| && hi <= |b| && a[lo..hi] == b[lo..hi]
  }

  lemma AgreeSlice(a: seq<byte>, b: seq<byte>, lo: nat, hi: nat, i: nat, j: nat)
    requires AgreeOn(a, b, lo, hi) && lo <= i <= j <= hi
    ensures a[i..j] == b[i..j]
  {
    forall k | i <= k < j
      ensures a[k] == b[k]
    {
      assert a[lo..hi][k - lo] == b[lo..hi][k - lo];
    }
  }

  /** A Merkle data shred parses the same from any packet that agrees with it on the bytes from the
      variant to the end of its declared size: nothing before or after is read. */
  lemma ParseDependsOnShardOnly(a: seq<byte>, b: seq<byte>, hi: nat)
    requires AgreeOn(a, b, VARIANT_OFFSET, hi) && DATA_HEADER_SIZE <= hi
    requires ParseKind(a).Ok? && ParseKind(a).kind.Data? && ParseKind(a).kind.data.variant.DataMerkle?
    requires Field(a, DATA_SIZE_OFFSET, 2) <= hi
    ensures ParseKind(b).Ok? && ParseKind(b).kind.Data?
    ensures ParseKind(b).kind.data == ParseKind(a).kind.data.(rawLen := |b|)
  {
    AgreeSlice(a, b, VARIANT_OFFSET, hi, VARIANT_OFFSET, VARIANT_OFFSET + 1);
    assert a[VARIANT_OFFSET] == a[VARIANT_OFFSET..VARIANT_OFFSET + 1][0];
    assert b[VARIANT_OFFSET] == b[VARIANT_OFFSET..VARIANT_OFFSET + 1][0];
    AgreeSlice(a, b, VARIANT_OFFSET, hi, SLOT_OFFSET, SLOT_OFFSET + 8);
    AgreeSlice(a, b, VARIANT_OFFSET, hi, INDEX_OFFSET, INDEX_OFFSET + 4);
    AgreeSlice(a, b, VARIANT_OFFSET, hi, VERSION_OFFSET, VERSION_OFFSET + 2);
    AgreeSlice(a, b, VARIANT_OFFSET, hi, FEC_SET_INDEX_OFFSET, FEC_SET_INDEX_OFFSET + 4);
    AgreeSlice(a, b, VARIANT_OFFSET, hi, DATA_PARENT_OFFSET, DATA_PARENT_OFFSET + 2);
    AgreeSlice(a, b, VARIANT_OFFSET, hi, DATA_FLAGS_OFFSET, DATA_FLAGS_OFFSET + 1);
    assert a[DATA_FLAGS_OFFSET] == a[DATA_FLAGS_OFFSET..DATA_FLAGS_OFFSET + 1][0];
    assert b[DATA_FLAGS_OFFSET] == b[DATA_FLAGS_OFFSET..DATA_FLAGS_OFFSET + 1][0];
    AgreeSlice(a, b, VARIANT_OFFSET, hi, DATA_SIZE_OFFSET, DATA_SIZE_OFFSET + 2);
    var size := Field(a, DATA_SIZE_OFFSET, 2);
    if size > DATA_HEADER_SIZE {
      AgreeSlice(a, b, VARIANT_OFFSET, hi, DATA_HEADER_SIZE, size);
    }
  }
}
