/** Entry decoding (src/decoder.rs): the one-shot batch decoder, the concatenated decoder used for
    salvage, and the incremental decoder, with the lemmas that make the three agree. */
module Decoder {
  import opened Bytes
  import opened Codec

  const MAX_ENTRY_COUNT: nat := 50_000

  type transactions = seq<Transaction>

  function ExtractTxs(entries: seq<Entry>): transactions
  {
    if entries == [] then [] else entries[0].transactions + ExtractTxs(entries[1..])
  }

  lemma {:induction false} ExtractAppend(a: seq<Entry>, b: seq<Entry>)
    ensures ExtractTxs(a + b) == ExtractTxs(a) + ExtractTxs(b)
  {
    if a == [] {
      assert a + b == b;
    } else {
      assert (a + b)[1..] == a[1..] + b;
      ExtractAppend(a[1..], b);
      assert a[0].transactions + (ExtractTxs(a[1..]) + ExtractTxs(b))
          == a[0].transactions + ExtractTxs(a[1..]) + ExtractTxs(b);
    }
  }

  // ---------- The external vector reader ----------

  /** `deserialize::<Vec<Entry>>`: an eight-byte count, then that many entries. */
  function ParseVec(c: EntryCodec, bytes: seq<byte>): ReadResult<seq<Entry>>
  {
    if |bytes| < 8 then Truncated
    else ParseMany(c, ENTRY_HEADER_SIZE, LeNat(bytes[..8]), bytes[8..])
  }

  function VecSize(c: EntryCodec, entries: seq<Entry>): nat
  {
    8 + SizeMany(c.size, entries)
  }

  // ---------- One-shot decoding ----------

  function ValidateVecPrefix(bytes: seq<byte>): bool
  {
    && |bytes| >= 8
    && LeNat(bytes[..8]) <= MAX_ENTRY_COUNT
    && SatMul48(LeNat(bytes[..8])) <= |bytes|
  }

  function SatMul48(n: nat): nat
  {
    if n * 48 <= U64_MAX then n * 48 else U64_MAX
  }

  function DecodeBatch(c: EntryCodec, bytes: seq<byte>): Option<transactions>
  {
    if !ValidateVecPrefix(bytes) then None
    else match ParseVec(c, bytes)
      case Parsed(entries) => Some(ExtractTxs(entries))
      case Truncated => None
      case Malformed => None
  }

  /** The `count * 48` test refuses nothing that the vector reader would accept, so `DecodeBatch`
      is the vector reader under the entry-count limit and nothing else. */
  lemma PrefixTestIsExact(c: EntryCodec, bytes: seq<byte>)
    ensures DecodeBatch(c, bytes).Some? <==>
            ParseVec(c, bytes).Parsed? && LeNat(bytes[..8]) <= 50_000
    ensures DecodeBatch(c, bytes).Some? ==> DecodeBatch(c, bytes).value == ExtractTxs(ParseVec(c, bytes).value)
  {
    if ParseVec(c, bytes).Parsed? {
      ManySized(c, ENTRY_HEADER_SIZE, LeNat(bytes[..8]), bytes[8..]);
    }
  }

  /** Decodes batch after batch until something does not decode. */
  function DecodeConcatenated(c: EntryCodec, bytes: seq<byte>): transactions
    decreases |bytes|
  {
    if !ValidateVecPrefix(bytes) then []
    else match ParseVec(c, bytes)
      case Parsed(entries) =>
        ManySized(c, ENTRY_HEADER_SIZE, LeNat(bytes[..8]), bytes[8..]);
        ExtractTxs(entries) + DecodeConcatenated(c, bytes[VecSize(c, entries)..])
      case Truncated => []
      case Malformed => []
  }

  /** The loop of the source over a growing offset. */
  method DecodeConcatenatedLoop(c: EntryCodec, bytes: seq<byte>) returns (out: transactions)
    ensures out == DecodeConcatenated(c, bytes)
  {
    out := [];
    var offset := 0;
    assert bytes[0..] == bytes;
    while offset + 8 <= |bytes|
      invariant offset <= |bytes|
      invariant DecodeConcatenated(c, bytes) == out + DecodeConcatenated(c, bytes[offset..])
      decreases |bytes| - offset
    {
      var remaining := bytes[offset..];
      if !ValidateVecPrefix(remaining) {
        break;
      }
      var parsed := ParseVec(c, remaining);
      if !parsed.Parsed? {
        break;
      }
      var entries := parsed.value;
      var consumed := VecSize(c, entries);
      ManySized(c, ENTRY_HEADER_SIZE, LeNat(remaining[..8]), remaining[8..]);
      assert remaining[consumed..] == bytes[offset + consumed..];
      out := out + ExtractTxs(entries);
      offset := offset + consumed;
    }
  }

  /** A byte string that is exactly one batch of these entries. */
  ghost predicate IsBatch(c: EntryCodec, bytes: seq<byte>, entries: seq<Entry>)
  {
    ParseVec(c, bytes) == Parsed(entries) && |bytes| == VecSize(c, entries) && |entries| <= 50_000
  }

  lemma BatchExtends(c: EntryCodec, bytes: seq<byte>, entries: seq<Entry>, tail: seq<byte>)
    requires ParseVec(c, bytes) == Parsed(entries)
    ensures VecSize(c, entries) <= |bytes|
    ensures LeNat((bytes + tail)[..8]) == |entries|
    ensures ParseVec(c, bytes + tail) == Parsed(entries)
  {
    var n := LeNat(bytes[..8]);
    ManySized(c, ENTRY_HEADER_SIZE, n, bytes[8..]);
    assert (bytes + tail)[..8] == bytes[..8];
    assert (bytes + tail)[8..] == bytes[8..] + tail;
    ManyLocal(c, ENTRY_HEADER_SIZE, n, bytes[8..], bytes[8..] + tail);
  }

  function Flatten<T>(parts: seq<seq<T>>): seq<T>
  {
    if parts == [] then [] else parts[0] + Flatten(parts[1..])
  }

  function AllTxs(batches: seq<seq<Entry>>): transactions
  {
    if batches == [] then [] else ExtractTxs(batches[0]) + AllTxs(batches[1..])
  }

  /** Encoded batches one after another followed by anything that does not decode give back exactly
      the transactions of the batches, in order. */
  lemma {:induction false} ConcatenatedRoundTrip(
    c: EntryCodec, parts: seq<seq<byte>>, batches: seq<seq<Entry>>, tail: seq<byte>)
    requires |parts| == |batches|
    requires forall i :: 0 <= i < |parts| ==> IsBatch(c, parts[i], batches[i])
    requires DecodeBatch(c, tail).None?
    ensures DecodeConcatenated(c, Flatten(parts) + tail) == AllTxs(batches)
    decreases |parts|
  {
    PrefixTestIsExact(c, Flatten(parts) + tail);
    if parts == [] {
      assert Flatten(parts) + tail == tail;
    } else {
      var rest := Flatten(parts[1..]) + tail;
      assert Flatten(parts) + tail == parts[0] + rest;
      assert IsBatch(c, parts[0], batches[0]);
      BatchExtends(c, parts[0], batches[0], rest);
      assert (parts[0] + rest)[|parts[0]|..] == rest;
      ConcatenatedRoundTrip(c, parts[1..], batches[1..], tail);
    }
  }

  /** Salvage decoding begins with what batch decoding would have given. */
  lemma ConcatenatedStartsWithBatch(c: EntryCodec, bytes: seq<byte>)
    ensures DecodeBatch(c, bytes).Some? ==> DecodeBatch(c, bytes).value <= DecodeConcatenated(c, bytes)
    ensures DecodeBatch(c, bytes).None? ==> DecodeConcatenated(c, bytes) == []
  {
  }

  // ---------- Incremental decoding ----------

  datatype Scan = Scan(entries: seq<Entry>, pos: nat, malformed: bool)

  /** Reads up to `left` entries from `pos`, stopping at the end, a truncated or a malformed entry. */
  function ScanFrom(c: EntryCodec, bytes: seq<byte>, pos: nat, left: nat): (scan: Scan)
    requires pos <= |bytes|
    ensures pos <= scan.pos <= |bytes| && |scan.entries| <= left
    decreases left
  {
    if left == 0 || pos == |bytes| then Scan([], pos, false)
    else match c.parse(bytes[pos..])
      case Parsed(e) =>
        assert LawsAt(c, ENTRY_HEADER_SIZE, bytes[pos..], bytes[pos..]);
        var rest := ScanFrom(c, bytes, pos + c.size(e), left - 1);
        Scan([e] + rest.entries, rest.pos, rest.malformed)
      case Truncated => Scan([], pos, false)
      case Malformed => Scan([], pos, true)
  }

  function Prepend(entries: seq<Entry>, scan: Scan): Scan
  {
    Scan(entries + scan.entries, scan.pos, scan.malformed)
  }

  lemma PrependPrepend(a: seq<Entry>, b: seq<Entry>, scan: Scan)
    ensures Prepend(a, Prepend(b, scan)) == Prepend(a + b, scan)
  {
    assert a + (b + scan.entries) == a + b + scan.entries;
  }

  lemma ScanStep(c: EntryCodec, bytes: seq<byte>, pos: nat, left: nat, e: Entry)
    requires left > 0 && pos < |bytes| && c.parse(bytes[pos..]) == Parsed(e)
    ensures pos + c.size(e) <= |bytes|
    ensures ScanFrom(c, bytes, pos, left) == Prepend([e], ScanFrom(c, bytes, pos + c.size(e), left - 1))
  {
    assert LawsAt(c, ENTRY_HEADER_SIZE, bytes[pos..], bytes[pos..]);
  }

  lemma ScanSame(c: EntryCodec, a: seq<byte>, b: seq<byte>, pos: nat, e: Entry)
    requires a <= b && pos < |a| && c.parse(a[pos..]) == Parsed(e)
    ensures c.parse(b[pos..]) == Parsed(e)
  {
    assert a[pos..] <= b[pos..];
    ParseExtends(c, ENTRY_HEADER_SIZE, a[pos..], b[pos..]);
  }

  lemma ScanMalformed(c: EntryCodec, a: seq<byte>, b: seq<byte>, pos: nat)
    requires a <= b && pos < |a| && c.parse(a[pos..]).Malformed?
    ensures c.parse(b[pos..]).Malformed?
  {
    assert a[pos..] <= b[pos..];
    assert LawsAt(c, ENTRY_HEADER_SIZE, a[pos..], b[pos..]);
  }

  /** Scanning a longer buffer resumes where the shorter scan stopped; a malformed entry stays. */
  lemma {:induction false} ScanExtends(c: EntryCodec, a: seq<byte>, b: seq<byte>, pos: nat, left: nat)
    requires a <= b && pos <= |a|
    ensures var s := ScanFrom(c, a, pos, left);
            if s.malformed then ScanFrom(c, b, pos, left).malformed
            else ScanFrom(c, b, pos, left) == Prepend(s.entries, ScanFrom(c, b, s.pos, left - |s.entries|))
    decreases left
  {
    if left == 0 || pos == |a| {
      assert [] + ScanFrom(c, b, pos, left).entries == ScanFrom(c, b, pos, left).entries;
    } else {
      match c.parse(a[pos..])
      case Truncated =>
        assert [] + ScanFrom(c, b, pos, left).entries == ScanFrom(c, b, pos, left).entries;
      case Malformed =>
        ScanMalformed(c, a, b, pos);
      case Parsed(e) =>
        ScanSame(c, a, b, pos, e);
        ScanStep(c, a, pos, left, e);
        ScanStep(c, b, pos, left, e);
        var next := pos + c.size(e);
        ScanExtends(c, a, b, next, left - 1);
        var r := ScanFrom(c, a, next, left - 1);
        if !r.malformed {
          PrependPrepend([e], r.entries, ScanFrom(c, b, r.pos, left - 1 - |r.entries|));
        }
    }
  }

  /** The scan is the vector reader's entry loop, stopped early. */
  lemma {:induction false} ScanIsParse(c: EntryCodec, bytes: seq<byte>, pos: nat, left: nat)
    requires pos <= |bytes|
    ensures var s, m := ScanFrom(c, bytes, pos, left), ParseMany(c, ENTRY_HEADER_SIZE, left, bytes[pos..]);
            && (s.malformed ==> !m.Parsed?)
            && (!s.malformed && |s.entries| == left <==> m.Parsed?)
            && (m.Parsed? ==> s.entries == m.value && s.pos == pos + SizeMany(c.size, m.value))
    decreases left
  {
    if left > 0 {
      ManyStep(c, ENTRY_HEADER_SIZE, left, bytes[pos..]);
      assert LawsAt(c, ENTRY_HEADER_SIZE, bytes[pos..], bytes[pos..]);
      if pos == |bytes| {
        EmptyNeverParses(c, bytes[pos..]);
      } else if c.parse(bytes[pos..]).Parsed? {
        var k := c.size(c.parse(bytes[pos..]).value);
        ScanIsParse(c, bytes, pos + k, left - 1);
        assert bytes[pos..][k..] == bytes[pos + k..];
      }
    }
  }

  /** Nothing fits in no bytes. */
  lemma EmptyNeverParses(c: EntryCodec, s: seq<byte>)
    requires s == []
    ensures !c.parse(s).Parsed?
  {
    assert LawsAt(c, ENTRY_HEADER_SIZE, s, s);
  }
}
