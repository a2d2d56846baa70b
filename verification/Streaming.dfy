/** The incremental decoder (src/decoder.rs, `StreamingDecoder`) and its refinement of the one-shot
    decoder for every way of cutting the bytes into pushes. */
module Streaming {
  import opened Bytes
  import opened Codec
  import opened Decoder

  datatype RawState = Decoding(buffer: seq<byte>, cursor: nat, expectedCount: Option<nat>, entriesYielded: nat)

  type DecoderState = d: RawState | d.cursor <= |d.buffer| witness Decoding([], 0, None, 0)

  const EMPTY: DecoderState := Decoding([], 0, None, 0)

  /** `txs` is None when the source returns the corruption error. */
  datatype PushResult = PushResult(state: DecoderState, txs: Option<transactions>)

  /** The entry loop, once the expected count is known. */
  function ReadEntries(c: EntryCodec, d: DecoderState): PushResult
  {
    match d.expectedCount
    case None => PushResult(d, Some([]))
    case Some(expected) =>
      var scan := ScanFrom(c, d.buffer, d.cursor, SatSub(expected, d.entriesYielded));
      PushResult(d.(cursor := scan.pos, entriesYielded := d.entriesYielded + |scan.entries|),
                 if scan.malformed then None else Some(ExtractTxs(scan.entries)))
  }

  function Deserialized(c: EntryCodec, d: DecoderState): PushResult
  {
    if d.expectedCount.None? && |d.buffer| >= d.cursor + 8 then
      var count := LeNat(d.buffer[d.cursor..d.cursor + 8]);
      if count > MAX_ENTRY_COUNT then PushResult(d, None)
      else ReadEntries(c, d.(cursor := d.cursor + 8, expectedCount := Some(count)))
    else ReadEntries(c, d)
  }

  function Pushed(c: EntryCodec, d: DecoderState, payload: seq<byte>): PushResult
  {
    Deserialized(c, d.(buffer := d.buffer + payload))
  }

  /** One push of everything into a new decoder. */
  function PushAll(c: EntryCodec, bytes: seq<byte>): PushResult
  {
    Deserialized(c, Decoding(bytes, 0, None, 0))
  }

  predicate Accepts(c: EntryCodec, bytes: seq<byte>)
  {
    PushAll(c, bytes).txs.Some?
  }

  function Yield(c: EntryCodec, bytes: seq<byte>): transactions
    requires Accepts(c, bytes)
  {
    PushAll(c, bytes).txs.value
  }

  lemma PushAllShort(c: EntryCodec, bytes: seq<byte>)
    requires |bytes| < 8
    ensures PushAll(c, bytes) == PushResult(Decoding(bytes, 0, None, 0), Some([]))
  {
  }

  lemma PushAllLong(c: EntryCodec, bytes: seq<byte>)
    requires |bytes| >= 8
    ensures var n := LeNat(bytes[..8]);
            if n > MAX_ENTRY_COUNT then PushAll(c, bytes).txs.None?
            else
              var s := ScanFrom(c, bytes, 8, n);
              PushAll(c, bytes) == PushResult(Decoding(bytes, s.pos, Some(n), |s.entries|),
                                              if s.malformed then None else Some(ExtractTxs(s.entries)))
  {
    assert bytes[0..8] == bytes[..8];
  }

  /** A push continues the one-shot decoding: what is left in the decoder and everything it has given
      out are those of a single push of all the bytes so far, and it fails exactly when that would. */
  lemma PushContinues(c: EntryCodec, bytes: seq<byte>, payload: seq<byte>)
    requires Accepts(c, bytes)
    ensures var r := Pushed(c, PushAll(c, bytes).state, payload);
            && (r.txs.Some? <==> Accepts(c, bytes + payload))
            && (r.txs.Some? ==> r.state == PushAll(c, bytes + payload).state
                                && Yield(c, bytes) + r.txs.value == Yield(c, bytes + payload))
  {
    hide ScanFrom, ExtractTxs;
    var all := bytes + payload;
    if |bytes| < 8 {
      PushAllShort(c, bytes);
      ExtractNone();
      assert [] + PushAll(c, all).txs.GetOr([]) == PushAll(c, all).txs.GetOr([]);
    } else {
      PushAllLong(c, bytes);
      PushAllLong(c, all);
      assert all[..8] == bytes[..8];
      var n := LeNat(bytes[..8]);
      var s := ScanFrom(c, bytes, 8, n);
      ScanExtends(c, bytes, all, 8, n);
      var t := ScanFrom(c, all, s.pos, n - |s.entries|);
      ExtractAppend(s.entries, t.entries);
    }
  }

  /** Once the bytes are rejected no further bytes are accepted. */
  lemma RejectionPersists(c: EntryCodec, bytes: seq<byte>, payload: seq<byte>)
    requires !Accepts(c, bytes)
    ensures !Accepts(c, bytes + payload)
  {
    var all := bytes + payload;
    if |bytes| >= 8 {
      PushAllLong(c, bytes);
      PushAllLong(c, all);
      assert all[..8] == bytes[..8];
      ScanExtends(c, bytes, all, 8, LeNat(bytes[..8]));
    }
  }

  /** Pushes one after another, up to the first error. */
  function Feed(c: EntryCodec, d: DecoderState, chunks: seq<seq<byte>>): PushResult
    decreases |chunks|
  {
    if chunks == [] then PushResult(d, Some([]))
    else
      var r := Pushed(c, d, chunks[0]);
      if r.txs.None? then r
      else
        var rest := Feed(c, r.state, chunks[1..]);
        if rest.txs.None? then rest else PushResult(rest.state, Some(r.txs.value + rest.txs.value))
  }

  lemma {:induction false} FeedFrom(c: EntryCodec, bytes: seq<byte>, chunks: seq<seq<byte>>)
    requires Accepts(c, bytes)
    ensures var r := Feed(c, PushAll(c, bytes).state, chunks);
            && (r.txs.Some? <==> Accepts(c, bytes + Flatten(chunks)))
            && (r.txs.Some? ==> r.state == PushAll(c, bytes + Flatten(chunks)).state
                                && Yield(c, bytes) + r.txs.value == Yield(c, bytes + Flatten(chunks)))
    decreases |chunks|
  {
    hide PushAll, Pushed;
    if chunks == [] {
      assert bytes + Flatten(chunks) == bytes;
    } else {
      PushContinues(c, bytes, chunks[0]);
      var more := bytes + chunks[0];
      assert bytes + Flatten(chunks) == more + Flatten(chunks[1..]);
      if Accepts(c, more) {
        FeedFrom(c, more, chunks[1..]);
      } else {
        RejectionPersists(c, more, Flatten(chunks[1..]));
      }
    }
  }

  /** Chunking independence: however the bytes are cut, streaming them succeeds exactly when one push
      of the whole does, gives the same transactions and leaves the same decoder. */
  lemma ChunkingIndependence(c: EntryCodec, chunks: seq<seq<byte>>)
    ensures Feed(c, EMPTY, chunks).txs == PushAll(c, Flatten(chunks)).txs
    ensures Feed(c, EMPTY, chunks).txs.Some? ==> Feed(c, EMPTY, chunks) == PushAll(c, Flatten(chunks))
  {
    PushAllShort(c, []);
    FeedFrom(c, [], chunks);
    assert [] + Flatten(chunks) == Flatten(chunks);
    if Feed(c, EMPTY, chunks).txs.Some? {
      assert [] + Feed(c, EMPTY, chunks).txs.value == Feed(c, EMPTY, chunks).txs.value;
    }
  }

  lemma BatchIsScan(c: EntryCodec, bytes: seq<byte>)
    requires DecodeBatch(c, bytes).Some?
    ensures var n := LeNat(bytes[..8]);
            var s := ScanFrom(c, bytes, 8, n);
            && |bytes| >= 8 && n <= MAX_ENTRY_COUNT && !s.malformed && |s.entries| == n
            && DecodeBatch(c, bytes).value == ExtractTxs(s.entries)
            && ParseVec(c, bytes) == Parsed(s.entries)
            && s.pos == VecSize(c, s.entries)
  {
    ScanIsParse(c, bytes, 8, LeNat(bytes[..8]));
  }

  /** Streaming any prefix of a batch that decodes gives a prefix of its transactions without error,
      and all of them as soon as the prefix covers the encoding. */
  lemma StreamingPrefix(c: EntryCodec, bytes: seq<byte>, prefix: seq<byte>)
    requires DecodeBatch(c, bytes).Some? && prefix <= bytes
    ensures Accepts(c, prefix)
    ensures Yield(c, prefix) <= DecodeBatch(c, bytes).value
    ensures |prefix| >= VecSize(c, ParseVec(c, bytes).value) ==> Yield(c, prefix) == DecodeBatch(c, bytes).value
  {
    BatchIsScan(c, bytes);
    var rest := bytes[|prefix|..];
    assert bytes == prefix + rest;
    PushAllLong(c, bytes);
    if !Accepts(c, prefix) {
      RejectionPersists(c, prefix, rest);
      assert false;
    }
    PushContinues(c, prefix, rest);
    if |prefix| >= VecSize(c, ParseVec(c, bytes).value) {
      CoveredPrefix(c, bytes, prefix);
    }
  }

  lemma CoveredPrefix(c: EntryCodec, bytes: seq<byte>, prefix: seq<byte>)
    requires DecodeBatch(c, bytes).Some? && prefix <= bytes
    requires |prefix| >= VecSize(c, ParseVec(c, bytes).value)
    ensures DecodeBatch(c, prefix) == DecodeBatch(c, bytes)
    ensures Accepts(c, prefix) && Yield(c, prefix) == DecodeBatch(c, bytes).value
  {
    BatchIsScan(c, bytes);
    var n := LeNat(bytes[..8]);
    var m := SizeMany(c.size, ParseVec(c, bytes).value);
    assert prefix[..8] == bytes[..8];
    assert prefix[8..][..m] == bytes[8..][..m];
    ManyLocal(c, ENTRY_HEADER_SIZE, n, bytes[8..], prefix[8..]);
    PrefixTestIsExact(c, prefix);
    BatchIsScan(c, prefix);
    PushAllLong(c, prefix);
  }

  lemma DrainStep(c: EntryCodec, bytes: seq<byte>, pos: nat, left: nat, read: seq<Entry>, e: Entry)
    requires left > 0 && pos < |bytes| && c.parse(bytes[pos..]) == Parsed(e)
    ensures pos + c.size(e) <= |bytes|
    ensures Prepend(read, ScanFrom(c, bytes, pos, left))
         == Prepend(read + [e], ScanFrom(c, bytes, pos + c.size(e), left - 1))
    ensures ExtractTxs(read + [e]) == ExtractTxs(read) + e.transactions
  {
    ScanStep(c, bytes, pos, left, e);
    PrependPrepend(read, [e], ScanFrom(c, bytes, pos + c.size(e), left - 1));
    ExtractAppend(read, [e]);
    assert ExtractTxs([e][1..]) == [];
    assert ExtractTxs([e]) == e.transactions;
  }

  lemma DrainStop(c: EntryCodec, bytes: seq<byte>, pos: nat, left: nat, read: seq<Entry>)
    requires pos <= |bytes|
    requires left == 0 || pos == |bytes| || !c.parse(bytes[pos..]).Parsed?
    ensures Prepend(read, ScanFrom(c, bytes, pos, left))
         == Scan(read, pos, left > 0 && pos < |bytes| && c.parse(bytes[pos..]).Malformed?)
  {
    assert read + [] == read;
  }

  /** The decoder object. */
  class StreamingDecoder {
    const codec: EntryCodec
    var buffer: seq<byte>
    var cursor: nat
    var expectedCount: Option<nat>
    var entriesYielded: nat

    ghost predicate Valid()
      reads this
    {
      cursor <= |buffer|
    }

    ghost function View(): DecoderState
      requires Valid()
      reads this
    {
      Decoding(buffer, cursor, expectedCount, entriesYielded)
    }

    constructor (codec: EntryCodec)
      ensures Valid() && View() == EMPTY && this.codec == codec
    {
      this.codec := codec;
      buffer := [];
      cursor := 0;
      expectedCount := None;
      entriesYielded := 0;
    }

    method Push(payload: seq<byte>) returns (r: Option<transactions>)
      requires Valid()
      modifies this
      ensures Valid()
      ensures PushResult(View(), r) == Pushed(codec, old(View()), payload)
    {
      buffer := buffer + payload;
      r := TryDeserialize();
    }

    method Reset()
      modifies this
      ensures Valid() && View() == EMPTY
    {
      buffer := [];
      cursor := 0;
      expectedCount := None;
      entriesYielded := 0;
    }

    method TryDeserialize() returns (r: Option<transactions>)
      requires Valid()
      modifies this
      ensures Valid()
      ensures PushResult(View(), r) == Deserialized(codec, old(View()))
    {
      if expectedCount.None? && |buffer| >= cursor + 8 {
        var count := LeNat(buffer[cursor..cursor + 8]);
        if count > MAX_ENTRY_COUNT {
          return None;
        }
        cursor := cursor + 8;
        expectedCount := Some(count);
      }
      if expectedCount.None? {
        return Some([]);
      }
      r := DrainEntries(expectedCount.value);
    }

    method DrainEntries(expected: nat) returns (r: Option<transactions>)
      requires Valid() && expectedCount == Some(expected)
      modifies this
      ensures Valid()
      ensures PushResult(View(), r) == ReadEntries(codec, old(View()))
    {
      hide ScanFrom, ExtractTxs;
      var txs: transactions := [];
      ghost var whole := ScanFrom(codec, buffer, cursor, SatSub(expected, entriesYielded));
      ghost var read: seq<Entry> := [];
      ghost var yielded := entriesYielded;
      assert whole.entries == [] + whole.entries;
      ExtractNone();
      while entriesYielded < expected
        invariant Valid() && buffer == old(buffer) && expectedCount == old(expectedCount)
        invariant entriesYielded == yielded + |read|
        invariant whole == Prepend(read, ScanFrom(codec, buffer, cursor, SatSub(expected, entriesYielded)))
        invariant txs == ExtractTxs(read)
        decreases expected - entriesYielded
      {
        var remaining := buffer[cursor..];
        if remaining == [] {
          break;
        }
        match codec.parse(remaining) {
          case Parsed(entry) =>
            DrainStep(codec, buffer, cursor, expected - entriesYielded, read, entry);
            read := read + [entry];
            cursor := cursor + codec.size(entry);
            entriesYielded := entriesYielded + 1;
            txs := txs + entry.transactions;
          case Truncated =>
            break;
          case Malformed =>
            DrainStop(codec, buffer, cursor, expected - entriesYielded, read);
            return None;
        }
      }
      DrainStop(codec, buffer, cursor, SatSub(expected, entriesYielded), read);
      return Some(txs);
    }
  }

  lemma ExtractNone()
    ensures ExtractTxs([]) == []
  {
  }
}
