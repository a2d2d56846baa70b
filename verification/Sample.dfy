/** A slot that meets the premise of the joined run, with something to lose: its first batch is empty and
    its second carries one transaction. */
module Sample {
  import opened Bytes
  import opened Variant
  import opened Parser
  import opened Packets
  import opened Codec
  import opened Decoder
  import opened Erasure
  import opened Fec
  import opened Slot
  import opened Emission
  import opened Reachable
  import opened Recovery
  import opened Stale

  // ---------- Two batches in the concrete entry format ----------

  function SampleTx(): Transaction
  {
    Transaction([Zeros(SIGNATURE_SIZE)], [])
  }

  function EmptyBatch(): seq<byte>
  {
    Zeros(8)
  }

  /** One signature, and an empty message. */
  function TxBytes(): seq<byte>
  {
    [1] + Zeros(SIGNATURE_SIZE) + [0]
  }

  /** No hashes, an empty hash, one transaction. */
  function EntryBytes(): seq<byte>
  {
    Zeros(40) + ([1] + Zeros(7)) + TxBytes()
  }

  function OneTxBatch(): (s: seq<byte>)
    ensures |s| == 122
  {
    ([1] + Zeros(7)) + EntryBytes()
  }

  lemma TxParses()
    ensures ParseTransaction(TxBytes()) == Parsed(SampleTx()) && TransactionSize(SampleTx()) == |TxBytes()|
  {
    var s := TxBytes();
    assert s[0] == 1 && s[65] == 0 && |s| == 66;
    assert s[1..65] == Zeros(64);
    var tx := ParseTransaction(s).value;
    assert tx.signatures == [s[1..65]];
  }

  lemma EntryParses()
    ensures ParseEntry(EntryBytes()) == Parsed(Entry(0, Zeros(32), [SampleTx()]))
    ensures EntrySize(Entry(0, Zeros(32), [SampleTx()])) == |EntryBytes()|
  {
    hide ParseTransaction, TransactionSize, SampleTx;
    TransactionReaderLawful();
    TxParses();
    var s := EntryBytes();
    SmallNumber(s[..8]);
    SmallNumber(s[40..48]);
    assert s[40..48] == [1] + Zeros(7);
    assert s[8..40] == Zeros(32);
    assert s[48..] == TxBytes();
    OneParses(TransactionReader(), 1, TxBytes(), SampleTx());
    assert [SampleTx()][1..] == [];
  }

  lemma OneParses<T(!new)>(r: Reader<T>, min: nat, s: seq<byte>, v: T)
    requires Lawful(r, min) && r.parse(s) == Parsed(v) && r.size(v) == |s|
    ensures ParseMany(r, min, 1, s) == Parsed([v])
  {
    assert LawsAt(r, min, s, s);
    assert ParseMany(r, min, 0, s[|s|..]) == Parsed([]);
    assert [v] + [] == [v];
  }

  lemma OneTxBatchDecodes(c: EntryCodec)
    requires c == LawfulEntryReader()
    ensures DecodeBatch(c, OneTxBatch()) == Some([SampleTx()])
  {
    hide ParseEntry, EntrySize, SampleTx;
    var s := OneTxBatch();
    EntryParses();
    SmallNumber(s[..8]);
    assert s[..8] == [1] + Zeros(7);
    assert s[8..] == EntryBytes();
    var e := Entry(0, Zeros(32), [SampleTx()]);
    OneParses(c, ENTRY_HEADER_SIZE, EntryBytes(), e);
    assert ParseVec(c, s) == Parsed([e]);
    assert [e][1..] == [];
    assert ExtractTxs([e]) == e.transactions + ExtractTxs([]) == [SampleTx()];
  }

  lemma EmptyBatchDecodes(c: EntryCodec)
    ensures DecodeBatch(c, EmptyBatch()) == Some([])
  {
    var s := EmptyBatch();
    SmallNumber(s[..8]);
    assert LeNat(s[..8]) == 0;
    assert ParseMany(c, ENTRY_HEADER_SIZE, 0, s[8..]) == Parsed([]);
    assert ParseVec(c, s) == Parsed([]);
    assert ExtractTxs([]) == [];
  }

  // ---------- Eight shreds ----------

  /** A Merkle data shred of FEC set 0. */
  function SampleHeader(index: byte, complete: bool, payload: seq<byte>): DataShred
  {
    DataShred(0, index, 0, 0, 0, payload, complete, false, DataMerkle(0, false), DATA_SHRED_PAYLOAD_LEN)
  }

  function SampleShred(index: byte, complete: bool, payload: seq<byte>): (raw: seq<byte>)
    requires DATA_HEADER_SIZE + |payload| < 256
    ensures |raw| == DATA_SHRED_PAYLOAD_LEN
  {
    DataPacket(SampleHeader(index, complete, payload), Flags(false, complete, 0),
               Zeros(DATA_SHRED_PAYLOAD_LEN - DATA_HEADER_SIZE - |payload|))
  }

  lemma SampleParses(index: byte, complete: bool, payload: seq<byte>)
    requires DATA_HEADER_SIZE + |payload| < 256
    ensures var p := ParseKind(SampleShred(index, complete, payload));
            && p.Ok? && p.kind.Data? && p.kind.data.variant == DataMerkle(0, false)
            && p.kind.data.index == index && p.kind.data.fecSetIndex == 0 && p.kind.data.payload == payload
            && p.kind.data.batchComplete == complete && !p.kind.data.lastInSlot
    ensures Field(SampleShred(index, complete, payload), DATA_SIZE_OFFSET, 2) == DATA_HEADER_SIZE + |payload|
  {
    hide ParseKind, Field, DataPacket;
    DataRoundTrip(SampleHeader(index, complete, payload), Flags(false, complete, 0),
                  Zeros(DATA_SHRED_PAYLOAD_LEN - DATA_HEADER_SIZE - |payload|));
  }

  /** The first batch is in shred 0, the second in shred 4. */
  function SamplePayload(p: nat): (s: seq<byte>)
    ensures DATA_HEADER_SIZE + |s| < 256
  {
    if p == 0 then EmptyBatch() else if p == 4 then OneTxBatch() else []
  }

  function SampleSlot(): SentSlot
  {
    map[0 := SentSet(0, false, 1, seq(8, (p: nat) requires p < 8 =>
      SampleShred(p, p == 3 || p == 7, SamplePayload(p))))]
  }

  /** The premise of the joined run is met under any code for eight data and one coding shard. */
  lemma TwoBatchesHappen(lib: ErasureLibrary)
    requires lib.accepts(8, 1)
    ensures TwoBatches(lib, SampleSlot())
  {
    hide ParseKind, SampleShred, SamplePayload;
    var sent := SampleSlot();
    forall p | 0 <= p < 8
      ensures SentShredOk(sent[0], 0, p)
      ensures SentHeader(sent[0], p).batchComplete <==> p == 3 || p == 7
      ensures !SentHeader(sent[0], p).lastInSlot
    {
      SampleParses(p, p == 3 || p == 7, SamplePayload(p));
    }
    assert SentSetOk(lib, sent[0], 0);
  }

  lemma SamplePayloadIs(p: nat)
    requires p < 8
    ensures SentPayload(SampleSlot(), p) == SamplePayload(p)
  {
    hide ParseKind, SampleShred, SamplePayload;
    SampleParses(p, p == 3 || p == 7, SamplePayload(p));
    assert Covers(SampleSlot(), 0, p);
  }

  lemma SampleBytes()
    ensures SentBytes(SampleSlot(), 0, 4) == EmptyBatch() && SentBytes(SampleSlot(), 4, 8) == OneTxBatch()
  {
    hide SentPayload, SampleSlot, EmptyBatch, OneTxBatch;
    forall p: nat | p < 8
      ensures SentPayload(SampleSlot(), p) == SamplePayload(p)
    {
      SamplePayloadIs(p);
    }
    var sent := SampleSlot();
    assert SentBytes(sent, 0, 1) == SentBytes(sent, 0, 0) + EmptyBatch();
    assert SentBytes(sent, 0, 2) == SentBytes(sent, 0, 1) + [];
    assert SentBytes(sent, 0, 3) == SentBytes(sent, 0, 2) + [];
    assert SentBytes(sent, 4, 5) == SentBytes(sent, 4, 4) + OneTxBatch();
    assert SentBytes(sent, 4, 6) == SentBytes(sent, 4, 5) + [];
    assert SentBytes(sent, 4, 7) == SentBytes(sent, 4, 6) + [];
  }

  /** In the joined run of this slot the second batch's transaction is sent, and every shred of it
      arrives, but it is never delivered: the slot has delivered nothing and moved past both batches. */
  lemma SecondBatchIsLost(env: Env, now: nat, s: State)
    requires env.codec == LawfulEntryReader() && env.lib.accepts(8, 1) && env.timeout > 0
    requires TwoBatches(env.lib, SampleSlot()) && Reaches(env, StaleRun(env.lib, SampleSlot(), now), s)
    ensures DecodeBatch(env.codec, SentBytes(SampleSlot(), 4, 8)) == Some([SampleTx()])
    ensures s.log.delivered == [] && s.batchStart == 8
  {
    hide TwoBatches, StaleRun, Reaches, DecodeBatch, SampleSlot, SentBytes, EmptyBatch, OneTxBatch, SampleTx;
    StaleBoundaryJoinsBatches(env, SampleSlot(), now, s);
    SampleBytes();
    EmptyBatchDecodes(env.codec);
    OneTxBatchDecodes(env.codec);
    assert FirstOccurrences([]) == [];
  }
}
