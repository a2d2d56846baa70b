/** Recovery is invisible: in a slot fed only with shreds of what the leader sent, everything pending
    and every completed batch is what was sent, whatever was lost and rebuilt from code shreds. */
module Recovery {
  import opened Bytes
  import opened Collections
  import opened Variant
  import opened Parser
  import opened Decoder
  import opened Streaming
  import opened Erasure
  import opened Fec
  import opened Slot
  import opened Emission
  import opened Invariant
  import opened Lifetime
  import opened Scanners
  import opened Reachable

  /** The FEC sets of a slot by their first index. */
  type SentSlot = map<nat, SentSet>

  ghost predicate Covers(sent: SentSlot, f: nat, i: nat)
  {
    f in sent && f <= i < f + |sent[f].raws|
  }

  ghost predicate SentShredOk(sent: SentSet, f: nat, p: nat)
    requires p < |sent.raws|
  {
    var parsed := ParseKind(sent.raws[p]);
    && SIZE_OF_SIGNATURE + ShardSize(sent.proofSize, sent.resigned) <= |sent.raws[p]|
    && parsed.Ok? && parsed.kind.Data?
    && parsed.kind.data.variant == DataMerkle(sent.proofSize, sent.resigned)
    && parsed.kind.data.index == f + p && parsed.kind.data.fecSetIndex == f
    && Field(sent.raws[p], DATA_SIZE_OFFSET, 2) <= SIZE_OF_SIGNATURE + ShardSize(sent.proofSize, sent.resigned)
  }

  /** One FEC set as a leader builds it: numbered data shreds of one Merkle variant whose declared
      sizes fit the shard, under parameters the library accepts. */
  ghost predicate SentSetOk(lib: ErasureLibrary, sent: SentSet, f: nat)
  {
    && sent.raws != [] && lib.accepts(|sent.raws|, sent.numCoding)
    && forall p :: 0 <= p < |sent.raws| ==> SentShredOk(sent, f, p)
  }

  ghost predicate SentSlotOk(lib: ErasureLibrary, sent: SentSlot)
  {
    && (forall f :: f in sent ==> SentSetOk(lib, sent[f], f))
    && (forall f, g, i: nat :: Covers(sent, f, i) && Covers(sent, g, i) ==> f == g)
  }

  ghost function SentHeader(sent: SentSet, p: nat): DataShred
    requires p < |sent.raws| && ParseKind(sent.raws[p]).Ok? && ParseKind(sent.raws[p]).kind.Data?
  {
    ParseKind(sent.raws[p]).kind.data
  }

  lemma SetWellSent(lib: ErasureLibrary, sent: SentSet, f: nat)
    requires SentSetOk(lib, sent, f)
    ensures WellSent(sent)
    ensures var w := SentData(sent);
            && |lib.encode(|sent.raws|, sent.numCoding, w)| == sent.numCoding
            && Uniform(lib.encode(|sent.raws|, sent.numCoding, w), ShardSize(sent.proofSize, sent.resigned))
  {
    forall p | 0 <= p < |sent.raws|
      ensures SIZE_OF_SIGNATURE + ShardSize(sent.proofSize, sent.resigned) <= |sent.raws[p]|
    {
      assert SentShredOk(sent, f, p);
    }
    assert EncodesAt(lib, |sent.raws|, sent.numCoding, SentData(sent), ShardSize(sent.proofSize, sent.resigned));
  }

  // ---------- Pending shreds against what was sent ----------

  /** Payload, batch end, set and shard bytes are those sent. */
  ghost predicate EntryAsSent(lib: ErasureLibrary, sent: SentSlot, i: nat, ps: PendingShred)
    requires SentSlotOk(lib, sent)
  {
    var f := ps.fecSetIndex;
    && Covers(sent, f, i)
    && SentSetOk(lib, sent[f], f) && SentShredOk(sent[f], f, i - f) && HoldsSent(sent[f], f, i - f, ps)
  }

  /** Payload, batch end and shard bytes are those of the p-th shred of the set. */
  ghost predicate HoldsSent(sent: SentSet, f: nat, p: nat, ps: PendingShred)
    requires p < |sent.raws| && SentShredOk(sent, f, p)
  {
    && ps.Payload() == Some(SentHeader(sent, p).payload) && ps.batchComplete == SentHeader(sent, p).batchComplete
    && DataShardSlice(ps.source.Slice(), DataMerkle(sent.proofSize, sent.resigned)) == Some(SentShard(sent, p))
  }

  ghost predicate BufferAsSent(lib: ErasureLibrary, sent: SentSlot, f: nat, fec: FecSet)
    requires SentSlotOk(lib, sent)
  {
    f in sent && SentSetOk(lib, sent[f], f) && WellSent(sent[f]) && CodeFrom(lib, fec, sent[f]) && CodeWhole(fec)
  }

  /** Every code shred recorded has a shard of its own to contribute. */
  ghost predicate CodeWhole(fec: FecSet)
  {
    forall j :: j in fec.code ==> j < fec.numCoding && CodeShard(fec, fec.code[j]).Some?
  }

  /** The payloads sent at the covered indices of `[lo, hi)`, in order. */
  ghost function SentPayload(sent: SentSlot, i: nat): seq<byte>
  {
    if f: nat :| Covers(sent, f, i) then
      (match ParseKind(sent[f].raws[i - f])
       case Ok(Data(d)) => d.payload
       case _ => [])
    else []
  }

  ghost function SentBytes(sent: SentSlot, lo: nat, hi: nat): seq<byte>
    decreases hi
  {
    if lo >= hi then [] else SentBytes(sent, lo, hi - 1) + SentPayload(sent, hi - 1)
  }

  /** The shred at this index was sent in this set and ends a batch. */
  ghost predicate EndIn(sent: SentSlot, f: nat, i: nat)
  {
    Covers(sent, f, i)
    && match ParseKind(sent[f].raws[i - f])
       case Ok(Data(d)) => d.batchComplete
       case _ => false
  }

  ghost predicate SentEnd(sent: SentSlot, i: nat)
  {
    exists f :: EndIn(sent, f, i)
  }

  /** The batch ends sent in `[lo, hi)`. */
  ghost function SentEnds(sent: SentSlot, lo: nat, hi: nat): set<nat>
  {
    set i | lo <= i < hi && SentEnd(sent, i)
  }

  /** A range completed whole has the sent bytes and exactly the sent batch ends. */
  ghost predicate CompletionAsSent(sent: SentSlot, c: Completion)
  {
    match c.finish
    case Whole(bytes, _) =>
      bytes == SentBytes(sent, c.start, c.last + 1) && c.boundaries == SentEnds(sent, c.start, c.last + 1)
    case Salvaged(_, _, _, pieces, _) => PiecesAsSent(sent, pieces)
  }

  /** The bytes of every piece are those sent. */
  ghost predicate PiecesAsSent(sent: SentSlot, pieces: seq<Piece>)
  {
    forall k :: 0 <= k < |pieces| ==> pieces[k].bytes == SentBytes(sent, pieces[k].run.first, pieces[k].run.end)
  }

  ghost predicate AsSent(lib: ErasureLibrary, sent: SentSlot, s: State)
    requires SentSlotOk(lib, sent)
  {
    && (forall i :: i in s.pending ==> EntryAsSent(lib, sent, i, s.pending[i]))
    && (forall f :: f in s.fecSets ==> BufferAsSent(lib, sent, f, s.fecSets[f]))
    && (forall k :: 0 <= k < |s.log.completions| ==> CompletionAsSent(sent, s.log.completions[k]))
  }

  /** A data packet carrying a sent shred: any buffer that holds the sent bytes. */
  ghost predicate DataAsSent(lib: ErasureLibrary, sent: SentSlot, d: DataArrival)
    requires SentSlotOk(lib, sent)
  {
    var f := d.fecSetIndex;
    && Covers(sent, f, d.index)
    && SentSetOk(lib, sent[f], f) && SentShredOk(sent[f], f, d.index - f)
    && d.handle.bytes == sent[f].raws[d.index - f]
    && var shred := SentHeader(sent[f], d.index - f);
       && d.payloadEnd == DATA_HEADER_SIZE + |shred.payload|
       && d.batchComplete == shred.batchComplete && d.lastInSlot == shred.lastInSlot
  }

  /** A code packet carrying the code shard of its position. */
  ghost predicate CodeAsSent(lib: ErasureLibrary, sent: SentSlot, c: CodeArrival)
    requires SentSlotOk(lib, sent)
  {
    var f := c.fecSetIndex;
    && f in sent && SentSetOk(lib, sent[f], f) && WellSent(sent[f])
    && c.numData == |sent[f].raws| && c.numCoding == sent[f].numCoding > 0 && c.position < c.numCoding
    && c.variant == CodeMerkle(sent[f].proofSize, sent[f].resigned)
    && |lib.encode(c.numData, c.numCoding, SentData(sent[f]))| == c.numCoding
    && CodeShardSlice(c.coded, c.variant) == Some(lib.encode(c.numData, c.numCoding, SentData(sent[f]))[c.position])
  }

  ghost predicate EventAsSent(lib: ErasureLibrary, sent: SentSlot, e: Event)
    requires SentSlotOk(lib, sent)
  {
    match e
    case Data(_, d) => DataAsSent(lib, sent, d)
    case Code(_, c) => CodeAsSent(lib, sent, c)
  }

  lemma ArrivalAsSent(lib: ErasureLibrary, sent: SentSlot, d: DataArrival)
    requires SentSlotOk(lib, sent) && DataAsSent(lib, sent, d)
    ensures EntryAsSent(lib, sent, d.index, d.Entry())
  {
    hide SentSlotOk, ParseKind, Field;
    var raw := sent[d.fecSetIndex].raws[d.index - d.fecSetIndex];
    DataShredBounds(raw);
  }

  lemma RecoveredAsSent(lib: ErasureLibrary, sent: SentSlot, f: nat, p: nat)
    requires SentSlotOk(lib, sent) && f in sent && p < |sent[f].raws|
    requires SentSetOk(lib, sent[f], f) && WellSent(sent[f])
    ensures var r := RecoveredEntry(f, Framed(SentShard(sent[f], p)));
            r.Some? && EntryAsSent(lib, sent, f + p, r.value.0)
  {
    hide SentSlotOk, ParseKind, Field;
    assert SentShredOk(sent[f], f, p);
    var bytes := Framed(SentShard(sent[f], p));
    RecoveredParsesAsSent(sent[f], p);
    DataShredBounds(bytes);
    assert Covers(sent, f, f + p);
    ShardGeometry(sent[f].proofSize, sent[f].resigned);
  }

  // ---------- Preservation ----------

  lemma InsertAsSent(lib: ErasureLibrary, sent: SentSlot, now: nat, s: State, i: nat, ps: PendingShred)
    requires SentSlotOk(lib, sent) && AsSent(lib, sent, s) && EntryAsSent(lib, sent, i, ps)
    ensures AsSent(lib, sent, InsertEntry(now, s, i, ps))
  {
    hide EntryAsSent, BufferAsSent, CompletionAsSent, SentSlotOk;
  }

  lemma {:induction false} InsertAllAsSent(lib: ErasureLibrary, sent: SentSlot, now: nat, s: State,
    f: nat, rs: seq<Recovered>)
    requires SentSlotOk(lib, sent) && AsSent(lib, sent, s) && f in sent
    requires SentSetOk(lib, sent[f], f) && WellSent(sent[f])
    requires forall r :: r in rs ==> r.position < |sent[f].raws| && r.bytes == Framed(SentShard(sent[f], r.position))
    ensures AsSent(lib, sent, InsertAll(now, s, f, rs))
    decreases |rs|
  {
    hide EntryAsSent, BufferAsSent, CompletionAsSent, SentSlotOk, RecoveredEntry, InsertEntry, SentSetOk, WellSent;
    if rs != [] {
      assert rs[0] in rs;
      RecoveredAsSent(lib, sent, f, rs[0].position);
      InsertAsSent(lib, sent, now, s, f + rs[0].position, RecoveredEntry(f, rs[0].bytes).value.0);
      assert AsSent(lib, sent, s.(slotComplete := true));
      InsertAllAsSent(lib, sent, now, InsertRecovered(now, s, f, rs[0]), f, rs[1..]);
    }
  }

  lemma RefAsSent(lib: ErasureLibrary, sent: SentSlot, fec: FecSet, f: nat, p: nat, ps: PendingShred)
    requires SentSlotOk(lib, sent) && BufferAsSent(lib, sent, f, fec)
    requires EntryAsSent(lib, sent, f + p, ps) && ps.fecSetIndex == f
    ensures p < |sent[f].raws| && DataShard(fec, ps.source.Slice()) == Some(SentShard(sent[f], p))
  {
  }

  lemma RefsAsSent(lib: ErasureLibrary, sent: SentSlot, s: State, f: nat)
    requires SentSlotOk(lib, sent) && AsSent(lib, sent, s) && f in s.fecSets
    ensures BufferAsSent(lib, sent, f, s.fecSets[f])
    ensures WellSent(sent[f]) && DataFrom(s.fecSets[f], DataRefs(s, f, s.fecSets[f].numData), sent[f])
  {
    hide SentSlotOk, EntryAsSent, CodeFrom, SentSetOk, DataShard;
    var fec := s.fecSets[f];
    var refs := DataRefs(s, f, fec.numData);
    assert BufferAsSent(lib, sent, f, fec);
    forall p: nat | p in refs
      ensures p < |sent[f].raws| && DataShard(fec, refs[p]) == Some(SentShard(sent[f], p))
    {
      assert EntryAsSent(lib, sent, f + p, s.pending[f + p]);
      RefAsSent(lib, sent, fec, f, p, s.pending[f + p]);
    }
  }

  lemma FecFillAsSent(env: Env, sent: SentSlot, now: nat, s: State, hint: nat)
    requires SentSlotOk(env.lib, sent) && AsSent(env.lib, sent, s)
    ensures AsSent(env.lib, sent, FecFill(env, now, s, hint).state)
  {
    hide EntryAsSent, CompletionAsSent, SentSlotOk, SelectRecoverable, InsertAll, Reconstruct, DataRefs;
    var target := SelectRecoverable(s, hint);
    if target.Some? && target.value in s.fecSets && s.fecSets[target.value].numData != 0 {
      var f := target.value;
      RefsAsSent(env.lib, sent, s, f);
      var refs := DataRefs(s, f, s.fecSets[f].numData);
      ReconstructRestores(env.lib, s.fecSets[f], refs, sent[f]);
      var rs := Reconstruct(env.lib, s.fecSets[f], refs).value;
      InsertAllAsSent(env.lib, sent, now, s, f, rs);
      var s1 := InsertAll(now, s, f, rs);
      SpentAsSent(env.lib, sent, s1, f, SatAdd(s1.stats.recoveriesDone, 1, U64_MAX));
    }
  }

  lemma SpentAsSent(lib: ErasureLibrary, sent: SentSlot, s: State, f: nat, n: nat)
    requires SentSlotOk(lib, sent) && AsSent(lib, sent, s)
    ensures AsSent(lib, sent, s.(stats := s.stats.(recoveriesDone := n), fecSets := s.fecSets - {f}))
  {
    hide EntryAsSent, BufferAsSent, CompletionAsSent, SentSlotOk;
  }

  lemma {:induction false} FillAllAsSent(env: Env, sent: SentSlot, now: nat, s: State, hints: seq<nat>)
    requires SentSlotOk(env.lib, sent) && AsSent(env.lib, sent, s)
    ensures AsSent(env.lib, sent, FillAll(env, now, s, hints))
    decreases |hints|
  {
    hide AsSent, SentSlotOk, FecFill;
    if hints != [] {
      FecFillAsSent(env, sent, now, s, hints[0]);
      FillAllAsSent(env, sent, now, FecFill(env, now, s, hints[0]).state, hints[1..]);
    }
  }

  /** Only pending shreds, FEC sets and completed ranges are compared with what was sent. */
  lemma SameAsSent(lib: ErasureLibrary, sent: SentSlot, s: State, s': State)
    requires SentSlotOk(lib, sent) && AsSent(lib, sent, s)
    requires s'.pending == s.pending && s'.fecSets == s.fecSets && s'.log.completions == s.log.completions
    ensures AsSent(lib, sent, s')
  {
    hide EntryAsSent, BufferAsSent, CompletionAsSent, SentSlotOk;
  }

  lemma {:induction false} AdvanceKeepsShreds(env: Env, s: State)
    requires Bounded(s)
    ensures Advance(env, s).pending == s.pending && Advance(env, s).fecSets == s.fecSets
    ensures Advance(env, s).log.completions == s.log.completions
    ensures Advance(env, s).boundaries == s.boundaries && Advance(env, s).batchStart == s.batchStart
    ensures Advance(env, s).log.released == s.log.released && Advance(env, s).slotComplete == s.slotComplete
    decreases U32_MAX - s.cursor
  {
    hide Pushed, Emit, Bounded;
    if s.cursor in s.pending && s.pending[s.cursor].source.FromPool? {
      BoundedPayload(s, s.cursor);
      var ps := s.pending[s.cursor];
      var s1 := StreamOne(env, s, ps.Payload().value);
      StreamOneKeeps(env, s, ps.Payload().value);
      if Pushed(env.codec, s.decoder, ps.Payload().value).txs.Some? && !ps.batchComplete {
        AdvanceKeepsShreds(env, s1);
      }
    }
  }

  lemma BoundedPayload(s: State, i: nat)
    requires Bounded(s) && i in s.pending
    ensures i < U32_MAX && s.pending[i].Payload().Some?
    ensures forall env :: i == s.cursor ==> Bounded(StreamOne(env, s, s.pending[i].Payload().value))
  {
  }

  lemma StreamOneKeeps(env: Env, s: State, payload: seq<byte>)
    ensures var s1 := StreamOne(env, s, payload);
            && s1.pending == s.pending && s1.fecSets == s.fecSets && s1.boundaries == s.boundaries
            && s1.batchStart == s.batchStart && s1.log.completions == s.log.completions
            && s1.log.released == s.log.released && s1.slotComplete == s.slotComplete
  {
  }

  lemma {:induction false} ConcatAsSent(lib: ErasureLibrary, sent: SentSlot, pending: Pending, lo: nat, hi: nat)
    requires SentSlotOk(lib, sent) && AllPresent(pending, lo, hi)
    requires forall i :: i in pending ==> EntryAsSent(lib, sent, i, pending[i])
    ensures Concat(pending, lo, hi) == SentBytes(sent, lo, hi)
    decreases hi
  {
    hide EntryAsSent, SentSlotOk, SentPayload;
    if lo < hi {
      ConcatAsSent(lib, sent, pending, lo, hi - 1);
      PayloadAsSent(lib, sent, hi - 1, pending[hi - 1]);
    }
  }

  lemma PayloadAsSent(lib: ErasureLibrary, sent: SentSlot, i: nat, ps: PendingShred)
    requires SentSlotOk(lib, sent) && EntryAsSent(lib, sent, i, ps)
    ensures ps.Payload() == Some(SentPayload(sent, i))
  {
    assert Covers(sent, ps.fecSetIndex, i);
  }

  /** A pending entry as sent ends a batch exactly if the sent shred does. */
  lemma EndAsSent(lib: ErasureLibrary, sent: SentSlot, i: nat, ps: PendingShred)
    requires SentSlotOk(lib, sent) && EntryAsSent(lib, sent, i, ps)
    ensures ps.batchComplete <==> SentEnd(sent, i)
  {
    var f := ps.fecSetIndex;
    assert ps.batchComplete <==> EndIn(sent, f, i);
    if g: nat :| EndIn(sent, g, i) {
      assert Covers(sent, f, i) && Covers(sent, g, i);
    }
  }

  lemma BoundariesAsSent(lib: ErasureLibrary, sent: SentSlot, pending: Pending, lo: nat, hi: nat)
    requires SentSlotOk(lib, sent) && AllPresent(pending, lo, hi)
    requires forall i :: i in pending ==> EntryAsSent(lib, sent, i, pending[i])
    ensures BoundariesIn(pending, lo, hi) == SentEnds(sent, lo, hi)
  {
    hide SentSlotOk, EntryAsSent, SentEnd;
    forall i: nat | lo <= i < hi
      ensures i in BoundariesIn(pending, lo, hi) <==> SentEnd(sent, i)
    {
      EndAsSent(lib, sent, i, pending[i]);
    }
  }

  lemma CompleteAsSent(lib: ErasureLibrary, sent: SentSlot, s: State, bc: nat, finish: Finish)
    requires SentSlotOk(lib, sent) && AsSent(lib, sent, s)
    requires finish.Whole? ==>
               && finish.payload == SentBytes(sent, s.batchStart, bc + 1)
               && BoundariesIn(s.pending, s.batchStart, bc + 1) == SentEnds(sent, s.batchStart, bc + 1)
    requires finish.Salvaged? ==> PiecesAsSent(sent, finish.pieces)
    ensures AsSent(lib, sent, Complete(s, bc, finish))
  {
    hide EntryAsSent, BufferAsSent, SentSlotOk, SentEnds, BoundariesIn, SentBytes, PiecesAsSent;
    var cs := Complete(s, bc, finish).log.completions;
    forall k | 0 <= k < |cs|
      ensures CompletionAsSent(sent, cs[k])
    {
      if k < |s.log.completions| { assert cs[k] == s.log.completions[k]; }
    }
  }

  lemma FinishWholeAsSent(env: Env, sent: SentSlot, s: State, bc: nat)
    requires SentSlotOk(env.lib, sent) && AsSent(env.lib, sent, s) && AllPresent(s.pending, s.batchStart, bc + 1)
    ensures AsSent(env.lib, sent, FinishWhole(env, s, bc))
  {
    hide Emit, Complete, DecodeBatch, SentSlotOk, AsSent, EntryAsSent, SentEnds, BoundariesIn;
    var bytes := Concat(s.pending, s.batchStart, bc + 1);
    PendingAsSent(env.lib, sent, s);
    ConcatAsSent(env.lib, sent, s.pending, s.batchStart, bc + 1);
    BoundariesAsSent(env.lib, sent, s.pending, s.batchStart, bc + 1);
    match DecodeBatch(env.codec, bytes)
    case Some(txs) =>
      EmitKeeps(s, txs);
      var s1 := if Fresh(s.yielded, txs) != [] then CountFallback(Emit(s, txs)) else CountStreaming(Emit(s, txs));
      SameAsSent(env.lib, sent, s, s1);
      CompleteAsSent(env.lib, sent, s1, bc, Whole(bytes, s.log.emitted));
    case None =>
      var s1 := CountSkipped(CountDecodeError(s));
      SameAsSent(env.lib, sent, s, s1);
      CompleteAsSent(env.lib, sent, s1, bc, Whole(bytes, s.log.emitted));
  }

  lemma PendingAsSent(lib: ErasureLibrary, sent: SentSlot, s: State)
    requires SentSlotOk(lib, sent) && AsSent(lib, sent, s)
    ensures forall i :: i in s.pending ==> EntryAsSent(lib, sent, i, s.pending[i])
  {
  }

  lemma FinishSalvagedAsSent(env: Env, sent: SentSlot, s: State, bc: nat, timedOut: bool)
    requires SentSlotOk(env.lib, sent) && AsSent(env.lib, sent, s)
    ensures AsSent(env.lib, sent, FinishSalvaged(env, s, bc, timedOut))
  {
    hide Emit, Complete, SentSlotOk, AsSent, RunsTxs, PiecesAsSent, EntryAsSent, Runs;
    PendingAsSent(env.lib, sent, s);
    RunsAreSent(env.lib, sent, s.pending, s.batchStart, bc + 1);
    EmitKeeps(s, RunsTxs(env, s.pending, Runs(s.pending.Keys, s.batchStart, bc + 1)));
    var s1 := Salvage(env, s, s.batchStart, bc);
    var s2 := if |s1.log.emitted| > |s.log.emitted| then CountFallback(s1) else CountSkipped(s1);
    var s3 := if timedOut then CountTimeout(s2) else s2;
    SameAsSent(env.lib, sent, s, s3);
    CompleteAsSent(env.lib, sent, s3, bc, SalvagedFrom(s, bc, timedOut));
  }

  lemma RunsAreSent(lib: ErasureLibrary, sent: SentSlot, pending: Pending, lo: nat, hi: nat)
    requires SentSlotOk(lib, sent) && forall i :: i in pending ==> EntryAsSent(lib, sent, i, pending[i])
    ensures PiecesAsSent(sent, Pieces(pending, Runs(pending.Keys, lo, hi)))
  {
    hide SentSlotOk, EntryAsSent, PiecesAsSent, Runs;
    RunsAreMaximal(pending.Keys, lo, hi);
    SolidIsSent(lib, sent, pending, Runs(pending.Keys, lo, hi));
  }

  lemma {:induction false} SolidIsSent(lib: ErasureLibrary, sent: SentSlot, pending: Pending, runs: seq<Run>)
    requires SentSlotOk(lib, sent) && forall i :: i in pending ==> EntryAsSent(lib, sent, i, pending[i])
    requires forall k :: 0 <= k < |runs| ==> Solid(pending.Keys, runs[k].first, runs[k].end)
    ensures PiecesAsSent(sent, Pieces(pending, runs))
  {
    hide SentSlotOk, EntryAsSent, Concat, SentBytes;
    if runs != [] {
      SolidIsSent(lib, sent, pending, runs[1..]);
      ConcatAsSent(lib, sent, pending, runs[0].first, runs[0].end);
      var all, rest := Pieces(pending, runs), Pieces(pending, runs[1..]);
      forall k | 0 <= k < |all|
        ensures all[k].bytes == SentBytes(sent, all[k].run.first, all[k].run.end)
      {
        if k > 0 { assert all[k] == rest[k - 1]; }
      }
    }
  }

  lemma TurnAsSent(env: Env, sent: SentSlot, now: nat, s: State, bc: nat, firstSeen: nat)
    requires SentSlotOk(env.lib, sent) && AsSent(env.lib, sent, s) && Bounded(s)
    ensures AsSent(env.lib, sent, Refilled(env, now, s, bc))
    ensures FlushTurn(env, now, s, bc, firstSeen).FinishNow? ==>
              AsSent(env.lib, sent, FlushTurn(env, now, s, bc, firstSeen).state)
  {
    hide AsSent, SentSlotOk, FillAll, FinishWhole, FinishSalvaged, Bounded;
    FillAllAsSent(env, sent, now, s, Hints(s, bc));
    FillAllBounded(env, now, s, Hints(s, bc));
    var s1 := Refilled(env, now, s, bc);
    if AllPresent(s1.pending, s.batchStart, bc + 1) {
      FinishWholeAsSent(env, sent, s1, bc);
    }
    FinishSalvagedAsSent(env, sent, s1, bc, true);
  }

  lemma {:induction false} FlushAsSent(env: Env, sent: SentSlot, now: nat, s: State)
    requires SentSlotOk(env.lib, sent) && AsSent(env.lib, sent, s) && Bounded(s)
    ensures AsSent(env.lib, sent, Flush(env, now, s))
    decreases U32_MAX - s.batchStart
  {
    hide AsSent, SentSlotOk, FlushTurn, Refilled, Bounded;
    if BoundariesFrom(s) != {} {
      var bc := Least(BoundariesFrom(s));
      BoundaryBounded(s, bc);
      FlushTurnBounded(env, now, s, bc, s.boundaries[bc]);
      TurnAsSent(env, sent, now, s, bc, s.boundaries[bc]);
      match FlushTurn(env, now, s, bc, s.boundaries[bc])
      case Stop =>
      case FinishNow(s1) => FlushAsSent(env, sent, now, s1);
    }
  }

  lemma BoundaryBounded(s: State, bc: nat)
    requires Bounded(s) && bc in s.boundaries
    ensures bc < U32_MAX
  {
  }

  lemma RecordAsSent(env: Env, sent: SentSlot, s: State, c: CodeArrival)
    requires SentSlotOk(env.lib, sent) && AsSent(env.lib, sent, s) && CodeAsSent(env.lib, sent, c)
    ensures AsSent(env.lib, sent, Recorded(env, s, c))
  {
    hide EntryAsSent, CompletionAsSent, SentSlotOk, SentSetOk;
    var s' := Recorded(env, s, c);
    forall f | f in s'.fecSets
      ensures BufferAsSent(env.lib, sent, f, s'.fecSets[f])
    {
      if f == c.fecSetIndex {
        var before := if f in s.fecSets then s.fecSets[f] else NewFecSet(f);
        SetWellSent(env.lib, sent[f], f);
        RecordCodeAsSent(env.lib, sent[f], before, c.position, c.coded, f in s.fecSets);
      } else {
        assert f in s.fecSets && s'.fecSets[f] == s.fecSets[f];
      }
    }
  }

  lemma RecordCodeAsSent(lib: ErasureLibrary, sent: SentSet, before: FecSet, position: nat,
    coded: seq<byte>, known: bool)
    requires WellSent(sent) && 0 < sent.numCoding && position < sent.numCoding
    requires |lib.encode(|sent.raws|, sent.numCoding, SentData(sent))| == sent.numCoding
    requires if known then CodeFrom(lib, before, sent) && CodeWhole(before) else before == NewFecSet(before.fecSetIndex)
    requires CodeShardSlice(coded, CodeMerkle(sent.proofSize, sent.resigned))
          == Some(lib.encode(|sent.raws|, sent.numCoding, SentData(sent))[position])
    requires |lib.encode(|sent.raws|, sent.numCoding, SentData(sent))[position]|
          == ShardSize(sent.proofSize, sent.resigned)
    ensures var after := RecordCode(before, position, |sent.raws|, sent.numCoding, coded,
                                    CodeMerkle(sent.proofSize, sent.resigned));
            CodeFrom(lib, after, sent) && CodeWhole(after)
  {
  }

  lemma StepAsSent(env: Env, sent: SentSlot, s: State, e: Event)
    requires SentSlotOk(env.lib, sent) && AsSent(env.lib, sent, s) && EventAsSent(env.lib, sent, e)
    requires Bounded(s) && EventOk(e)
    ensures AsSent(env.lib, sent, Step(env, s, e))
  {
    hide AsSent, SentSlotOk, Flush, FecFill, Advance, Bounded, Recorded, DataAsSent, CodeAsSent, InsertEntry;
    match e
    case Data(now, d) =>
      if d.lastInSlot {
        var s1 := s.(slotComplete := true);
        FlagKeepsBounded(s);
        SameAsSent(env.lib, sent, s, s1);
        FlushAsSent(env, sent, now, s1);
        SameAsSent(env.lib, sent, Flush(env, now, s1), Release(Flush(env, now, s1), d.handle.idx));
      } else if d.index < s.batchStart || d.index in s.pending {
        SameAsSent(env.lib, sent, s, Release(s, d.handle.idx));
      } else {
        StreamedAsSent(env, sent, now, s, d);
        FlushAsSent(env, sent, now, Streamed(env, now, s, d));
      }
    case Code(now, c) =>
      RecordAsSent(env, sent, s, c);
      RecordedBounded(env, s, c);
      var s1 := Recorded(env, s, c);
      FecFillAsSent(env, sent, now, s1, c.fecSetIndex);
      FecFillBounded(env, now, s1, c.fecSetIndex);
      var s2 := FecFill(env, now, s1, c.fecSetIndex).state;
      AdvanceKeepsShreds(env, s2);
      SameAsSent(env.lib, sent, s2, Advance(env, s2));
      FlushAsSent(env, sent, now, s2);
      FlushAsSent(env, sent, now, Advance(env, s2));
  }

  lemma FecFillLog(env: Env, now: nat, s: State, hint: nat)
    ensures FecFill(env, now, s, hint).state.log == s.log && FecFill(env, now, s, hint).state.batchStart == s.batchStart
  {
    hide Reconstruct, SelectRecoverable, InsertAll;
    var target := SelectRecoverable(s, hint);
    if target.Some? && target.value in s.fecSets {
      var r := Reconstruct(env.lib, s.fecSets[target.value],
        DataRefs(s, target.value, s.fecSets[target.value].numData));
      if r.Some? {
        InsertAllLog(now, s, target.value, r.value);
      }
    }
  }

  lemma {:induction false} InsertAllLog(now: nat, s: State, f: nat, rs: seq<Recovered>)
    ensures InsertAll(now, s, f, rs).log == s.log && InsertAll(now, s, f, rs).batchStart == s.batchStart
    decreases |rs|
  {
    hide RecoveredEntry;
    if rs != [] {
      InsertAllLog(now, InsertRecovered(now, s, f, rs[0]), f, rs[1..]);
    }
  }

  lemma RecordedSame(env: Env, s: State, c: CodeArrival)
    ensures var s1 := Recorded(env, s, c);
            s1.pending == s.pending && s1.boundaries == s.boundaries && s1.batchStart == s.batchStart
              && s1.cursor == s.cursor
  {
  }

  lemma RecordedLog(env: Env, s: State, c: CodeArrival)
    ensures Recorded(env, s, c).log == s.log
  {
  }

  lemma FlagKeepsBounded(s: State)
    requires Bounded(s)
    ensures Bounded(s.(slotComplete := true))
  {
  }

  lemma StreamedAsSent(env: Env, sent: SentSlot, now: nat, s: State, d: DataArrival)
    requires SentSlotOk(env.lib, sent) && AsSent(env.lib, sent, s) && DataAsSent(env.lib, sent, d)
    requires Bounded(s) && DataOk(d)
    ensures AsSent(env.lib, sent, Streamed(env, now, s, d))
  {
    hide AsSent, SentSlotOk, FecFill, Advance, Bounded, DataAsSent, InsertEntry;
    ArrivalAsSent(env.lib, sent, d);
    InsertAsSent(env.lib, sent, now, s, d.index, d.Entry());
    InsertBounded'(now, s, d);
    var s1 := InsertEntry(now, s, d.index, d.Entry());
    AdvanceKeepsShreds(env, s1);
    var s2 := Advance(env, s1);
    SameAsSent(env.lib, sent, s1, s2);
    FecFillAsSent(env, sent, now, s2, d.fecSetIndex);
    FecFillBounded(env, now, s2, d.fecSetIndex);
    var s3 := FecFill(env, now, s2, d.fecSetIndex).state;
    AdvanceKeepsShreds(env, s3);
    SameAsSent(env.lib, sent, s3, Advance(env, s3));
  }

  lemma {:induction false} AlwaysAsSent(env: Env, sent: SentSlot, events: Events)
    requires SentSlotOk(env.lib, sent) && EventsOk(events)
    requires forall i :: 0 <= i < |events| ==> EventAsSent(env.lib, sent, events[i])
    ensures AsSent(env.lib, sent, After(env, events))
    decreases |events|
  {
    hide Step, SentSlotOk;
    if events != [] {
      var n := |events| - 1;
      AlwaysAsSent(env, sent, events[..n]);
      assert EventAsSent(env.lib, sent, events[n]);
      StepAsSent(env, sent, After(env, events[..n]), events[n]);
    }
  }

  /** Whatever is lost, repeated, reordered or rebuilt, a range completed whole delivered exactly the
      transactions that the sent bytes of that range decode to, once each and in order. */
  lemma RecoveryIsInvisible(env: Env, sent: SentSlot, events: Events, s: State, c: Completion)
    requires Reaches(env, events, s) && c in s.log.completions
    requires SentSlotOk(env.lib, sent)
    requires forall i :: 0 <= i < |events| ==> EventAsSent(env.lib, sent, events[i])
    ensures c.finish.Whole? ==>
              && c.finish.payload == SentBytes(sent, c.start, c.last + 1)
              && (DecodeBatch(env.codec, SentBytes(sent, c.start, c.last + 1)).Some? ==>
                    c.emitted == FirstOccurrences(DecodeBatch(env.codec, SentBytes(sent, c.start, c.last + 1)).value))
  {
    hide Reaches, AsSent, Shape, Tracks, Ledger, Accounted, NothingReady, SentSlotOk, After, EventAsSent,
      DecodeBatch, FirstOccurrences;
    ReachesAfter(env, events, s);
    AlwaysAsSent(env, sent, events);
    AlwaysRests(env, events);
    CompletedAsSent(env, sent, s, c);
  }

  /** Of a range given up with gaps the bytes of every run salvaged are those sent. */
  lemma SalvageIsAsSent(env: Env, sent: SentSlot, events: Events, s: State, c: Completion)
    requires Reaches(env, events, s) && c in s.log.completions && c.finish.Salvaged?
    requires SentSlotOk(env.lib, sent)
    requires forall i :: 0 <= i < |events| ==> EventAsSent(env.lib, sent, events[i])
    ensures PiecesAsSent(sent, c.finish.pieces)
  {
    hide Reaches, SentSlotOk, After, EventAsSent, EntryAsSent, BufferAsSent, PiecesAsSent;
    ReachesAfter(env, events, s);
    AlwaysAsSent(env, sent, events);
    assert CompletionAsSent(sent, c);
  }

  /** The same of what is still pending: received or rebuilt, every entry is the sent one. */
  lemma PendingIsAsSent(env: Env, sent: SentSlot, events: Events, s: State, i: nat)
    requires Reaches(env, events, s) && i in s.pending
    requires SentSlotOk(env.lib, sent)
    requires forall k :: 0 <= k < |events| ==> EventAsSent(env.lib, sent, events[k])
    ensures EntryAsSent(env.lib, sent, i, s.pending[i])
    ensures s.pending[i].Payload() == Some(SentPayload(sent, i))
  {
    hide Reaches, AsSent, SentSlotOk, After, EventAsSent, EntryAsSent;
    ReachesAfter(env, events, s);
    AlwaysAsSent(env, sent, events);
    PendingAsSent(env.lib, sent, s);
    PayloadAsSent(env.lib, sent, i, s.pending[i]);
  }

  lemma CompletedAsSent(env: Env, sent: SentSlot, s: State, c: Completion)
    requires SentSlotOk(env.lib, sent) && AsSent(env.lib, sent, s) && Ledger(env, s)
    requires c in s.log.completions
    ensures c.finish.Whole? ==>
              && c.finish.payload == SentBytes(sent, c.start, c.last + 1)
              && (DecodeBatch(env.codec, SentBytes(sent, c.start, c.last + 1)).Some? ==>
                    c.emitted == FirstOccurrences(DecodeBatch(env.codec, SentBytes(sent, c.start, c.last + 1)).value))
  {
    hide EntryAsSent, BufferAsSent, SentSlotOk, DecodeBatch, Dedup, FirstOccurrences;
    assert CompletionAsSent(sent, c);
    assert CompletionOk(env, c);
    if c.finish.Whole? && DecodeBatch(env.codec, c.finish.payload).Some? {
      DedupIsFirstOccurrences(DecodeBatch(env.codec, c.finish.payload).value);
    }
  }

  // ---------- The harvest ----------

  lemma {:induction false} HarvestBatchesAsSent(env: Env, sent: SentSlot, s: State, bcs: seq<nat>)
    requires SentSlotOk(env.lib, sent) && AsSent(env.lib, sent, s)
    ensures AsSent(env.lib, sent, HarvestBatches(env, s, bcs))
    decreases |bcs|
  {
    hide AsSent, SentSlotOk, FinishWhole, FinishSalvaged;
    if bcs != [] {
      if bcs[0] < s.batchStart {
        HarvestBatchesAsSent(env, sent, s, bcs[1..]);
      } else if AllPresent(s.pending, s.batchStart, bcs[0] + 1) {
        FinishWholeAsSent(env, sent, s, bcs[0]);
        HarvestBatchesAsSent(env, sent, FinishWhole(env, s, bcs[0]), bcs[1..]);
      } else {
        FinishSalvagedAsSent(env, sent, s, bcs[0], false);
        HarvestBatchesAsSent(env, sent, FinishSalvaged(env, s, bcs[0], false), bcs[1..]);
      }
    }
  }

  lemma HarvestAsSent(env: Env, sent: SentSlot, now: nat, s: State)
    requires SentSlotOk(env.lib, sent) && AsSent(env.lib, sent, s)
    ensures AsSent(env.lib, sent, Harvest(env, now, s))
  {
    hide AsSent, SentSlotOk, FillAll, HarvestBatches, Emit, RunsTxs, Runs, HarvestBoundaries;
    var s1 := FillAll(env, now, s, Sorted(s.fecSets.Keys));
    FillAllAsSent(env, sent, now, s, Sorted(s.fecSets.Keys));
    HarvestBatchesAsSent(env, sent, s1, HarvestBoundaries(s1));
    var s2 := HarvestBatches(env, s1, HarvestBoundaries(s1));
    var tail := RunsTxs(env, s2.pending, Runs(s2.pending.Keys, 0, U32_MAX));
    EmitKeeps(s2, tail);
    SameAsSent(env.lib, sent, s2, Harvest(env, now, s));
  }

  /** Recovery is invisible to the end: the ranges that the harvest of an ending slot completes whole,
      too, have the sent bytes and have delivered what these decode to. */
  lemma HarvestIsAsSent(env: Env, sent: SentSlot, events: Events, s: State, now: nat, c: Completion)
    requires Reaches(env, events, s) && SentSlotOk(env.lib, sent)
    requires forall i :: 0 <= i < |events| ==> EventAsSent(env.lib, sent, events[i])
    requires c in Harvest(env, now, s).log.completions
    ensures c.finish.Whole? ==>
              && c.finish.payload == SentBytes(sent, c.start, c.last + 1)
              && (DecodeBatch(env.codec, SentBytes(sent, c.start, c.last + 1)).Some? ==>
                    c.emitted == FirstOccurrences(DecodeBatch(env.codec, SentBytes(sent, c.start, c.last + 1)).value))
  {
    hide Reaches, AsSent, Shape, Tracks, Ledger, Accounted, NothingReady, SentSlotOk, After, EventAsSent,
      DecodeBatch, FirstOccurrences, Harvest;
    ReachesAfter(env, events, s);
    AlwaysAsSent(env, sent, events);
    AlwaysRests(env, events);
    HarvestAsSent(env, sent, now, s);
    HarvestCloses(env, now, s);
    CompletedAsSent(env, sent, Harvest(env, now, s), c);
  }
}
