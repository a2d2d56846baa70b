/** A run in which one completed range holds two batches. The flush loop picks the least known batch
    end and then refills; recovery can supply a smaller batch end, but the choice stands. */
module Stale {
  import opened Bytes
  import opened Collections
  import opened Variant
  import opened Parser
  import opened Codec
  import opened Decoder
  import opened Streaming
  import opened Erasure
  import opened Fec
  import opened Slot
  import opened Invariant
  import opened Lifetime
  import opened Reachable
  import opened Recovery
  import opened Delivery
  import opened Emission
  import opened Order

  /** Whole-batch decoding of two joined batches reads the first and ignores the second. */
  lemma JoinedBatchesLoseTheSecond(c: EntryCodec, first: seq<byte>, second: seq<byte>)
    requires DecodeBatch(c, first).Some?
    ensures DecodeBatch(c, first + second) == DecodeBatch(c, first)
  {
    PrefixTestIsExact(c, first);
    BatchExtends(c, first, ParseVec(c, first).value, second);
    assert (first + second)[..8] == first[..8];
    PrefixTestIsExact(c, first + second);
  }

  // ---------- Two batches in one FEC set ----------

  /** Shreds 0..3 and 4..7 are two batches of one FEC set of eight; none is the last of the slot. */
  ghost predicate TwoBatches(lib: ErasureLibrary, sent: SentSlot)
  {
    && SentSlotOk(lib, sent) && 0 in sent && |sent[0].raws| == 8 && sent[0].numCoding == 1
    && forall p :: 0 <= p < 8 ==>
         && SentShredOk(sent[0], 0, p)
         && (SentHeader(sent[0], p).batchComplete <==> p == 3 || p == 7)
         && !SentHeader(sent[0], p).lastInSlot
  }

  ghost function ShredAt(lib: ErasureLibrary, sent: SentSlot, p: nat): DataArrival
    requires TwoBatches(lib, sent) && p < 8
  {
    assert SentShredOk(sent[0], 0, p);
    var d := SentHeader(sent[0], p);
    DataArrival(p, 0, Handle(p, sent[0].raws[p]), DATA_HEADER_SIZE + |d.payload|, d.batchComplete, false)
  }

  ghost function ParityCode(lib: ErasureLibrary, sent: SentSlot): CodeArrival
    requires TwoBatches(lib, sent)
  {
    SetWellSent(lib, sent[0], 0);
    CodeArrival(0, 8, 1, 0, seq(SIZE_OF_CODING_SHRED_HEADERS, _ => 0) + lib.encode(8, 1, SentData(sent[0]))[0],
                CodeMerkle(sent[0].proofSize, sent[0].resigned))
  }

  lemma ArrivalsOk(lib: ErasureLibrary, sent: SentSlot, p: nat)
    requires TwoBatches(lib, sent) && p < 8
    ensures var d := ShredAt(lib, sent, p);
            && DataOk(d) && DataAsSent(lib, sent, d) && d.index == p && !d.lastInSlot
            && (d.batchComplete <==> p == 3 || p == 7)
  {
    assert SentShredOk(sent[0], 0, p);
    assert Covers(sent, 0, p);
    assert SentSetOk(lib, sent[0], 0);
    DataShredBounds(sent[0].raws[p]);
  }

  lemma CodeOkHere(lib: ErasureLibrary, sent: SentSlot)
    requires TwoBatches(lib, sent)
    ensures CodeOk(ParityCode(lib, sent)) && CodeAsSent(lib, sent, ParityCode(lib, sent))
  {
    assert SentSetOk(lib, sent[0], 0);
    SetWellSent(lib, sent[0], 0);
    assert EncodesAt(lib, 8, 1, SentData(sent[0]), ShardSize(sent[0].proofSize, sent[0].resigned));
    var shard := lib.encode(8, 1, SentData(sent[0]))[0];
    var coded := ParityCode(lib, sent).coded;
    assert coded[SIZE_OF_CODING_SHRED_HEADERS..SIZE_OF_CODING_SHRED_HEADERS + |shard|] == shard;
  }

  // ---------- Shreds that wait ----------

  /** The shreds inserted one after another, nothing else happening. */
  function Inserted(now: nat, ds: seq<DataArrival>): State
    decreases |ds|
  {
    if ds == [] then NEW_SLOT
    else
      var n := |ds| - 1;
      InsertEntry(now, Inserted(now, ds[..n]), ds[n].index, ds[n].Entry())
  }

  lemma {:induction false} InsertedIs(now: nat, ds: seq<DataArrival>)
    requires forall j, k :: 0 <= j < k < |ds| ==> ds[j].index != ds[k].index
    ensures var s := Inserted(now, ds);
            && s == NEW_SLOT.(pending := s.pending, boundaries := s.boundaries)
            && (forall k :: 0 <= k < |ds| ==> ds[k].index in s.pending && s.pending[ds[k].index] == ds[k].Entry())
            && (forall i :: i in s.pending ==> exists k :: 0 <= k < |ds| && ds[k].index == i)
            && (forall b :: b in s.boundaries ==> s.boundaries[b] == now)
    decreases |ds|
  {
    if ds != [] {
      var n := |ds| - 1;
      InsertedIs(now, ds[..n]);
      var t := Inserted(now, ds[..n]);
      forall k | 0 <= k < n
        ensures ds[k].index in t.pending && t.pending[ds[k].index] == ds[k].Entry()
      {
        assert ds[..n][k] == ds[k];
      }
    }
  }

  function DataEvents(now: nat, ds: seq<DataArrival>): Events
  {
    seq(|ds|, k requires 0 <= k < |ds| => Event.Data(now, ds[k]))
  }

  /** While the first shred of the window is missing, a shred that arrives only waits. */
  lemma Waits(env: Env, now: nat, s: State, d: DataArrival)
    requires Bounded(s) && DataOk(d) && !d.lastInSlot && env.timeout > 0
    requires s.cursor == s.batchStart < d.index && s.cursor !in s.pending && d.index !in s.pending
    requires s.fecSets == map[] && forall b :: b in s.boundaries ==> s.boundaries[b] == now
    ensures PushData(env, now, s, d) == InsertEntry(now, s, d.index, d.Entry())
  {
    var s1 := InsertEntry(now, s, d.index, d.Entry());
    InsertBounded'(now, s, d);
    assert Advance(env, s1) == s1;
    NoSetsToFill(env, now, s1, d.fecSetIndex);
    assert Streamed(env, now, s, d) == s1;
    if BoundariesFrom(s1) != {} {
      var bc := Least(BoundariesFrom(s1));
      NoHints(env, now, s1, bc);
      assert s1.batchStart !in s1.pending;
      assert !AllPresent(s1.pending, s1.batchStart, bc + 1);
    }
    assert Flush(env, now, s1) == s1;
  }

  lemma DataEventsStep(now: nat, ds: seq<DataArrival>)
    requires ds != []
    ensures var n := |ds| - 1;
            && |DataEvents(now, ds)| == n + 1
            && DataEvents(now, ds)[..n] == DataEvents(now, ds[..n])
            && DataEvents(now, ds)[n] == Event.Data(now, ds[n])
  {
  }

  lemma {:induction false} AllWait(env: Env, now: nat, ds: seq<DataArrival>)
    requires env.timeout > 0
    requires forall k :: 0 <= k < |ds| ==> DataOk(ds[k]) && !ds[k].lastInSlot && ds[k].index > 0
    requires forall j, k :: 0 <= j < k < |ds| ==> ds[j].index != ds[k].index
    ensures EventsOk(DataEvents(now, ds))
    ensures After(env, DataEvents(now, ds)) == Inserted(now, ds)
    decreases |ds|
  {
    hide DataEvents, DataOk, InsertEntry, PushData, Bounded;
    if ds == [] {
      assert DataEvents(now, ds) == [] by { NoDataEvents(now); }
    } else {
      var n := |ds| - 1;
      var init := ds[..n];
      AllWait(env, now, init);
      InsertedIs(now, init);
      DataEventsStep(now, ds);
      EventsOkLast(DataEvents(now, ds));
      assert forall k :: 0 <= k < n ==> init[k] == ds[k];
      Waits(env, now, After(env, DataEvents(now, init)), ds[n]);
    }
  }

  lemma EventsOkLast(events: Events)
    requires events != [] && EventsOk(events[..|events| - 1]) && EventOk(events[|events| - 1])
    ensures EventsOk(events)
  {
    forall k | 0 <= k < |events|
      ensures EventOk(events[k])
    {
      if k < |events| - 1 { assert events[..|events| - 1][k] == events[k]; }
    }
  }

  lemma NoDataEvents(now: nat)
    ensures DataEvents(now, []) == []
  {
  }

  /** With too few shards nothing is recovered, whatever set is hinted. */
  lemma NothingRecoverable(env: Env, now: nat, s: State, hint: nat)
    requires forall f :: !Recoverable(s, f)
    ensures FecFill(env, now, s, hint) == Fill(s, false)
  {
  }

  lemma {:induction false} NothingFilled(env: Env, now: nat, s: State, hints: seq<nat>)
    requires forall f :: !Recoverable(s, f)
    ensures FillAll(env, now, s, hints) == s
    decreases |hints|
  {
    if hints != [] {
      NothingRecoverable(env, now, s, hints[0]);
      NothingFilled(env, now, s, hints[1..]);
    }
  }

  lemma CodeWaits(env: Env, now: nat, s: State, c: CodeArrival)
    requires Bounded(s) && CodeOk(c) && env.timeout > 0
    requires s.batchStart !in s.pending && forall b :: b in s.boundaries ==> s.boundaries[b] == now
    requires forall f :: !Recoverable(Recorded(env, s, c), f)
    ensures PushCode(env, now, s, c) == Recorded(env, s, c)
  {
    var s1 := Recorded(env, s, c);
    RecordedBounded(env, s, c);
    RecordedSame(env, s, c);
    NothingRecoverable(env, now, s1, c.fecSetIndex);
    if BoundariesFrom(s1) != {} {
      var bc := Least(BoundariesFrom(s1));
      NothingFilled(env, now, s1, Hints(s1, bc));
      assert !AllPresent(s1.pending, s1.batchStart, bc + 1);
    }
    assert Flush(env, now, s1) == s1;
  }

  // ---------- The run ----------

  const EARLY: set<nat> := {1, 2, 4, 5, 6, 7}
  const EARLY_LIST: seq<nat> := [1, 2, 4, 5, 6, 7]

  /** 1, 2, 4, 5, 6, 7 and the parity shred, then 0. */
  ghost function EarlyShreds(lib: ErasureLibrary, sent: SentSlot): seq<DataArrival>
    requires TwoBatches(lib, sent)
  {
    seq(6, (k: nat) requires k < 6 => ShredAt(lib, sent, EARLY_LIST[k]))
  }

  ghost function StaleRun(lib: ErasureLibrary, sent: SentSlot, now: nat): Events
    requires TwoBatches(lib, sent)
  {
    DataEvents(now, EarlyShreds(lib, sent))
      + [Event.Code(now, ParityCode(lib, sent))]
      + [Event.Data(now, ShredAt(lib, sent, 0))]
  }

  /** What is there before shred 0 arrives. */
  ghost predicate Waiting(lib: ErasureLibrary, sent: SentSlot, now: nat, s: State)
    requires TwoBatches(lib, sent)
  {
    && s.pending.Keys == EARLY
    && SentSlotOk(lib, sent) && AsSent(lib, sent, s)
    && s.batchStart == s.cursor == 0
    && (forall b :: b in s.boundaries ==> s.boundaries[b] == now)
    && s.log == NO_LOG
  }

  lemma EarlyIndices(lib: ErasureLibrary, sent: SentSlot)
    requires TwoBatches(lib, sent)
    ensures var ds := EarlyShreds(lib, sent);
            && |ds| == 6
            && (forall k :: 0 <= k < 6 ==> ds[k] == ShredAt(lib, sent, EARLY_LIST[k]))
            && (forall k :: 0 <= k < 6 ==> ds[k].index == EARLY_LIST[k] && DataOk(ds[k]) && !ds[k].lastInSlot)
  {
    hide TwoBatches, ShredAt, DataOk, DataAsSent;
    forall k | 0 <= k < 6
      ensures ShredAt(lib, sent, EARLY_LIST[k]).index == EARLY_LIST[k] && DataOk(ShredAt(lib, sent, EARLY_LIST[k]))
      ensures !ShredAt(lib, sent, EARLY_LIST[k]).lastInSlot
    {
      ArrivalsOk(lib, sent, EARLY_LIST[k]);
    }
  }

  lemma EarlyWaits(env: Env, sent: SentSlot, now: nat)
    requires TwoBatches(env.lib, sent) && env.timeout > 0
    ensures EventsOk(DataEvents(now, EarlyShreds(env.lib, sent)))
    ensures Waiting(env.lib, sent, now, After(env, DataEvents(now, EarlyShreds(env.lib, sent))))
    ensures After(env, DataEvents(now, EarlyShreds(env.lib, sent))).fecSets == map[]
  {
    hide TwoBatches, ShredAt, EarlyShreds, DataOk, After, Inserted, EventsOk, SentSlotOk, AsSent, DataAsSent;
    var ds := EarlyShreds(env.lib, sent);
    EarlyIndices(env.lib, sent);
    AllWait(env, now, ds);
    InsertedIs(now, ds);
    ListedKeys(ds, Inserted(now, ds).pending, EARLY_LIST);
    EarlyListed(Inserted(now, ds).pending);
    EarlyAsSent(env.lib, sent, now);
    AlwaysAsSent(env, sent, DataEvents(now, ds));
  }

  lemma EarlyAsSent(lib: ErasureLibrary, sent: SentSlot, now: nat)
    requires TwoBatches(lib, sent)
    ensures SentSlotOk(lib, sent)
    ensures var events := DataEvents(now, EarlyShreds(lib, sent));
            forall k :: 0 <= k < |events| ==> EventAsSent(lib, sent, events[k])
  {
    hide TwoBatches, ShredAt, EarlyShreds, DataAsSent, SentSlotOk, DataOk;
    TwoBatchesSlot(lib, sent);
    EarlyIndices(lib, sent);
    var events := DataEvents(now, EarlyShreds(lib, sent));
    forall k | 0 <= k < |events|
      ensures EventAsSent(lib, sent, events[k])
    {
      ArrivalsOk(lib, sent, EARLY_LIST[k]);
    }
  }

  lemma EarlyListed(pending: Pending)
    requires forall i :: i in pending <==> i in EARLY_LIST
    ensures pending.Keys == EARLY
  {
  }

  lemma ListedKeys(ds: seq<DataArrival>, pending: Pending, indices: seq<nat>)
    requires |ds| == |indices| && forall k :: 0 <= k < |ds| ==> ds[k].index == indices[k]
    requires forall k :: 0 <= k < |ds| ==> ds[k].index in pending
    requires forall i :: i in pending ==> exists k :: 0 <= k < |ds| && ds[k].index == i
    ensures forall i :: i in pending <==> i in indices
  {
  }

  lemma CountWithSet(s: State, fecIndex: nat, numData: nat, keys: set<nat>)
    requires numData > 0 && fecIndex + numData <= U32_MAX
    requires forall i :: i in keys <==>
      i in s.pending && fecIndex <= i < fecIndex + numData && s.pending[i].fecSetIndex == fecIndex
    ensures DataCount(s, fecIndex, numData) == |keys|
  {
    assert keys == set i | i in s.pending && fecIndex <= i < SatAdd(fecIndex, numData, U32_MAX)
      && s.pending[i].fecSetIndex == fecIndex;
  }

  lemma WaitingSet(lib: ErasureLibrary, sent: SentSlot, now: nat, s: State)
    requires TwoBatches(lib, sent) && Waiting(lib, sent, now, s)
    ensures DataCount(s, 0, 8) == 6
    ensures s.pending.Keys == EARLY && s.batchStart == s.cursor == 0 && s.log == NO_LOG
    ensures forall b :: b in s.boundaries ==> s.boundaries[b] == now
  {
    hide TwoBatches, AsSent, SentSlotOk;
    AllOfSetZero(lib, sent, s);
    assert forall i :: i in EARLY ==> i < 8;
    CountWithSet(s, 0, 8, EARLY);
    EarlySize();
  }

  lemma EarlySize()
    ensures |EARLY| == 6 && |EARLY + {0}| == 7
  {
    assert EARLY + {0} == {0, 1, 2, 4, 5, 6, 7};
    assert |{0, 1, 2, 4, 5, 6, 7}| == 7;
  }

  lemma RecordedOne(env: Env, sent: SentSlot, s: State)
    requires TwoBatches(env.lib, sent) && s.fecSets == map[]
    ensures var c, s1 := ParityCode(env.lib, sent), Recorded(env, s, ParityCode(env.lib, sent));
            && s1.fecSets.Keys == {0} && s1.fecSets[0].code == map[0 := c.coded] && s1.fecSets[0].numData == 8
            && s1.log == s.log
  {
    hide TwoBatches;
    SetSize(env.lib, sent);
  }

  lemma SetSize(lib: ErasureLibrary, sent: SentSlot)
    requires TwoBatches(lib, sent)
    ensures var c := ParityCode(lib, sent);
            c.fecSetIndex == 0 && c.numData == 8 && c.numCoding == 1 && c.position == 0
  {
  }

  lemma CodeIsNotEnough(env: Env, sent: SentSlot, now: nat, s: State)
    requires TwoBatches(env.lib, sent) && Waiting(env.lib, sent, now, s) && s.fecSets == map[]
    ensures forall f :: !Recoverable(Recorded(env, s, ParityCode(env.lib, sent)), f)
  {
    hide TwoBatches, Waiting, ParityCode, Recorded, DataCount;
    var c := ParityCode(env.lib, sent);
    var s1 := Recorded(env, s, c);
    RecordedOne(env, sent, s);
    RecordedSame(env, s, c);
    WaitingSet(env.lib, sent, now, s);
    SameCount(s, s1);
    assert |s1.fecSets[0].code| == 1;
  }

  lemma SameCount(s: State, s1: State)
    requires s1.pending == s.pending
    ensures DataCount(s1, 0, 8) == DataCount(s, 0, 8)
  {
  }

  lemma CodeStillWaits(env: Env, sent: SentSlot, now: nat, s: State)
    requires TwoBatches(env.lib, sent) && Waiting(env.lib, sent, now, s) && s.fecSets == map[] && Bounded(s)
    requires env.timeout > 0
    ensures var c := ParityCode(env.lib, sent);
            CodeOk(c) && PushCode(env, now, s, c) == Recorded(env, s, c)
    ensures Waiting(env.lib, sent, now, Recorded(env, s, ParityCode(env.lib, sent)))
  {
    hide TwoBatches, ParityCode, Recorded, Bounded, CodeOk, PushCode, AsSent, SentSlotOk, CodeAsSent, Recoverable;
    var c := ParityCode(env.lib, sent);
    CodeOkHere(env.lib, sent);
    CodeIsNotEnough(env, sent, now, s);
    WaitingSet(env.lib, sent, now, s);
    CodeWaits(env, now, s, c);
    RecordedSame(env, s, c);
    RecordedOne(env, sent, s);
    RecordAsSent(env, sent, s, c);
  }

  lemma {:induction false} CountAllBut(s: slots, m: nat)
    requires m < |s| && forall i :: 0 <= i < |s| && i != m ==> s[i].Some?
    ensures CountPresent(s) + 1 >= |s|
  {
    if m == 0 {
      CountFull(s[1..]);
    } else {
      assert forall i :: 0 <= i < |s[1..]| ==> s[1..][i] == s[i + 1];
      CountAllBut(s[1..], m - 1);
    }
  }

  lemma {:induction false} CountFull(s: slots)
    requires forall i :: 0 <= i < |s| ==> s[i].Some?
    ensures CountPresent(s) == |s|
  {
    if s != [] {
      CountFull(s[1..]);
    }
  }

  /** A recovered shred that is absent and not the last of the slot is inserted. */
  lemma {:induction false} RecoveredIsInserted(now: nat, s: State, f: nat, rs: seq<Recovered>, r: Recovered)
    requires r in rs && s.batchStart <= f + r.position
    requires RecoveredEntry(f, r.bytes).Some? && !RecoveredEntry(f, r.bytes).value.1
    ensures f + r.position in InsertAll(now, s, f, rs).pending
    ensures forall i :: i in s.pending ==> i in InsertAll(now, s, f, rs).pending
    decreases |rs|
  {
    hide RecoveredEntry;
    var s1 := InsertRecovered(now, s, f, rs[0]);
    if r == rs[0] {
      PendingGrows(now, s1, f, rs[1..]);
    } else {
      assert r in rs[1..];
      RecoveredIsInserted(now, s1, f, rs[1..], r);
    }
  }

  lemma {:induction false} PendingGrows(now: nat, s: State, f: nat, rs: seq<Recovered>)
    ensures forall i :: i in s.pending ==> i in InsertAll(now, s, f, rs).pending
    decreases |rs|
  {
    hide RecoveredEntry;
    if rs != [] {
      PendingGrows(now, InsertRecovered(now, s, f, rs[0]), f, rs[1..]);
    }
  }

  lemma AllOfSetZero(lib: ErasureLibrary, sent: SentSlot, s: State)
    requires TwoBatches(lib, sent) && AsSent(lib, sent, s)
    requires forall p :: p in s.pending ==> p < 8
    ensures forall p :: p in s.pending ==> s.pending[p].fecSetIndex == 0
  {
    forall p: nat | p in s.pending
      ensures s.pending[p].fecSetIndex == 0
    {
      assert EntryAsSent(lib, sent, p, s.pending[p]);
      assert Covers(sent, 0, p);
      assert Covers(sent, s.pending[p].fecSetIndex, p);
    }
  }

  /** One FEC set with one code shard, the sender's. */
  ghost predicate OneCode(s: State)
  {
    && s.fecSets.Keys == {0} && s.fecSets[0].numData == 8
    && |s.fecSets[0].code| == 1 && 0 in s.fecSets[0].code
    && CodeShard(s.fecSets[0], s.fecSets[0].code[0]).Some?
  }

  lemma EnoughForRecovery(s: State)
    requires OneCode(s) && s.pending.Keys == EARLY + {0}
    requires forall p :: p in s.pending ==> s.pending[p].fecSetIndex == 0
    ensures Recoverable(s, 0)
  {
    hide CodeShard;
    CountWithSet(s, 0, 8, EARLY + {0});
    EarlySize();
  }

  /** Seven data shreds and the parity shred: shred 3 comes back, with its batch end. */
  lemma ShredThreeReturns(env: Env, sent: SentSlot, now: nat, s: State)
    requires TwoBatches(env.lib, sent) && AsSent(env.lib, sent, s) && Shape(s)
    requires s.pending.Keys == EARLY + {0} && s.batchStart == 0 && OneCode(s)
    ensures var s1 := FecFill(env, now, s, 0).state;
            s1.pending.Keys == EARLY + {0, 3} && IsBoundary(s1.pending, 3)
  {
    hide TwoBatches, AsSent, Shape, CodeShard, FecFill, DataRefs, Reconstruct, Recoverable, RecoveredEntry,
      InsertAll, DataCount;
    AllOfSetZero(env.lib, sent, s);
    EnoughForRecovery(s);
    AllButThree(env, sent, s);
    EightShreds(env.lib, sent);
    RestoreThree(env, sent, s);
    ThreeIsABoundary(env.lib, sent);
    var r := Recovered(3, Framed(SentShard(sent[0], 3)));
    var rs := Reconstruct(env.lib, s.fecSets[0], DataRefs(s, 0, 8)).value;
    RecoveredIsInserted(now, s, 0, rs, r);
    OnlyThree(env, sent, now, s, rs, DataRefs(s, 0, 8));
  }

  lemma EightShreds(lib: ErasureLibrary, sent: SentSlot)
    requires TwoBatches(lib, sent)
    ensures 0 in sent && |sent[0].raws| == 8 && sent[0].numCoding == 1
  {
  }

  lemma BufferCoding(lib: ErasureLibrary, sent: SentSlot, f: nat, fec: FecSet)
    requires SentSlotOk(lib, sent) && BufferAsSent(lib, sent, f, fec)
    ensures fec.numCoding == sent[f].numCoding
  {
  }

  ghost predicate ThreeBack(lib: ErasureLibrary, sent: SentSlot, fec: FecSet, refs: map<nat, seq<byte>>)
  {
    && 0 in sent && |sent[0].raws| == 8 && WellSent(sent[0])
    && Reconstruct(lib, fec, refs).Some?
    && Recovered(3, Framed(SentShard(sent[0], 3))) in Reconstruct(lib, fec, refs).value
  }

  lemma RestoreThree(env: Env, sent: SentSlot, s: State)
    requires s.pending.Keys == EARLY + {0} && OneCode(s)
    requires CountPresent(Placed(s.fecSets[0], DataRefs(s, 0, 8))) >= 8
    requires TwoBatches(env.lib, sent) && AsSent(env.lib, sent, s)
    ensures ThreeBack(env.lib, sent, s.fecSets[0], DataRefs(s, 0, 8))
  {
    hide Reconstruct, Placed, SentShredOk, CodeFrom, CodeShard, SentSlotOk, TwoBatches, DataFrom, CountPresent,
      SentSetOk, AsSent;
    EightShreds(env.lib, sent);
    TwoBatchesSlot(env.lib, sent);
    RefsAsSent(env.lib, sent, s, 0);
    SetAccepted(env.lib, sent);
    BufferCoding(env.lib, sent, 0, s.fecSets[0]);
    ReconstructRestores(env.lib, s.fecSets[0], DataRefs(s, 0, 8), sent[0]);
    assert 3 !in DataRefs(s, 0, 8);
  }

  lemma SetAccepted(lib: ErasureLibrary, sent: SentSlot)
    requires TwoBatches(lib, sent)
    ensures lib.accepts(8, 1)
  {
    assert SentSetOk(lib, sent[0], 0);
  }

  lemma AllButThree(env: Env, sent: SentSlot, s: State)
    requires TwoBatches(env.lib, sent) && AsSent(env.lib, sent, s)
    requires s.pending.Keys == EARLY + {0} && OneCode(s)
    requires forall p :: p in s.pending ==> s.pending[p].fecSetIndex == 0
    ensures CountPresent(Placed(s.fecSets[0], DataRefs(s, 0, 8))) >= 8
  {
    hide CodeShard, DataShard, AsSent, EntryAsSent, SentSlotOk, SentShredOk, SentSetOk;
    var f := s.fecSets[0];
    var refs := DataRefs(s, 0, 8);
    RefsAsSent(env.lib, sent, s, 0);
    var placed := Placed(f, refs);
    assert f.numCoding == 1;
    PendingAsSent(env.lib, sent, s);
    forall i | 0 <= i < |placed| && i != 3
      ensures placed[i].Some?
    {
      if i < 8 {
        assert i in EARLY + {0};
        assert HoldsPosition(s.pending, 0, i);
        RefAsSent(env.lib, sent, f, 0, i, s.pending[i]);
      }
    }
    CountAllBut(placed, 3);
  }

  lemma ThreeIsABoundary(lib: ErasureLibrary, sent: SentSlot)
    requires TwoBatches(lib, sent)
    ensures WellSent(sent[0])
    ensures var e := RecoveredEntry(0, Framed(SentShard(sent[0], 3)));
            e.Some? && !e.value.1 && e.value.0.batchComplete
  {
    assert SentSetOk(lib, sent[0], 0);
    SetWellSent(lib, sent[0], 0);
    assert SentShredOk(sent[0], 0, 3);
    RecoveredAsSent(lib, sent, 0, 3);
    RecoveredParsesAsSent(sent[0], 3);
  }

  lemma OnlyThree(env: Env, sent: SentSlot, now: nat, s: State, rs: seq<Recovered>, refs: map<nat, seq<byte>>)
    requires TwoBatches(env.lib, sent) && AsSent(env.lib, sent, s) && Shape(s)
    requires s.pending.Keys == EARLY + {0} && s.batchStart == 0 && 0 in s.fecSets && s.fecSets[0].numData == 8
    requires refs == DataRefs(s, 0, 8) && Recoverable(s, 0)
    requires Reconstruct(env.lib, s.fecSets[0], refs) == Some(rs)
    requires 3 in InsertAll(now, s, 0, rs).pending
    ensures var s1 := FecFill(env, now, s, 0).state;
            s1.pending.Keys == EARLY + {0, 3} && IsBoundary(s1.pending, 3)
  {
    hide Reconstruct, AsSent, TwoBatches, DataRefs, EntryAsSent, Shape, InsertAll, Recoverable, IsBoundary,
      SentSlotOk;
    TwoBatchesSlot(env.lib, sent);
    var s1 := FecFill(env, now, s, 0).state;
    FecFillInserts(env, now, s, rs);
    FecFillAsSent(env, sent, now, s, 0);
    ReconstructPositions(env.lib, s.fecSets[0], refs);
    AddedIndices(now, s, 0, rs);
    PendingGrows(now, s, 0, rs);
    assert forall i :: i in s1.pending ==> i in s.pending || i < 8;
    assert forall i: nat :: i < 8 ==> i in EARLY + {0, 3};
    assert s1.pending.Keys == EARLY + {0, 3};
    TwoBatchesSlot(env.lib, sent);
    PendingAsSent(env.lib, sent, s1);
    EndsAsSent(env.lib, sent, s1, 3);
  }

  lemma TwoBatchesSlot(lib: ErasureLibrary, sent: SentSlot)
    requires TwoBatches(lib, sent)
    ensures SentSlotOk(lib, sent)
  {
  }

  lemma FecFillInserts(env: Env, now: nat, s: State, rs: seq<Recovered>)
    requires 0 in s.fecSets && s.fecSets[0].numData == 8 && Recoverable(s, 0)
    requires Reconstruct(env.lib, s.fecSets[0], DataRefs(s, 0, 8)) == Some(rs)
    ensures FecFill(env, now, s, 0).state.pending == InsertAll(now, s, 0, rs).pending
  {
    hide Reconstruct, DataRefs, InsertAll, Recoverable;
  }

  lemma {:induction false} AddedIndices(now: nat, s: State, f: nat, rs: seq<Recovered>)
    ensures forall i :: i in InsertAll(now, s, f, rs).pending ==>
              i in s.pending || exists k :: 0 <= k < |rs| && i == f + rs[k].position
    decreases |rs|
  {
    hide RecoveredEntry;
    if rs != [] {
      var s1 := InsertRecovered(now, s, f, rs[0]);
      AddedIndices(now, s1, f, rs[1..]);
      forall i | i in InsertAll(now, s, f, rs).pending && i !in s.pending
        ensures exists k :: 0 <= k < |rs| && i == f + rs[k].position
      {
        if i !in s1.pending {
          var k :| 0 <= k < |rs[1..]| && i == f + rs[1..][k].position;
          assert i == f + rs[k + 1].position;
        } else {
          assert i == f + rs[0].position;
        }
      }
    }
  }

  lemma EndsAsSent(lib: ErasureLibrary, sent: SentSlot, s: State, p: nat)
    requires TwoBatches(lib, sent) && p in s.pending && p < 8 && EntryAsSent(lib, sent, p, s.pending[p])
    ensures IsBoundary(s.pending, p) <==> p == 3 || p == 7
  {
    assert Covers(sent, 0, p);
    assert Covers(sent, s.pending[p].fecSetIndex, p);
    assert SentShredOk(sent[0], 0, p);
  }

  lemma AdvanceMoves(env: Env, s: State)
    requires Inv(env, s) && NoBoundary(s) && Bounded(s)
    requires s.cursor in s.pending && s.pending[s.cursor].source.FromPool?
    ensures Advance(env, s).cursor > s.cursor
  {
    hide StreamOne, Shape, Tracks, Ledger, Pushed, Bounded, Accounted;
    AdvanceStep(env, s);
    var ps := s.pending[s.cursor];
    var s1 := StreamOne(env, s, ps.Payload().value);
    if Pushed(env.codec, s.decoder, ps.Payload().value).txs.Some? && !ps.batchComplete {
      AdvanceInv(env, s1);
    }
  }

  /** With shred 0 there and shred 3 not, the known batch end is 7 and set 0 is the hint. */
  lemma SevenIsLeast(lib: ErasureLibrary, sent: SentSlot, s: State)
    requires TwoBatches(lib, sent) && AsSent(lib, sent, s) && Shape(s)
    requires s.pending.Keys == EARLY + {0} && s.batchStart == 0
    ensures BoundariesFrom(s) == {7} && Least(BoundariesFrom(s)) == 7
    ensures !AllPresent(s.pending, 0, 8)
  {
    hide TwoBatches, AsSent, EntryAsSent, SentSlotOk;
    TwoBatchesSlot(lib, sent);
    PendingAsSent(lib, sent, s);
    forall p: nat | p in s.pending
      ensures IsBoundary(s.pending, p) <==> p == 7
    {
      EndsAsSent(lib, sent, s, p);
    }
    assert 3 !in s.pending;
    assert forall b :: b in s.boundaries <==> IsBoundary(s.pending, b);
    assert 7 in s.pending;
    assert forall b :: b in BoundariesFrom(s) <==> b == 7;
  }

  lemma OneHint(env: Env, now: nat, s: State)
    requires OneCode(s) && s.batchStart == 0 && !AllPresent(s.pending, 0, 8)
    ensures Refilled(env, now, s, 7) == FecFill(env, now, s, 0).state
  {
    hide CodeShard, FecFill;
    var hints := Hints(s, 7);
    assert forall f :: f in hints <==> f == 0;
    SortedUnique(hints, [0], {0});
    assert FillAll(env, now, s, hints) == FillAll(env, now, FecFill(env, now, s, 0).state, []);
  }

  lemma EightPresent(pending: Pending)
    requires pending.Keys == EARLY + {0, 3}
    ensures AllPresent(pending, 0, 8)
  {
  }

  /** Both batches were finished as one range, whole, and nothing is left to come for either. */
  ghost predicate Joined(s: State)
  {
    && |s.log.completions| == 1 && s.batchStart == 8 && s.log.emitted == []
    && var c := s.log.completions[0];
    && c.start == 0 && c.last == 7 && {3, 7} <= c.boundaries && c.finish.Whole?
  }

  /** The turn joins the two batches. */
  lemma TurnJoins(env: Env, sent: SentSlot, now: nat, s: State)
    requires TwoBatches(env.lib, sent) && AsSent(env.lib, sent, s) && Inv(env, s) && AtMostLast(s)
    requires s.pending.Keys == EARLY + {0} && s.batchStart == 0 && OneCode(s) && s.log.completions == []
    ensures BoundariesFrom(s) == {7} && Least(BoundariesFrom(s)) == 7
    ensures var turn := FlushTurn(env, now, s, 7, s.boundaries[7]);
            turn.FinishNow? && Joined(turn.state) && turn.state.pending == map[]
  {
    hide TwoBatches, AsSent, Tracks, Ledger, Accounted, OneCode, FecFill, Refilled, FinishWhole, FinishSalvaged,
      IsBoundary, RefillOf;
    SevenIsLeast(env.lib, sent, s);
    OneHint(env, now, s);
    ShredThreeReturns(env, sent, now, s);
    EightPresent(Refilled(env, now, s, 7).pending);
    TurnFinishes(env, now, s);
    LeastBoundary(env, s);
    var s1 := Refilled(env, now, s, 7);
    RefilledRefills(env, now, s, 7);
    RefillKeeps(now, s, s1, 7);
    BothEnds(s1);
    WholeFields(env, s1, 7);
  }

  lemma WholeFields(env: Env, s: State, bc: nat)
    requires bc < U32_MAX
    ensures var s' := FinishWhole(env, s, bc);
            && s'.batchStart == bc + 1 && s'.log.emitted == []
            && s'.pending == (map i | i in s.pending && i >= bc + 1 :: s.pending[i])
            && |s'.log.completions| == |s.log.completions| + 1 && s'.log.completions[|s.log.completions|].finish.Whole?
  {
    hide DecodeBatch, Concat, Fresh;
  }

  lemma BothEnds(s: State)
    requires IsBoundary(s.pending, 3) && IsBoundary(s.pending, 7)
    ensures {3, 7} <= BoundariesIn(s.pending, 0, 8)
  {
  }

  lemma LastArrival(env: Env, sent: SentSlot, now: nat, s: State)
    requires TwoBatches(env.lib, sent) && Waiting(env.lib, sent, now, s) && OneCode(s)
    requires Resting(env, s) && Bounded(s)
    ensures DataOk(ShredAt(env.lib, sent, 0))
    ensures Joined(PushData(env, now, s, ShredAt(env.lib, sent, 0)))
  {
    hide TwoBatches, ShredAt, AsSent, Shape, Tracks, Ledger, Accounted, OneCode, NothingReady, NoBoundary,
      AtMostLast, Bounded, DataOk, DataAsSent, InsertEntry, Advance, FecFill, Flush, SentSlotOk;
    var d := ShredAt(env.lib, sent, 0);
    ArrivalsOk(env.lib, sent, 0);
    assert 0 !in EARLY;
    ArrivalEntryOk(d);
    InsertInv(env, now, s, 0, d.Entry());
    InsertBounded'(now, s, d);
    ArrivalAsSent(env.lib, sent, d);
    InsertAsSent(env.lib, sent, now, s, 0, d.Entry());
    var s1 := InsertEntry(now, s, 0, d.Entry());
    InsertedFields(now, s, 0, d.Entry());
    AdvanceMoves(env, s1);
    AdvanceInv(env, s1);
    AdvanceKeepsShreds(env, s1);
    var s2 := Advance(env, s1);
    SameAsSent(env.lib, sent, s1, s2);
    SameCode(s, s2);
    FlushJoins(env, sent, now, s2);
    ShapeBounded(s2);
  }

  lemma InsertedFields(now: nat, s: State, i: nat, ps: PendingShred)
    ensures var s1 := InsertEntry(now, s, i, ps);
            && s1.pending == s.pending[i := ps] && s1.fecSets == s.fecSets && s1.batchStart == s.batchStart
            && s1.cursor == s.cursor && s1.log == s.log
  {
  }

  lemma SameCode(s: State, s': State)
    requires OneCode(s) && s'.fecSets == s.fecSets
    ensures OneCode(s')
  {
  }

  lemma FlushJoins(env: Env, sent: SentSlot, now: nat, s: State)
    requires TwoBatches(env.lib, sent) && AsSent(env.lib, sent, s) && Inv(env, s) && AtMostLast(s)
    requires s.pending.Keys == EARLY + {0} && s.batchStart == 0 && OneCode(s) && s.log.completions == []
    requires Bounded(s)
    ensures Joined(Flush(env, now, s))
  {
    hide TwoBatches, AsSent, Shape, Tracks, Ledger, Accounted, OneCode, NothingReady, NoBoundary, AtMostLast,
      Bounded, FlushTurn, SentSlotOk, Refilled;
    TurnJoins(env, sent, now, s);
    FlushTurnBounded'(env, now, s, 7);
    TurnFinishes(env, now, s);
    var s1 := FlushTurn(env, now, s, 7, s.boundaries[7]).state;
    NothingLeft(env, s1);
  }

  lemma NothingLeft(env: Env, s: State)
    requires Inv(env, s) && s.pending == map[]
    ensures BoundariesFrom(s) == {}
  {
    hide Tracks, Ledger, Accounted;
    assert forall b :: b in s.boundaries <==> IsBoundary(s.pending, b);
  }

  /** In this run of a slot holding nothing but what was sent, the only completed range is 0..7, whole,
      and contains both batch ends, although batches 0..3 and 4..7 were sent. */
  lemma StaleRunJoins(env: Env, sent: SentSlot, now: nat)
    requires TwoBatches(env.lib, sent) && env.timeout > 0
    ensures EventsOk(StaleRun(env.lib, sent, now))
    ensures Joined(After(env, StaleRun(env.lib, sent, now)))
  {
    hide TwoBatches, ShredAt, ParityCode, EarlyShreds, DataOk, CodeOk, Waiting, Resting, PushData, PushCode,
      OneCode, DataEvents, Bounded;
    var early := DataEvents(now, EarlyShreds(env.lib, sent));
    var c, d := Event.Code(now, ParityCode(env.lib, sent)), Event.Data(now, ShredAt(env.lib, sent, 0));
    EarlyWaits(env, sent, now);
    AlwaysRests(env, early);
    var s := After(env, early);
    CodeStillWaits(env, sent, now, s);
    CodeIsThere(env, sent, s);
    var run := StaleRun(env.lib, sent, now);
    assert run[..|early| + 1] == early + [c];
    assert (early + [c])[..|early|] == early;
    assert EventsOk(early + [c]);
    AlwaysRests(env, early + [c]);
    var s7 := After(env, early + [c]);
    assert s7 == Step(env, s, c);
    LastArrival(env, sent, now, s7);
    assert run[..|run| - 1] == early + [c];
    assert run[|run| - 1] == d;
  }

  lemma StaleRunAsSent(env: Env, sent: SentSlot, now: nat)
    requires TwoBatches(env.lib, sent)
    ensures SentSlotOk(env.lib, sent)
    ensures forall k :: 0 <= k < |StaleRun(env.lib, sent, now)| ==>
      EventAsSent(env.lib, sent, StaleRun(env.lib, sent, now)[k])
  {
    hide TwoBatches, ShredAt, ParityCode, EarlyShreds, DataOk, CodeOk, DataAsSent, CodeAsSent, SentSlotOk;
    EarlyAsSent(env.lib, sent, now);
    CodeOkHere(env.lib, sent);
    ArrivalsOk(env.lib, sent, 0);
  }

  lemma {:induction false} SentBytesSplit(sent: SentSlot, lo: nat, mid: nat, hi: nat)
    requires lo <= mid <= hi
    ensures SentBytes(sent, lo, hi) == SentBytes(sent, lo, mid) + SentBytes(sent, mid, hi)
    decreases hi
  {
    hide SentPayload;
    if mid < hi {
      SentBytesSplit(sent, lo, mid, hi - 1);
      assert SentBytes(sent, lo, hi) == SentBytes(sent, lo, hi - 1) + SentPayload(sent, hi - 1);
      assert SentBytes(sent, mid, hi) == SentBytes(sent, mid, hi - 1) + SentPayload(sent, hi - 1);
    } else {
      assert SentBytes(sent, mid, hi) == [];
    }
  }

  /** Stale boundary. In this run batches 0..3 and 4..7 are finished as one range. If the first decodes,
      its transactions are all the slot has delivered, and the window has moved past both: whatever the
      second holds is lost. */
  lemma StaleBoundaryJoinsBatches(env: Env, sent: SentSlot, now: nat, s: State)
    requires TwoBatches(env.lib, sent) && env.timeout > 0 && Reaches(env, StaleRun(env.lib, sent, now), s)
    ensures Joined(s)
    ensures DecodeBatch(env.codec, SentBytes(sent, 0, 4)).Some? ==>
              s.log.delivered == FirstOccurrences(DecodeBatch(env.codec, SentBytes(sent, 0, 4)).value)
  {
    hide TwoBatches, StaleRun, Reaches, After, EventAsSent, SentSlotOk, DecodeBatch, FirstOccurrences, SentBytes;
    var run := StaleRun(env.lib, sent, now);
    ReachesAfter(env, run, s);
    StaleRunJoins(env, sent, now);
    StaleRunAsSent(env, sent, now);
    var c := s.log.completions[0];
    RecoveryIsInvisible(env, sent, run, s, c);
    SentBytesSplit(sent, 0, 4, 8);
    CompletedRangesTile(env, run, s);
    OneRange(s.log.completions);
    if DecodeBatch(env.codec, SentBytes(sent, 0, 4)).Some? {
      JoinedBatchesLoseTheSecond(env.codec, SentBytes(sent, 0, 4), SentBytes(sent, 4, 8));
    }
  }

  lemma OneRange(cs: seq<Completion>)
    requires |cs| == 1
    ensures AllEmitted(cs) == cs[0].emitted
  {
    assert cs[..0] == [];
    assert AllEmitted(cs[..0]) == [];
  }

  lemma CodeIsThere(env: Env, sent: SentSlot, s: State)
    requires TwoBatches(env.lib, sent) && s.fecSets == map[]
    ensures OneCode(Recorded(env, s, ParityCode(env.lib, sent)))
  {
    CodeOkHere(env.lib, sent);
    RecordedOne(env, sent, s);
  }
}
