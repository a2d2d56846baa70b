/** Recovery is complete, told from outside: what one sender sent, which shreds and code shreds have arrived,
    and what is pending. No FEC set is forgotten while it could still be of use, and after each call that
    concerns a set, or with a batch end waiting, whatever could have been rebuilt of it has been. */
module Rebuilding {
  import opened Bytes
  import opened Collections
  import opened Parser
  import opened Decoder
  import opened Erasure
  import opened Fec
  import opened Slot
  import opened Invariant
  import opened Lifetime
  import opened Reachable
  import opened Recovery
  import opened BatchEnds
  import opened FecCap
  import opened Stale
  import opened Exhaustion

  /** This shred of the set is missing from the window: it is not pending, and not the slot's last one either
      with the slot known to be complete. */
  ghost predicate Lacks(sent: SentSlot, s: State, g: nat, i: nat)
  {
    Covers(sent, g, i) && s.batchStart <= i && i !in s.pending && (SentLast(sent, g, i) ==> !s.slotComplete)
  }

  ghost predicate AllThere(sent: SentSlot, s: State, g: nat)
  {
    forall i :: !Lacks(sent, s, g, i)
  }

  /** The set holds too few shards to be rebuilt. */
  ghost predicate Short(s: State, g: nat)
  {
    g in s.fecSets && |HeldOf(s, g, s.fecSets[g].numData)| + |s.fecSets[g].code| < s.fecSets[g].numData
  }

  ghost predicate Served(sent: SentSlot, s: State, g: nat)
  {
    AllThere(sent, s, g) || Short(s, g)
  }

  /** These code shreds of the set are still at hand, or not needed any more. */
  ghost predicate Remembered(sent: SentSlot, s: State, g: nat, code: set<nat>)
  {
    code == {} || AllThere(sent, s, g) || (g in s.fecSets && code <= s.fecSets[g].code.Keys)
  }

  // ---------- One refill ----------

  /** A sender's set that has enough shards is rebuilt in full. */
  lemma RebuildsAll(env: Env, sent: SentSlot, now: nat, s: State, g: nat)
    requires SentSlotOk(env.lib, sent) && AsSent(env.lib, sent, s) && Bounded(s) && Recoverable(s, g)
    ensures Reconstruct(env.lib, s.fecSets[g], DataRefs(s, g, s.fecSets[g].numData)).Some?
    ensures var rs := Reconstruct(env.lib, s.fecSets[g], DataRefs(s, g, s.fecSets[g].numData)).value;
            AllThere(sent, InsertAll(now, s, g, rs), g)
  {
    hide SentSlotOk, AsSent, Reconstruct, RecoveredEntry, Bounded, SentLast, InsertAll, Grown, DataRefs, DataCount;
    AbsentComeBack(env, sent, s, g);
    ReconstructNoTwice(env.lib, s.fecSets[g], DataRefs(s, g, s.fecSets[g].numData));
    var rs := Reconstruct(env.lib, s.fecSets[g], DataRefs(s, g, s.fecSets[g].numData)).value;
    InsertAllGrows(now, s, g, rs);
    SameWindow(s, InsertAll(now, s, g, rs), g);
    forall i: nat | Covers(sent, g, i) && s.batchStart <= i
      ensures !Lacks(sent, InsertAll(now, s, g, rs), g, i)
    {
      if i !in s.pending {
        SentIsInserted(env.lib, sent, now, s, g, i, rs);
      }
    }
  }

  lemma AbsentComeBack(env: Env, sent: SentSlot, s: State, g: nat)
    requires SentSlotOk(env.lib, sent) && AsSent(env.lib, sent, s) && Bounded(s) && Recoverable(s, g)
    ensures g in sent && SentSetOk(env.lib, sent[g], g) && WellSent(sent[g])
    ensures Reconstruct(env.lib, s.fecSets[g], DataRefs(s, g, s.fecSets[g].numData)).Some?
    ensures var rs := Reconstruct(env.lib, s.fecSets[g], DataRefs(s, g, s.fecSets[g].numData)).value;
            forall i: nat :: Covers(sent, g, i) && i !in s.pending ==>
              Recovered(i - g, Framed(SentShard(sent[g], i - g))) in rs
  {
    hide SentSlotOk, AsSent, Reconstruct, Placed, DataCount, Bounded, CodeFrom, SentSetOk, CodeWhole, DataFrom,
      DataRefs;
    var fec := s.fecSets[g];
    var refs := DataRefs(s, g, fec.numData);
    EnoughIsPlaced(env.lib, sent, s, g);
    RefsAsSent(env.lib, sent, s, g);
    BufferSize(env.lib, sent, g, fec);
    ReconstructRestores(env.lib, fec, refs, sent[g]);
    RefsArePending(s, g, fec.numData);
  }

  lemma RefsArePending(s: State, g: nat, n: nat)
    ensures forall p :: p in DataRefs(s, g, n) ==> g + p in s.pending
  {
  }

  lemma BufferSize(lib: ErasureLibrary, sent: SentSlot, g: nat, fec: FecSet)
    requires SentSlotOk(lib, sent) && BufferAsSent(lib, sent, g, fec)
    ensures fec.numData == |sent[g].raws| > 0 && lib.accepts(fec.numData, fec.numCoding)
  {
  }

  lemma SameWindow(s: State, s': State, g: nat)
    requires Grown(s, s', g)
    ensures s'.batchStart == s.batchStart && (s.slotComplete ==> s'.slotComplete)
    ensures forall i :: i in s.pending ==> i in s'.pending
  {
  }

  lemma SentIsInserted(lib: ErasureLibrary, sent: SentSlot, now: nat, s: State, g: nat, i: nat, rs: seq<Recovered>)
    requires SentSlotOk(lib, sent) && Covers(sent, g, i) && SentSetOk(lib, sent[g], g) && WellSent(sent[g])
    requires s.batchStart <= i && i !in s.pending && NoTwice(rs)
    requires Recovered(i - g, Framed(SentShard(sent[g], i - g))) in rs
    ensures if SentLast(sent, g, i) then InsertAll(now, s, g, rs).slotComplete
            else i in InsertAll(now, s, g, rs).pending
  {
    hide SentSlotOk, EntryAsSent, RecoveredEntry, ParseKind;
    assert SentShredOk(sent[g], g, i - g);
    RecoveredAsSent(lib, sent, g, i - g);
    RecoveredFlag(sent[g], g, i - g);
    var r := Recovered(i - g, Framed(SentShard(sent[g], i - g)));
    if SentLast(sent, g, i) {
      LastCompletes(now, s, g, rs, r);
    } else {
      RecoveredIsInserted(now, s, g, rs, r);
    }
  }

  /** Rebuilding the slot's last shred completes the slot. */
  lemma {:induction false} LastCompletes(now: nat, s: State, f: nat, rs: seq<Recovered>, r: Recovered)
    requires r in rs && s.batchStart <= f + r.position && f + r.position !in s.pending && NoTwice(rs)
    requires RecoveredEntry(f, r.bytes).Some? && RecoveredEntry(f, r.bytes).value.1
    ensures InsertAll(now, s, f, rs).slotComplete
    decreases |rs|
  {
    hide RecoveredEntry;
    var s1 := InsertRecovered(now, s, f, rs[0]);
    if r == rs[0] {
      InsertAllGrows(now, s1, f, rs[1..]);
    } else {
      assert r in rs[1..];
      var k :| 0 <= k < |rs| && rs[k] == r;
      assert rs[0].position != rs[k].position;
      LastCompletes(now, s1, f, rs[1..], r);
    }
  }

  /** No position comes back twice. */
  ghost predicate NoTwice(rs: seq<Recovered>)
  {
    forall j, k :: 0 <= j < k < |rs| ==> rs[j].position != rs[k].position
  }

  lemma {:induction false} MissingNoTwice(f: FecSet, refs: map<nat, seq<byte>>, full: slots, pos: nat)
    requires |full| >= f.numData
    ensures NoTwice(Missing(f, refs, full, pos))
    ensures forall r :: r in Missing(f, refs, full, pos) ==> r.position >= pos
    decreases f.numData - pos
  {
    if pos < f.numData {
      MissingNoTwice(f, refs, full, pos + 1);
      var rest := Missing(f, refs, full, pos + 1);
      assert forall k :: 0 <= k < |rest| ==> rest[k] in rest;
    }
  }

  lemma ReconstructNoTwice(lib: ErasureLibrary, f: FecSet, refs: map<nat, seq<byte>>)
    requires Reconstruct(lib, f, refs).Some?
    ensures NoTwice(Reconstruct(lib, f, refs).value)
  {
    hide SlotAt, CountPresent;
    var placed := Placed(f, refs);
    if Reconstructible(f) && CountPresent(placed) >= f.numData && lib.accepts(f.numData, f.numCoding) {
      assert InPlaceAt(lib, f.numData, f.numCoding, placed);
      MissingNoTwice(f, refs, lib.reconstruct(f.numData, f.numCoding, placed).value, 0);
    }
  }

  lemma HeldStays(s: State, s': State, h: nat, g: nat, n: nat)
    requires Grown(s, s', h) && h != g
    ensures HeldOf(s', g, n) == HeldOf(s, g, n)
  {
  }

  lemma NotRecoverableIsShort(s: State, g: nat)
    requires Bounded(s) && g in s.fecSets && s.fecSets[g].numData > 0
    ensures Recoverable(s, g) <==> !Short(s, g)
  {
    hide HeldOf, DataCount;
    HeldIsCounted(s, g, s.fecSets[g].numData);
  }

  /** What a refill does to a sender's set: it is rebuilt in full, or stays as it is. */
  lemma FillSpares(env: Env, sent: SentSlot, now: nat, s: State, hint: nat, g: nat)
    requires SentSlotOk(env.lib, sent) && AsSent(env.lib, sent, s) && Bounded(s)
    ensures var s1 := FecFill(env, now, s, hint).state;
            && s1.batchStart == s.batchStart && (s.slotComplete ==> s1.slotComplete)
            && (forall i :: i in s.pending ==> i in s1.pending)
            && (AllThere(sent, s1, g)
                || (g in s.fecSets ==>
                      && g in s1.fecSets && s1.fecSets[g] == s.fecSets[g]
                      && HeldOf(s1, g, s.fecSets[g].numData) == HeldOf(s, g, s.fecSets[g].numData)))
  {
    hide SentSlotOk, AsSent, Reconstruct, RecoveredEntry, Bounded, SentLast, InsertAll, DataRefs, DataCount,
      AllThere, HeldOf;
    var target := SelectRecoverable(s, hint);
    if target.Some? {
      var f := target.value;
      FillOne(env, now, s, hint, f);
      RebuildsAll(env, sent, now, s, f);
      var rs := Reconstruct(env.lib, s.fecSets[f], DataRefs(s, f, s.fecSets[f].numData)).value;
      InsertAllGrows(now, s, f, rs);
      var s1 := FecFill(env, now, s, hint).state;
      if f == g {
        SameThere(sent, InsertAll(now, s, f, rs), s1, g);
      } else if g in s.fecSets {
        HeldStays(s, s1, f, g, s.fecSets[g].numData);
      }
    }
  }

  lemma SameThere(sent: SentSlot, s: State, s': State, g: nat)
    requires AllThere(sent, s, g) && s.batchStart <= s'.batchStart && (s.slotComplete ==> s'.slotComplete)
    requires forall i :: i in s.pending && s'.batchStart <= i ==> i in s'.pending
    ensures AllThere(sent, s', g)
  {
    hide SentLast;
    forall i: nat
      ensures !Lacks(sent, s', g, i)
    {
      assert !Lacks(sent, s, g, i);
    }
  }

  lemma FillKeeps(env: Env, sent: SentSlot, now: nat, s: State, hint: nat, g: nat)
    requires SentSlotOk(env.lib, sent) && AsSent(env.lib, sent, s) && Bounded(s)
    ensures var s1 := FecFill(env, now, s, hint).state;
            && (Served(sent, s, g) ==> Served(sent, s1, g))
            && (forall code :: Remembered(sent, s, g, code) ==> Remembered(sent, s1, g, code))
            && (hint == g && g in s.fecSets && s.fecSets[g].numData > 0 ==> Served(sent, s1, g))
  {
    hide SentSlotOk, AsSent, Reconstruct, RecoveredEntry, Bounded, InsertAll, DataRefs, AllThere, HeldOf, FecFill,
      Recoverable;
    var s1 := FecFill(env, now, s, hint).state;
    FillSpares(env, sent, now, s, hint, g);
    if AllThere(sent, s, g) {
      SameThere(sent, s, s1, g);
    }
    if hint == g && g in s.fecSets && s.fecSets[g].numData > 0 {
      NotRecoverableIsShort(s, g);
      if Recoverable(s, g) {
        HintRebuilds(env, sent, now, s, g);
      }
    }
  }

  lemma HintRebuilds(env: Env, sent: SentSlot, now: nat, s: State, g: nat)
    requires SentSlotOk(env.lib, sent) && AsSent(env.lib, sent, s) && Bounded(s) && Recoverable(s, g)
    ensures AllThere(sent, FecFill(env, now, s, g).state, g)
  {
    hide SentSlotOk, AsSent, Reconstruct, RecoveredEntry, Bounded, SentLast, InsertAll, DataRefs, DataCount,
      AllThere;
    RebuildsAll(env, sent, now, s, g);
    var rs := Reconstruct(env.lib, s.fecSets[g], DataRefs(s, g, s.fecSets[g].numData)).value;
    SameThere(sent, InsertAll(now, s, g, rs), FecFill(env, now, s, g).state, g);
  }

  /** When the hinted set cannot be rebuilt, the first set spanning the cursor that can is. */
  lemma SpanningIsRebuilt(env: Env, sent: SentSlot, now: nat, s: State, hint: nat, g: nat)
    requires SentSlotOk(env.lib, sent) && AsSent(env.lib, sent, s) && Bounded(s)
    requires hint in s.fecSets ==> Short(s, hint)
    requires Spans(s, g) && !Short(s, g) && forall k: nat :: Spans(s, k) && k < g ==> Short(s, k)
    ensures AllThere(sent, FecFill(env, now, s, hint).state, g)
  {
    hide SentSlotOk, AsSent, Reconstruct, RecoveredEntry, Bounded, SentLast, InsertAll, DataRefs, AllThere, HeldOf,
      DataCount;
    forall k | k in s.fecSets
      ensures Recoverable(s, k) <==> s.fecSets[k].numData > 0 && !Short(s, k)
    {
      if s.fecSets[k].numData > 0 { NotRecoverableIsShort(s, k); }
    }
    RebuildsAll(env, sent, now, s, g);
    var candidates := set f | f in s.fecSets && s.fecSets[f].numData != 0
      && f <= s.cursor < f + s.fecSets[f].numData && Recoverable(s, f);
    assert g in candidates;
    assert Spans(s, Least(candidates)) && !Short(s, Least(candidates));
    assert SelectRecoverable(s, hint) == Some(Least(candidates));
    var rs := Reconstruct(env.lib, s.fecSets[g], DataRefs(s, g, s.fecSets[g].numData)).value;
    InsertAllGrows(now, s, g, rs);
    SameThere(sent, InsertAll(now, s, g, rs), FecFill(env, now, s, hint).state, g);
  }

  /** The cursor stands in this set. */
  ghost predicate Spans(s: State, g: nat)
  {
    g in s.fecSets && s.fecSets[g].numData > 0 && g <= s.cursor < g + s.fecSets[g].numData
  }

  /** Everything a later state must keep of this set. */
  ghost predicate Keeps(sent: SentSlot, s: State, s': State, g: nat)
  {
    && (Served(sent, s, g) ==> Served(sent, s', g))
    && (forall code :: Remembered(sent, s, g, code) ==> Remembered(sent, s', g, code))
  }

  lemma {:induction false} FillAllKeeps(env: Env, sent: SentSlot, now: nat, s: State, hints: seq<nat>, g: nat)
    requires SentSlotOk(env.lib, sent) && AsSent(env.lib, sent, s) && Bounded(s)
    ensures Keeps(sent, s, FillAll(env, now, s, hints), g)
    decreases |hints|
  {
    hide SentSlotOk, AsSent, FecFill, Served, Remembered, Bounded;
    if hints != [] {
      FillKeeps(env, sent, now, s, hints[0], g);
      FecFillBounded(env, now, s, hints[0]);
      FecFillAsSent(env, sent, now, s, hints[0]);
      FillAllKeeps(env, sent, now, FecFill(env, now, s, hints[0]).state, hints[1..], g);
    }
  }

  // ---------- The flush loop ----------

  /** A range has been finished: what lay in it is gone, and so are the sets that end with it. */
  ghost predicate MovedOn(s: State, s': State, bc: nat)
  {
    && s'.batchStart == bc + 1 && s.batchStart <= bc && s'.slotComplete == s.slotComplete
    && s'.pending == (map i | i in s.pending && i >= bc + 1 :: s.pending[i])
    && (forall f :: f in s.fecSets && f + s.fecSets[f].numData > bc + 1 ==>
          f in s'.fecSets && s'.fecSets[f] == s.fecSets[f])
  }

  /** A range finished from a state that differs in counters and deliveries only. */
  lemma MovedOnFrom(s: State, t: State, bc: nat, finish: Finish)
    requires t.pending == s.pending && t.fecSets == s.fecSets && t.batchStart == s.batchStart
    requires t.slotComplete == s.slotComplete
    requires bc < U32_MAX && s.batchStart <= bc && Bounded(s)
    ensures MovedOn(s, Complete(t, bc, finish), bc)
  {
    hide HandlesOf, Sorted, KeysBelow, BoundariesIn;
  }

  lemma WholeMovesOn(env: Env, s: State, bc: nat)
    requires bc < U32_MAX && s.batchStart <= bc && Bounded(s)
    ensures MovedOn(s, FinishWhole(env, s, bc), bc)
  {
    hide Complete, Emit, DecodeBatch, Concat, MovedOn, Bounded;
    var bytes := Concat(s.pending, s.batchStart, bc + 1);
    match DecodeBatch(env.codec, bytes)
    case Some(txs) =>
      var e := Emit(s, txs);
      EmitKeeps(s, txs);
      MovedOnFrom(s, if Fresh(s.yielded, txs) != [] then CountFallback(e) else CountStreaming(e), bc,
        Whole(bytes, s.log.emitted));
    case None =>
      MovedOnFrom(s, CountSkipped(CountDecodeError(s)), bc, Whole(bytes, s.log.emitted));
  }

  lemma SalvageMovesOn(env: Env, s: State, bc: nat, timedOut: bool)
    requires bc < U32_MAX && s.batchStart <= bc && Bounded(s)
    ensures MovedOn(s, FinishSalvaged(env, s, bc, timedOut), bc)
  {
    hide Complete, Emit, RunsTxs, Runs, SalvagedFrom, MovedOn, Bounded;
    EmitKeeps(s, RunsTxs(env, s.pending, Runs(s.pending.Keys, s.batchStart, bc + 1)));
    var s1 := Salvage(env, s, s.batchStart, bc);
    var s2 := if |s1.log.emitted| > |s.log.emitted| then CountFallback(s1) else CountSkipped(s1);
    MovedOnFrom(s, if timedOut then CountTimeout(s2) else s2, bc, SalvagedFrom(s, bc, timedOut));
  }

  lemma FewerHeld(s: State, s': State, bc: nat, g: nat, n: nat)
    requires MovedOn(s, s', bc)
    ensures |HeldOf(s', g, n)| <= |HeldOf(s, g, n)|
  {
    SubsetSize(HeldOf(s', g, n), HeldOf(s, g, n));
  }

  lemma MovedOnKeeps(lib: ErasureLibrary, sent: SentSlot, s: State, s': State, bc: nat, g: nat)
    requires SentSlotOk(lib, sent) && AsSent(lib, sent, s) && MovedOn(s, s', bc)
    ensures Keeps(sent, s, s', g)
  {
    hide SentSlotOk, EntryAsSent, CompletionAsSent, CodeFrom, SentSetOk, CodeWhole, HeldOf, AllThere;
    if AllThere(sent, s, g) {
      SameThere(sent, s, s', g);
    } else if g in s.fecSets {
      assert BufferAsSent(lib, sent, g, s.fecSets[g]);
      BufferSize(lib, sent, g, s.fecSets[g]);
      if g + s.fecSets[g].numData <= bc + 1 {
        PassedIsThere(sent, s', g);
      } else {
        FewerHeld(s, s', bc, g, s.fecSets[g].numData);
      }
    }
  }

  lemma PassedIsThere(sent: SentSlot, s: State, g: nat)
    requires g in sent && g + |sent[g].raws| <= s.batchStart
    ensures AllThere(sent, s, g)
  {
  }

  lemma KeepsTrans(sent: SentSlot, a: State, b: State, c: State, g: nat)
    requires Keeps(sent, a, b, g) && Keeps(sent, b, c, g)
    ensures Keeps(sent, a, c, g)
  {
    hide Served, Remembered;
  }

  /** Only pending shreds, sets and the window matter. */
  lemma SameKeeps(sent: SentSlot, s: State, s': State, g: nat)
    requires s'.pending == s.pending && s'.fecSets == s.fecSets && s'.batchStart == s.batchStart
    requires s.slotComplete ==> s'.slotComplete
    ensures Keeps(sent, s, s', g)
  {
    hide AllThere;
    if AllThere(sent, s, g) {
      SameThere(sent, s, s', g);
    }
  }

  lemma {:induction false} FlushKeeps(env: Env, sent: SentSlot, now: nat, s: State, g: nat)
    requires SentSlotOk(env.lib, sent) && AsSent(env.lib, sent, s) && Bounded(s)
    ensures Keeps(sent, s, Flush(env, now, s), g)
    decreases U32_MAX - s.batchStart
  {
    hide SentSlotOk, AsSent, FillAll, FinishWhole, FinishSalvaged, Bounded, Keeps;
    if BoundariesFrom(s) == {} {
      SameKeeps(sent, s, s, g);
    } else {
      var bc := Least(BoundariesFrom(s));
      BoundaryBounded(s, bc);
      FlushTurnBounded(env, now, s, bc, s.boundaries[bc]);
      TurnAsSent(env, sent, now, s, bc, s.boundaries[bc]);
      FillAllKeeps(env, sent, now, s, Hints(s, bc), g);
      FillAllBounded(env, now, s, Hints(s, bc));
      SameKeeps(sent, s, s, g);
      var s1 := Refilled(env, now, s, bc);
      match FlushTurn(env, now, s, bc, s.boundaries[bc])
      case Stop =>
      case FinishNow(s2) =>
        WholeMovesOn(env, s1, bc);
        SalvageMovesOn(env, s1, bc, true);
        MovedOnKeeps(env.lib, sent, s1, s2, bc, g);
        KeepsTrans(sent, s, s1, s2, g);
        FlushKeeps(env, sent, now, s2, g);
        KeepsTrans(sent, s, s2, Flush(env, now, s2), g);
    }
  }

  // ---------- The calls ----------

  /** Once a set lacks nothing of the window, it never does again. */
  lemma InsertKeepsThere(sent: SentSlot, now: nat, s: State, i: nat, ps: PendingShred, g: nat, code: set<nat>)
    requires Remembered(sent, s, g, code)
    ensures Remembered(sent, InsertEntry(now, s, i, ps), g, code)
  {
    hide AllThere;
    if AllThere(sent, s, g) {
      SameThere(sent, s, InsertEntry(now, s, i, ps), g);
    }
  }

  lemma StreamedKeepsCode(env: Env, sent: SentSlot, now: nat, s: State, d: DataArrival, g: nat, code: set<nat>)
    requires SentSlotOk(env.lib, sent) && AsSent(env.lib, sent, s) && DataAsSent(env.lib, sent, d)
    requires Bounded(s) && DataOk(d) && Remembered(sent, s, g, code)
    ensures Remembered(sent, Streamed(env, now, s, d), g, code)
  {
    hide AsSent, SentSlotOk, FecFill, Advance, Bounded, DataAsSent, InsertEntry, Served, Remembered;
    ArrivalAsSent(env.lib, sent, d);
    InsertAsSent(env.lib, sent, now, s, d.index, d.Entry());
    InsertBounded'(now, s, d);
    InsertKeepsThere(sent, now, s, d.index, d.Entry(), g, code);
    var s1 := InsertEntry(now, s, d.index, d.Entry());
    AdvanceKeepsShreds(env, s1);
    var s2 := Advance(env, s1);
    SameAsSent(env.lib, sent, s1, s2);
    SameKeeps(sent, s1, s2, g);
    if s2.cursor <= d.index {
      FillKeeps(env, sent, now, s2, d.fecSetIndex, g);
      FecFillBounded(env, now, s2, d.fecSetIndex);
      var fill := FecFill(env, now, s2, d.fecSetIndex);
      if fill.any {
        AdvanceKeepsShreds(env, fill.state);
        SameKeeps(sent, fill.state, Advance(env, fill.state), g);
      }
    }
  }

  /** There is room for the set of this code shred without evicting another. */
  ghost predicate HasRoom(env: Env, s: State, c: CodeArrival)
  {
    c.fecSetIndex in s.fecSets || |s.fecSets| < env.maxFecSets
  }

  ghost function WithPosition(g: nat, code: set<nat>, c: CodeArrival): set<nat>
  {
    if c.fecSetIndex == g then code + {c.position} else code
  }

  lemma RecordRemembers(env: Env, sent: SentSlot, s: State, c: CodeArrival, g: nat, code: set<nat>)
    requires HasRoom(env, s, c) && Remembered(sent, s, g, code)
    ensures Remembered(sent, Recorded(env, s, c), g, WithPosition(g, code, c))
    ensures c.fecSetIndex in Recorded(env, s, c).fecSets
  {
    hide AllThere;
    if AllThere(sent, s, g) {
      SameThere(sent, s, Recorded(env, s, c), g);
    }
  }

  /** After recording, a call for a set leaves nothing of it that could be rebuilt. */
  lemma CodeStreamedServes(env: Env, sent: SentSlot, now: nat, s: State, c: CodeArrival, g: nat, code: set<nat>)
    requires SentSlotOk(env.lib, sent) && AsSent(env.lib, sent, s) && CodeAsSent(env.lib, sent, c)
    requires Bounded(s) && CodeOk(c) && HasRoom(env, s, c) && Remembered(sent, s, g, code)
    ensures Remembered(sent, CodeStreamed(env, now, s, c), g, WithPosition(g, code, c))
    ensures g == c.fecSetIndex ==> Served(sent, CodeStreamed(env, now, s, c), g)
  {
    hide AsSent, SentSlotOk, FecFill, Advance, Bounded, Recorded, CodeAsSent, Served, Remembered, WithPosition,
      HasRoom;
    RecordAsSent(env, sent, s, c);
    RecordedBounded(env, s, c);
    RecordRemembers(env, sent, s, c, g, code);
    var s1 := Recorded(env, s, c);
    RecordedSize(env, sent, s1, c.fecSetIndex);
    FillKeeps(env, sent, now, s1, c.fecSetIndex, g);
    FecFillBounded(env, now, s1, c.fecSetIndex);
    var fill := FecFill(env, now, s1, c.fecSetIndex);
    if fill.any {
      AdvanceKeepsShreds(env, fill.state);
      SameKeeps(sent, fill.state, Advance(env, fill.state), g);
    }
  }

  lemma RecordedSize(env: Env, sent: SentSlot, s: State, g: nat)
    requires SentSlotOk(env.lib, sent) && AsSent(env.lib, sent, s) && g in s.fecSets
    ensures g in sent && s.fecSets[g].numData == |sent[g].raws| > 0
  {
    hide SentSlotOk, EntryAsSent, CompletionAsSent, CodeFrom, SentSetOk, CodeWhole;
    assert BufferAsSent(env.lib, sent, g, s.fecSets[g]);
    BufferSize(env.lib, sent, g, s.fecSets[g]);
  }

  lemma PushCodeServes(env: Env, sent: SentSlot, now: nat, s: State, c: CodeArrival, g: nat, code: set<nat>)
    requires SentSlotOk(env.lib, sent) && AsSent(env.lib, sent, s) && CodeAsSent(env.lib, sent, c)
    requires Bounded(s) && CodeOk(c) && HasRoom(env, s, c) && Remembered(sent, s, g, code)
    ensures Remembered(sent, PushCode(env, now, s, c), g, WithPosition(g, code, c))
    ensures g == c.fecSetIndex ==> Served(sent, PushCode(env, now, s, c), g)
  {
    hide AsSent, SentSlotOk, Bounded, CodeAsSent, Served, Remembered, WithPosition, HasRoom, CodeStreamed, Flush;
    CodeStreamedServes(env, sent, now, s, c, g, code);
    CodeStreamedAsSent(env, sent, now, s, c);
    FlushKeeps(env, sent, now, CodeStreamed(env, now, s, c), g);
  }

  lemma PushDataRemembers(env: Env, sent: SentSlot, now: nat, s: State, d: DataArrival, g: nat, code: set<nat>)
    requires SentSlotOk(env.lib, sent) && AsSent(env.lib, sent, s) && DataAsSent(env.lib, sent, d)
    requires Bounded(s) && DataOk(d) && Remembered(sent, s, g, code)
    ensures Remembered(sent, PushData(env, now, s, d), g, code)
  {
    hide AsSent, SentSlotOk, Bounded, DataAsSent, Served, Remembered, Streamed, Flush;
    if d.lastInSlot {
      var s1 := s.(slotComplete := true);
      FlagKeepsBounded(s);
      SameAsSent(env.lib, sent, s, s1);
      SameKeeps(sent, s, s1, g);
      FlushKeeps(env, sent, now, s1, g);
      SameKeeps(sent, Flush(env, now, s1), Release(Flush(env, now, s1), d.handle.idx), g);
    } else if d.index < s.batchStart || d.index in s.pending {
      SameKeeps(sent, s, Release(s, d.handle.idx), g);
    } else {
      StreamedKeepsCode(env, sent, now, s, d, g, code);
      StreamedAsSent(env, sent, now, s, d);
      FlushKeeps(env, sent, now, Streamed(env, now, s, d), g);
    }
  }

  /** A data shred that the cursor has not passed on return leaves nothing of its set that could be rebuilt. */
  lemma PushDataServes(env: Env, sent: SentSlot, now: nat, s: State, d: DataArrival)
    requires SentSlotOk(env.lib, sent) && AsSent(env.lib, sent, s) && DataAsSent(env.lib, sent, d)
    requires Resting(env, s) && Bounded(s) && DataOk(d) && d.fecSetIndex in s.fecSets
    requires !d.lastInSlot && d.index >= s.batchStart && d.index !in s.pending
    requires PushData(env, now, s, d).cursor <= d.index
    ensures Served(sent, PushData(env, now, s, d), d.fecSetIndex)
  {
    hide AsSent, SentSlotOk, Bounded, DataAsSent, Served, Remembered, Streamed, Flush, Shape, Tracks, Ledger,
      Accounted, NothingReady;
    StreamedInv(env, now, s, d);
    FlushRests(env, now, Streamed(env, now, s, d));
    StreamedServes(env, sent, now, s, d);
    StreamedAsSent(env, sent, now, s, d);
    FlushKeeps(env, sent, now, Streamed(env, now, s, d), d.fecSetIndex);
  }

  lemma StreamedServes(env: Env, sent: SentSlot, now: nat, s: State, d: DataArrival)
    requires SentSlotOk(env.lib, sent) && AsSent(env.lib, sent, s) && DataAsSent(env.lib, sent, d)
    requires Bounded(s) && DataOk(d) && d.fecSetIndex in s.fecSets
    requires Streamed(env, now, s, d).cursor <= d.index
    ensures Served(sent, Streamed(env, now, s, d), d.fecSetIndex)
  {
    hide AsSent, SentSlotOk, FecFill, Advance, Bounded, DataAsSent, InsertEntry, Served;
    var g := d.fecSetIndex;
    ArrivalAsSent(env.lib, sent, d);
    InsertAsSent(env.lib, sent, now, s, d.index, d.Entry());
    InsertBounded'(now, s, d);
    var s1 := InsertEntry(now, s, d.index, d.Entry());
    InsertSets(now, s, d);
    AdvanceKeepsShreds(env, s1);
    var s2 := Advance(env, s1);
    SameAsSent(env.lib, sent, s1, s2);
    RecordedSize(env, sent, s2, g);
    if s2.cursor <= d.index {
      FillKeeps(env, sent, now, s2, g, g);
      FecFillBounded(env, now, s2, g);
      var fill := FecFill(env, now, s2, g);
      if fill.any {
        AdvanceKeepsShreds(env, fill.state);
        SameKeeps(sent, fill.state, Advance(env, fill.state), g);
      }
    }
  }

  lemma InsertSets(now: nat, s: State, d: DataArrival)
    ensures InsertEntry(now, s, d.index, d.Entry()).fecSets == s.fecSets
  {
  }

  // ---------- Runs ----------

  /** The sets that code shreds have come for. */
  ghost function CodeSets(events: Events): set<nat>
  {
    set k | 0 <= k < |events| && events[k].Code? :: events[k].code.fecSetIndex
  }

  /** The positions of the code shreds that have come for this set. */
  ghost function CodeReceived(events: Events, g: nat): set<nat>
  {
    set k | 0 <= k < |events| && events[k].Code? && events[k].code.fecSetIndex == g :: events[k].code.position
  }

  lemma StreamedShrinks(env: Env, now: nat, s: State, d: DataArrival)
    requires Bounded(s) && DataOk(d)
    ensures NoNewSets(s, Streamed(env, now, s, d))
  {
    hide FecFill, Advance, Bounded, InsertEntry;
    InsertBounded'(now, s, d);
    InsertSets(now, s, d);
    var s1 := InsertEntry(now, s, d.index, d.Entry());
    AdvanceKeepsShreds(env, s1);
    var s2 := Advance(env, s1);
    if s2.cursor <= d.index {
      FillShrinks(env, now, s2, d.fecSetIndex);
      FecFillBounded(env, now, s2, d.fecSetIndex);
      var fill := FecFill(env, now, s2, d.fecSetIndex);
      if fill.any { AdvanceKeepsShreds(env, fill.state); }
    }
  }

  lemma StepKeys(env: Env, s: State, e: Event)
    requires Bounded(s) && EventOk(e)
    ensures Step(env, s, e).fecSets.Keys <= s.fecSets.Keys + (if e.Code? then {e.code.fecSetIndex} else {})
  {
    hide Bounded, Flush, Streamed, DataOk, CodeOk, PushCode;
    match e
    case Data(now, d) =>
      if d.lastInSlot {
        FlagKeepsBounded(s);
        FlushShrinks(env, now, s.(slotComplete := true));
      } else if d.index >= s.batchStart && d.index !in s.pending {
        StreamedShrinks(env, now, s, d);
        FlushShrinks(env, now, Streamed(env, now, s, d));
      }
    case Code(now, c) =>
      PushCodeShrinks(env, now, s, c);
      RecordedKeys(env, s, c);
  }

  lemma {:induction false} KeysReceived(env: Env, events: Events)
    requires EventsOk(events)
    ensures After(env, events).fecSets.Keys <= CodeSets(events)
    decreases |events|
  {
    hide Step, EventOk;
    if events != [] {
      var n := |events| - 1;
      KeysReceived(env, events[..n]);
      StepKeys(env, After(env, events[..n]), events[n]);
      CodeSetsStep(events, n);
    }
  }

  lemma CodeSetsStep(events: Events, n: nat)
    requires n < |events|
    ensures CodeSets(events[..n]) <= CodeSets(events)
    ensures events[n].Code? ==> events[n].code.fecSetIndex in CodeSets(events)
  {
    forall f | f in CodeSets(events[..n])
      ensures f in CodeSets(events)
    {
      var k :| 0 <= k < n && events[..n][k].Code? && events[..n][k].code.fecSetIndex == f;
      assert events[k].Code? && events[k].code.fecSetIndex == f;
    }
  }

  lemma ReceivedStep(events: Events, g: nat)
    requires events != []
    ensures var n := |events| - 1;
            CodeReceived(events, g)
            == if events[n].Code? then WithPosition(g, CodeReceived(events[..n], g), events[n].code)
               else CodeReceived(events[..n], g)
  {
    var n := |events| - 1;
    var init := events[..n];
    forall p | p in CodeReceived(events, g)
      ensures p in CodeReceived(init, g)
           || (events[n].Code? && events[n].code.fecSetIndex == g && events[n].code.position == p)
    {
      var k :| 0 <= k < |events| && events[k].Code? && events[k].code.fecSetIndex == g && events[k].code.position == p;
      if k < n { assert init[k] == events[k]; }
    }
    forall p | p in CodeReceived(init, g)
      ensures p in CodeReceived(events, g)
    {
      var k :| 0 <= k < n && init[k].Code? && init[k].code.fecSetIndex == g && init[k].code.position == p;
      assert events[k] == init[k];
    }
  }

  lemma RoomLeft(env: Env, s: State, c: CodeArrival, all: set<nat>)
    requires s.fecSets.Keys <= all && c.fecSetIndex in all && |all| <= env.maxFecSets
    ensures HasRoom(env, s, c)
  {
    if c.fecSetIndex !in s.fecSets {
      SubsetSize(s.fecSets.Keys + {c.fecSetIndex}, all);
      assert |s.fecSets| == |s.fecSets.Keys|;
    }
  }

  /** As long as the limit on sets is not exceeded, every code shred that came is still at hand or not needed
      any more. */
  lemma {:induction false} AlwaysRemembered(env: Env, sent: SentSlot, events: Events, g: nat, all: set<nat>)
    requires SentSlotOk(env.lib, sent) && EventsOk(events)
    requires forall i :: 0 <= i < |events| ==> EventAsSent(env.lib, sent, events[i])
    requires CodeSets(events) <= all && |all| <= env.maxFecSets
    ensures Remembered(sent, After(env, events), g, CodeReceived(events, g))
    decreases |events|
  {
    hide SentSlotOk, AsSent, DataAsSent, CodeAsSent, Remembered, Bounded, PushData, PushCode, DataOk, CodeOk,
      CodeSets, CodeReceived, WithPosition;
    if events == [] {
      NothingReceived(sent, g);
    } else {
      var n := |events| - 1;
      CodeSetsStep(events, n);
      AlwaysRemembered(env, sent, events[..n], g, all);
      AlwaysAsSent(env, sent, events[..n]);
      KeysReceived(env, events[..n]);
      ReceivedStep(events, g);
      assert EventAsSent(env.lib, sent, events[n]) && EventOk(events[n]);
      var s := After(env, events[..n]);
      match events[n]
      case Data(now, d) => PushDataRemembers(env, sent, now, s, d, g, CodeReceived(events[..n], g));
      case Code(now, c) =>
        RoomLeft(env, s, c, all);
        PushCodeServes(env, sent, now, s, c, g, CodeReceived(events[..n], g));
    }
  }

  lemma NothingReceived(sent: SentSlot, g: nat)
    ensures Remembered(sent, NEW_SLOT, g, CodeReceived([], g))
  {
  }

  // ---------- Completeness ----------

  /** The last call concerned this set: it brought a code shred for it, or a data shred that was new and that
      the cursor has not passed. */
  ghost predicate ConcernedLast(env: Env, events: Events, f: nat)
    requires EventsOk(events)
  {
    && events != []
    && var n := |events| - 1;
    && var s := After(env, events[..n]);
    && match events[n]
       case Code(_, c) => c.fecSetIndex == f
       case Data(_, d) =>
         && d.fecSetIndex == f && !d.lastInSlot && d.index >= s.batchStart && d.index !in s.pending
         && After(env, events).cursor <= d.index
  }

  /** A batch end waits, and the set reaches into its range. */
  ghost predicate WaitedFor(s: State, f: nat)
  {
    BoundariesFrom(s) != {} && f <= Least(BoundariesFrom(s))
  }

  /** Recovery is complete. In every run of one sender's shreds within the limit on FEC sets, whenever the last
      call concerned a set or a batch end waits on it, and yet any of its shreds not sent last in the slot is
      missing from the window, then the data shreds of it at hand and all the code shreds that ever came for
      it are together fewer than its data shreds. */
  lemma RecoveryIsComplete(env: Env, sent: SentSlot, events: Events, s: State, f: nat, i: nat)
    requires Reaches(env, events, s) && SentSlotOk(env.lib, sent) && EventsOk(events)
    requires forall k :: 0 <= k < |events| ==> EventAsSent(env.lib, sent, events[k])
    requires |CodeSets(events)| <= env.maxFecSets
    requires ConcernedLast(env, events, f) || WaitedFor(s, f)
    requires Lacks(sent, s, f, i)
    ensures |HeldOf(s, f, |sent[f].raws|)| + |CodeReceived(events, f)| < |sent[f].raws|
  {
    hide Reaches, SentSlotOk, EventAsSent, Remembered, ConcernedLast, WaitedFor, HeldOf, CodeReceived, After, Short,
      CodeSets, AllThere;
    ReachesAfter(env, events, s);
    AlwaysRemembered(env, sent, events, f, CodeSets(events));
    AlwaysAsSent(env, sent, events);
    MissingIsNotThere(sent, s, f, i);
    HeldMisses(s, f, |sent[f].raws|, i);
    if CodeReceived(events, f) != {} {
      StillBuffered(sent, s, f, CodeReceived(events, f));
      RecordedSize(env, sent, s, f);
      if ConcernedLast(env, events, f) {
        LastServes(env, sent, events, f);
      } else {
        AlwaysWaitedServed(env, sent, events, f);
      }
      ShortBounds(s, f, CodeReceived(events, f));
    }
  }

  lemma MissingIsNotThere(sent: SentSlot, s: State, f: nat, i: nat)
    requires Lacks(sent, s, f, i)
    ensures !AllThere(sent, s, f)
  {
  }

  lemma InRangeIs(lo: nat, hi: nat)
    ensures forall i: nat :: i in Range(lo, hi) <==> lo <= i < hi
  {
  }

  lemma HeldMisses(s: State, f: nat, n: nat, i: nat)
    requires f <= i < f + n && i !in s.pending
    ensures |HeldOf(s, f, n)| < n
  {
    hide Range;
    var all := Range(f, f + n);
    RangeSize(f, f + n);
    assert i in all && HeldOf(s, f, n) <= all by { InRangeIs(f, f + n); }
    SubsetSize(HeldOf(s, f, n), all - {i});
  }

  lemma StillBuffered(sent: SentSlot, s: State, f: nat, code: set<nat>)
    requires Remembered(sent, s, f, code) && code != {} && !AllThere(sent, s, f)
    ensures f in s.fecSets && code <= s.fecSets[f].code.Keys
  {
  }

  lemma ShortBounds(s: State, f: nat, code: set<nat>)
    requires Short(s, f) && code <= s.fecSets[f].code.Keys
    ensures |HeldOf(s, f, s.fecSets[f].numData)| + |code| < s.fecSets[f].numData
  {
    SubsetSize(code, s.fecSets[f].code.Keys);
    assert |s.fecSets[f].code| == |s.fecSets[f].code.Keys|;
  }

  lemma LastServes(env: Env, sent: SentSlot, events: Events, f: nat)
    requires SentSlotOk(env.lib, sent) && EventsOk(events) && ConcernedLast(env, events, f)
    requires forall k :: 0 <= k < |events| ==> EventAsSent(env.lib, sent, events[k])
    requires |CodeSets(events)| <= env.maxFecSets && f in After(env, events).fecSets
    ensures Served(sent, After(env, events), f)
  {
    hide SentSlotOk, AsSent, DataAsSent, CodeAsSent, Served, Bounded, PushData, PushCode, DataOk, CodeOk, CodeSets,
      Resting;
    var n := |events| - 1;
    var s := After(env, events[..n]);
    AlwaysAsSent(env, sent, events[..n]);
    AlwaysRests(env, events[..n]);
    CodeSetsStep(events, n);
    KeysReceived(env, events[..n]);
    assert EventAsSent(env.lib, sent, events[n]) && EventOk(events[n]);
    StepKeys(env, s, events[n]);
    match events[n]
    case Data(now, d) => PushDataServes(env, sent, now, s, d);
    case Code(now, c) =>
      RoomLeft(env, s, c, CodeSets(events));
      PushCodeServes(env, sent, now, s, c, f, {});
  }

  // ---------- Sets that a batch end waits on ----------

  lemma {:induction false} AllHintsServed(env: Env, sent: SentSlot, now: nat, s: State, hints: seq<nat>, g: nat)
    requires SentSlotOk(env.lib, sent) && AsSent(env.lib, sent, s) && Bounded(s)
    requires g in s.fecSets ==> g in hints || Served(sent, s, g)
    ensures var s1 := FillAll(env, now, s, hints); g in s1.fecSets ==> Served(sent, s1, g)
    ensures Keeps(sent, s, FillAll(env, now, s, hints), g)
    decreases |hints|
  {
    hide SentSlotOk, AsSent, FecFill, Served, Remembered, Bounded;
    FillAllKeeps(env, sent, now, s, hints, g);
    if hints != [] {
      var s1 := FecFill(env, now, s, hints[0]).state;
      FillKeeps(env, sent, now, s, hints[0], g);
      FecFillBounded(env, now, s, hints[0]);
      FecFillAsSent(env, sent, now, s, hints[0]);
      FillExhausts(env, now, s, hints[0]);
      if g in s.fecSets { RecordedSize(env, sent, s, g); }
      AllHintsServed(env, sent, now, s1, hints[1..], g);
    }
  }

  /** Every set that a batch end waits on is served. */
  ghost predicate WaitedServed(sent: SentSlot, s: State, g: nat)
  {
    WaitedFor(s, g) && g in s.fecSets ==> Served(sent, s, g)
  }

  lemma StopServes(env: Env, sent: SentSlot, now: nat, s: State, g: nat)
    requires SentSlotOk(env.lib, sent) && AsSent(env.lib, sent, s) && Bounded(s) && BoundariesFrom(s) != {}
    requires var bc := Least(BoundariesFrom(s)); FlushTurn(env, now, s, bc, s.boundaries[bc]).Stop?
    ensures WaitedServed(sent, Refilled(env, now, s, Least(BoundariesFrom(s))), g)
  {
    hide SentSlotOk, AsSent, Served, Bounded, FillAll, Keeps, FinishWhole, FinishSalvaged;
    var bc := Least(BoundariesFrom(s));
    var hints := Hints(s, bc);
    var s1 := FillAll(env, now, s, hints);
    assert Refilled(env, now, s, bc) == s1;
    FillAllExhausts(env, now, s, hints);
    FillAllAsSent(env, sent, now, s, hints);
    assert bc in BoundariesFrom(s1);
    if WaitedFor(s1, g) && g in s1.fecSets {
      RecordedSize(env, sent, s1, g);
      if g + s.fecSets[g].numData > s.batchStart {
        assert g in hints;
        AllHintsServed(env, sent, now, s, hints, g);
      } else {
        PassedIsServed(sent, s1, g);
      }
    }
  }

  lemma PassedIsServed(sent: SentSlot, s: State, g: nat)
    requires g in sent && g + |sent[g].raws| <= s.batchStart
    ensures Served(sent, s, g)
  {
    PassedIsThere(sent, s, g);
  }

  lemma {:induction false} FlushServes(env: Env, sent: SentSlot, now: nat, s: State, g: nat)
    requires SentSlotOk(env.lib, sent) && AsSent(env.lib, sent, s) && Bounded(s)
    ensures WaitedServed(sent, Flush(env, now, s), g)
    decreases U32_MAX - s.batchStart
  {
    hide SentSlotOk, AsSent, FlushTurn, Refilled, Bounded, Served;
    if BoundariesFrom(s) != {} {
      var bc := Least(BoundariesFrom(s));
      BoundaryBounded(s, bc);
      FlushTurnBounded(env, now, s, bc, s.boundaries[bc]);
      TurnAsSent(env, sent, now, s, bc, s.boundaries[bc]);
      match FlushTurn(env, now, s, bc, s.boundaries[bc])
      case Stop => StopServes(env, sent, now, s, g);
      case FinishNow(s2) => FlushServes(env, sent, now, s2, g);
    }
  }

  lemma ReleaseServed(sent: SentSlot, s: State, idx: nat, g: nat)
    requires WaitedServed(sent, s, g)
    ensures WaitedServed(sent, Release(s, idx), g)
  {
    hide Served;
    SameKeeps(sent, s, Release(s, idx), g);
    assert BoundariesFrom(Release(s, idx)) == BoundariesFrom(s);
  }

  lemma {:induction false} AlwaysWaitedServed(env: Env, sent: SentSlot, events: Events, g: nat)
    requires SentSlotOk(env.lib, sent) && EventsOk(events)
    requires forall i :: 0 <= i < |events| ==> EventAsSent(env.lib, sent, events[i])
    ensures WaitedServed(sent, After(env, events), g)
    decreases |events|
  {
    hide SentSlotOk, AsSent, DataAsSent, CodeAsSent, Bounded, Flush, Streamed, CodeStreamed, DataOk, CodeOk,
      WaitedServed;
    if events == [] {
      NothingWaits(sent, g);
    } else {
      var n := |events| - 1;
      var s := After(env, events[..n]);
      AlwaysWaitedServed(env, sent, events[..n], g);
      AlwaysAsSent(env, sent, events[..n]);
      assert EventAsSent(env.lib, sent, events[n]) && EventOk(events[n]);
      match events[n]
      case Data(now, d) =>
        if d.lastInSlot {
          var s1 := s.(slotComplete := true);
          FlagKeepsBounded(s);
          SameAsSent(env.lib, sent, s, s1);
          FlushServes(env, sent, now, s1, g);
          ReleaseServed(sent, Flush(env, now, s1), d.handle.idx, g);
        } else if d.index < s.batchStart || d.index in s.pending {
          ReleaseServed(sent, s, d.handle.idx, g);
        } else {
          StreamedAsSent(env, sent, now, s, d);
          FlushServes(env, sent, now, Streamed(env, now, s, d), g);
        }
      case Code(now, c) =>
        CodeStreamedAsSent(env, sent, now, s, c);
        FlushServes(env, sent, now, CodeStreamed(env, now, s, c), g);
    }
  }

  lemma NothingWaits(sent: SentSlot, g: nat)
    ensures WaitedServed(sent, NEW_SLOT, g)
  {
    assert BoundariesFrom(NEW_SLOT) == {};
  }

  // ---------- Sets that ended ----------

  /** No set is kept that ends before the window. */
  ghost predicate NoneEnded(s: State)
  {
    forall g :: g in s.fecSets && s.fecSets[g].numData > 0 ==> g + s.fecSets[g].numData > s.batchStart
  }

  lemma CompleteForgets(s: State, bc: nat, finish: Finish)
    requires bc < U32_MAX
    ensures NoneEnded(Complete(s, bc, finish))
  {
    hide HandlesOf, Sorted, KeysBelow, BoundariesIn;
  }

  lemma FinishForgets(env: Env, s: State, bc: nat, timedOut: bool)
    requires bc < U32_MAX
    ensures NoneEnded(FinishWhole(env, s, bc)) && NoneEnded(FinishSalvaged(env, s, bc, timedOut))
  {
    hide Complete, Emit, DecodeBatch, Concat, RunsTxs, Runs, SalvagedFrom, NoneEnded;
    var bytes := Concat(s.pending, s.batchStart, bc + 1);
    match DecodeBatch(env.codec, bytes) {
      case Some(txs) =>
        var e := Emit(s, txs);
        CompleteForgets(if Fresh(s.yielded, txs) != [] then CountFallback(e) else CountStreaming(e), bc,
          Whole(bytes, s.log.emitted));
      case None =>
        CompleteForgets(CountSkipped(CountDecodeError(s)), bc, Whole(bytes, s.log.emitted));
    }
    var s1 := Salvage(env, s, s.batchStart, bc);
    var s2 := if |s1.log.emitted| > |s.log.emitted| then CountFallback(s1) else CountSkipped(s1);
    CompleteForgets(if timedOut then CountTimeout(s2) else s2, bc, SalvagedFrom(s, bc, timedOut));
  }

  lemma RefillForgets(now: nat, s: State, s': State)
    requires RefillOf(now, s, s') && NoneEnded(s)
    ensures NoneEnded(s')
  {
  }

  lemma {:induction false} FlushForgets(env: Env, now: nat, s: State)
    requires Inv(env, s) && AtMostLast(s) && Bounded(s)
    requires NoneEnded(s) || Flush(env, now, s).batchStart > s.batchStart
    ensures NoneEnded(Flush(env, now, s))
    decreases U32_MAX - s.batchStart
  {
    hide Shape, Tracks, Ledger, Accounted, FinishWhole, FinishSalvaged, Refilled, RefillOf, Bounded, NothingReady,
      NoneEnded;
    if BoundariesFrom(s) != {} {
      var bc := Least(BoundariesFrom(s));
      FlushTurnBounded'(env, now, s, bc);
      RefilledRefills(env, now, s, bc);
      RefilledKeepsLog(env, now, s, bc);
      var s1 := Refilled(env, now, s, bc);
      FinishForgets(env, s1, bc, true);
      if NoneEnded(s) { RefillForgets(now, s, s1); }
      match FlushTurn(env, now, s, bc, s.boundaries[bc])
      case Stop =>
      case FinishNow(s2) =>
        TurnFinishes(env, now, s);
        FlushForgets(env, now, s2);
    }
  }

  /** A call that moves the window on leaves no FEC set buffered that ends before it. */
  lemma MovingForgets(env: Env, s: State, e: Event)
    requires Resting(env, s) && Bounded(s) && EventOk(e)
    requires Step(env, s, e).batchStart > s.batchStart
    ensures NoneEnded(Step(env, s, e))
  {
    hide Shape, Tracks, Ledger, Accounted, NothingReady, NoBoundary, Bounded, Flush, Streamed, CodeStreamed, DataOk,
      CodeOk, NoneEnded;
    match e
    case Data(now, d) =>
      if d.lastInSlot {
        FlagRests(env, s, true);
        FlushForgets(env, now, s.(slotComplete := true));
        SameEnded(Flush(env, now, s.(slotComplete := true)), d.handle.idx);
      } else if d.index >= s.batchStart && d.index !in s.pending {
        StreamedInv(env, now, s, d);
        StreamedStart(env, now, s, d);
        FlushForgets(env, now, Streamed(env, now, s, d));
      }
    case Code(now, c) =>
      CodeStreamedInv(env, now, s, c);
      CodeStreamedStart(env, now, s, c);
      FlushForgets(env, now, CodeStreamed(env, now, s, c));
  }

  lemma SameEnded(s: State, idx: nat)
    requires NoneEnded(s)
    ensures NoneEnded(Release(s, idx))
  {
  }

  lemma StreamedStart(env: Env, now: nat, s: State, d: DataArrival)
    requires Bounded(s) && DataOk(d)
    ensures Streamed(env, now, s, d).batchStart == s.batchStart
  {
    hide FecFill, Advance, Bounded;
    InsertBounded'(now, s, d);
    var s1 := InsertEntry(now, s, d.index, d.Entry());
    AdvanceKeepsShreds(env, s1);
    var s2 := Advance(env, s1);
    FecFillLog(env, now, s2, d.fecSetIndex);
    FecFillBounded(env, now, s2, d.fecSetIndex);
    var fill := FecFill(env, now, s2, d.fecSetIndex);
    if fill.any { AdvanceKeepsShreds(env, fill.state); }
  }

  lemma CodeStreamedStart(env: Env, now: nat, s: State, c: CodeArrival)
    requires Bounded(s) && CodeOk(c)
    ensures CodeStreamed(env, now, s, c).batchStart == s.batchStart
  {
    hide FecFill, Advance, Bounded, Recorded;
    RecordedBounded(env, s, c);
    RecordedSame(env, s, c);
    var s1 := Recorded(env, s, c);
    FecFillLog(env, now, s1, c.fecSetIndex);
    FecFillBounded(env, now, s1, c.fecSetIndex);
    var fill := FecFill(env, now, s1, c.fecSetIndex);
    if fill.any { AdvanceKeepsShreds(env, fill.state); }
  }
}
