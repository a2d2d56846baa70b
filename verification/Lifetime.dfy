/** The invariant over whole runs: the flush loop, each public call, any sequence of arrivals, and the
    harvest that ends a slot. */
module Lifetime {
  import opened Bytes
  import opened Collections
  import opened Decoder
  import opened Slot
  import opened Invariant

  /** Progress is never undone. */
  ghost predicate Later(s: State, s': State)
  {
    && s.batchStart <= s'.batchStart && s.cursor <= s'.cursor
    && s.log.completions <= s'.log.completions && s.log.delivered <= s'.log.delivered
  }

  lemma LaterTrans(a: State, b: State, c: State)
    requires Later(a, b) && Later(b, c)
    ensures Later(a, c)
  {
  }

  /** The least batch end is never behind the cursor: either nothing before the cursor ends a batch,
      or the shred just streamed does and its whole range is present. */
  lemma LeastBoundary(env: Env, s: State)
    requires Inv(env, s) && AtMostLast(s) && BoundariesFrom(s) != {}
    ensures var bc := Least(BoundariesFrom(s));
            && IsBoundary(s.pending, bc) && bc < U32_MAX && s.batchStart <= bc
            && s.cursor <= bc + 1
            && (NoBoundary(s) || AllPresent(s.pending, s.batchStart, bc + 1))
  {
    hide Tracks, Ledger, Accounted;
    var bc := Least(BoundariesFrom(s));
    assert bc in s.boundaries;
    assert IsBoundary(s.pending, bc);
    assert EntryOk(bc, s.pending[bc]);
    if !NoBoundary(s) {
      var i :| s.batchStart <= i < s.cursor && IsBoundary(s.pending, i);
      assert i in s.boundaries;
      assert i + 1 == s.cursor;
      assert i in BoundariesFrom(s);
    }
  }

  /** One turn that finishes a range. */
  lemma TurnFinishes(env: Env, now: nat, s: State)
    requires Inv(env, s) && AtMostLast(s) && BoundariesFrom(s) != {}
    ensures var bc := Least(BoundariesFrom(s));
            var turn := FlushTurn(env, now, s, bc, s.boundaries[bc]);
            turn.FinishNow? ==>
              Inv(env, turn.state) && Finished(Refilled(env, now, s, bc), bc, turn.state) && NoBoundary(turn.state)
  {
    hide Shape, Tracks, Ledger, Accounted, FinishWhole, FinishSalvaged, Refilled, RefillOf;
    LeastBoundary(env, s);
    var bc := Least(BoundariesFrom(s));
    assert s.batchStart <= bc;
    var s1 := Refilled(env, now, s, bc);
    RefilledRefills(env, now, s, bc);
    RefillInv(env, now, s, s1);
    RefillKeeps(now, s, s1, bc);
    FinishWholeInv(env, s1, bc);
    FinishSalvagedInv(env, s1, bc, true);
  }

  lemma RefillKeeps(now: nat, s: State, s1: State, bc: nat)
    requires RefillOf(now, s, s1) && IsBoundary(s.pending, bc)
    ensures IsBoundary(s1.pending, bc)
    ensures s1.batchStart == s.batchStart && s1.cursor == s.cursor && s1.log == s.log
  {
  }

  /** The turn that returns: the range has a gap that recovery could not fill, and is not overdue. */
  lemma TurnStops(env: Env, now: nat, s: State)
    requires Inv(env, s) && AtMostLast(s) && BoundariesFrom(s) != {}
    requires var bc := Least(BoundariesFrom(s)); FlushTurn(env, now, s, bc, s.boundaries[bc]).Stop?
    ensures var s1 := Refilled(env, now, s, Least(BoundariesFrom(s)));
            Resting(env, s1) && NotOverdue(env, now, s1) && RefillOf(now, s, s1)
  {
    hide Tracks, Ledger, Accounted, FinishWhole, FinishSalvaged, Refilled;
    LeastBoundary(env, s);
    var bc := Least(BoundariesFrom(s));
    var s1 := Refilled(env, now, s, bc);
    RefilledRefills(env, now, s, bc);
    RefillInv(env, now, s, s1);
    var gap :| s.batchStart <= gap < bc + 1 && gap !in s1.pending;
    assert gap !in s.pending;
    assert !AllPresent(s.pending, s.batchStart, bc + 1);
    forall b: nat | IsBoundary(s1.pending, b) && s1.batchStart <= b
      ensures !PoolRange(s1.pending, s1.batchStart, b + 1)
    {
      if s1.pending[b].source.FromPool? {
        assert b in s.pending;
        assert IsBoundary(s.pending, b);
        assert b in BoundariesFrom(s);
        assert bc <= b;
        assert s1.batchStart <= gap < b + 1;
      }
    }
    StopNotOverdue(env, now, s, s1);
  }

  lemma StopNotOverdue(env: Env, now: nat, s: State, s1: State)
    requires Shape(s) && RefillOf(now, s, s1) && BoundariesFrom(s) != {}
    requires Elapsed(now, s.boundaries[Least(BoundariesFrom(s))]) < env.timeout
    ensures NotOverdue(env, now, s1)
  {
    var bc := Least(BoundariesFrom(s));
    assert IsBoundary(s.pending, bc);
    assert IsBoundary(s1.pending, bc);
    assert bc in BoundariesFrom(s1);
    var least := Least(BoundariesFrom(s1));
    if least in s.boundaries {
      assert least in BoundariesFrom(s);
      assert least == bc;
    }
  }

  /** The flush loop, from a state in which streaming has stopped: every completed range is exact and
      accounted for, the decoder and the window agree, nothing ready is left behind and nothing kept
      waiting is overdue. */
  lemma {:induction false} FlushRests(env: Env, now: nat, s: State)
    requires Inv(env, s) && AtMostLast(s) && Bounded(s)
    ensures Resting(env, Flush(env, now, s)) && NotOverdue(env, now, Flush(env, now, s))
    ensures Later(s, Flush(env, now, s))
    decreases U32_MAX - s.batchStart
  {
    hide Shape, Tracks, Ledger, Accounted, FlushTurn, Refilled, RefillOf, Bounded, NothingReady;
    if BoundariesFrom(s) == {} {
      NoBoundariesRests(env, s);
    } else {
      var bc := Least(BoundariesFrom(s));
      FlushTurnBounded'(env, now, s, bc);
      match FlushTurn(env, now, s, bc, s.boundaries[bc])
      case Stop =>
        TurnStops(env, now, s);
        RefillKeeps(now, s, Refilled(env, now, s, bc), bc);
      case FinishNow(s1) =>
        TurnFinishes(env, now, s);
        RefilledKeepsLog(env, now, s, bc);
        FlushRests(env, now, s1);
    }
  }

  lemma FlushTurnBounded'(env: Env, now: nat, s: State, bc: nat)
    requires Inv(env, s) && AtMostLast(s) && BoundariesFrom(s) != {} && bc == Least(BoundariesFrom(s))
    ensures IsBoundary(s.pending, bc) && s.batchStart <= bc < U32_MAX
    ensures Bounded(s)
    ensures FlushTurn(env, now, s, bc, s.boundaries[bc]).FinishNow? ==>
              Bounded(FlushTurn(env, now, s, bc, s.boundaries[bc]).state)
    ensures s.cursor <= bc + 1
  {
    hide Tracks, Ledger, Accounted, FlushTurn, Shape, Bounded;
    LeastBoundary(env, s);
    ShapeBounded(s);
    FlushTurnBounded(env, now, s, bc, s.boundaries[bc]);
  }

  lemma RefilledKeepsLog(env: Env, now: nat, s: State, bc: nat)
    requires Shape(s)
    ensures Refilled(env, now, s, bc).log == s.log && Refilled(env, now, s, bc).batchStart == s.batchStart
    ensures Refilled(env, now, s, bc).cursor == s.cursor
  {
    hide Refilled, Shape;
    RefilledRefills(env, now, s, bc);
  }

  lemma NoBoundariesRests(env: Env, s: State)
    requires Inv(env, s) && BoundariesFrom(s) == {}
    ensures NoBoundary(s) && NothingReady(s)
  {
    hide Tracks, Ledger, Accounted;
    forall i: nat | s.batchStart <= i
      ensures !IsBoundary(s.pending, i)
    {
      assert i !in BoundariesFrom(s);
      assert i in s.boundaries <==> IsBoundary(s.pending, i);
    }
  }

  // ---------- Public calls ----------

  lemma ArrivalEntryOk(d: DataArrival)
    requires DataOk(d)
    ensures EntryOk(d.index, d.Entry())
  {
  }

  lemma InsertInv(env: Env, now: nat, s: State, i: nat, ps: PendingShred)
    requires Inv(env, s) && NoBoundary(s) && s.batchStart <= i && i !in s.pending && EntryOk(i, ps)
    ensures Inv(env, InsertEntry(now, s, i, ps)) && NoBoundary(InsertEntry(now, s, i, ps))
    ensures Later(s, InsertEntry(now, s, i, ps))
  {
    hide EntryOk;
    InsertShape(now, s, i, ps);
    InsertTracks(env, now, s, i, ps);
    var s' := InsertEntry(now, s, i, ps);
    forall j | s'.batchStart <= j < s'.cursor
      ensures !IsBoundary(s'.pending, j)
    {
      assert j in s.pending;
      assert !IsBoundary(s.pending, j);
    }
  }

  /** The insert-stream-refill-stream part of `push_data`. A batch end reached by the first streaming
      pass needs the new shred, so it lies at or past it and the second pass is skipped: no pass ever
      runs on into a second batch. */
  lemma StreamedInv(env: Env, now: nat, s: State, d: DataArrival)
    requires Resting(env, s) && Bounded(s) && DataOk(d) && s.batchStart <= d.index && d.index !in s.pending
    ensures Inv(env, Streamed(env, now, s, d)) && AtMostLast(Streamed(env, now, s, d))
    ensures Later(s, Streamed(env, now, s, d))
  {
    hide Shape, Tracks, Ledger, Accounted, InsertEntry, Advance, FecFill, Bounded, NothingReady;
    ArrivalEntryOk(d);
    InsertInv(env, now, s, d.index, d.Entry());
    var s1 := InsertEntry(now, s, d.index, d.Entry());
    InsertBounded'(now, s, d);
    AdvanceInv(env, s1);
    var s2 := Advance(env, s1);
    LaterSame(s, s1, s2);
    if s2.cursor <= d.index {
      NoEndWithoutNewShred(env, now, s, d, s2);
      var fill := FecFill(env, now, s2, d.fecSetIndex);
      FecFillRefills(env, now, s2, d.fecSetIndex);
      FillInv(env, now, s2, fill.state);
      FecFillBounded(env, now, s2, d.fecSetIndex);
      if fill.any {
        AdvanceInv(env, fill.state);
        LaterSame(s, fill.state, Advance(env, fill.state));
      } else {
        NoBoundaryIsAtMostLast(fill.state);
      }
    }
  }

  lemma LaterSame(s: State, s1: State, s2: State)
    requires Later(s, s1) && SameShreds(s1, s2)
    ensures Later(s, s2)
  {
  }

  lemma NoBoundaryIsAtMostLast(s: State)
    requires NoBoundary(s)
    ensures AtMostLast(s)
  {
  }

  lemma FillInv(env: Env, now: nat, s: State, s': State)
    requires Inv(env, s) && NoBoundary(s) && RefillOf(now, s, s')
    ensures Inv(env, s') && NoBoundary(s')
    ensures s'.batchStart == s.batchStart && s'.cursor == s.cursor && s'.log == s.log
  {
    RefillInv(env, now, s, s');
  }

  lemma InsertBounded'(now: nat, s: State, d: DataArrival)
    requires Bounded(s) && DataOk(d)
    ensures Bounded(InsertEntry(now, s, d.index, d.Entry()))
  {
  }

  lemma NoEndWithoutNewShred(env: Env, now: nat, s: State, d: DataArrival, s2: State)
    requires Shape(s) && NothingReady(s) && d.index !in s.pending
    requires SameShreds(InsertEntry(now, s, d.index, d.Entry()), s2)
    requires Shape(s2) && AtMostLast(s2) && s2.cursor <= d.index
    ensures NoBoundary(s2)
  {
    forall i | s2.batchStart <= i < s2.cursor
      ensures !IsBoundary(s2.pending, i)
    {
      forall j | s.batchStart <= j < i + 1
        ensures j in s.pending && s.pending[j].source.FromPool?
      {
        assert j in s2.pending && s2.pending[j].source.FromPool?;
      }
      assert PoolRange(s.pending, s.batchStart, i + 1);
      assert i in s.pending && s2.pending[i] == s.pending[i];
    }
  }

  lemma ReleaseRests(env: Env, s: State, idx: nat)
    requires Resting(env, s)
    ensures Resting(env, Release(s, idx)) && Later(s, Release(s, idx))
    ensures forall now :: NotOverdue(env, now, s) ==> NotOverdue(env, now, Release(s, idx))
  {
    assert BoundariesFrom(Release(s, idx)) == BoundariesFrom(s);
  }

  lemma PushDataRests(env: Env, now: nat, s: State, d: DataArrival)
    requires Resting(env, s) && Bounded(s) && DataOk(d)
    ensures Resting(env, PushData(env, now, s, d)) && Later(s, PushData(env, now, s, d))
    ensures d.lastInSlot || (d.index >= s.batchStart && d.index !in s.pending)
      ==> NotOverdue(env, now, PushData(env, now, s, d))
  {
    hide Shape, Tracks, Ledger, Accounted, Flush, Streamed, Bounded, NothingReady, NoBoundary, NotOverdue;
    if d.lastInSlot {
      var s1 := s.(slotComplete := true);
      FlagRests(env, s, true);
      FlushRests(env, now, s1);
      ReleaseRests(env, Flush(env, now, s1), d.handle.idx);
    } else if d.index < s.batchStart || d.index in s.pending {
      ReleaseRests(env, s, d.handle.idx);
    } else {
      StreamedInv(env, now, s, d);
      FlushRests(env, now, Streamed(env, now, s, d));
    }
  }

  lemma FlagRests(env: Env, s: State, complete: bool)
    requires Resting(env, s) && Bounded(s)
    ensures Resting(env, s.(slotComplete := complete)) && AtMostLast(s.(slotComplete := complete))
    ensures Bounded(s.(slotComplete := complete))
  {
  }

  lemma RecordedInv(env: Env, s: State, c: CodeArrival)
    requires Inv(env, s) && NoBoundary(s) && CodeOk(c)
    ensures Inv(env, Recorded(env, s, c)) && NoBoundary(Recorded(env, s, c)) && Later(s, Recorded(env, s, c))
  {
    RecordedKeeps(env, s, c);
    var s' := Recorded(env, s, c);
    assert s' == s.(fecSets := s'.fecSets, stats := s'.stats);
  }

  lemma RecordedKeeps(env: Env, s: State, c: CodeArrival)
    requires CodeOk(c) && forall f :: f in s.fecSets ==> f + s.fecSets[f].numData <= U32_MAX
    ensures var s' := Recorded(env, s, c);
            && s' == s.(fecSets := s'.fecSets, stats := s'.stats)
            && s'.stats == s.stats.(fecSetsEvicted := s'.stats.fecSetsEvicted)
            && forall f :: f in s'.fecSets ==> f + s'.fecSets[f].numData <= U32_MAX
  {
  }

  lemma PushCodeRests(env: Env, now: nat, s: State, c: CodeArrival)
    requires Resting(env, s) && Bounded(s) && CodeOk(c)
    ensures Resting(env, PushCode(env, now, s, c)) && NotOverdue(env, now, PushCode(env, now, s, c))
    ensures Later(s, PushCode(env, now, s, c))
  {
    hide Shape, Tracks, Ledger, Accounted, Flush, Recorded, FecFill, Advance, Bounded, NothingReady, NotOverdue;
    RecordedInv(env, s, c);
    RecordedBounded(env, s, c);
    var s1 := Recorded(env, s, c);
    var fill := FecFill(env, now, s1, c.fecSetIndex);
    FecFillRefills(env, now, s1, c.fecSetIndex);
    FillInv(env, now, s1, fill.state);
    FecFillBounded(env, now, s1, c.fecSetIndex);
    if fill.any {
      AdvanceInv(env, fill.state);
      LaterSame(s, fill.state, Advance(env, fill.state));
      FlushRests(env, now, Advance(env, fill.state));
    } else {
      NoBoundaryIsAtMostLast(fill.state);
      FlushRests(env, now, fill.state);
    }
  }

  lemma NewSlotRests(env: Env)
    ensures Resting(env, NEW_SLOT)
  {
    EmptyAccepted(env.codec);
    assert Concat(NEW_SLOT.pending, 0, 0) == [];
  }

  lemma StepRests(env: Env, s: State, e: Event)
    requires Resting(env, s) && Bounded(s) && EventOk(e)
    ensures Resting(env, Step(env, s, e)) && Later(s, Step(env, s, e))
  {
    hide Resting, Bounded, PushData, PushCode;
    match e
    case Data(now, d) => PushDataRests(env, now, s, d);
    case Code(now, c) => PushCodeRests(env, now, s, c);
  }

  /** Between calls every slot is at rest, whatever arrived and in whatever order. */
  lemma {:induction false} AlwaysRests(env: Env, events: Events)
    requires EventsOk(events)
    ensures Resting(env, After(env, events))
    decreases |events|
  {
    hide Resting, Step;
    if events == [] {
      NewSlotRests(env);
    } else {
      AlwaysRests(env, events[..|events| - 1]);
      StepRests(env, After(env, events[..|events| - 1]), events[|events| - 1]);
    }
  }

  // ---------- The harvest ----------

  /** The remaining boundaries in order, none behind the cursor by more than a finished range. */
  ghost predicate HarvestList(s: State, bcs: seq<nat>)
  {
    && Increasing(bcs)
    && forall i :: s.batchStart <= i && IsBoundary(s.pending, i) <==> i in bcs
  }

  ghost predicate HarvestReady(env: Env, s: State, bcs: seq<nat>)
  {
    && Inv(env, s) && NoBoundary(s) && HarvestList(s, bcs)
  }

  lemma HarvestHead(env: Env, s: State, bcs: seq<nat>)
    requires HarvestReady(env, s, bcs) && bcs != []
    ensures s.batchStart <= bcs[0] < U32_MAX && s.cursor <= bcs[0] && IsBoundary(s.pending, bcs[0])
    ensures BoundariesIn(s.pending, s.batchStart, bcs[0] + 1) == {bcs[0]}
  {
    hide Tracks, Ledger, Accounted;
    assert bcs[0] in bcs;
    assert EntryOk(bcs[0], s.pending[bcs[0]]);
    forall i | s.batchStart <= i <= bcs[0] && IsBoundary(s.pending, i)
      ensures i == bcs[0]
    {
      assert i in bcs;
    }
    assert BoundariesIn(s.pending, s.batchStart, bcs[0] + 1) <= {bcs[0]} by {
      assert forall i :: i in s.pending && s.pending[i].batchComplete ==> IsBoundary(s.pending, i);
    }
  }

  lemma HarvestTail(s: State, bcs: seq<nat>, s': State)
    requires HarvestList(s, bcs) && bcs != []
    requires s'.batchStart == bcs[0] + 1
    requires s'.pending == map i | i in s.pending && i >= bcs[0] + 1 :: s.pending[i]
    requires s.batchStart <= bcs[0]
    ensures HarvestList(s', bcs[1..])
  {
    forall i
      ensures s'.batchStart <= i && IsBoundary(s'.pending, i) <==> i in bcs[1..]
    {
      if s'.batchStart <= i && IsBoundary(s'.pending, i) {
        assert IsBoundary(s.pending, i);
        var k :| 0 <= k < |bcs| && bcs[k] == i;
        assert bcs[1..][k - 1] == i;
      }
      if i in bcs[1..] {
        var k :| 0 <= k < |bcs[1..]| && bcs[1..][k] == i;
        assert bcs[k + 1] == i;
        assert i in bcs;
        assert bcs[0] < i;
        assert IsBoundary(s.pending, i);
      }
    }
  }

  lemma CompletePending(s: State, bc: nat, finish: Finish)
    requires bc < U32_MAX
    ensures Complete(s, bc, finish).pending == map i | i in s.pending && i >= bc + 1 :: s.pending[i]
  {
  }

  lemma FinishPending(env: Env, s: State, bc: nat, timedOut: bool)
    requires bc < U32_MAX
    ensures FinishWhole(env, s, bc).pending == map i | i in s.pending && i >= bc + 1 :: s.pending[i]
    ensures FinishSalvaged(env, s, bc, timedOut).pending == map i | i in s.pending && i >= bc + 1 :: s.pending[i]
  {
    hide Emit, RunsTxs, DecodeBatch, Concat, Runs, Complete, SalvagedFrom;
    var bytes := Concat(s.pending, s.batchStart, bc + 1);
    match DecodeBatch(env.codec, bytes) {
      case Some(txs) =>
        var e := Emit(s, txs);
        EmitKeeps(s, txs);
        CompletePending(if Fresh(s.yielded, txs) != [] then CountFallback(e) else CountStreaming(e), bc,
          Whole(bytes, s.log.emitted));
      case None =>
        CompletePending(CountSkipped(CountDecodeError(s)), bc, Whole(bytes, s.log.emitted));
    }
    EmitKeeps(s, RunsTxs(env, s.pending, Runs(s.pending.Keys, s.batchStart, bc + 1)));
    var s1 := Salvage(env, s, s.batchStart, bc);
    var s2 := if |s1.log.emitted| > |s.log.emitted| then CountFallback(s1) else CountSkipped(s1);
    CompletePending(if timedOut then CountTimeout(s2) else s2, bc, SalvagedFrom(s, bc, timedOut));
  }

  /** Every range the harvest completes holds exactly one batch end. */
  lemma {:induction false} HarvestBatchesInv(env: Env, s: State, bcs: seq<nat>)
    requires HarvestReady(env, s, bcs)
    ensures Inv(env, HarvestBatches(env, s, bcs)) && Later(s, HarvestBatches(env, s, bcs))
    ensures forall k :: |s.log.completions| <= k < |HarvestBatches(env, s, bcs).log.completions| ==>
              var c := HarvestBatches(env, s, bcs).log.completions[k]; c.boundaries == {c.last}
    ensures |HarvestBatches(env, s, bcs).log.completions| == |s.log.completions| + |bcs|
    decreases |bcs|
  {
    hide Shape, Tracks, Ledger, Accounted, FinishWhole, FinishSalvaged, HarvestList, IsBoundary, BoundariesIn;
    if bcs != [] {
      HarvestHead(env, s, bcs);
      FinishPending(env, s, bcs[0], false);
      var s' := if AllPresent(s.pending, s.batchStart, bcs[0] + 1) then FinishWhole(env, s, bcs[0])
                else FinishSalvaged(env, s, bcs[0], false);
      FinishWholeInv(env, s, bcs[0]);
      FinishSalvagedInv(env, s, bcs[0], false);
      HarvestTail(s, bcs, s');
      HarvestBatchesInv(env, s', bcs[1..]);
      var all := HarvestBatches(env, s', bcs[1..]).log.completions;
      assert all[|s.log.completions|] == s'.log.completions[|s.log.completions|];
    }
  }

  /** The state the harvest leaves: the invariant but for the streaming relation, which the tail
      salvage does not maintain and nothing afterwards needs. */
  ghost predicate Closed(env: Env, s: State)
  {
    Shape(s) && Ledger(env, s) && Accounted(s.stats, |s.log.completions|)
  }

  lemma HarvestCloses(env: Env, now: nat, s: State)
    requires Resting(env, s)
    ensures Closed(env, Harvest(env, now, s)) && Later(s, Harvest(env, now, s))
    ensures forall k :: |s.log.completions| <= k < |Harvest(env, now, s).log.completions| ==>
              var c := Harvest(env, now, s).log.completions[k]; c.boundaries == {c.last}
  {
    hide Shape, Tracks, Ledger, Accounted, FillAll, HarvestBatches, RunsTxs, Emit, RefillOf, BoundariesIn;
    var hints := Sorted(s.fecSets.Keys);
    var s1 := FillAll(env, now, s, hints);
    FillAllRefills(env, now, s, hints);
    FillInv(env, now, s, s1);
    var bcs := HarvestBoundaries(s1);
    assert HarvestList(s1, bcs);
    HarvestBatchesInv(env, s1, bcs);
    var s2 := HarvestBatches(env, s1, bcs);
    var tail := RunsTxs(env, s2.pending, Runs(s2.pending.Keys, 0, U32_MAX));
    EmitInv(env, s2, tail);
    EmitKeeps(s2, tail);
    HarvestStats(env, Emit(s2, tail), Harvest(env, now, s));
  }

  lemma HarvestStats(env: Env, s: State, s': State)
    requires Shape(s) && Ledger(env, s) && Accounted(s.stats, |s.log.completions|)
    requires s' == s.(stats := s.stats.(fecSetsDiscarded := s'.stats.fecSetsDiscarded,
      salvagedTail := s'.stats.salvagedTail))
    ensures Closed(env, s')
  {
  }
}
