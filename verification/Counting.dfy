/** The batch counters, one by one: which kind each finished range counts as (src/accumulator.rs:456-504). */
module Counting {
  import opened Bytes
  import opened Collections
  import opened Codec
  import opened Decoder
  import opened Streaming
  import opened Fec
  import opened Slot
  import opened Invariant
  import opened Lifetime
  import opened Reachable
  import opened Recovery
  import opened BatchEnds

  datatype Kind = InStream | InFallback | NotAtAll

  /** A range counts as streamed if it decoded and streaming had emitted all of it before; as fallen back if
      finishing it emitted anything; and otherwise as skipped. */
  function KindOf(codec: EntryCodec, c: Completion): Kind
  {
    if c.emitted != c.finish.before then InFallback
    else if c.finish.Whole? && DecodeBatch(codec, c.finish.payload).Some? then InStream
    else NotAtAll
  }

  function CountKind(codec: EntryCodec, cs: seq<Completion>, k: Kind): nat
  {
    if cs == [] then 0
    else CountKind(codec, cs[..|cs| - 1], k) + (if KindOf(codec, cs[|cs| - 1]) == k then 1 else 0)
  }

  /** The ranges given up by timeout. */
  function CountGivenUp(cs: seq<Completion>): nat
  {
    if cs == [] then 0
    else
      var finish := cs[|cs| - 1].finish;
      CountGivenUp(cs[..|cs| - 1]) + (if finish.Salvaged? && finish.timedOut then 1 else 0)
  }

  function Capped(n: nat): nat
  {
    if n <= U64_MAX then n else U64_MAX
  }

  /** Each counter is the number of completed ranges of its kind, up to saturation. */
  ghost predicate Tallied(env: Env, s: State)
  {
    && s.stats.batchesStreaming == Capped(CountKind(env.codec, s.log.completions, InStream))
    && s.stats.batchesFallback == Capped(CountKind(env.codec, s.log.completions, InFallback))
    && s.stats.batchesSkipped == Capped(CountKind(env.codec, s.log.completions, NotAtAll))
    && s.stats.forcedTimeout == Capped(CountGivenUp(s.log.completions))
  }

  lemma SameCounted(env: Env, s: State, s': State)
    requires Tallied(env, s) && s'.log.completions == s.log.completions
    requires s'.stats.batchesStreaming == s.stats.batchesStreaming
    requires s'.stats.batchesFallback == s.stats.batchesFallback
    requires s'.stats.batchesSkipped == s.stats.batchesSkipped && s'.stats.forcedTimeout == s.stats.forcedTimeout
    ensures Tallied(env, s')
  {
    hide CountKind, CountGivenUp;
  }

  // ---------- Finishing a range ----------

  /** One more range, of this kind. */
  ghost predicate OneMore(env: Env, s: State, s': State, k: Kind, givenUp: bool)
  {
    && |s'.log.completions| == |s.log.completions| + 1
    && s'.log.completions[..|s.log.completions|] == s.log.completions
    && var c := s'.log.completions[|s.log.completions|];
    && KindOf(env.codec, c) == k && (c.finish.Salvaged? && c.finish.timedOut <==> givenUp)
    && s'.stats.batchesStreaming == SatAdd(s.stats.batchesStreaming, if k == InStream then 1 else 0, U64_MAX)
    && s'.stats.batchesFallback == SatAdd(s.stats.batchesFallback, if k == InFallback then 1 else 0, U64_MAX)
    && s'.stats.batchesSkipped == SatAdd(s.stats.batchesSkipped, if k == NotAtAll then 1 else 0, U64_MAX)
    && s'.stats.forcedTimeout == SatAdd(s.stats.forcedTimeout, if givenUp then 1 else 0, U64_MAX)
  }

  lemma OneMoreCounted(env: Env, s: State, s': State, k: Kind, givenUp: bool)
    requires Tallied(env, s) && OneMore(env, s, s', k, givenUp)
    ensures Tallied(env, s')
  {
    hide KindOf;
    var cs := s'.log.completions;
    assert cs[..|cs| - 1] == s.log.completions;
  }

  /** What a range finished whole counts as: skipped if it does not decode, streamed if everything of it had
      been emitted, fallen back if not. */
  lemma WholeCountsOne(env: Env, s: State, bc: nat)
    requires InCap(s.stats)
    ensures var bytes := Concat(s.pending, s.batchStart, bc + 1);
            var k := if DecodeBatch(env.codec, bytes).None? then NotAtAll
                     else if Fresh(s.yielded, DecodeBatch(env.codec, bytes).value) == [] then InStream else InFallback;
            OneMore(env, s, FinishWhole(env, s, bc), k, false)
  {
    hide Concat, Fresh, HandlesOf, BoundariesIn, DecodeBatch;
  }

  /** And one given up: fallen back if its salvage emitted anything, else skipped. */
  lemma SalvageCountsOne(env: Env, s: State, bc: nat, timedOut: bool)
    requires InCap(s.stats)
    ensures var txs := RunsTxs(env, s.pending, Runs(s.pending.Keys, s.batchStart, bc + 1));
            var k := if Fresh(s.yielded, txs) == [] then NotAtAll else InFallback;
            OneMore(env, s, FinishSalvaged(env, s, bc, timedOut), k, timedOut)
  {
    hide RunsTxs, Runs, Fresh, HandlesOf, BoundariesIn, Pieces, Concat;
  }

  /** Saturating counters never exceed their cap. */
  ghost predicate InCap(a: Stats)
  {
    && a.batchesStreaming <= U64_MAX && a.batchesFallback <= U64_MAX && a.batchesSkipped <= U64_MAX
    && a.forcedTimeout <= U64_MAX
  }

  lemma CountedInCap(env: Env, s: State)
    requires Tallied(env, s)
    ensures InCap(s.stats)
  {
  }

  lemma FinishCounted(env: Env, s: State, bc: nat, timedOut: bool)
    requires Tallied(env, s)
    ensures Tallied(env, FinishWhole(env, s, bc)) && Tallied(env, FinishSalvaged(env, s, bc, timedOut))
  {
    hide Tallied, OneMore, FinishWhole, FinishSalvaged, Fresh, Concat, DecodeBatch, RunsTxs, Runs, InCap;
    CountedInCap(env, s);
    WholeCountsOne(env, s, bc);
    var bytes := Concat(s.pending, s.batchStart, bc + 1);
    var k := if DecodeBatch(env.codec, bytes).None? then NotAtAll
             else if Fresh(s.yielded, DecodeBatch(env.codec, bytes).value) == [] then InStream else InFallback;
    OneMoreCounted(env, s, FinishWhole(env, s, bc), k, false);
    SalvageCountsOne(env, s, bc, timedOut);
    var txs := RunsTxs(env, s.pending, Runs(s.pending.Keys, s.batchStart, bc + 1));
    var salvaged := if Fresh(s.yielded, txs) == [] then NotAtAll else InFallback;
    OneMoreCounted(env, s, FinishSalvaged(env, s, bc, timedOut), salvaged, timedOut);
  }

  // ---------- The calls ----------

  lemma {:induction false} AdvanceCounted(env: Env, s: State)
    requires Bounded(s) && Tallied(env, s)
    ensures Tallied(env, Advance(env, s))
    decreases U32_MAX - s.cursor
  {
    hide Bounded, StreamOne, Tallied;
    if s.cursor in s.pending && s.pending[s.cursor].source.FromPool? {
      BoundedPayload(s, s.cursor);
      var s1 := StreamOne(env, s, s.pending[s.cursor].Payload().value);
      StreamOneCounted(env, s, s.pending[s.cursor].Payload().value);
      if s1 != Advance(env, s) {
        AdvanceCounted(env, s1);
      }
    }
  }

  lemma StreamOneCounted(env: Env, s: State, payload: seq<byte>)
    requires Tallied(env, s)
    ensures Tallied(env, StreamOne(env, s, payload))
  {
    hide Pushed, CountKind, CountGivenUp;
  }

  lemma RefillCounted(env: Env, now: nat, s: State, s': State)
    requires RefillOf(now, s, s') && Tallied(env, s)
    ensures Tallied(env, s')
  {
    hide CountKind, CountGivenUp;
  }

  lemma TurnCounted(env: Env, now: nat, s: State, bc: nat, firstSeen: nat)
    requires Shape(s) && Tallied(env, s)
    ensures Tallied(env, Refilled(env, now, s, bc))
    ensures FlushTurn(env, now, s, bc, firstSeen).FinishNow? ==>
              Tallied(env, FlushTurn(env, now, s, bc, firstSeen).state)
  {
    hide Shape, Refilled, RefillOf, Tallied, FinishWhole, FinishSalvaged;
    RefilledRefills(env, now, s, bc);
    RefillCounted(env, now, s, Refilled(env, now, s, bc));
    FinishCounted(env, Refilled(env, now, s, bc), bc, true);
  }

  lemma {:induction false} FlushCounted(env: Env, now: nat, s: State)
    requires Inv(env, s) && AtMostLast(s) && Bounded(s) && Tallied(env, s)
    ensures Tallied(env, Flush(env, now, s))
    decreases U32_MAX - s.batchStart
  {
    hide Shape, Tracks, Ledger, Accounted, FlushTurn, Refilled, Bounded, NothingReady, Tallied;
    if BoundariesFrom(s) != {} {
      var bc := Least(BoundariesFrom(s));
      FlushTurnBounded'(env, now, s, bc);
      TurnCounted(env, now, s, bc, s.boundaries[bc]);
      match FlushTurn(env, now, s, bc, s.boundaries[bc])
      case Stop =>
      case FinishNow(s1) =>
        TurnFinishes(env, now, s);
        FlushCounted(env, now, s1);
    }
  }

  lemma InsertCounted(env: Env, now: nat, s: State, d: DataArrival)
    requires Tallied(env, s)
    ensures Tallied(env, InsertEntry(now, s, d.index, d.Entry()))
  {
    hide CountKind, CountGivenUp;
  }

  lemma StreamedCounted(env: Env, now: nat, s: State, d: DataArrival)
    requires Resting(env, s) && Bounded(s) && DataOk(d) && d.index >= s.batchStart && d.index !in s.pending
    requires Tallied(env, s)
    ensures Tallied(env, Streamed(env, now, s, d))
  {
    hide Tracks, Ledger, Accounted, NothingReady, Bounded, Advance, FecFill, InsertEntry, RefillOf, Shape, Tallied;
    InsertCounted(env, now, s, d);
    InsertBounded'(now, s, d);
    ArrivalEntryOk(d);
    InsertInv(env, now, s, d.index, d.Entry());
    var s1 := InsertEntry(now, s, d.index, d.Entry());
    AdvanceInv(env, s1);
    AdvanceCounted(env, s1);
    var s2 := Advance(env, s1);
    if s2.cursor <= d.index {
      FecFillBounded(env, now, s2, d.fecSetIndex);
      FecFillRefills(env, now, s2, d.fecSetIndex);
      var fill := FecFill(env, now, s2, d.fecSetIndex);
      RefillCounted(env, now, s2, fill.state);
      if fill.any { AdvanceCounted(env, fill.state); }
    }
  }

  lemma RecordedCounted(env: Env, s: State, c: CodeArrival)
    requires Tallied(env, s)
    ensures Tallied(env, Recorded(env, s, c))
  {
    hide CountKind, CountGivenUp;
  }

  lemma CodeStreamedCounted(env: Env, now: nat, s: State, c: CodeArrival)
    requires Resting(env, s) && Bounded(s) && CodeOk(c) && Tallied(env, s)
    ensures Tallied(env, CodeStreamed(env, now, s, c))
  {
    hide Shape, Tracks, Ledger, Accounted, NothingReady, Bounded, Advance, FecFill, Recorded, RefillOf, Tallied;
    RecordedInv(env, s, c);
    RecordedBounded(env, s, c);
    var s1 := Recorded(env, s, c);
    RecordedCounted(env, s, c);
    FecFillRefills(env, now, s1, c.fecSetIndex);
    FecFillBounded(env, now, s1, c.fecSetIndex);
    var fill := FecFill(env, now, s1, c.fecSetIndex);
    RefillCounted(env, now, s1, fill.state);
    if fill.any { AdvanceCounted(env, fill.state); }
  }

  lemma StepCounted(env: Env, s: State, e: Event)
    requires Resting(env, s) && Bounded(s) && EventOk(e) && Tallied(env, s)
    ensures Tallied(env, Step(env, s, e))
  {
    hide Shape, Tracks, Ledger, Accounted, NothingReady, NoBoundary, Bounded, Flush, Streamed, CodeStreamed,
      Tallied, DataOk, CodeOk;
    match e
    case Data(now, d) =>
      if d.lastInSlot {
        var s1 := s.(slotComplete := true);
        FlagRests(env, s, true);
        SameCounted(env, s, s1);
        FlushCounted(env, now, s1);
        SameCounted(env, Flush(env, now, s1), Release(Flush(env, now, s1), d.handle.idx));
      } else if d.index < s.batchStart || d.index in s.pending {
        SameCounted(env, s, Release(s, d.handle.idx));
      } else {
        StreamedCounted(env, now, s, d);
        StreamedInv(env, now, s, d);
        FlushCounted(env, now, Streamed(env, now, s, d));
      }
    case Code(now, c) =>
      CodeStreamedCounted(env, now, s, c);
      CodeStreamedInv(env, now, s, c);
      FlushCounted(env, now, CodeStreamed(env, now, s, c));
  }

  lemma {:induction false} AlwaysCounted(env: Env, events: Events)
    requires EventsOk(events)
    ensures Tallied(env, After(env, events))
    decreases |events|
  {
    hide Step, EventOk, Resting;
    if events != [] {
      var n := |events| - 1;
      AlwaysCounted(env, events[..n]);
      AlwaysRests(env, events[..n]);
      StepCounted(env, After(env, events[..n]), events[n]);
    }
  }

  lemma {:induction false} HarvestBatchesCounted(env: Env, s: State, bcs: seq<nat>)
    requires Tallied(env, s)
    ensures Tallied(env, HarvestBatches(env, s, bcs))
    decreases |bcs|
  {
    hide FinishWhole, FinishSalvaged, Tallied;
    if bcs != [] {
      FinishCounted(env, s, bcs[0], false);
      var s' := if bcs[0] < s.batchStart then s
                else if AllPresent(s.pending, s.batchStart, bcs[0] + 1) then FinishWhole(env, s, bcs[0])
                else FinishSalvaged(env, s, bcs[0], false);
      HarvestBatchesCounted(env, s', bcs[1..]);
    }
  }

  /** The batch counters of every reachable slot, and of every slot harvested from one, are each the number of
      its completed ranges of their kind, up to saturation. */
  lemma CountersAreExact(env: Env, events: Events, s: State, now: nat)
    requires Reaches(env, events, s)
    ensures Tallied(env, s) && Tallied(env, Harvest(env, now, s))
  {
    hide Reaches, After, Tallied, FillAll, HarvestBatches, RunsTxs, Runs, Emit, HarvestBoundaries, RefillOf, Shape,
      Tracks, Ledger, Accounted, NothingReady;
    ReachesAfter(env, events, s);
    AlwaysCounted(env, events);
    AlwaysRests(env, events);
    var hints := Sorted(s.fecSets.Keys);
    var s1 := FillAll(env, now, s, hints);
    FillAllRefills(env, now, s, hints);
    RefillCounted(env, now, s, s1);
    HarvestBatchesCounted(env, s1, HarvestBoundaries(s1));
    var s2 := HarvestBatches(env, s1, HarvestBoundaries(s1));
    EmitKeeps(s2, RunsTxs(env, s2.pending, Runs(s2.pending.Keys, 0, U32_MAX)));
    SameCounted(env, s2, Harvest(env, now, s));
  }

  // ---------- The other counters ----------

  /** A refill counts as done exactly if it added a shred, and as failed exactly if the library refused; nothing
      else is counted. */
  lemma FillCounts(env: Env, now: nat, s: State, hint: nat)
    requires s.stats.recoveriesDone <= U64_MAX && s.stats.recoveryFailures <= U64_MAX
    ensures var r := FecFill(env, now, s, hint);
            && (r.any <==> r.state.pending != s.pending)
            && r.state.stats == s.stats.(
                 recoveriesDone := SatAdd(s.stats.recoveriesDone, if r.any then 1 else 0, U64_MAX),
                 recoveryFailures := SatAdd(s.stats.recoveryFailures, if Refused(env, s, hint) then 1 else 0, U64_MAX))
  {
    hide Reconstruct, RecoveredEntry;
    if SelectRecoverable(s, hint).Some? {
      var f := SelectRecoverable(s, hint).value;
      var rs := Reconstruct(env.lib, s.fecSets[f], DataRefs(s, f, s.fecSets[f].numData));
      if rs.Some? { InsertAllCounts(now, s, f, rs.value); }
    }
  }

  ghost predicate Refused(env: Env, s: State, hint: nat)
  {
    var target := SelectRecoverable(s, hint);
    target.Some? && target.value in s.fecSets
    && Reconstruct(env.lib, s.fecSets[target.value],
         DataRefs(s, target.value, s.fecSets[target.value].numData)).None?
  }

  lemma {:induction false} InsertAllCounts(now: nat, s: State, f: nat, rs: seq<Recovered>)
    ensures InsertAll(now, s, f, rs).stats == s.stats
    decreases |rs|
  {
    hide RecoveredEntry;
    if rs != [] {
      InsertAllCounts(now, InsertRecovered(now, s, f, rs[0]), f, rs[1..]);
    }
  }

  /** The harvest counts the transactions it delivered and the FEC sets it found no use for. */
  lemma HarvestCounts(env: Env, now: nat, s: State)
    requires Resting(env, s) && s.stats.salvagedTail <= U64_MAX && s.stats.fecSetsDiscarded <= U64_MAX
    ensures var h := Harvest(env, now, s);
            && |s.log.delivered| <= |h.log.delivered|
            && h.stats.salvagedTail == SatAdd(s.stats.salvagedTail, |h.log.delivered| - |s.log.delivered|, U64_MAX)
            && h.stats.fecSetsDiscarded == SatAdd(s.stats.fecSetsDiscarded, |h.fecSets|, U64_MAX)
  {
    hide FillAll, HarvestBatches, RunsTxs, Runs, Emit, HarvestBoundaries, RefillOf, Shape, Tracks, Ledger, Accounted,
      NothingReady, Closed;
    HarvestCloses(env, now, s);
    var hints := Sorted(s.fecSets.Keys);
    var s1 := FillAll(env, now, s, hints);
    FillAllRefills(env, now, s, hints);
    RefillSameRest(now, s, s1);
    HarvestBatchesSameRest(env, s1, HarvestBoundaries(s1));
    var s2 := HarvestBatches(env, s1, HarvestBoundaries(s1));
    EmitKeeps(s2, RunsTxs(env, s2.pending, Runs(s2.pending.Keys, 0, U32_MAX)));
  }

  ghost predicate SameRest(s: State, s': State)
  {
    s'.stats.salvagedTail == s.stats.salvagedTail && s'.stats.fecSetsDiscarded == s.stats.fecSetsDiscarded
  }

  lemma RefillSameRest(now: nat, s: State, s': State)
    requires RefillOf(now, s, s')
    ensures SameRest(s, s')
  {
  }

  lemma {:induction false} HarvestBatchesSameRest(env: Env, s: State, bcs: seq<nat>)
    ensures SameRest(s, HarvestBatches(env, s, bcs))
    decreases |bcs|
  {
    hide FinishWhole, FinishSalvaged;
    if bcs != [] {
      FinishSameRest(env, s, bcs[0]);
      var s' := if bcs[0] < s.batchStart then s
                else if AllPresent(s.pending, s.batchStart, bcs[0] + 1) then FinishWhole(env, s, bcs[0])
                else FinishSalvaged(env, s, bcs[0], false);
      HarvestBatchesSameRest(env, s', bcs[1..]);
    }
  }

  lemma FinishSameRest(env: Env, s: State, bc: nat)
    ensures SameRest(s, FinishWhole(env, s, bc)) && SameRest(s, FinishSalvaged(env, s, bc, false))
  {
    hide Concat, Fresh, FirstSigs, RunsTxs, Runs, HandlesOf, BoundariesIn, SalvagedFrom, DecodeBatch;
  }

  /** A decode error is counted exactly where bytes were refused: in streaming ... */
  lemma StreamErrorsCount(env: Env, s: State, payload: seq<byte>)
    requires s.stats.decodeErrors <= U32_MAX
    ensures StreamOne(env, s, payload).stats.decodeErrors
            == SatAdd(s.stats.decodeErrors, if Pushed(env.codec, s.decoder, payload).txs.None? then 1 else 0, U32_MAX)
  {
    hide Pushed;
  }

  /** ... and for a range finished whole. */
  lemma WholeErrorsCount(env: Env, s: State, bc: nat)
    requires s.stats.decodeErrors <= U32_MAX
    ensures var bytes := Concat(s.pending, s.batchStart, bc + 1);
            FinishWhole(env, s, bc).stats.decodeErrors
            == SatAdd(s.stats.decodeErrors, if DecodeBatch(env.codec, bytes).None? then 1 else 0, U32_MAX)
  {
    hide Concat, Fresh, FirstSigs, HandlesOf, BoundariesIn, DecodeBatch;
  }
}
