/** Streaming is prompt: as long as no range is finished and nothing fails to decode, everything that has come in
    without a gap has been decoded and delivered by the time a call returns (src/accumulator.rs:241-306). */
module Promptness {
  import opened Bytes
  import opened Collections
  import opened Streaming
  import opened Slot
  import opened Emission
  import opened Invariant
  import opened Lifetime
  import opened Reachable

  /** Streaming has come to a gap or a rebuilt shred, or has met a decode error in this range. */
  ghost predicate Halted(s: State)
  {
    s.cursor !in s.pending || s.pending[s.cursor].source.FromRecovery? || s.log.errored
  }

  ghost predicate HaltedOrEnded(s: State)
  {
    Halted(s) || (s.batchStart < s.cursor && IsBoundary(s.pending, s.cursor - 1))
  }

  lemma {:induction false} AdvanceHalts(env: Env, s: State)
    requires Inv(env, s) && NoBoundary(s) && Bounded(s)
    ensures HaltedOrEnded(Advance(env, s))
    decreases U32_MAX - s.cursor
  {
    hide Shape, Tracks, Ledger, Pushed, Bounded, Accounted, StreamOne;
    if s.cursor in s.pending && s.pending[s.cursor].source.FromPool? {
      AdvanceStep(env, s);
      ShapeStart(env, s);
      var ps := s.pending[s.cursor];
      var s1 := StreamOne(env, s, ps.Payload().value);
      if Pushed(env.codec, s.decoder, ps.Payload().value).txs.None? {
        ErrorShows(env, s, ps.Payload().value);
      } else if !ps.batchComplete {
        AdvanceHalts(env, s1);
      } else {
        assert IsBoundary(s1.pending, s1.cursor - 1);
      }
    }
  }

  lemma ShapeStart(env: Env, s: State)
    requires Inv(env, s)
    ensures s.batchStart <= s.cursor
  {
  }

  lemma ErrorShows(env: Env, s: State, payload: seq<byte>)
    requires Pushed(env.codec, s.decoder, payload).txs.None?
    ensures StreamOne(env, s, payload).log.errored
  {
  }

  lemma RefillHalted(now: nat, s: State, s': State)
    requires RefillOf(now, s, s') && HaltedOrEnded(s)
    ensures HaltedOrEnded(s')
  {
  }

  lemma StreamedHalts(env: Env, now: nat, s: State, d: DataArrival)
    requires Resting(env, s) && Bounded(s) && DataOk(d) && s.batchStart <= d.index && d.index !in s.pending
    ensures HaltedOrEnded(Streamed(env, now, s, d))
  {
    hide Shape, Tracks, Ledger, Accounted, InsertEntry, Advance, FecFill, Bounded, NothingReady, HaltedOrEnded,
      RefillOf;
    ArrivalEntryOk(d);
    InsertInv(env, now, s, d.index, d.Entry());
    var s1 := InsertEntry(now, s, d.index, d.Entry());
    InsertBounded'(now, s, d);
    AdvanceInv(env, s1);
    AdvanceHalts(env, s1);
    var s2 := Advance(env, s1);
    if s2.cursor <= d.index {
      NoEndWithoutNewShred(env, now, s, d, s2);
      var fill := FecFill(env, now, s2, d.fecSetIndex);
      FecFillRefills(env, now, s2, d.fecSetIndex);
      RefillHalted(now, s2, fill.state);
      FillInv(env, now, s2, fill.state);
      FecFillBounded(env, now, s2, d.fecSetIndex);
      if fill.any { AdvanceHalts(env, fill.state); }
    }
  }

  /** A flush that finishes nothing leaves streaming where it was. */
  lemma FlushHalted(env: Env, now: nat, s: State)
    requires Inv(env, s) && AtMostLast(s) && Bounded(s) && HaltedOrEnded(s)
    requires Flush(env, now, s).log.completions == s.log.completions
    ensures HaltedOrEnded(Flush(env, now, s))
  {
    hide Shape, Tracks, Ledger, Accounted, FlushTurn, Refilled, RefillOf, Bounded, NothingReady, HaltedOrEnded;
    if BoundariesFrom(s) != {} {
      var bc := Least(BoundariesFrom(s));
      FlushTurnBounded'(env, now, s, bc);
      RefilledRefills(env, now, s, bc);
      RefillHalted(now, s, Refilled(env, now, s, bc));
      match FlushTurn(env, now, s, bc, s.boundaries[bc])
      case Stop =>
      case FinishNow(s1) =>
        TurnFinishes(env, now, s);
        RefilledKeepsLog(env, now, s, bc);
        FlushRests(env, now, s1);
    }
  }

  lemma RestingHalted(env: Env, s: State)
    requires Resting(env, s) && HaltedOrEnded(s)
    ensures Halted(s)
  {
    hide Tracks, Ledger, Accounted;
  }

  lemma PushDataHalts(env: Env, now: nat, s: State, d: DataArrival)
    requires Resting(env, s) && Bounded(s) && DataOk(d) && !d.lastInSlot
    requires s.batchStart <= d.index && d.index !in s.pending
    requires PushData(env, now, s, d).log.completions == s.log.completions
    ensures Halted(PushData(env, now, s, d))
  {
    hide Shape, Tracks, Ledger, Accounted, Flush, Streamed, Bounded, NothingReady, NoBoundary, HaltedOrEnded,
      Halted;
    var t := Streamed(env, now, s, d);
    StreamedInv(env, now, s, d);
    StreamedHalts(env, now, s, d);
    FlushRests(env, now, t);
    FlushHalted(env, now, t);
    RestingHalted(env, Flush(env, now, t));
  }

  /** Prompt delivery. After a new data shred that finishes no range, and with no decode error in the range so
      far, the cursor stands at the first index that is missing or was rebuilt, and what has been delivered
      of the range is all that the bytes below it yield, once each. */
  lemma StreamingIsPrompt(env: Env, events: Events, now: nat, d: DataArrival, s: State, s': State)
    requires Reaches(env, events, s) && Reaches(env, events + [Event.Data(now, d)], s')
    requires !d.lastInSlot && s.batchStart <= d.index && d.index !in s.pending
    requires s'.log.completions == s.log.completions && !s'.log.errored
    ensures s'.cursor !in s'.pending || s'.pending[s'.cursor].source.FromRecovery?
    ensures PoolRange(s'.pending, s'.batchStart, s'.cursor)
    ensures var bytes := Concat(s'.pending, s'.batchStart, s'.cursor);
            Accepts(env.codec, bytes) && s'.log.emitted == FirstOccurrences(Yield(env.codec, bytes))
  {
    hide Reaches, After, PushData, PushAll, Dedup, FirstOccurrences, DataOk, Bounded;
    var more := events + [Event.Data(now, d)];
    ReachesAfter(env, events, s);
    ReachesAfter(env, more, s');
    assert more[..|events|] == events && more[|events|] == Event.Data(now, d);
    LastStep(env, more, s, s');
    AlwaysRests(env, events);
    AlwaysRests(env, more);
    PushDataHalts(env, now, s, d);
    DedupIsFirstOccurrences(Yield(env.codec, Concat(s'.pending, s'.batchStart, s'.cursor)));
  }

  lemma LastStep(env: Env, events: Events, s: State, s': State)
    requires EventsOk(events) && events != []
    requires s == After(env, events[..|events| - 1]) && s' == After(env, events)
    ensures Bounded(s) && EventOk(events[|events| - 1]) && s' == Step(env, s, events[|events| - 1])
  {
    hide Step, EventOk, Bounded;
  }
}
