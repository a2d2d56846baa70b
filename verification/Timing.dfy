/** The timeout, measured by the events: a range with gaps is given up only by a call that comes the timeout
    or more after its batch end did, and one that is left waiting has not waited that long. */
module Timing {
  import opened Bytes
  import opened Collections
  import opened Slot
  import opened Invariant
  import opened Lifetime
  import opened Recovery
  import opened BatchEnds

  // ---------- One call ----------

  /** Batch ends keep the time they were first seen at; those that came since have this one. */
  ghost predicate Stamped(now: nat, s: State, s': State)
  {
    forall b :: b in s'.boundaries ==>
      if b in s.boundaries then s'.boundaries[b] == s.boundaries[b] else b !in s.pending && s'.boundaries[b] == now
  }

  /** A range given up now had its batch end long enough. */
  ghost predicate LongEnough(env: Env, now: nat, s: State, c: Completion)
  {
    c.finish.Salvaged? ==>
      if c.last in s.boundaries then s.boundaries[c.last] + env.timeout <= now || env.timeout == 0
      else c.last !in s.pending && env.timeout == 0
  }

  /** So had every range given up since. */
  ghost predicate AllLongEnough(env: Env, now: nat, s: State, s': State)
  {
    && s.log.completions <= s'.log.completions
    && forall k :: |s.log.completions| <= k < |s'.log.completions| ==> LongEnough(env, now, s, s'.log.completions[k])
  }

  lemma WholeStamps(env: Env, s: State, bc: nat)
    ensures var s' := FinishWhole(env, s, bc);
            && (forall b :: b in s'.boundaries ==> b in s.boundaries && s'.boundaries[b] == s.boundaries[b])
            && s.log.completions <= s'.log.completions && |s'.log.completions| == |s.log.completions| + 1
            && s'.log.completions[|s.log.completions|].finish.Whole?
  {
    hide Concat, Fresh, HandlesOf, BoundariesIn, Emit;
    forall txs
      ensures Emit(s, txs).boundaries == s.boundaries && Emit(s, txs).log.completions == s.log.completions
    {
      EmitKeeps(s, txs);
    }
  }

  lemma SalvageStamps(env: Env, s: State, bc: nat, timedOut: bool)
    ensures var s' := FinishSalvaged(env, s, bc, timedOut);
            && (forall b :: b in s'.boundaries ==> b in s.boundaries && s'.boundaries[b] == s.boundaries[b])
            && s.log.completions <= s'.log.completions && |s'.log.completions| == |s.log.completions| + 1
            && s'.log.completions[|s.log.completions|].last == bc
  {
    hide RunsTxs, Runs, HandlesOf, BoundariesIn, Emit, SalvagedFrom;
    EmitKeeps(s, RunsTxs(env, s.pending, Runs(s.pending.Keys, s.batchStart, bc + 1)));
  }

  /** What was pending and is still in the window is still pending. */
  ghost predicate Follows(s: State, s': State)
  {
    && s.batchStart <= s'.batchStart && (forall i :: i in s.pending && s'.batchStart <= i ==> i in s'.pending)
    && forall b :: b in s.boundaries ==> b in s.pending
  }

  /** What has become of the slot within a call that found it as `s`. */
  ghost predicate Since(env: Env, now: nat, s: State, s': State)
  {
    Stamped(now, s, s') && Follows(s, s') && AllLongEnough(env, now, s, s')
  }

  lemma RefillSince(env: Env, now: nat, s0: State, s: State, s': State)
    requires Since(env, now, s0, s) && RefillOf(now, s, s')
    ensures Since(env, now, s0, s')
  {
    hide LongEnough;
    forall b | b in s'.boundaries && b !in s.boundaries
      ensures b !in s0.pending && b !in s0.boundaries
    {
      assert IsBoundary(s'.pending, b);
      assert b !in s.pending && s.batchStart <= b;
    }
  }

  lemma FinishSince(env: Env, now: nat, s0: State, s: State, s': State, bc: nat)
    requires Since(env, now, s0, s) && s'.batchStart == bc + 1 && s.batchStart <= bc
    requires s'.pending == map i | i in s.pending && i >= bc + 1 :: s.pending[i]
    requires forall b :: b in s'.boundaries ==> b in s.boundaries && s'.boundaries[b] == s.boundaries[b]
    requires s.log.completions <= s'.log.completions && |s'.log.completions| == |s.log.completions| + 1
    requires LongEnough(env, now, s0, s'.log.completions[|s.log.completions|])
    ensures Since(env, now, s0, s')
  {
    hide LongEnough;
    forall k | |s0.log.completions| <= k < |s'.log.completions|
      ensures LongEnough(env, now, s0, s'.log.completions[k])
    {
      if k < |s.log.completions| { assert s'.log.completions[k] == s.log.completions[k]; }
    }
  }

  lemma TurnSince(env: Env, now: nat, s0: State, s: State)
    requires Inv(env, s) && AtMostLast(s) && BoundariesFrom(s) != {} && Since(env, now, s0, s)
    ensures var bc := Least(BoundariesFrom(s));
            var turn := FlushTurn(env, now, s, bc, s.boundaries[bc]);
            && Since(env, now, s0, Refilled(env, now, s, bc))
            && (turn.FinishNow? ==> Since(env, now, s0, turn.state))
  {
    hide Shape, Tracks, Ledger, Accounted, FinishWhole, FinishSalvaged, Refilled, RefillOf, Since, Bounded;
    var bc := Least(BoundariesFrom(s));
    FlushTurnBounded'(env, now, s, bc);
    RefilledRefills(env, now, s, bc);
    var s1 := Refilled(env, now, s, bc);
    RefillSince(env, now, s0, s, s1);
    RefillKeeps(now, s, s1, bc);
    RefillShape(now, s, s1);
    ShapeBounded(s1);
    if AllPresent(s1.pending, s.batchStart, bc + 1) {
      FinishPending(env, s1, bc, false);
      FinishWholeBounded(env, s1, bc);
      WholeStamps(env, s1, bc);
      FinishSince(env, now, s0, s1, FinishWhole(env, s1, bc), bc);
    } else if Elapsed(now, s.boundaries[bc]) >= env.timeout {
      FinishPending(env, s1, bc, true);
      FinishSalvagedBounded(env, s1, bc, true);
      SalvageStamps(env, s1, bc, true);
      var s' := FinishSalvaged(env, s1, bc, true);
      OverdueIsLongEnough(env, now, s0, s, bc, s'.log.completions[|s1.log.completions|]);
      FinishSince(env, now, s0, s1, s', bc);
    }
  }

  lemma OverdueIsLongEnough(env: Env, now: nat, s0: State, s: State, bc: nat, c: Completion)
    requires Since(env, now, s0, s) && bc in s.boundaries && Elapsed(now, s.boundaries[bc]) >= env.timeout
    requires c.last == bc
    ensures LongEnough(env, now, s0, c)
  {
  }

  lemma {:induction false} FlushSince(env: Env, now: nat, s0: State, s: State)
    requires Inv(env, s) && AtMostLast(s) && Bounded(s) && Since(env, now, s0, s)
    ensures Since(env, now, s0, Flush(env, now, s))
    decreases U32_MAX - s.batchStart
  {
    hide Shape, Tracks, Ledger, Accounted, FlushTurn, Refilled, Bounded, NothingReady, Since;
    if BoundariesFrom(s) != {} {
      var bc := Least(BoundariesFrom(s));
      FlushTurnBounded'(env, now, s, bc);
      TurnSince(env, now, s0, s);
      match FlushTurn(env, now, s, bc, s.boundaries[bc])
      case Stop =>
      case FinishNow(s1) =>
        TurnFinishes(env, now, s);
        FlushSince(env, now, s0, s1);
    }
  }

  /** Streaming, recording and buffer bookkeeping change nothing of this. */
  lemma SameSince(env: Env, now: nat, s0: State, s: State, s': State)
    requires Since(env, now, s0, s)
    requires s'.pending == s.pending && s'.boundaries == s.boundaries && s'.batchStart == s.batchStart
    requires s'.log.completions == s.log.completions
    ensures Since(env, now, s0, s')
  {
    hide LongEnough;
  }

  lemma SinceItself(env: Env, now: nat, s: State)
    requires Resting(env, s)
    ensures Since(env, now, s, s)
  {
    hide LongEnough, Tracks, Ledger, Accounted;
    RestingEnds(env, s);
  }

  lemma InsertSince(env: Env, now: nat, s: State, d: DataArrival)
    requires d.index !in s.pending && Shape(s)
    ensures Since(env, now, s, InsertEntry(now, s, d.index, d.Entry()))
  {
    assert forall b :: b in s.boundaries <==> IsBoundary(s.pending, b);
  }

  lemma StreamedSince(env: Env, now: nat, s: State, d: DataArrival)
    requires Resting(env, s) && Bounded(s) && DataOk(d) && d.index >= s.batchStart && d.index !in s.pending
    ensures Since(env, now, s, Streamed(env, now, s, d))
  {
    hide Tracks, Ledger, Accounted, NothingReady, Bounded, Advance, FecFill, InsertEntry, Since, RefillOf, Shape;
    InsertSince(env, now, s, d);
    InsertBounded'(now, s, d);
    var s1 := InsertEntry(now, s, d.index, d.Entry());
    ArrivalEntryOk(d);
    InsertInv(env, now, s, d.index, d.Entry());
    AdvanceInv(env, s1);
    AdvanceKeepsShreds(env, s1);
    var s2 := Advance(env, s1);
    SameSince(env, now, s, s1, s2);
    if s2.cursor <= d.index {
      FecFillBounded(env, now, s2, d.fecSetIndex);
      FecFillRefills(env, now, s2, d.fecSetIndex);
      var fill := FecFill(env, now, s2, d.fecSetIndex);
      RefillSince(env, now, s, s2, fill.state);
      if fill.any {
        AdvanceKeepsShreds(env, fill.state);
        SameSince(env, now, s, fill.state, Advance(env, fill.state));
      }
    }
  }

  lemma CodeSince(env: Env, now: nat, s: State, c: CodeArrival)
    requires Resting(env, s) && Bounded(s) && CodeOk(c)
    ensures Since(env, now, s, CodeStreamed(env, now, s, c))
  {
    hide Shape, Tracks, Ledger, Accounted, NothingReady, Bounded, Advance, FecFill, Recorded, Since, RefillOf;
    SinceItself(env, now, s);
    RecordedInv(env, s, c);
    RecordedBounded(env, s, c);
    var s1 := Recorded(env, s, c);
    RecordedSame(env, s, c);
    RecordedLog(env, s, c);
    SameSince(env, now, s, s, s1);
    FecFillRefills(env, now, s1, c.fecSetIndex);
    FecFillBounded(env, now, s1, c.fecSetIndex);
    var fill := FecFill(env, now, s1, c.fecSetIndex);
    RefillSince(env, now, s, s1, fill.state);
    if fill.any {
      AdvanceKeepsShreds(env, fill.state);
      SameSince(env, now, s, fill.state, Advance(env, fill.state));
    }
  }

  /** Every call: times are kept, and a range given up now had its batch end long enough. */
  lemma StepSince(env: Env, s: State, e: Event)
    requires Resting(env, s) && Bounded(s) && EventOk(e)
    ensures Since(env, e.now, s, Step(env, s, e))
  {
    hide Shape, Tracks, Ledger, Accounted, NothingReady, NoBoundary, Bounded, Flush, Streamed, CodeStreamed, Since,
      DataOk, CodeOk;
    match e
    case Data(now, d) =>
      SinceItself(env, now, s);
      if d.lastInSlot {
        var s1 := s.(slotComplete := true);
        FlagRests(env, s, true);
        SameSince(env, now, s, s, s1);
        FlushSince(env, now, s, s1);
        SameSince(env, now, s, Flush(env, now, s1), Release(Flush(env, now, s1), d.handle.idx));
      } else if d.index < s.batchStart || d.index in s.pending {
        SameSince(env, now, s, s, Release(s, d.handle.idx));
      } else {
        StreamedSince(env, now, s, d);
        StreamedInv(env, now, s, d);
        FlushSince(env, now, s, Streamed(env, now, s, d));
      }
    case Code(now, c) =>
      CodeSince(env, now, s, c);
      CodeStreamedInv(env, now, s, c);
      FlushSince(env, now, s, CodeStreamed(env, now, s, c));
  }

  // ---------- Runs ----------

  /** Where the slot stands before the i-th call. */
  ghost function At(env: Env, events: Events, i: nat): State
    requires EventsOk(events) && i <= |events|
  {
    After(env, events[..i])
  }

  /** The k-th call brought this shred, which was pending from then until before the i-th. */
  ghost predicate CameWith(env: Env, events: Events, i: nat, k: nat, b: nat)
    requires EventsOk(events) && i <= |events|
  {
    && k < |events| && k <= i && b !in At(env, events, k).pending
    && forall m: nat :: k < m <= i ==> b in At(env, events, m).pending
  }

  /** The times of the batch ends are those of the calls that brought them. */
  ghost predicate Dated(env: Env, events: Events, i: nat)
    requires EventsOk(events) && i <= |events|
  {
    var s := At(env, events, i);
    forall b :: b in s.boundaries ==>
      exists k: nat :: k < i && CameWith(env, events, i, k, b) && s.boundaries[b] == events[k].now
  }

  lemma AtStep(env: Env, events: Events, i: nat)
    requires EventsOk(events) && i < |events|
    ensures EventOk(events[i]) && At(env, events, i + 1) == Step(env, At(env, events, i), events[i])
    ensures Resting(env, At(env, events, i)) && Bounded(At(env, events, i))
    ensures Resting(env, At(env, events, i + 1))
  {
    hide Step, EventOk, Resting, Bounded;
    assert events[..i + 1][..i] == events[..i] && events[..i + 1][i] == events[i];
    AlwaysRests(env, events[..i]);
    AlwaysRests(env, events[..i + 1]);
  }

  lemma RestingEnds(env: Env, s: State)
    requires Resting(env, s)
    ensures forall b :: b in s.boundaries <==> IsBoundary(s.pending, b)
  {
  }

  lemma {:induction false} AlwaysDated(env: Env, events: Events, i: nat)
    requires EventsOk(events) && i <= |events|
    ensures Dated(env, events, i)
  {
    hide At, Step, EventOk, Resting, Bounded;
    if i == 0 {
      NothingAtFirst(env, events);
    } else {
      AlwaysDated(env, events, i - 1);
      AtStep(env, events, i - 1);
      var s, s' := At(env, events, i - 1), At(env, events, i);
      StepSince(env, s, events[i - 1]);
      RestingEnds(env, s);
      RestingEnds(env, s');
      forall b | b in s'.boundaries
        ensures exists k: nat :: k < i && CameWith(env, events, i, k, b) && s'.boundaries[b] == events[k].now
      {
        assert b in s'.pending;
        if b in s.boundaries {
          var k: nat :| k < i - 1 && CameWith(env, events, i - 1, k, b) && s.boundaries[b] == events[k].now;
          assert CameWith(env, events, i, k, b);
        } else {
          assert CameWith(env, events, i, i - 1, b);
        }
      }
    }
  }

  lemma NothingAtFirst(env: Env, events: Events)
    requires EventsOk(events)
    ensures At(env, events, 0).boundaries == map[]
  {
  }

  /** Not too early. In every run, a range that the j-th call gives up ends with a batch end that a call brought
      the timeout or more before, unless the timeout is nothing. */
  lemma GivenUpLate(env: Env, events: Events, j: nat, n: nat)
    requires EventsOk(events) && j < |events|
    requires |At(env, events, j).log.completions| <= n < |At(env, events, j + 1).log.completions|
    requires At(env, events, j + 1).log.completions[n].finish.Salvaged?
    ensures var c := At(env, events, j + 1).log.completions[n];
            exists k: nat :: CameWith(env, events, j, k, c.last)
                        && (events[k].now + env.timeout <= events[j].now || env.timeout == 0)
  {
    hide At, Step, EventOk, Resting, Bounded;
    AtStep(env, events, j);
    AlwaysDated(env, events, j);
    var s, c := At(env, events, j), At(env, events, j + 1).log.completions[n];
    StepSince(env, s, events[j]);
    assert LongEnough(env, events[j].now, s, c);
    if c.last in s.boundaries {
      var k: nat :| k < j && CameWith(env, events, j, k, c.last) && s.boundaries[c.last] == events[k].now;
    } else {
      assert CameWith(env, events, j, j, c.last);
    }
  }

  /** This call ran the flush loop. */
  ghost predicate Flushed(s: State, e: Event)
  {
    e.Data? ==> e.data.lastInSlot || (e.data.index >= s.batchStart && e.data.index !in s.pending)
  }

  /** Not too late. After every call that ran the flush loop, the least batch end still waiting came with a call
      less than the timeout ago. */
  lemma WaitingIsEarly(env: Env, events: Events, j: nat)
    requires EventsOk(events) && j < |events| && Flushed(At(env, events, j), events[j])
    requires BoundariesFrom(At(env, events, j + 1)) != {}
    ensures var b := Least(BoundariesFrom(At(env, events, j + 1)));
            exists k: nat :: CameWith(env, events, j + 1, k, b) && events[j].now < events[k].now + env.timeout
  {
    hide At, Step, EventOk, Resting, Bounded;
    AtStep(env, events, j);
    AlwaysDated(env, events, j + 1);
    var s' := At(env, events, j + 1);
    var b := Least(BoundariesFrom(s'));
    FlushedInTime(env, At(env, events, j), events[j]);
    assert b in BoundariesFrom(s');
    var k: nat :| k < j + 1 && CameWith(env, events, j + 1, k, b) && s'.boundaries[b] == events[k].now;
  }

  lemma FlushedInTime(env: Env, s: State, e: Event)
    requires Resting(env, s) && Bounded(s) && EventOk(e) && Flushed(s, e)
    ensures NotOverdue(env, e.now, Step(env, s, e))
  {
    hide Resting, Bounded, NotOverdue, PushData, PushCode, DataOk, CodeOk;
    match e
    case Data(now, d) => PushDataRests(env, now, s, d);
    case Code(now, c) => PushCodeRests(env, now, s, c);
  }
}
