/** Which batches a flushed range holds: for a slot fed with what one sender sent, the batch ends of every
    range finished whole are those sent in it, and whether there is more than one is decided before the
    turn that finishes it, by the shreds missing at that moment. */
module BatchEnds {
  import opened Bytes
  import opened Collections
  import opened Slot
  import opened Invariant
  import opened Lifetime
  import opened Reachable
  import opened Recovery

  /** No shred missing below the chosen batch end was sent as a batch end. */
  ghost predicate NoEndMissing(sent: SentSlot, s: State, bc: nat)
  {
    forall i: nat :: s.batchStart <= i < bc && i !in s.pending ==> !SentEnd(sent, i)
  }

  /** A state of the flush loop whose turn finishes this range. */
  ghost predicate TurnFrom(env: Env, sent: SentSlot, now: nat, s: State, c: Completion)
    requires SentSlotOk(env.lib, sent)
  {
    && Inv(env, s) && AtMostLast(s) && Bounded(s) && AsSent(env.lib, sent, s)
    && BoundariesFrom(s) != {} && c.last == Least(BoundariesFrom(s))
    && var turn := FlushTurn(env, now, s, c.last, s.boundaries[c.last]);
    && turn.FinishNow? && turn.state.log.completions == s.log.completions + [c]
  }

  lemma EndsBetween(sent: SentSlot, start: nat, last: nat)
    requires start <= last && SentEnd(sent, last)
    ensures SentEnds(sent, start, last + 1) == {last} <==> (forall i :: start <= i < last ==> !SentEnd(sent, i))
  {
    hide SentEnd;
    var ends := SentEnds(sent, start, last + 1);
    assert last in ends;
    if forall i :: start <= i < last ==> !SentEnd(sent, i) {
      assert ends == {last};
    } else {
      var i :| start <= i < last && SentEnd(sent, i);
      assert i in ends && i != last;
    }
  }

  /** One batch per range, decided beforehand. A turn of the flush loop that finishes a range whole takes
      in exactly one batch if and only if none of the shreds missing below the chosen batch end, which
      recovery is about to supply, was sent as a batch end. */
  lemma OneBatchPerRange(env: Env, sent: SentSlot, now: nat, s: State, c: Completion)
    requires SentSlotOk(env.lib, sent) && TurnFrom(env, sent, now, s, c) && c.finish.Whole?
    ensures c.start == s.batchStart && c.boundaries == SentEnds(sent, c.start, c.last + 1)
    ensures c.boundaries == {c.last} <==> NoEndMissing(sent, s, c.last)
  {
    hide Shape, Tracks, Ledger, Accounted, TurnFrom, AsSent, SentSlotOk, Bounded, SentEnds, SentEnd;
    TurnRange(env, sent, now, s, c);
    KnownEndsAreLater(env, sent, now, s, c);
    EndsBetween(sent, s.batchStart, c.last);
    if NoEndMissing(sent, s, c.last) {
      forall i: nat | s.batchStart <= i < c.last
        ensures !SentEnd(sent, i)
      {
        if i !in s.pending { assert !SentEnd(sent, i); }
      }
    }
  }

  lemma TurnRange(env: Env, sent: SentSlot, now: nat, s: State, c: Completion)
    requires SentSlotOk(env.lib, sent) && TurnFrom(env, sent, now, s, c) && c.finish.Whole?
    ensures c.start == s.batchStart && c.boundaries == SentEnds(sent, c.start, c.last + 1)
  {
    hide Shape, Tracks, Ledger, Accounted, FlushTurn, Refilled, AsSent, SentSlotOk, Bounded, SentEnds, SentEnd,
      SentBytes;
    var s' := FlushTurn(env, now, s, c.last, s.boundaries[c.last]).state;
    TurnFinishes(env, now, s);
    TurnAsSent(env, sent, now, s, c.last, s.boundaries[c.last]);
    RefilledKeepsLog(env, now, s, c.last);
    LastAsSent(env, sent, s', c);
  }

  lemma OldEndsAreLater(s: State, bc: nat)
    requires Shape(s) && BoundariesFrom(s) != {} && bc == Least(BoundariesFrom(s))
    ensures forall i :: s.batchStart <= i < bc ==> !IsBoundary(s.pending, i)
  {
    forall i: nat | s.batchStart <= i < bc
      ensures !IsBoundary(s.pending, i)
    {
      assert i !in BoundariesFrom(s);
      assert i in s.boundaries <==> IsBoundary(s.pending, i);
    }
  }

  /** The chosen batch end is one, and no pending shred below it is. */
  lemma KnownEndsAreLater(env: Env, sent: SentSlot, now: nat, s: State, c: Completion)
    requires SentSlotOk(env.lib, sent) && TurnFrom(env, sent, now, s, c)
    ensures s.batchStart <= c.last && SentEnd(sent, c.last)
    ensures forall i :: s.batchStart <= i < c.last && i in s.pending ==> !SentEnd(sent, i)
  {
    hide Tracks, Ledger, Accounted, FlushTurn, Refilled, AsSent, SentSlotOk, Bounded, SentEnd;
    LeastBoundary(env, s);
    PendingAsSent(env.lib, sent, s);
    EndAsSent(env.lib, sent, c.last, s.pending[c.last]);
    OldEndsAreLater(s, c.last);
    forall i: nat | s.batchStart <= i < c.last && i in s.pending
      ensures !SentEnd(sent, i)
    {
      assert !IsBoundary(s.pending, i);
      EndAsSent(env.lib, sent, i, s.pending[i]);
    }
  }

  lemma LastAsSent(env: Env, sent: SentSlot, s: State, c: Completion)
    requires SentSlotOk(env.lib, sent) && AsSent(env.lib, sent, s)
    requires s.log.completions != [] && s.log.completions[|s.log.completions| - 1] == c
    ensures CompletionAsSent(sent, c)
  {
    hide SentSlotOk, EntryAsSent, BufferAsSent, CompletionAsSent;
  }

  // ---------- Every range of a run comes from such a turn ----------

  /** The state after so many turns of the flush loop that finished a range. */
  ghost function TurnState(env: Env, now: nat, s: State, n: nat): State
  {
    if n == 0 then s
    else
      var t := TurnState(env, now, s, n - 1);
      if BoundariesFrom(t) == {} then t
      else match FlushTurn(env, now, t, Least(BoundariesFrom(t)), t.boundaries[Least(BoundariesFrom(t))])
        case Stop => t
        case FinishNow(t1) => t1
  }

  /** Where the flush loop of a call starts, if the call flushes. */
  ghost function FlushStart(env: Env, s: State, e: Event): State
    requires Bounded(s) && EventOk(e)
  {
    match e
    case Data(now, d) => if d.lastInSlot then s.(slotComplete := true) else Streamed(env, now, s, d)
    case Code(now, c) => CodeStreamed(env, now, s, c)
  }

  /** Some turn of a flush that starts here finishes this range. */
  ghost predicate MadeIn(env: Env, sent: SentSlot, now: nat, start: State, c: Completion)
    requires SentSlotOk(env.lib, sent)
  {
    exists n: nat :: TurnFrom(env, sent, now, TurnState(env, now, start, n), c)
  }

  /** Some turn of the flush of the j-th call of the run finishes this range. */
  ghost predicate MadeBy(env: Env, sent: SentSlot, events: Events, j: nat, c: Completion)
    requires SentSlotOk(env.lib, sent) && EventsOk(events)
  {
    && j < |events| && EventsOk(events[..j])
    && MadeIn(env, sent, events[j].now, FlushStart(env, After(env, events[..j]), events[j]), c)
  }

  lemma {:induction false} FlushMade(env: Env, sent: SentSlot, now: nat, start: State, n: nat)
    requires SentSlotOk(env.lib, sent)
    requires var s := TurnState(env, now, start, n);
             AsSent(env.lib, sent, s) && Inv(env, s) && AtMostLast(s) && Bounded(s)
    ensures var s := TurnState(env, now, start, n);
            forall c :: c in Flush(env, now, s).log.completions
              ==> c in s.log.completions || MadeIn(env, sent, now, start, c)
    decreases U32_MAX - TurnState(env, now, start, n).batchStart
  {
    hide Shape, Tracks, Ledger, Accounted, FlushTurn, Refilled, Bounded, NothingReady, AsSent, SentSlotOk, MadeIn;
    var s := TurnState(env, now, start, n);
    if BoundariesFrom(s) != {} {
      var bc := Least(BoundariesFrom(s));
      FlushTurnBounded'(env, now, s, bc);
      TurnAsSent(env, sent, now, s, bc, s.boundaries[bc]);
      RefilledKeeps(env, now, s, bc);
      match FlushTurn(env, now, s, bc, s.boundaries[bc])
      case Stop =>
        assert Flush(env, now, s) == Refilled(env, now, s, bc);
      case FinishNow(s1) =>
        TurnFinishes(env, now, s);
        NoBoundaryIsAtMostLast(s1);
        assert s1 == TurnState(env, now, start, n + 1);
        TurnMade(env, sent, now, start, n, s1);
        FlushMade(env, sent, now, start, n + 1);
    }
  }

  lemma RefilledKeeps(env: Env, now: nat, s: State, bc: nat)
    requires Inv(env, s)
    ensures Refilled(env, now, s, bc).log == s.log
  {
    hide Tracks, Ledger, Accounted, Refilled;
    RefilledKeepsLog(env, now, s, bc);
  }

  lemma TurnMade(env: Env, sent: SentSlot, now: nat, start: State, n: nat, s1: State)
    requires SentSlotOk(env.lib, sent)
    requires var s := TurnState(env, now, start, n);
             && AsSent(env.lib, sent, s) && Inv(env, s) && AtMostLast(s) && Bounded(s) && BoundariesFrom(s) != {}
             && FlushTurn(env, now, s, Least(BoundariesFrom(s)), s.boundaries[Least(BoundariesFrom(s))])
                == FinishNow(s1)
    ensures forall c :: c in s1.log.completions ==>
              c in TurnState(env, now, start, n).log.completions || MadeIn(env, sent, now, start, c)
  {
    hide Shape, Tracks, Ledger, Accounted, FlushTurn, Refilled, Bounded, AsSent, SentSlotOk, TurnState;
    var s := TurnState(env, now, start, n);
    TurnFinishes(env, now, s);
    RefilledKeeps(env, now, s, Least(BoundariesFrom(s)));
    var k := |s.log.completions|;
    var c := s1.log.completions[k];
    assert s1.log.completions == s1.log.completions[..k] + [c];
    assert TurnFrom(env, sent, now, s, c);
    assert MadeIn(env, sent, now, start, c);
  }

  lemma StreamedKeeps(env: Env, now: nat, s: State, d: DataArrival)
    requires Bounded(s) && DataOk(d)
    ensures Streamed(env, now, s, d).log.completions == s.log.completions
  {
    hide Bounded, Advance, FecFill;
    InsertBounded'(now, s, d);
    var s1 := InsertEntry(now, s, d.index, d.Entry());
    AdvanceKeepsShreds(env, s1);
    var s2 := Advance(env, s1);
    if s2.cursor <= d.index {
      FecFillBounded(env, now, s2, d.fecSetIndex);
      FecFillLog(env, now, s2, d.fecSetIndex);
      var fill := FecFill(env, now, s2, d.fecSetIndex);
      if fill.any { AdvanceKeepsShreds(env, fill.state); }
    }
  }

  lemma CodeStreamedKeeps(env: Env, now: nat, s: State, c: CodeArrival)
    requires Bounded(s) && CodeOk(c)
    ensures CodeStreamed(env, now, s, c).log.completions == s.log.completions
  {
    hide Bounded, Advance, FecFill, Recorded;
    RecordedBounded(env, s, c);
    RecordedLog(env, s, c);
    var s1 := Recorded(env, s, c);
    FecFillBounded(env, now, s1, c.fecSetIndex);
    FecFillLog(env, now, s1, c.fecSetIndex);
    var fill := FecFill(env, now, s1, c.fecSetIndex);
    if fill.any { AdvanceKeepsShreds(env, fill.state); }
  }

  lemma CodeStreamedInv(env: Env, now: nat, s: State, c: CodeArrival)
    requires Resting(env, s) && Bounded(s) && CodeOk(c)
    ensures Inv(env, CodeStreamed(env, now, s, c)) && AtMostLast(CodeStreamed(env, now, s, c))
  {
    hide Shape, Tracks, Ledger, Accounted, Recorded, FecFill, Advance, Bounded, NothingReady;
    RecordedInv(env, s, c);
    RecordedBounded(env, s, c);
    var s1 := Recorded(env, s, c);
    var fill := FecFill(env, now, s1, c.fecSetIndex);
    FecFillRefills(env, now, s1, c.fecSetIndex);
    FecFillBounded(env, now, s1, c.fecSetIndex);
    FillInv(env, now, s1, fill.state);
    NoBoundaryIsAtMostLast(fill.state);
    if fill.any { AdvanceInv(env, fill.state); }
  }

  lemma CodeStreamedAsSent(env: Env, sent: SentSlot, now: nat, s: State, c: CodeArrival)
    requires SentSlotOk(env.lib, sent) && AsSent(env.lib, sent, s) && CodeAsSent(env.lib, sent, c)
    requires Bounded(s) && CodeOk(c)
    ensures AsSent(env.lib, sent, CodeStreamed(env, now, s, c))
  {
    hide AsSent, SentSlotOk, FecFill, Advance, Bounded, Recorded, CodeAsSent;
    RecordAsSent(env, sent, s, c);
    RecordedBounded(env, s, c);
    var s1 := Recorded(env, s, c);
    FecFillBounded(env, now, s1, c.fecSetIndex);
    FecFillAsSent(env, sent, now, s1, c.fecSetIndex);
    var fill := FecFill(env, now, s1, c.fecSetIndex);
    if fill.any {
      AdvanceKeepsShreds(env, fill.state);
      SameAsSent(env.lib, sent, fill.state, Advance(env, fill.state));
    }
  }

  /** What one call adds comes from its flush. */
  lemma StepMade(env: Env, sent: SentSlot, s: State, e: Event)
    requires SentSlotOk(env.lib, sent) && AsSent(env.lib, sent, s) && EventAsSent(env.lib, sent, e)
    requires Resting(env, s) && Bounded(s) && EventOk(e)
    ensures forall c :: c in Step(env, s, e).log.completions ==>
              c in s.log.completions || MadeIn(env, sent, e.now, FlushStart(env, s, e), c)
  {
    hide AsSent, SentSlotOk, Shape, Tracks, Ledger, Accounted, NothingReady, Flush, Bounded, DataAsSent, CodeAsSent,
      Streamed, CodeStreamed, MadeIn, TurnState;
    TurnsNone(env, e.now, FlushStart(env, s, e));
    match e
    case Data(now, d) =>
      if d.lastInSlot {
        var s1 := s.(slotComplete := true);
        FlagRests(env, s, true);
        SameAsSent(env.lib, sent, s, s1);
        FlushMade(env, sent, now, s1, 0);
      } else if d.index >= s.batchStart && d.index !in s.pending {
        StreamedAsSent(env, sent, now, s, d);
        StreamedInv(env, now, s, d);
        StreamedKeeps(env, now, s, d);
        FlushMade(env, sent, now, Streamed(env, now, s, d), 0);
      }
    case Code(now, c) =>
      CodeStreamedAsSent(env, sent, now, s, c);
      CodeStreamedInv(env, now, s, c);
      CodeStreamedKeeps(env, now, s, c);
      FlushMade(env, sent, now, CodeStreamed(env, now, s, c), 0);
  }

  lemma TurnsNone(env: Env, now: nat, s: State)
    ensures TurnState(env, now, s, 0) == s
  {
  }

  lemma {:induction false} AlwaysMade(env: Env, sent: SentSlot, events: Events)
    requires SentSlotOk(env.lib, sent) && EventsOk(events)
    requires forall i :: 0 <= i < |events| ==> EventAsSent(env.lib, sent, events[i])
    ensures forall c :: c in After(env, events).log.completions ==> exists j: nat :: MadeBy(env, sent, events, j, c)
    decreases |events|
  {
    hide AsSent, SentSlotOk, Resting, Step, EventAsSent, MadeIn, FlushStart, Bounded, EventOk;
    if events != [] {
      var n := |events| - 1;
      AlwaysMade(env, sent, events[..n]);
      AlwaysAsSent(env, sent, events[..n]);
      AlwaysRests(env, events[..n]);
      StepMade(env, sent, After(env, events[..n]), events[n]);
      forall c | c in After(env, events).log.completions
        ensures exists j: nat :: MadeBy(env, sent, events, j, c)
      {
        if c in After(env, events[..n]).log.completions {
          var j: nat :| MadeBy(env, sent, events[..n], j, c);
          assert events[..n][..j] == events[..j];
          assert MadeBy(env, sent, events, j, c);
        } else {
          assert MadeBy(env, sent, events, n, c);
        }
      }
    }
  }

  /** Over whole runs. In every run of one sender's shreds each range finished whole holds exactly the
      batch ends sent in it, and comes from a turn of one of the run's calls, before which it was settled,
      by what was missing then, whether that is one batch. */
  lemma WholeRangesHold(env: Env, sent: SentSlot, events: Events, s: State, c: Completion)
    requires Reaches(env, events, s) && c in s.log.completions && c.finish.Whole?
    requires SentSlotOk(env.lib, sent) && EventsOk(events)
    requires forall i :: 0 <= i < |events| ==> EventAsSent(env.lib, sent, events[i])
    ensures c.boundaries == SentEnds(sent, c.start, c.last + 1)
    ensures exists j: nat, n: nat :: Settles(env, sent, events, j, n, c)
  {
    hide Reaches, After, SentSlotOk, EventAsSent, TurnFrom, SentEnds, NoEndMissing, TurnState, FlushStart, Bounded;
    ReachesAfter(env, events, s);
    AlwaysMade(env, sent, events);
    var j: nat :| MadeBy(env, sent, events, j, c);
    var start := FlushStart(env, After(env, events[..j]), events[j]);
    var n: nat :| TurnFrom(env, sent, events[j].now, TurnState(env, events[j].now, start, n), c);
    OneBatchPerRange(env, sent, events[j].now, TurnState(env, events[j].now, start, n), c);
    assert Settles(env, sent, events, j, n, c);
  }

  /** The n-th turn of the j-th call finishes this range, which is one batch if and only if no shred
      missing before that turn was sent as a batch end below the one chosen. */
  ghost predicate Settles(env: Env, sent: SentSlot, events: Events, j: nat, n: nat, c: Completion)
    requires SentSlotOk(env.lib, sent) && EventsOk(events)
  {
    && j < |events| && EventsOk(events[..j])
    && var t := TurnState(env, events[j].now, FlushStart(env, After(env, events[..j]), events[j]), n);
    && TurnFrom(env, sent, events[j].now, t, c) && t.batchStart == c.start
    && (c.boundaries == {c.last} <==> NoEndMissing(sent, t, c.last))
  }
}
