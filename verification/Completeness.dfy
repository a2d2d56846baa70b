/** When a slot counts as complete: exactly the shred sent last in it decides that, received or rebuilt
    (src/accumulator.rs:167-172, 361-364). */
module Completeness {
  import opened Bytes
  import opened Collections
  import opened Parser
  import opened Erasure
  import opened Fec
  import opened Slot
  import opened Lifetime
  import opened Recovery
  import opened BatchEnds
  import opened Exhaustion

  // ---------- Once complete, always complete ----------

  lemma {:induction false} FillAllComplete(env: Env, now: nat, s: State, hints: seq<nat>)
    requires s.slotComplete
    ensures FillAll(env, now, s, hints).slotComplete
    decreases |hints|
  {
    hide FecFill, Exhausted;
    if hints != [] {
      FillExhausts(env, now, s, hints[0]);
      var g :| Grown(s, FecFill(env, now, s, hints[0]).state, g);
      FillAllComplete(env, now, FecFill(env, now, s, hints[0]).state, hints[1..]);
    }
  }

  lemma FillComplete(env: Env, now: nat, s: State, hint: nat)
    requires s.slotComplete
    ensures FecFill(env, now, s, hint).state.slotComplete
  {
    hide FecFill, Exhausted;
    FillExhausts(env, now, s, hint);
    var g :| Grown(s, FecFill(env, now, s, hint).state, g);
  }

  lemma {:induction false} FlushComplete(env: Env, now: nat, s: State)
    requires Bounded(s) && s.slotComplete
    ensures Flush(env, now, s).slotComplete
    decreases U32_MAX - s.batchStart
  {
    hide Bounded, FillAll, FinishWhole, FinishSalvaged;
    if BoundariesFrom(s) != {} {
      var bc := Least(BoundariesFrom(s));
      BoundaryBounded(s, bc);
      FlushTurnBounded(env, now, s, bc, s.boundaries[bc]);
      FillAllComplete(env, now, s, Hints(s, bc));
      FinishSameFlag(env, Refilled(env, now, s, bc), bc, true);
      match FlushTurn(env, now, s, bc, s.boundaries[bc])
      case Stop =>
      case FinishNow(s1) => FlushComplete(env, now, s1);
    }
  }

  lemma FinishSameFlag(env: Env, s: State, bc: nat, timedOut: bool)
    ensures FinishWhole(env, s, bc).slotComplete == s.slotComplete
    ensures FinishSalvaged(env, s, bc, timedOut).slotComplete == s.slotComplete
  {
    hide Concat, Fresh, RunsTxs, Runs, HandlesOf, BoundariesIn, SalvagedFrom;
  }

  lemma StreamedComplete(env: Env, now: nat, s: State, d: DataArrival)
    requires Bounded(s) && DataOk(d) && s.slotComplete
    ensures Streamed(env, now, s, d).slotComplete
  {
    hide FecFill, Advance, Bounded;
    InsertBounded'(now, s, d);
    var s1 := InsertEntry(now, s, d.index, d.Entry());
    AdvanceKeepsShreds(env, s1);
    var s2 := Advance(env, s1);
    if s2.cursor <= d.index {
      FillComplete(env, now, s2, d.fecSetIndex);
      FecFillBounded(env, now, s2, d.fecSetIndex);
      var fill := FecFill(env, now, s2, d.fecSetIndex);
      if fill.any { AdvanceKeepsShreds(env, fill.state); }
    }
  }

  lemma CodeStreamedComplete(env: Env, now: nat, s: State, c: CodeArrival)
    requires Bounded(s) && CodeOk(c) && s.slotComplete
    ensures CodeStreamed(env, now, s, c).slotComplete
  {
    hide FecFill, Advance, Bounded;
    RecordedBounded(env, s, c);
    var s1 := Recorded(env, s, c);
    FillComplete(env, now, s1, c.fecSetIndex);
    FecFillBounded(env, now, s1, c.fecSetIndex);
    var fill := FecFill(env, now, s1, c.fecSetIndex);
    if fill.any { AdvanceKeepsShreds(env, fill.state); }
  }

  /** A call leaves the slot complete if it was, or if it brings the shred last in the slot. */
  lemma StepComplete(env: Env, s: State, e: Event)
    requires Bounded(s) && EventOk(e) && (s.slotComplete || (e.Data? && e.data.lastInSlot))
    ensures Step(env, s, e).slotComplete
  {
    hide Bounded, Flush, Streamed, CodeStreamed, DataOk, CodeOk;
    match e
    case Data(now, d) =>
      if d.lastInSlot {
        FlagKeepsBounded(s);
        FlushComplete(env, now, s.(slotComplete := true));
      } else if d.index >= s.batchStart && d.index !in s.pending {
        StreamedComplete(env, now, s, d);
        FlushComplete(env, now, Streamed(env, now, s, d));
      }
    case Code(now, c) =>
      CodeStreamedComplete(env, now, s, c);
      FlushComplete(env, now, CodeStreamed(env, now, s, c));
  }

  // ---------- Complete only by the last shred ----------

  /** The slot is taken as complete only if some shred was sent last in it. */
  ghost predicate FlagAsSent(sent: SentSlot, s: State)
  {
    s.slotComplete ==> exists f, i :: SentLast(sent, f, i)
  }

  lemma {:induction false} InsertAllFlag(lib: ErasureLibrary, sent: SentSlot, now: nat, s: State, f: nat,
    rs: seq<Recovered>)
    requires SentSlotOk(lib, sent) && FlagAsSent(sent, s) && f in sent
    requires SentSetOk(lib, sent[f], f) && WellSent(sent[f])
    requires forall r :: r in rs ==> r.position < |sent[f].raws| && r.bytes == Framed(SentShard(sent[f], r.position))
    ensures FlagAsSent(sent, InsertAll(now, s, f, rs))
    decreases |rs|
  {
    hide SentSlotOk, RecoveredEntry, SentSetOk, WellSent, SentLast, EntryAsSent;
    if rs != [] {
      assert rs[0] in rs;
      RecoveredIsLast(lib, sent, f, rs[0].position);
      InsertAllFlag(lib, sent, now, InsertRecovered(now, s, f, rs[0]), f, rs[1..]);
    }
  }

  lemma RecoveredIsLast(lib: ErasureLibrary, sent: SentSlot, f: nat, p: nat)
    requires SentSlotOk(lib, sent) && f in sent && p < |sent[f].raws|
    requires SentSetOk(lib, sent[f], f) && WellSent(sent[f])
    ensures var r := RecoveredEntry(f, Framed(SentShard(sent[f], p)));
            r.Some? && (r.value.1 <==> SentLast(sent, f, f + p))
  {
    hide SentSlotOk, EntryAsSent, RecoveredEntry, ParseKind;
    assert SentShredOk(sent[f], f, p);
    assert Covers(sent, f, f + p);
    RecoveredAsSent(lib, sent, f, p);
    RecoveredFlag(sent[f], f, p);
  }

  lemma FillFlag(env: Env, sent: SentSlot, now: nat, s: State, hint: nat)
    requires SentSlotOk(env.lib, sent) && AsSent(env.lib, sent, s) && FlagAsSent(sent, s)
    ensures FlagAsSent(sent, FecFill(env, now, s, hint).state)
  {
    hide EntryAsSent, CompletionAsSent, SentSlotOk, SelectRecoverable, InsertAll, Reconstruct, DataRefs, SentLast;
    var target := SelectRecoverable(s, hint);
    if target.Some? && target.value in s.fecSets && s.fecSets[target.value].numData != 0 {
      var f := target.value;
      RefsAsSent(env.lib, sent, s, f);
      var refs := DataRefs(s, f, s.fecSets[f].numData);
      ReconstructRestores(env.lib, s.fecSets[f], refs, sent[f]);
      InsertAllFlag(env.lib, sent, now, s, f, Reconstruct(env.lib, s.fecSets[f], refs).value);
    }
  }

  lemma {:induction false} FillAllFlag(env: Env, sent: SentSlot, now: nat, s: State, hints: seq<nat>)
    requires SentSlotOk(env.lib, sent) && AsSent(env.lib, sent, s) && FlagAsSent(sent, s)
    ensures FlagAsSent(sent, FillAll(env, now, s, hints))
    decreases |hints|
  {
    hide SentSlotOk, AsSent, FecFill, FlagAsSent;
    if hints != [] {
      FillFlag(env, sent, now, s, hints[0]);
      FecFillAsSent(env, sent, now, s, hints[0]);
      FillAllFlag(env, sent, now, FecFill(env, now, s, hints[0]).state, hints[1..]);
    }
  }

  lemma {:induction false} FlushFlag(env: Env, sent: SentSlot, now: nat, s: State)
    requires SentSlotOk(env.lib, sent) && AsSent(env.lib, sent, s) && Bounded(s) && FlagAsSent(sent, s)
    ensures FlagAsSent(sent, Flush(env, now, s))
    decreases U32_MAX - s.batchStart
  {
    hide SentSlotOk, AsSent, FillAll, FinishWhole, FinishSalvaged, Bounded;
    if BoundariesFrom(s) != {} {
      var bc := Least(BoundariesFrom(s));
      BoundaryBounded(s, bc);
      FlushTurnBounded(env, now, s, bc, s.boundaries[bc]);
      TurnAsSent(env, sent, now, s, bc, s.boundaries[bc]);
      FillAllFlag(env, sent, now, s, Hints(s, bc));
      FinishSameFlag(env, Refilled(env, now, s, bc), bc, true);
      match FlushTurn(env, now, s, bc, s.boundaries[bc])
      case Stop =>
      case FinishNow(s1) => FlushFlag(env, sent, now, s1);
    }
  }

  lemma StreamedFlag(env: Env, sent: SentSlot, now: nat, s: State, d: DataArrival)
    requires SentSlotOk(env.lib, sent) && AsSent(env.lib, sent, s) && DataAsSent(env.lib, sent, d)
    requires Bounded(s) && DataOk(d) && FlagAsSent(sent, s)
    ensures FlagAsSent(sent, Streamed(env, now, s, d))
  {
    hide AsSent, SentSlotOk, FecFill, Advance, Bounded, DataAsSent;
    ArrivalAsSent(env.lib, sent, d);
    InsertAsSent(env.lib, sent, now, s, d.index, d.Entry());
    InsertBounded'(now, s, d);
    var s1 := InsertEntry(now, s, d.index, d.Entry());
    AdvanceKeepsShreds(env, s1);
    var s2 := Advance(env, s1);
    SameAsSent(env.lib, sent, s1, s2);
    if s2.cursor <= d.index {
      FillFlag(env, sent, now, s2, d.fecSetIndex);
      FecFillBounded(env, now, s2, d.fecSetIndex);
      var fill := FecFill(env, now, s2, d.fecSetIndex);
      if fill.any { AdvanceKeepsShreds(env, fill.state); }
    }
  }

  lemma CodeStreamedFlag(env: Env, sent: SentSlot, now: nat, s: State, c: CodeArrival)
    requires SentSlotOk(env.lib, sent) && AsSent(env.lib, sent, s) && CodeAsSent(env.lib, sent, c)
    requires Bounded(s) && CodeOk(c) && FlagAsSent(sent, s)
    ensures FlagAsSent(sent, CodeStreamed(env, now, s, c))
  {
    hide AsSent, SentSlotOk, FecFill, Advance, Bounded, CodeAsSent;
    RecordAsSent(env, sent, s, c);
    RecordedBounded(env, s, c);
    var s1 := Recorded(env, s, c);
    FillFlag(env, sent, now, s1, c.fecSetIndex);
    FecFillBounded(env, now, s1, c.fecSetIndex);
    var fill := FecFill(env, now, s1, c.fecSetIndex);
    if fill.any { AdvanceKeepsShreds(env, fill.state); }
  }

  lemma LastAsSent'(lib: ErasureLibrary, sent: SentSlot, d: DataArrival)
    requires SentSlotOk(lib, sent) && DataAsSent(lib, sent, d)
    ensures d.lastInSlot <==> SentLast(sent, d.fecSetIndex, d.index)
  {
    hide SentSlotOk, ParseKind;
  }

  lemma StepFlag(env: Env, sent: SentSlot, s: State, e: Event)
    requires SentSlotOk(env.lib, sent) && AsSent(env.lib, sent, s) && EventAsSent(env.lib, sent, e)
    requires Bounded(s) && EventOk(e) && FlagAsSent(sent, s)
    ensures FlagAsSent(sent, Step(env, s, e))
  {
    hide AsSent, SentSlotOk, Flush, Bounded, DataAsSent, CodeAsSent, Streamed, CodeStreamed, SentLast, DataOk, CodeOk;
    match e
    case Data(now, d) =>
      if d.lastInSlot {
        var s1 := s.(slotComplete := true);
        LastAsSent'(env.lib, sent, d);
        assert SentLast(sent, d.fecSetIndex, d.index);
        FlagKeepsBounded(s);
        SameAsSent(env.lib, sent, s, s1);
        FlushFlag(env, sent, now, s1);
      } else if d.index >= s.batchStart && d.index !in s.pending {
        StreamedFlag(env, sent, now, s, d);
        StreamedAsSent(env, sent, now, s, d);
        FlushFlag(env, sent, now, Streamed(env, now, s, d));
      }
    case Code(now, c) =>
      CodeStreamedFlag(env, sent, now, s, c);
      CodeStreamedAsSent(env, sent, now, s, c);
      FlushFlag(env, sent, now, CodeStreamed(env, now, s, c));
  }

  // ---------- Runs ----------

  /** In every run the arrival of a shred that is last in the slot completes it, for good. */
  lemma {:induction false} LastCompletesSlot(env: Env, events: Events, k: nat)
    requires EventsOk(events) && k < |events| && events[k].Data? && events[k].data.lastInSlot
    ensures After(env, events).slotComplete
    decreases |events|
  {
    hide Step, EventOk, Bounded;
    var n := |events| - 1;
    if k < n { LastCompletesSlot(env, events[..n], k); }
    StepComplete(env, After(env, events[..n]), events[n]);
  }

  /** And in a run of one sender's shreds it is complete only if one was sent last in it. */
  lemma {:induction false} CompleteIsSent(env: Env, sent: SentSlot, events: Events)
    requires SentSlotOk(env.lib, sent) && EventsOk(events)
    requires forall i :: 0 <= i < |events| ==> EventAsSent(env.lib, sent, events[i])
    ensures After(env, events).slotComplete ==> exists f, i :: SentLast(sent, f, i)
    decreases |events|
  {
    hide Step, SentSlotOk, AsSent, EventAsSent, EventOk, Bounded, SentLast;
    if events != [] {
      var n := |events| - 1;
      CompleteIsSent(env, sent, events[..n]);
      AlwaysAsSent(env, sent, events[..n]);
      StepFlag(env, sent, After(env, events[..n]), events[n]);
    }
  }
}
