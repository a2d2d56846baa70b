/** The last 32-bit index. Packets with it are admitted, and at it the flush loop, the streaming loop and
    the salvage scan make no progress: this is what the bounds of `Slot.Bounded` and `Window.InRange` keep
    out. */
module Saturation {
  import opened Bytes
  import opened Collections
  import opened Variant
  import opened Parser
  import opened Packets
  import opened Slot
  import opened Window
  import opened Invariant
  import opened Lifetime
  import opened Reachable
  import opened Recovery
  import opened Order
  import opened Stale
  import opened BatchEnds

  // ---------- Such packets are admitted ----------

  /** An empty Merkle data shred of slot 0, FEC set 0, with the last index, ending a batch. */
  function LastIndexPacket(): seq<byte>
  {
    DataPacket(LastIndexShred(), Flags(false, true, 0), [])
  }

  function LastIndexShred(): DataShred
  {
    DataShred(0, U32_MAX, 0, 0, 0, [], true, false, DataMerkle(0, false), DATA_HEADER_SIZE)
  }

  /** The listener hands this packet to its slot although its index leaves no room for a next one. */
  lemma LastIndexIsAdmitted(idx: nat, lastSlot: nat, seen: set<nat>, enableFec: bool)
    requires 0 !in seen
    ensures var a := Admit(Handle(idx, LastIndexPacket()), lastSlot, seen, enableFec);
            a.ToData? && a.slot == 0 && a.data.index == U32_MAX && a.data.batchComplete && !a.data.lastInSlot
            && a.data.Entry().Payload().Some?
    ensures !InRange(LastIndexPacket())
  {
    hide ParseKind, DataPacket;
    DataRoundTrip(LastIndexShred(), Flags(false, true, 0), []);
  }

  // ---------- The flush loop ----------

  /** Finishing a range makes progress exactly below the last index. At it the shred and its boundary
      survive `complete_batch`. */
  lemma ProgressBelowSaturation(s: State, bc: nat, finish: Finish)
    requires bc <= U32_MAX
    ensures Complete(s, bc, finish).batchStart > bc <==> bc < U32_MAX
    ensures bc == U32_MAX && bc in s.pending && bc in s.boundaries ==>
              bc in Complete(s, bc, finish).pending && bc in BoundariesFrom(Complete(s, bc, finish))
  {
  }

  /** The window has come to the last index, and the shred there ends a batch. */
  ghost predicate Stuck(s: State)
  {
    s.batchStart == U32_MAX && U32_MAX in s.pending && U32_MAX in s.boundaries
    && forall b :: b in s.boundaries ==> b <= U32_MAX
  }

  /** A turn there finishes the range and leaves everything as it was for the next. */
  lemma StuckTurn(env: Env, now: nat, s: State)
    requires Stuck(s)
    ensures BoundariesFrom(s) != {} && Least(BoundariesFrom(s)) == U32_MAX
    ensures var turn := FlushTurn(env, now, s, U32_MAX, s.boundaries[U32_MAX]);
            && turn.FinishNow? && Stuck(turn.state)
            && |turn.state.log.completions| == |s.log.completions| + 1
  {
    assert U32_MAX in BoundariesFrom(s);
    assert AllPresent(s.pending, s.batchStart, U32_MAX + 1);
    StuckFinish(env, s);
  }

  lemma StuckFinish(env: Env, s: State)
    requires Stuck(s)
    ensures Stuck(FinishWhole(env, s, U32_MAX))
    ensures |FinishWhole(env, s, U32_MAX).log.completions| == |s.log.completions| + 1
  {
    hide Fresh, Concat, HandlesOf, BoundariesIn;
  }

  /** The flush loop never returns: whatever the number of turns, that many are taken, each finishing the
      same range once more. */
  lemma {:induction false} FlushNeverReturns(env: Env, now: nat, s: State, n: nat)
    requires Stuck(s)
    ensures Stuck(TurnState(env, now, s, n))
    ensures |TurnState(env, now, s, n).log.completions| == |s.log.completions| + n
  {
    hide Stuck, FlushTurn;
    if n > 0 {
      FlushNeverReturns(env, now, s, n - 1);
      StuckTurn(env, now, TurnState(env, now, s, n - 1));
    }
  }

  /** The shred of that packet, once inserted behind a window that has come to the last index, leaves the
      slot stuck. */
  lemma ArrivalSticks(now: nat, s: State, d: DataArrival)
    requires s.batchStart == U32_MAX && d.index == U32_MAX && d.batchComplete
    requires forall b :: b in s.boundaries ==> b < U32_MAX
    ensures Stuck(InsertEntry(now, s, d.index, d.Entry()))
  {
  }

  /** The pass over it that the streaming loop makes before the flush changes nothing of that. */
  lemma StuckStreams(env: Env, s: State, payload: seq<byte>)
    requires Stuck(s)
    ensures Stuck(StreamOne(env, s, payload))
    ensures StreamOne(env, s, payload).fecSets == s.fecSets
  {
  }

  /** The whole of it. Two shreds bring the window to the last index; then the packet with that index is
      handed over, inserted and streamed, no set can be refilled, and the flush loop that follows finishes
      the same range any number of times. */
  lemma LastPacketHangs(env: Env, d: DataArrival, last: DataArrival, s: State, h: Handle, now: nat, n: nat)
    requires DataOk(d) && d.index == U32_MAX - 1 && d.batchComplete && !d.lastInSlot
    requires DataOk(last) && last.lastInSlot && env.timeout > 0
    requires Reaches(env, [Event.Data(0, d), Event.Data(env.timeout, last)], s)
    requires h.bytes == LastIndexPacket()
    ensures var a := Admit(h, 0, {}, true);
            && a.ToData? && a.data.index >= s.batchStart && a.data.index !in s.pending && a.data.Entry().Payload().Some?
            && var s1 := InsertEntry(now, s, a.data.index, a.data.Entry());
            && var s2 := StreamOne(env, s1, a.data.Entry().Payload().value);
            && FecFill(env, now, s2, a.data.fecSetIndex) == Fill(s2, false)
            && Stuck(TurnState(env, now, s2, n))
            && |TurnState(env, now, s2, n).log.completions| == |s2.log.completions| + n
  {
    hide Reaches, LastIndexPacket, Admit, StreamOne, TurnState, Stuck;
    LastIndexIsAdmitted(h.idx, 0, {}, true);
    LastIndexIsReached(env, d, last, s);
    var a := Admit(h, 0, {}, true);
    assert h == Handle(h.idx, LastIndexPacket());
    var s1 := InsertEntry(now, s, a.data.index, a.data.Entry());
    ArrivalSticks(now, s, a.data);
    var s2 := StreamOne(env, s1, a.data.Entry().Payload().value);
    StuckStreams(env, s1, a.data.Entry().Payload().value);
    NoSetsToFill(env, now, s2, a.data.fecSetIndex);
    FlushNeverReturns(env, now, s2, n);
  }

  /** A run of two packets brings the window there: a batch end at the last index but one, timed out by
      the time the slot's last shred arrives. */
  lemma LastIndexIsReached(env: Env, d: DataArrival, last: DataArrival, s: State)
    requires DataOk(d) && d.index == U32_MAX - 1 && d.batchComplete && !d.lastInSlot
    requires DataOk(last) && last.lastInSlot && env.timeout > 0
    requires Reaches(env, [Event.Data(0, d), Event.Data(env.timeout, last)], s)
    ensures s.batchStart == U32_MAX && s.boundaries == map[]
    ensures s.fecSets == map[] && U32_MAX !in s.pending
  {
    hide Reaches, PushData, Flush, FinishSalvaged, Bounded, DataOk, InsertEntry, Resting;
    var run := [Event.Data(0, d), Event.Data(env.timeout, last)];
    ReachesAfter(env, run, s);
    assert run[..1] == [Event.Data(0, d)] && run[..1][..0] == [];
    Waits(env, 0, NEW_SLOT, d);
    var s1 := After(env, run[..1]);
    InsertedAlone(0, d);
    assert run[..1][0] == Event.Data(0, d);
    assert s1 == Step(env, After(env, run[..1][..0]), run[..1][0]);
    assert s1 == InsertEntry(0, NEW_SLOT, d.index, d.Entry());
    FlagKeepsBounded(s1);
    TimedOut(env, s1.(slotComplete := true), U32_MAX - 1);
    LastPushed(env, s1, last);
    RunDry(env, run);
    AlwaysRests(env, run);
    RestingIndices(env, s);
  }

  lemma RestingIndices(env: Env, s: State)
    requires Resting(env, s)
    ensures U32_MAX !in s.pending
  {
    ShapeBounded(s);
  }

  lemma InsertedAlone(now: nat, d: DataArrival)
    requires d.batchComplete
    ensures InsertEntry(now, NEW_SLOT, d.index, d.Entry())
         == NEW_SLOT.(pending := map[d.index := d.Entry()], boundaries := map[d.index := now])
  {
  }

  lemma LastPushed(env: Env, s: State, last: DataArrival)
    requires Bounded(s) && DataOk(last) && last.lastInSlot
    ensures Bounded(s.(slotComplete := true))
    ensures var s' := Flush(env, env.timeout, s.(slotComplete := true));
            PushData(env, env.timeout, s, last).batchStart == s'.batchStart
            && PushData(env, env.timeout, s, last).boundaries == s'.boundaries
  {
    FlagKeepsBounded(s);
  }

  lemma TimedOut(env: Env, s: State, bc: nat)
    requires Bounded(s) && s.fecSets == map[] && s.batchStart == 0 && s.pending.Keys == {bc} && 0 < bc < U32_MAX
    requires s.boundaries == map[bc := 0]
    ensures Flush(env, env.timeout, s).batchStart == bc + 1 && Flush(env, env.timeout, s).boundaries == map[]
  {
    hide Bounded, FinishSalvaged, Refilled;
    assert BoundariesFrom(s) == {bc};
    NoHints(env, env.timeout, s, bc);
    assert 0 !in s.pending.Keys;
    assert !AllPresent(s.pending, 0, bc + 1);
    SalvagedFields(env, s, bc);
    FlushTurnBounded(env, env.timeout, s, bc, 0);
    assert BoundariesFrom(FinishSalvaged(env, s, bc, true)) == {};
  }

  lemma SalvagedFields(env: Env, s: State, bc: nat)
    requires bc < U32_MAX && forall b :: b in s.boundaries ==> b == bc
    ensures FinishSalvaged(env, s, bc, true).batchStart == bc + 1
      && FinishSalvaged(env, s, bc, true).boundaries == map[]
  {
    hide Fresh, RunsTxs, Runs, HandlesOf, BoundariesIn;
  }

  // ---------- The streaming loop ----------

  /** At the last index the cursor stays, so the loop streams the same shred again. */
  lemma StreamingStays(env: Env, s: State, payload: seq<byte>)
    requires s.cursor <= U32_MAX
    ensures StreamOne(env, s, payload).cursor > s.cursor <==> s.cursor < U32_MAX
    ensures StreamOne(env, s, payload).pending == s.pending
  {
  }

  // ---------- The salvage scan ----------

  /** The scan position after so many steps of either inner loop. */
  function ScanPosition(cursor: nat, steps: nat): nat
  {
    if steps == 0 then cursor else SatAdd(ScanPosition(cursor, steps - 1), 1, U32_MAX)
  }

  lemma {:induction false} ScanPositionIs(cursor: nat, steps: nat)
    requires cursor <= U32_MAX
    ensures ScanPosition(cursor, steps) == SatAdd(cursor, steps, U32_MAX)
  {
    if steps > 0 {
      ScanPositionIs(cursor, steps - 1);
    }
  }

  /** The scan of a range gets past its end if and only if that is below the last index; at it no number
      of steps is enough. */
  lemma ScanEndsExactly(cursor: nat, end: nat)
    requires cursor <= end <= U32_MAX
    ensures (exists steps :: ScanPosition(cursor, steps) > end) <==> end < U32_MAX
  {
    forall steps: nat
      ensures ScanPosition(cursor, steps) == SatAdd(cursor, steps, U32_MAX)
    {
      ScanPositionIs(cursor, steps);
    }
    assert ScanPosition(cursor, U32_MAX - cursor) == U32_MAX;
  }
}
