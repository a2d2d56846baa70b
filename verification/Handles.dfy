/** Pool buffers through a slot's life: every buffer handed in is either held by exactly one pending
    shred or has been given back exactly once. */
module Handles {
  import opened Bytes
  import opened Collections
  import opened Decoder
  import opened Slot
  import opened Invariant
  import opened Lifetime
  import opened Recovery

  ghost predicate HoldsAt(pending: Pending, i: nat, idx: nat)
  {
    i in pending && pending[i].source.FromPool? && pending[i].source.handle.idx == idx
  }

  /** The buffers of the pending shreds. */
  ghost function Held(pending: Pending): (s: set<nat>)
    ensures forall idx :: idx in s <==> exists i :: HoldsAt(pending, i, idx)
  {
    var s := set i | i in pending && pending[i].source.FromPool? :: pending[i].source.handle.idx;
    assert forall idx :: idx in s ==> exists i :: HoldsAt(pending, i, idx) by {
      forall idx | idx in s
        ensures exists i :: HoldsAt(pending, i, idx)
      {
        var i :| i in pending && pending[i].source.FromPool? && pending[i].source.handle.idx == idx;
        assert HoldsAt(pending, i, idx);
      }
    }
    assert forall i, idx :: HoldsAt(pending, i, idx) ==> pending[i].source.handle.idx in s;
    s
  }

  /** No buffer is held twice. */
  ghost predicate Distinct(pending: Pending)
  {
    forall i, j, idx :: HoldsAt(pending, i, idx) && HoldsAt(pending, j, idx) ==> i == j
  }

  /** Pool-sourced shreds are those that were there, buffer and all. */
  ghost predicate SameSources(p: Pending, q: Pending)
  {
    forall i :: i in q && q[i].source.FromPool? ==> i in p && p[i] == q[i]
  }

  /** Between two states of a slot: what was held is held still or was given back, once. */
  ghost predicate Shed(s: State, s': State, given: seq<nat>)
  {
    && s'.log.released == s.log.released + given
    && NoDup(given) && Distinct(s'.pending)
    && Held(s'.pending) !! Elements(given)
    && Held(s.pending) == Held(s'.pending) + Elements(given)
    && SameSources(s.pending, s'.pending)
  }

  ghost predicate Sheds(s: State, s': State)
  {
    exists given :: Shed(s, s', given)
  }

  lemma ShedsTrans(a: State, b: State, c: State)
    requires Sheds(a, b) && Sheds(b, c)
    ensures Sheds(a, c)
  {
    var x :| Shed(a, b, x);
    var y :| Shed(b, c, y);
    NoDupAppend(x, y);
    assert c.log.released == a.log.released + (x + y);
    assert Shed(a, c, x + y);
  }

  lemma SamePoolShreds(s: State, s': State)
    requires Distinct(s.pending) && SameSources(s.pending, s'.pending)
    requires forall i, idx :: HoldsAt(s'.pending, i, idx) <==> HoldsAt(s.pending, i, idx)
    requires s'.log.released == s.log.released
    ensures Sheds(s, s')
  {
    assert Held(s'.pending) == Held(s.pending);
    assert s'.log.released == s.log.released + [];
    assert Shed(s, s', []);
  }

  lemma {:induction false} HandlesOfAre(pending: Pending, keys: seq<nat>)
    requires Distinct(pending) && Increasing(keys)
    ensures NoDup(HandlesOf(pending, keys))
    ensures forall idx :: idx in HandlesOf(pending, keys) <==> exists i :: i in keys && HoldsAt(pending, i, idx)
    decreases |keys|
  {
    if keys != [] {
      var rest := keys[1..];
      HandlesOfAre(pending, rest);
      var hs := HandlesOf(pending, rest);
      var k := keys[0];
      assert forall i :: i in keys <==> i == k || i in rest;
      assert k !in rest;
      if k in pending && pending[k].source.FromPool? {
        var idx := pending[k].source.handle.idx;
        assert HoldsAt(pending, k, idx);
        assert idx !in hs;
        assert HandlesOf(pending, keys) == [idx] + hs;
        OneMore(idx, hs);
      } else {
        assert HandlesOf(pending, keys) == [] + hs == hs;
      }
    }
  }

  lemma OneMore(x: nat, xs: seq<nat>)
    requires NoDup(xs) && x !in xs
    ensures NoDup([x] + xs)
  {
  }

  lemma CompleteSheds(s: State, bc: nat, finish: Finish)
    requires Distinct(s.pending) && bc < U32_MAX
    ensures Sheds(s, Complete(s, bc, finish))
  {
    var s' := Complete(s, bc, finish);
    var keys := Sorted(KeysBelow(s.pending, bc + 1));
    var given := HandlesOf(s.pending, keys);
    HandlesOfAre(s.pending, keys);
    forall i, idx
      ensures HoldsAt(s'.pending, i, idx) <==> HoldsAt(s.pending, i, idx) && i !in keys
    {
    }
    SplitHeld(s.pending, s'.pending, keys, given);
    assert Shed(s, s', given);
  }

  lemma SplitHeld(p: Pending, q: Pending, keys: seq<nat>, given: seq<nat>)
    requires Distinct(p)
    requires forall i, idx :: HoldsAt(q, i, idx) <==> HoldsAt(p, i, idx) && i !in keys
    requires forall idx :: idx in given <==> exists i :: i in keys && HoldsAt(p, i, idx)
    ensures Distinct(q) && Held(q) !! Elements(given) && Held(p) == Held(q) + Elements(given)
  {
    forall idx
      ensures idx in Held(p) <==> idx in Held(q) || idx in given
      ensures !(idx in Held(q) && idx in given)
    {
      if i :| HoldsAt(p, i, idx) {
        assert i in keys || HoldsAt(q, i, idx);
      }
      if i :| HoldsAt(q, i, idx) {
        assert HoldsAt(p, i, idx);
      }
    }
  }

  lemma FinishSheds(env: Env, s: State, bc: nat, timedOut: bool)
    requires Distinct(s.pending) && bc < U32_MAX
    ensures Sheds(s, FinishWhole(env, s, bc)) && Sheds(s, FinishSalvaged(env, s, bc, timedOut))
  {
    hide Emit, Complete, DecodeBatch, RunsTxs, Sheds, Distinct, SalvagedFrom;
    var bytes := Concat(s.pending, s.batchStart, bc + 1);
    match DecodeBatch(env.codec, bytes) {
      case Some(txs) =>
        EmitKeeps(s, txs);
        var s1 := if Fresh(s.yielded, txs) != [] then CountFallback(Emit(s, txs)) else CountStreaming(Emit(s, txs));
        CompleteSheds(s1, bc, Whole(bytes, s.log.emitted));
        ShedsFrom(s, s1, FinishWhole(env, s, bc));
      case None =>
        var s1 := CountSkipped(CountDecodeError(s));
        CompleteSheds(s1, bc, Whole(bytes, s.log.emitted));
        ShedsFrom(s, s1, FinishWhole(env, s, bc));
    }
    EmitKeeps(s, RunsTxs(env, s.pending, Runs(s.pending.Keys, s.batchStart, bc + 1)));
    var s1 := Salvage(env, s, s.batchStart, bc);
    var s2 := if |s1.log.emitted| > |s.log.emitted| then CountFallback(s1) else CountSkipped(s1);
    var s3 := if timedOut then CountTimeout(s2) else s2;
    CompleteSheds(s3, bc, SalvagedFrom(s, bc, timedOut));
    ShedsFrom(s, s3, FinishSalvaged(env, s, bc, timedOut));
  }

  lemma ShedsFrom(s: State, t: State, s': State)
    requires Sheds(t, s') && t.pending == s.pending && t.log.released == s.log.released
    ensures Sheds(s, s')
  {
    var given :| Shed(t, s', given);
    assert Shed(s, s', given);
  }

  lemma ShedsDistinct(s: State, s': State)
    requires Sheds(s, s')
    ensures Distinct(s'.pending)
  {
  }

  lemma RefillSheds(now: nat, s: State, s': State)
    requires Distinct(s.pending) && RefillOf(now, s, s')
    ensures Sheds(s, s')
  {
    SamePoolShreds(s, s');
  }

  lemma {:induction false} FlushSheds(env: Env, now: nat, s: State)
    requires Inv(env, s) && AtMostLast(s) && Bounded(s) && Distinct(s.pending)
    ensures Sheds(s, Flush(env, now, s))
    decreases U32_MAX - s.batchStart
  {
    hide Shape, Tracks, Ledger, Accounted, FlushTurn, Refilled, RefillOf, Bounded, NothingReady, Sheds, Distinct;
    if BoundariesFrom(s) == {} {
      SamePoolShreds(s, s);
    } else {
      var bc := Least(BoundariesFrom(s));
      FlushTurnBounded'(env, now, s, bc);
      TurnSheds(env, now, s, bc);
      match FlushTurn(env, now, s, bc, s.boundaries[bc])
      case Stop =>
      case FinishNow(s1) =>
        TurnFinishes(env, now, s);
        ShedsDistinct(s, s1);
        FlushSheds(env, now, s1);
        ShedsTrans(s, s1, Flush(env, now, s1));
    }
  }

  lemma TurnSheds(env: Env, now: nat, s: State, bc: nat)
    requires Shape(s) && Distinct(s.pending) && bc < U32_MAX && bc in s.boundaries
    ensures Sheds(s, Refilled(env, now, s, bc))
    ensures var turn := FlushTurn(env, now, s, bc, s.boundaries[bc]);
            turn.FinishNow? ==> Sheds(s, turn.state)
  {
    hide Shape, FinishWhole, FinishSalvaged, Refilled, RefillOf, Sheds, Distinct;
    var s1 := Refilled(env, now, s, bc);
    RefilledRefills(env, now, s, bc);
    RefillSheds(now, s, s1);
    ShedsDistinct(s, s1);
    FinishSheds(env, s1, bc, true);
    ShedsTrans(s, s1, FinishWhole(env, s1, bc));
    ShedsTrans(s, s1, FinishSalvaged(env, s1, bc, true));
  }

  // ---------- A call that hands a buffer in ----------

  /** The call took the handle in: its buffer is now held, or was given back with the others. */
  ghost predicate TookIn(s: State, s': State, h: Handle, given: seq<nat>)
  {
    && s'.log.released == s.log.released + given
    && NoDup(given) && Distinct(s'.pending)
    && Held(s'.pending) !! Elements(given)
    && Held(s.pending) + {h.idx} == Held(s'.pending) + Elements(given)
    && (forall i :: i in s'.pending && s'.pending[i].source.FromPool? && s'.pending[i].source.handle != h ==>
          i in s.pending && s.pending[i] == s'.pending[i])
  }

  ghost predicate TakesIn(s: State, s': State, h: Handle)
  {
    exists given :: TookIn(s, s', h, given)
  }

  lemma ReleaseTakesIn(s: State, s': State, h: Handle)
    requires Sheds(s, s') && h.idx !in Held(s.pending)
    ensures TakesIn(s, Release(s', h.idx), h)
  {
    var given :| Shed(s, s', given);
    assert h.idx !in Elements(given) && h.idx !in Held(s'.pending);
    NoDupAppend(given, [h.idx]);
    assert Elements([h.idx]) == {h.idx};
    assert Release(s', h.idx).log.released == s.log.released + (given + [h.idx]);
    assert TookIn(s, Release(s', h.idx), h, given + [h.idx]);
  }

  lemma InsertHolds(now: nat, s: State, d: DataArrival)
    requires Distinct(s.pending) && d.index !in s.pending && d.handle.idx !in Held(s.pending)
    ensures var s' := InsertEntry(now, s, d.index, d.Entry());
            Distinct(s'.pending) && Held(s'.pending) == Held(s.pending) + {d.handle.idx}
  {
    var s' := InsertEntry(now, s, d.index, d.Entry());
    forall i, idx
      ensures HoldsAt(s'.pending, i, idx) <==> HoldsAt(s.pending, i, idx) || (i == d.index && idx == d.handle.idx)
    {
    }
    forall idx
      ensures idx in Held(s'.pending) <==> idx in Held(s.pending) || idx == d.handle.idx
    {
      assert HoldsAt(s'.pending, d.index, d.handle.idx);
      if i :| HoldsAt(s.pending, i, idx) { assert HoldsAt(s'.pending, i, idx); }
    }
    forall i, j, idx | HoldsAt(s'.pending, i, idx) && HoldsAt(s'.pending, j, idx)
      ensures i == j
    {
    }
  }

  lemma AdvanceSheds(env: Env, s: State)
    requires Bounded(s) && Distinct(s.pending)
    ensures Sheds(s, Advance(env, s))
  {
    AdvanceKeepsShreds(env, s);
    SamePoolShreds(s, Advance(env, s));
  }

  lemma StreamedSheds(env: Env, now: nat, s: State, d: DataArrival)
    requires Resting(env, s) && Bounded(s) && DataOk(d) && s.batchStart <= d.index && d.index !in s.pending
    requires Distinct(InsertEntry(now, s, d.index, d.Entry()).pending)
    ensures Sheds(InsertEntry(now, s, d.index, d.Entry()), Streamed(env, now, s, d))
  {
    hide Shape, Tracks, Ledger, Accounted, InsertEntry, Advance, FecFill, Bounded, NothingReady, Sheds, Distinct,
      RefillOf;
    ArrivalEntryOk(d);
    InsertInv(env, now, s, d.index, d.Entry());
    InsertBounded'(now, s, d);
    var s1 := InsertEntry(now, s, d.index, d.Entry());
    AdvanceInv(env, s1);
    AdvanceSheds(env, s1);
    var s2 := Advance(env, s1);
    ShedsDistinct(s1, s2);
    FecFillRefills(env, now, s2, d.fecSetIndex);
    FecFillBounded(env, now, s2, d.fecSetIndex);
    var s3 := FecFill(env, now, s2, d.fecSetIndex).state;
    RefillSheds(now, s2, s3);
    ShedsTrans(s1, s2, s3);
    ShedsDistinct(s1, s3);
    AdvanceSheds(env, s3);
    ShedsTrans(s1, s3, Advance(env, s3));
  }

  lemma HeldThenShed(s: State, s1: State, s': State, h: Handle)
    requires Held(s1.pending) == Held(s.pending) + {h.idx} && s1.log.released == s.log.released
    requires forall i :: i in s1.pending ==>
      (i in s.pending && s1.pending[i] == s.pending[i]) || s1.pending[i].source == FromPool(h)
    requires Sheds(s1, s')
    ensures TakesIn(s, s', h)
  {
    var given :| Shed(s1, s', given);
    assert TookIn(s, s', h, given);
  }

  /** `push_data` accounts for the buffer it is handed on every path. */
  lemma PushDataTakesIn(env: Env, now: nat, s: State, d: DataArrival)
    requires Resting(env, s) && Bounded(s) && DataOk(d)
    requires Distinct(s.pending) && d.handle.idx !in Held(s.pending)
    ensures TakesIn(s, PushData(env, now, s, d), d.handle)
  {
    hide Shape, Tracks, Ledger, Accounted, Flush, Streamed, Bounded, NothingReady, NoBoundary, Sheds, TakesIn,
      Distinct, Held, InsertEntry;
    if d.lastInSlot {
      var s1 := s.(slotComplete := true);
      FlagRests(env, s, true);
      FlushSheds(env, now, s1);
      ShedsFrom(s, s1, Flush(env, now, s1));
      ReleaseTakesIn(s, Flush(env, now, s1), d.handle);
    } else if d.index < s.batchStart || d.index in s.pending {
      SamePoolShreds(s, s);
      ReleaseTakesIn(s, s, d.handle);
    } else {
      InsertHolds(now, s, d);
      var s1 := InsertEntry(now, s, d.index, d.Entry());
      InsertLog(now, s, d);
      StreamedInv(env, now, s, d);
      StreamedSheds(env, now, s, d);
      var s2 := Streamed(env, now, s, d);
      ShedsDistinct(s1, s2);
      FlushSheds(env, now, s2);
      ShedsTrans(s1, s2, Flush(env, now, s2));
      HeldThenShed(s, s1, Flush(env, now, s2), d.handle);
    }
  }

  lemma InsertLog(now: nat, s: State, d: DataArrival)
    ensures InsertEntry(now, s, d.index, d.Entry()).log == s.log
    ensures InsertEntry(now, s, d.index, d.Entry()).pending == s.pending[d.index := d.Entry()]
  {
  }

  lemma PushCodeSheds(env: Env, now: nat, s: State, c: CodeArrival)
    requires Resting(env, s) && Bounded(s) && CodeOk(c) && Distinct(s.pending)
    ensures Sheds(s, PushCode(env, now, s, c))
  {
    hide Shape, Tracks, Ledger, Accounted, Flush, Recorded, FecFill, Advance, Bounded, NothingReady, Sheds,
      Distinct, RefillOf;
    RecordedInv(env, s, c);
    RecordedBounded(env, s, c);
    var s1 := Recorded(env, s, c);
    RecordedPending(env, s, c);
    SamePoolShreds(s, s1);
    FecFillRefills(env, now, s1, c.fecSetIndex);
    FecFillBounded(env, now, s1, c.fecSetIndex);
    var fill := FecFill(env, now, s1, c.fecSetIndex);
    var s2 := fill.state;
    FillInv(env, now, s1, s2);
    RefillSheds(now, s1, s2);
    ShedsTrans(s, s1, s2);
    ShedsDistinct(s, s2);
    if fill.any {
      AdvanceInv(env, s2);
      AdvanceSheds(env, s2);
      ShedsTrans(s, s2, Advance(env, s2));
      ShedsDistinct(s, Advance(env, s2));
      FlushSheds(env, now, Advance(env, s2));
      ShedsTrans(s, Advance(env, s2), Flush(env, now, Advance(env, s2)));
    } else {
      NoBoundaryIsAtMostLast(s2);
      FlushSheds(env, now, s2);
      ShedsTrans(s, s2, Flush(env, now, s2));
    }
  }

  lemma RecordedPending(env: Env, s: State, c: CodeArrival)
    ensures Recorded(env, s, c).pending == s.pending && Recorded(env, s, c).log == s.log
  {
  }

  lemma {:induction false} HarvestBatchesSheds(env: Env, s: State, bcs: seq<nat>)
    requires Distinct(s.pending) && forall i :: 0 <= i < |bcs| ==> bcs[i] < U32_MAX
    ensures Sheds(s, HarvestBatches(env, s, bcs))
    decreases |bcs|
  {
    hide FinishWhole, FinishSalvaged, Sheds, Distinct;
    if bcs == [] {
      SamePoolShreds(s, s);
    } else if bcs[0] < s.batchStart {
      HarvestBatchesSheds(env, s, bcs[1..]);
    } else {
      FinishSheds(env, s, bcs[0], false);
      var s' := if AllPresent(s.pending, s.batchStart, bcs[0] + 1) then FinishWhole(env, s, bcs[0])
                else FinishSalvaged(env, s, bcs[0], false);
      ShedsDistinct(s, s');
      HarvestBatchesSheds(env, s', bcs[1..]);
      ShedsTrans(s, s', HarvestBatches(env, s', bcs[1..]));
    }
  }

  lemma HarvestSheds(env: Env, now: nat, s: State)
    requires Shape(s) && Distinct(s.pending)
    ensures Sheds(s, Harvest(env, now, s))
  {
    hide Shape, FillAll, HarvestBatches, RunsTxs, Emit, RefillOf, Sheds, Distinct;
    var hints := Sorted(s.fecSets.Keys);
    var s1 := FillAll(env, now, s, hints);
    FillAllRefills(env, now, s, hints);
    RefillShape(now, s, s1);
    RefillSheds(now, s, s1);
    ShedsDistinct(s, s1);
    var bcs := HarvestBoundaries(s1);
    ShapeBounded(s1);
    BoundedEnds(s1);
    HarvestBatchesSheds(env, s1, bcs);
    var s2 := HarvestBatches(env, s1, bcs);
    ShedsTrans(s, s1, s2);
    var tail := RunsTxs(env, s2.pending, Runs(s2.pending.Keys, 0, U32_MAX));
    EmitKeeps(s2, tail);
    ShedsTo(s, s2, Harvest(env, now, s));
  }

  lemma BoundedEnds(s: State)
    requires Bounded(s)
    ensures forall k :: 0 <= k < |HarvestBoundaries(s)| ==> HarvestBoundaries(s)[k] < U32_MAX
  {
    forall k | 0 <= k < |HarvestBoundaries(s)|
      ensures HarvestBoundaries(s)[k] < U32_MAX
    {
      assert HarvestBoundaries(s)[k] in HarvestBoundaries(s);
    }
  }

  lemma ShedsTo(s: State, t: State, s': State)
    requires Sheds(s, t) && s'.pending == t.pending && s'.log.released == t.log.released
    ensures Sheds(s, s')
  {
    var given :| Shed(s, t, given);
    assert Shed(s, s', given);
  }

  /** Dropping a slot gives back exactly what it still held. */
  lemma DropReleasesHeld(pending: Pending)
    requires Distinct(pending)
    ensures NoDup(HandlesOf(pending, Sorted(pending.Keys)))
    ensures Elements(HandlesOf(pending, Sorted(pending.Keys))) == Held(pending)
  {
    hide HandlesOf, Sorted, Distinct, Held, NoDup, Increasing;
    var keys := Sorted(pending.Keys);
    HandlesOfAre(pending, keys);
    HoldersAreKeys(pending);
    var given := HandlesOf(pending, keys);
    forall idx
      ensures idx in given <==> idx in Held(pending)
    {
    }
    assert forall idx :: idx in Elements(given) <==> idx in given;
  }

  lemma HoldersAreKeys(pending: Pending)
    ensures forall i, idx :: HoldsAt(pending, i, idx) ==> i in Sorted(pending.Keys)
  {
    hide Sorted, Increasing;
  }
}
