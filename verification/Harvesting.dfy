/** The harvest leaves nothing behind: every batch end still pending is finished, the rest is salvaged run by
    run, and of one sender's shreds whatever could be rebuilt has been. */
module Harvesting {
  import opened Bytes
  import opened Collections
  import opened Decoder
  import opened Slot
  import opened Emission
  import opened Scanners
  import opened Invariant
  import opened Lifetime
  import opened Reachable
  import opened Recovery
  import opened Handles
  import opened Exhaustion
  import opened Rebuilding

  // ---------- Every batch end ----------

  /** The listed batch ends have been finished one by one, and what lies past the last is untouched. */
  ghost predicate FinishedAll(s: State, bcs: seq<nat>, h: State)
  {
    && |h.log.completions| == |s.log.completions| + |bcs|
    && (forall k :: 0 <= k < |bcs| ==> h.log.completions[|s.log.completions| + k].last == bcs[k])
    && (forall i :: i in h.pending <==> i in s.pending && (bcs == [] || bcs[|bcs| - 1] < i))
    && (forall i :: i in h.pending ==> h.pending[i] == s.pending[i])
    && h.batchStart == (if bcs == [] then s.batchStart else bcs[|bcs| - 1] + 1)
  }

  lemma {:induction false} HarvestFinishesAll(env: Env, s: State, bcs: seq<nat>)
    requires HarvestReady(env, s, bcs)
    ensures FinishedAll(s, bcs, HarvestBatches(env, s, bcs))
    ensures bcs != [] ==> HarvestBatches(env, s, bcs).log.emitted == []
    ensures bcs == [] ==> HarvestBatches(env, s, bcs) == s
    decreases |bcs|
  {
    hide Shape, Tracks, Ledger, Accounted, FinishWhole, FinishSalvaged, HarvestList, IsBoundary, BoundariesIn,
      FinishedAll;
    if bcs == [] {
      NothingFinished(s);
    } else {
      var bc := bcs[0];
      HarvestHead(env, s, bcs);
      FinishPending(env, s, bc, false);
      var s' := if AllPresent(s.pending, s.batchStart, bc + 1) then FinishWhole(env, s, bc)
                else FinishSalvaged(env, s, bc, false);
      FinishWholeInv(env, s, bc);
      FinishSalvagedInv(env, s, bc, false);
      FinishResets(env, s, bc);
      HarvestTail(s, bcs, s');
      HarvestBatchesInv(env, s', bcs[1..]);
      HarvestFinishesAll(env, s', bcs[1..]);
      ListIncreases(s, bcs);
      FinishedOneMore(s, bcs, s', HarvestBatches(env, s', bcs[1..]));
    }
  }

  lemma ListIncreases(s: State, bcs: seq<nat>)
    requires HarvestList(s, bcs)
    ensures Increasing(bcs)
  {
  }

  lemma NothingFinished(s: State)
    ensures FinishedAll(s, [], s)
  {
  }

  lemma FinishResets(env: Env, s: State, bc: nat)
    ensures FinishWhole(env, s, bc).log.emitted == [] && FinishSalvaged(env, s, bc, false).log.emitted == []
  {
    hide Concat, Emit, RunsTxs, Runs, HandlesOf, BoundariesIn, SalvagedFrom;
  }

  lemma FinishedOneMore(s: State, bcs: seq<nat>, s': State, h: State)
    requires bcs != [] && Increasing(bcs) && Finished(s, bcs[0], s') && FinishedAll(s', bcs[1..], h)
    requires s'.log.completions <= h.log.completions
    requires s'.pending == map i | i in s.pending && i >= bcs[0] + 1 :: s.pending[i]
    ensures FinishedAll(s, bcs, h)
  {
    var n := |s.log.completions|;
    assert h.log.completions[n] == s'.log.completions[n];
    forall k | 0 <= k < |bcs|
      ensures h.log.completions[n + k].last == bcs[k]
    {
      if k > 0 { assert bcs[k] == bcs[1..][k - 1]; }
    }
  }

  /** After the harvest of a slot at rest no batch end is pending, and every batch end that was pending before
      it is the end of exactly one range the harvest completed. */
  lemma HarvestEndsAll(env: Env, now: nat, s: State)
    requires Resting(env, s)
    ensures var h := Harvest(env, now, s);
            && (forall i :: i in h.pending ==> !h.pending[i].batchComplete)
            && (forall b :: b in s.pending && s.pending[b].batchComplete ==> EndedBy(s, h, b))
            && (forall i :: i in s.pending && h.batchStart <= i ==> i in h.pending)
  {
    hide Shape, Tracks, Ledger, Accounted, FillAll, HarvestBatches, RunsTxs, Runs, Emit, RefillOf, HarvestList,
      HarvestBoundaries, FinishedAll;
    var h := Harvest(env, now, s);
    var s1 := FillAll(env, now, s, Sorted(s.fecSets.Keys));
    var bcs := HarvestBoundaries(s1);
    HarvestStart(env, now, s);
    HarvestFinishesAll(env, s1, bcs);
    HarvestEnd(env, now, s);
    var s2 := HarvestBatches(env, s1, bcs);
    NoneLeft(env, s1, bcs, s2);
    forall b | b in s.pending && s.pending[b].batchComplete
      ensures EndedBy(s, h, b)
    {
      EndIsListed(env, s1, b);
      ListedIsEnded(s1, bcs, s2, b);
      assert EndedBy(s1, s2, b);
    }
  }

  /** Exactly one range completed since ends here. */
  ghost predicate EndedBy(s: State, h: State, b: nat)
  {
    exists k ::
      && |s.log.completions| <= k < |h.log.completions| && h.log.completions[k].last == b
      && forall j :: |s.log.completions| <= j < |h.log.completions| && h.log.completions[j].last == b ==> j == k
  }

  lemma HarvestStart(env: Env, now: nat, s: State)
    requires Resting(env, s)
    ensures var s1 := FillAll(env, now, s, Sorted(s.fecSets.Keys));
            && HarvestReady(env, s1, HarvestBoundaries(s1)) && s1.log == s.log && s1.batchStart == s.batchStart
            && forall i :: i in s.pending ==> i in s1.pending && s1.pending[i] == s.pending[i]
  {
    hide Shape, Tracks, Ledger, Accounted, FillAll;
    var hints := Sorted(s.fecSets.Keys);
    FillAllRefills(env, now, s, hints);
    FillInv(env, now, s, FillAll(env, now, s, hints));
    ListIsComplete(env, FillAll(env, now, s, hints));
  }

  lemma ListIsComplete(env: Env, s: State)
    requires Inv(env, s)
    ensures HarvestList(s, HarvestBoundaries(s))
  {
    hide Tracks, Ledger, Accounted;
  }

  /** The harvest ends with the tail scan, which touches neither the window nor the ranges. */
  lemma HarvestEnd(env: Env, now: nat, s: State)
    ensures var s1 := FillAll(env, now, s, Sorted(s.fecSets.Keys));
            var s2 := HarvestBatches(env, s1, HarvestBoundaries(s1));
            var h := Harvest(env, now, s);
            && h.pending == s2.pending && h.log.completions == s2.log.completions && h.batchStart == s2.batchStart
            && h.fecSets == s2.fecSets && h.slotComplete == s2.slotComplete
            && h.log.emitted == Emit(s2, RunsTxs(env, h.pending, Runs(h.pending.Keys, 0, U32_MAX))).log.emitted
  {
    hide FillAll, HarvestBatches, RunsTxs, Runs, Emit, HarvestBoundaries;
    var s1 := FillAll(env, now, s, Sorted(s.fecSets.Keys));
    var s2 := HarvestBatches(env, s1, HarvestBoundaries(s1));
    EmitKeeps(s2, RunsTxs(env, s2.pending, Runs(s2.pending.Keys, 0, U32_MAX)));
  }

  lemma NoneLeft(env: Env, s: State, bcs: seq<nat>, h: State)
    requires Shape(s) && HarvestList(s, bcs) && FinishedAll(s, bcs, h)
    ensures forall i :: i in h.pending ==> !h.pending[i].batchComplete
    ensures forall i :: i in s.pending && h.batchStart <= i ==> i in h.pending
  {
    forall i | i in h.pending
      ensures !h.pending[i].batchComplete
    {
      NotListed(bcs, i);
      assert !IsBoundary(s.pending, i);
    }
  }

  lemma NotListed(bcs: seq<nat>, i: nat)
    requires Increasing(bcs) && (bcs == [] || bcs[|bcs| - 1] < i)
    ensures i !in bcs
  {
    forall k | 0 <= k < |bcs|
      ensures bcs[k] != i
    {
      assert k < |bcs| - 1 ==> bcs[k] < bcs[|bcs| - 1];
    }
  }

  lemma EndIsListed(env: Env, s: State, b: nat)
    requires Inv(env, s) && b in s.pending && s.pending[b].batchComplete
    ensures s.batchStart <= b && IsBoundary(s.pending, b)
  {
    hide Tracks, Ledger, Accounted;
  }

  lemma ListedIsEnded(s: State, bcs: seq<nat>, h: State, b: nat)
    requires HarvestList(s, bcs) && FinishedAll(s, bcs, h)
    requires s.batchStart <= b && IsBoundary(s.pending, b)
    ensures EndedBy(s, h, b)
  {
    hide IsBoundary;
    assert b in bcs;
    var k :| 0 <= k < |bcs| && bcs[k] == b;
    var n := |s.log.completions|;
    assert h.log.completions[n + k].last == b;
    forall j | n <= j < |h.log.completions| && h.log.completions[j].last == b
      ensures j == n + k
    {
      assert h.log.completions[n + (j - n)].last == bcs[j - n];
      IncreasingOnce(bcs, j - n, k);
    }
  }

  lemma IncreasingOnce(bcs: seq<nat>, j: nat, k: nat)
    requires Increasing(bcs) && j < |bcs| && k < |bcs| && bcs[j] == bcs[k]
    ensures j == k
  {
  }

  // ---------- The tail ----------

  /** What the tail scan delivers: with `before` emitted since the last range was completed, the first
      occurrences of it and of what the maximal runs of the shreds left decode to. */
  lemma HarvestSalvagesRest(env: Env, now: nat, s: State, runs: seq<Run>)
    requires Resting(env, s) && MaximalRuns(Harvest(env, now, s).pending.Keys, 0, U32_MAX, runs)
    ensures var h := Harvest(env, now, s);
            var before := if |h.log.completions| == |s.log.completions| then s.log.emitted else [];
            && h.log.emitted == FirstOccurrences(before + PiecesTxs(env.codec, Pieces(h.pending, runs)))
            && h.log.delivered == AllEmitted(h.log.completions) + h.log.emitted
  {
    hide Shape, Tracks, Accounted, FillAll, HarvestBatches, RunsTxs, Runs, HarvestList, HarvestBoundaries,
      FinishedAll, MaximalRuns, PiecesTxs, FirstOccurrences, Harvest, Once, CompletionOk, Fresh, FirstSigs,
      IsBoundary;
    var h := Harvest(env, now, s);
    MaximalRunsUnique(h.pending.Keys, 0, U32_MAX, runs);
    var s1 := FillAll(env, now, s, Sorted(s.fecSets.Keys));
    var bcs := HarvestBoundaries(s1);
    var s2 := HarvestBatches(env, s1, bcs);
    HarvestStart(env, now, s);
    HarvestBatchesInv(env, s1, bcs);
    HarvestFinishesAll(env, s1, bcs);
    HarvestEnd(env, now, s);
    HarvestCloses(env, now, s);
    FinishedCount(s1, bcs, s2);
    PiecesDecode(env, h.pending, runs);
    TailIsFresh(s2, RunsTxs(env, h.pending, runs));
  }

  lemma FinishedCount(s: State, bcs: seq<nat>, h: State)
    requires FinishedAll(s, bcs, h)
    ensures |h.log.completions| == |s.log.completions| + |bcs|
  {
  }

  lemma TailIsFresh(s: State, txs: transactions)
    requires Once(s.log.emitted) && s.yielded == FirstSigs(s.log.emitted)
    ensures Emit(s, txs).log.emitted == FirstOccurrences(s.log.emitted + txs)
  {
    hide Once;
    OnceIsDedup(s.log.emitted);
    FreshAppend({}, s.log.emitted, txs);
    assert {} + FirstSigs(s.log.emitted) == s.yielded;
    DedupIsFirstOccurrences(s.log.emitted + txs);
  }

  // ---------- Recovery before the end ----------

  lemma {:induction false} HarvestBatchesKeep(env: Env, sent: SentSlot, s: State, bcs: seq<nat>, g: nat)
    requires SentSlotOk(env.lib, sent) && AsSent(env.lib, sent, s) && Bounded(s)
    requires forall k :: 0 <= k < |bcs| ==> bcs[k] < U32_MAX
    ensures Keeps(sent, s, HarvestBatches(env, s, bcs), g)
    decreases |bcs|
  {
    hide SentSlotOk, AsSent, FinishWhole, FinishSalvaged, Bounded, Keeps;
    SameKeeps(sent, s, s, g);
    if bcs != [] {
      var bc := bcs[0];
      if bc < s.batchStart {
        HarvestBatchesKeep(env, sent, s, bcs[1..], g);
      } else {
        WholeMovesOn(env, s, bc);
        SalvageMovesOn(env, s, bc, false);
        FinishWholeBounded(env, s, bc);
        FinishSalvagedBounded(env, s, bc, false);
        FinishSalvagedAsSent(env, sent, s, bc, false);
        var whole := AllPresent(s.pending, s.batchStart, bc + 1);
        if whole { FinishWholeAsSent(env, sent, s, bc); }
        var s' := if whole then FinishWhole(env, s, bc) else FinishSalvaged(env, s, bc, false);
        MovedOnKeeps(env.lib, sent, s, s', bc, g);
        HarvestBatchesKeep(env, sent, s', bcs[1..], g);
        KeepsTrans(sent, s, s', HarvestBatches(env, s', bcs[1..]), g);
      }
    }
  }

  /** Recovery is complete at the end, too: of every set that still lacks a shred past the last finished range,
      other than one sent last in the slot, the data shreds left and all the code shreds that ever came are
      together fewer than its data shreds. */
  lemma HarvestIsComplete(env: Env, sent: SentSlot, events: Events, s: State, now: nat, f: nat, i: nat)
    requires Reaches(env, events, s) && SentSlotOk(env.lib, sent) && EventsOk(events)
    requires forall k :: 0 <= k < |events| ==> EventAsSent(env.lib, sent, events[k])
    requires |CodeSets(events)| <= env.maxFecSets
    requires var h := Harvest(env, now, s);
             Lacks(sent, h, f, i)
    ensures |HeldOf(Harvest(env, now, s), f, |sent[f].raws|)| + |CodeReceived(events, f)| < |sent[f].raws|
  {
    hide Reaches, SentSlotOk, EventAsSent, Remembered, HeldOf, CodeReceived, After, Short, CodeSets, Harvest,
      AsSent, AllThere, FillAll, Shape, Tracks, Ledger, Accounted, HarvestBatches, HarvestBoundaries, Bounded;
    ReachesAfter(env, events, s);
    AlwaysRemembered(env, sent, events, f, CodeSets(events));
    AlwaysAsSent(env, sent, events);
    AlwaysRests(env, events);
    ShapeBounded(s);
    HarvestAsSent(env, sent, now, s);
    HarvestServes(env, sent, now, s, f, CodeReceived(events, f));
    LackIsShort(env, sent, Harvest(env, now, s), f, i, CodeReceived(events, f));
  }

  lemma HarvestServes(env: Env, sent: SentSlot, now: nat, s: State, f: nat, code: set<nat>)
    requires SentSlotOk(env.lib, sent) && AsSent(env.lib, sent, s) && Bounded(s) && Remembered(sent, s, f, code)
    ensures var h := Harvest(env, now, s); code != {} ==> Remembered(sent, h, f, code) && Served(sent, h, f)
  {
    hide SentSlotOk, Remembered, Served, Keeps, Harvest, AsSent, FillAll, HarvestBatches, HarvestBoundaries,
      Bounded;
    var h := Harvest(env, now, s);
    var hints := Sorted(s.fecSets.Keys);
    var s1 := FillAll(env, now, s, hints);
    AllHintsServed(env, sent, now, s, hints, f);
    FillAllAsSent(env, sent, now, s, hints);
    FillAllBounded(env, now, s, hints);
    FillAllExhausts(env, now, s, hints);
    BoundedEnds(s1);
    HarvestBatchesKeep(env, sent, s1, HarvestBoundaries(s1), f);
    HarvestEnd(env, now, s);
    var s2 := HarvestBatches(env, s1, HarvestBoundaries(s1));
    SameKeeps(sent, s2, h, f);
    KeepsTrans(sent, s1, s2, h, f);
    RememberedIsServed(sent, s, s1, h, f, code);
  }

  lemma LackIsShort(env: Env, sent: SentSlot, h: State, f: nat, i: nat, code: set<nat>)
    requires SentSlotOk(env.lib, sent) && AsSent(env.lib, sent, h) && Lacks(sent, h, f, i)
    requires code != {} ==> Remembered(sent, h, f, code) && Served(sent, h, f)
    ensures |HeldOf(h, f, |sent[f].raws|)| + |code| < |sent[f].raws|
  {
    hide SentSlotOk, AsSent, AllThere, Short, HeldOf;
    MissingIsNotThere(sent, h, f, i);
    HeldMisses(h, f, |sent[f].raws|, i);
    if code != {} {
      StillBuffered(sent, h, f, code);
      RecordedSize(env, sent, h, f);
      ShortBounds(h, f, code);
    }
  }

  lemma RememberedIsServed(sent: SentSlot, s: State, s1: State, h: State, f: nat, code: set<nat>)
    requires Remembered(sent, s, f, code) && Keeps(sent, s, s1, f) && Keeps(sent, s1, h, f)
    requires f in s1.fecSets ==> Served(sent, s1, f)
    ensures code != {} ==> Remembered(sent, h, f, code) && Served(sent, h, f)
  {
    hide AllThere, Short;
    assert Remembered(sent, s1, f, code);
  }
}
