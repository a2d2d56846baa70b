/** The guarantees of a slot, over every sequence of arrivals. */
module Delivery {
  import opened Bytes
  import opened Collections
  import opened Decoder
  import opened Streaming
  import opened Slot
  import opened Emission
  import opened Scanners
  import opened Invariant
  import opened Lifetime
  import opened Reachable

  /** Exact delivery. When a fully present range is finished and its bytes decode, the transactions
      emitted since the completion before, by streaming and by whole-batch decoding and over any number
      of calls, are exactly those of the batch: in order, without repeats, without unsigned ones. */
  lemma ExactDelivery(env: Env, events: Events, s: State, c: Completion)
    requires Reaches(env, events, s) && c in s.log.completions
    ensures c.finish.Whole? && DecodeBatch(env.codec, c.finish.payload).Some? ==>
              c.emitted == FirstOccurrences(DecodeBatch(env.codec, c.finish.payload).value)
  {
    hide Reaches, Shape, Tracks, Accounted, NothingReady, Dedup, FirstOccurrences;
    ReachableRests(env, events, s);
    assert CompletionOk(env, c);
    if c.finish.Whole? && DecodeBatch(env.codec, c.finish.payload).Some? {
      DedupIsFirstOccurrences(DecodeBatch(env.codec, c.finish.payload).value);
    }
  }

  /** Nothing is delivered twice within a range, however it was finished and whatever it decoded to: every
      transaction is signed and no two share a first signature. */
  lemma EmittedOnce(env: Env, events: Events, s: State, c: Completion)
    requires Reaches(env, events, s) && c in s.log.completions
    ensures Once(c.emitted)
  {
    hide Reaches, Shape, Tracks, Accounted, NothingReady, Once;
    ReachableRests(env, events, s);
    assert CompletionOk(env, c);
  }

  lemma DedupAfterDedup(a: transactions, b: transactions)
    ensures Dedup(Dedup(a) + b) == Dedup(a + b)
  {
    FreshOnce({}, a);
    OnceIsDedup(Dedup(a));
    FreshSigs({}, a);
    FreshAppend({}, Dedup(a), b);
    FreshAppend({}, a, b);
    assert {} + FirstSigs(Dedup(a)) == {} + FirstSigs(a);
  }

  /** What a salvaged range delivers. In every run, each range given up with gaps has emitted the first
      occurrences of what had been streamed of it and then of what its maximal runs of present shreds
      decode to; what had been streamed is, if the decoder never failed, what the bytes it saw yield. */
  lemma SalvagedDelivery(env: Env, events: Events, s: State, c: Completion)
    requires Reaches(env, events, s) && c in s.log.completions && c.finish.Salvaged?
    ensures MaximalRuns(c.finish.present, c.start, c.last + 1, RunsOf(c.finish.pieces))
    ensures c.emitted == FirstOccurrences(c.finish.before + PiecesTxs(env.codec, c.finish.pieces))
    ensures c.finish.head.Some? ==>
              && Accepts(env.codec, c.finish.head.value)
              && c.emitted
                 == FirstOccurrences(Yield(env.codec, c.finish.head.value) + PiecesTxs(env.codec, c.finish.pieces))
  {
    hide Reaches, Shape, Tracks, Accounted, NothingReady, Dedup, FirstOccurrences, MaximalRuns, PiecesTxs, Accepts,
      Once;
    ReachableRests(env, events, s);
    assert CompletionOk(env, c);
    var decoded := PiecesTxs(env.codec, c.finish.pieces);
    DedupIsFirstOccurrences(c.finish.before + decoded);
    if c.finish.head.Some? {
      DedupAfterDedup(Yield(env.codec, c.finish.head.value), decoded);
      DedupIsFirstOccurrences(Yield(env.codec, c.finish.head.value) + decoded);
    }
  }

  /** The same for the ranges the harvest finishes when the slot is evicted, each of which holds
      exactly one batch end. */
  lemma HarvestDelivery(env: Env, events: Events, s: State, now: nat, k: nat)
    requires Reaches(env, events, s)
    requires |s.log.completions| <= k < |Harvest(env, now, s).log.completions|
    ensures var c := Harvest(env, now, s).log.completions[k];
            && c.boundaries == {c.last} && Once(c.emitted)
            && (c.finish.Whole? && DecodeBatch(env.codec, c.finish.payload).Some? ==>
                  c.emitted == FirstOccurrences(DecodeBatch(env.codec, c.finish.payload).value))
  {
    hide Reaches, Shape, Tracks, Accounted, NothingReady, Dedup, FirstOccurrences, Harvest;
    ReachableRests(env, events, s);
    HarvestCloses(env, now, s);
    var c := Harvest(env, now, s).log.completions[k];
    assert CompletionOk(env, c);
    if c.finish.Whole? && DecodeBatch(env.codec, c.finish.payload).Some? {
      DedupIsFirstOccurrences(DecodeBatch(env.codec, c.finish.payload).value);
    }
  }

  /** Tiling. The completed ranges cover `[0, batch_start)` without gap or overlap, what was delivered
      is what they delivered and then what was emitted since, and each was counted once. */
  lemma CompletedRangesTile(env: Env, events: Events, s: State)
    requires Reaches(env, events, s)
    ensures Tiled(s.log.completions, s.batchStart)
    ensures s.log.delivered == AllEmitted(s.log.completions) + s.log.emitted
    ensures |s.log.completions| <= U64_MAX ==>
              s.stats.batchesStreaming + s.stats.batchesFallback + s.stats.batchesSkipped == |s.log.completions|
    ensures s.stats.forcedCorrupted == 0
  {
    hide Reaches;
    ReachableRests(env, events, s);
  }

  /** Every index lies in exactly one range of a tiling. */
  lemma {:induction false} TiledOnce(cs: seq<Completion>, end: nat, i: nat)
    requires Tiled(cs, end) && i < end
    ensures exists k :: 0 <= k < |cs| && cs[k].start <= i <= cs[k].last
    ensures forall j, k :: 0 <= j < k < |cs| ==> cs[j].last < cs[k].start
    decreases |cs|
  {
    var n := |cs| - 1;
    var init := cs[..n];
    if n > 0 {
      assert init[n - 1] == cs[n - 1];
      assert cs[n].start == cs[n - 1].last + 1;
      assert Tiled(init, cs[n].start) by {
        assert forall k :: 0 <= k < |init| ==> init[k] == cs[k];
      }
      TiledOnce(init, cs[n].start, if i < cs[n].start then i else 0);
      if i < cs[n].start {
        var k :| 0 <= k < |init| && init[k].start <= i <= init[k].last;
        assert cs[k] == init[k];
      }
      forall j | 0 <= j < n
        ensures cs[j].last < cs[n].start
      {
        assert cs[j] == init[j];
        if j < n - 1 {
          assert init[j].last < init[n - 1].start;
        }
      }
      forall j, k | 0 <= j < k < |cs|
        ensures cs[j].last < cs[k].start
      {
        if k < n {
          assert init[j] == cs[j] && init[k] == cs[k];
        }
      }
    }
    assert cs[n].start <= i ==> i <= cs[n].last;
  }

  /** The streaming decoder between calls: everything from the batch start to the cursor is a pending
      pool shred that ends no batch, and the decoder is the one-shot decoder of the payloads of
      `[streamFrom, cursor)`, so it never holds bytes of two batches; each index entered it at most once. */
  lemma StreamingState(env: Env, events: Events, s: State)
    requires Reaches(env, events, s)
    ensures s.batchStart <= s.log.streamFrom <= s.cursor
    ensures PoolRange(s.pending, s.batchStart, s.cursor)
    ensures forall i :: s.batchStart <= i < s.cursor ==> !IsBoundary(s.pending, i)
    ensures s.decoder == PushAll(env.codec, Concat(s.pending, s.log.streamFrom, s.cursor)).state
    ensures !s.log.errored ==> s.log.streamFrom == s.batchStart
    ensures Increasing(s.log.streamed)
  {
    hide Reaches;
    ReachableRests(env, events, s);
  }

  /** The batch-complete index is exactly the pending shreds flagged so, and no pending shred lies
      before the batch start or its own FEC set. */
  lemma BoundaryIndexAgrees(env: Env, events: Events, s: State)
    requires Reaches(env, events, s)
    ensures forall b :: b in s.boundaries <==> IsBoundary(s.pending, b)
    ensures forall i :: i in s.pending ==> s.batchStart <= i < U32_MAX && s.pending[i].fecSetIndex <= i
    ensures NothingReady(s)
  {
    hide Reaches, Tracks, Ledger, Accounted;
    ReachableRests(env, events, s);
    assert forall i :: i in s.pending ==> EntryOk(i, s.pending[i]);
  }

  /** Batch start, cursor and history only move forward as more arrives. */
  lemma RunsGrow(env: Env, events: Events, more: Events, s: State, s': State)
    requires Reaches(env, events, s) && Reaches(env, events + more, s')
    ensures Later(s, s')
  {
    hide Reaches, Later;
    ReachesAfter(env, events, s);
    ReachesAfter(env, events + more, s');
    AfterGrows(env, events, more);
  }

  lemma {:induction false} AfterGrows(env: Env, events: Events, more: Events)
    requires EventsOk(events + more) && EventsOk(events)
    ensures Later(After(env, events), After(env, events + more))
    decreases |more|
  {
    hide Step, Resting;
    var all := events + more;
    if more == [] {
      assert all == events;
    } else {
      var n := |all| - 1;
      assert all[..n] == events + more[..|more| - 1];
      AfterGrows(env, events, more[..|more| - 1]);
      AlwaysRests(env, all[..n]);
      StepRests(env, After(env, all[..n]), all[n]);
      LaterTrans(After(env, events), After(env, all[..n]), After(env, all));
    }
  }

  // ---------- The counting test ----------

  function PresentIn(pending: Pending, lo: nat, hi: nat): set<nat>
  {
    set i | i in pending && lo <= i < hi
  }

  /** Comparing the number of present shreds with the length of the range tells exactly whether one is
      missing. */
  lemma CountingTest(pending: Pending, start: nat, bc: nat)
    requires start <= bc
    ensures |PresentIn(pending, start, bc + 1)| < bc - start + 1 <==> !AllPresent(pending, start, bc + 1)
  {
    var p, all := PresentIn(pending, start, bc + 1), Range(start, bc + 1);
    RangeSize(start, bc + 1);
    SubsetSize(p, all);
    if AllPresent(pending, start, bc + 1) {
      assert p == all;
    } else {
      var gap :| start <= gap < bc + 1 && gap !in pending;
      assert gap in all && gap !in p;
    }
  }
}
