/** What every operation of a slot accumulator keeps. */
module Invariant {
  import opened Bytes
  import opened Collections
  import opened Codec
  import opened Decoder
  import opened Streaming
  import opened Fec
  import opened Slot
  import opened Emission
  import opened Scanners

  // ---------- Shape: indices, boundaries, the streamed range ----------

  ghost predicate PoolRange(pending: Pending, lo: nat, hi: nat)
  {
    forall i :: lo <= i < hi ==> i in pending && pending[i].source.FromPool?
  }

  ghost predicate EntryOk(i: nat, ps: PendingShred)
  {
    i < U32_MAX && ps.Payload().Some? && ps.fecSetIndex <= i
  }

  ghost predicate IsBoundary(pending: Pending, i: nat)
  {
    i in pending && pending[i].batchComplete
  }

  ghost predicate Shape(s: State)
  {
    && (forall i :: i in s.pending ==> s.batchStart <= i && EntryOk(i, s.pending[i]))
    && (forall b :: b in s.boundaries <==> IsBoundary(s.pending, b))
    && (forall f :: f in s.fecSets ==> f + s.fecSets[f].numData <= U32_MAX)
    && s.batchStart <= s.cursor <= U32_MAX
    && PoolRange(s.pending, s.batchStart, s.cursor)
    && Increasing(s.log.streamed)
    && (forall i :: 0 <= i < |s.log.streamed| ==> s.log.streamed[i] < s.cursor)
  }

  lemma ShapeBounded(s: State)
    requires Shape(s)
    ensures Bounded(s)
  {
    forall i | i in s.pending
      ensures i < U32_MAX && s.pending[i].Payload().Some?
    {
      assert EntryOk(i, s.pending[i]);
    }
    forall b | b in s.boundaries
      ensures b < U32_MAX
    {
      assert IsBoundary(s.pending, b);
      assert EntryOk(b, s.pending[b]);
    }
  }

  // ---------- Tracks: the decoder against the bytes it was given ----------

  /** The decoder holds exactly the payloads of `[streamFrom, cursor)`; without an error since the
      last completion that is everything from the batch start, and what was emitted is what one
      decoder would have given, once each. After an error nothing would decode the prefix. */
  ghost predicate Tracks(env: Env, s: State)
  {
    var e := s.log.streamFrom;
    var held := Concat(s.pending, e, s.cursor);
    var all := Concat(s.pending, s.batchStart, s.cursor);
    && s.batchStart <= e <= s.cursor
    && Accepts(env.codec, held)
    && s.decoder == PushAll(env.codec, held).state
    && (!s.log.errored ==> e == s.batchStart && s.log.emitted == Dedup(Yield(env.codec, held)))
    && (s.log.errored ==> !Accepts(env.codec, all))
    && s.yielded == FirstSigs(s.log.emitted)
  }

  // ---------- Ledger: the completed ranges ----------

  ghost predicate Tiled(cs: seq<Completion>, end: nat)
  {
    && (forall k :: 0 <= k < |cs| ==> cs[k].start <= cs[k].last)
    && (forall k :: 0 <= k < |cs| ==> cs[k].start == if k == 0 then 0 else cs[k - 1].last + 1)
    && end == if cs == [] then 0 else cs[|cs| - 1].last + 1
  }

  /** Every transaction is signed, and no two share a first signature. */
  ghost predicate Once(txs: transactions)
  {
    && (forall i :: 0 <= i < |txs| ==> txs[i].signatures != [])
    && (forall i, j :: 0 <= i < j < |txs| ==> txs[i].signatures[0] != txs[j].signatures[0])
  }

  /** What the salvaged pieces decode to, piece after piece. */
  function PiecesTxs(codec: EntryCodec, pieces: seq<Piece>): transactions
  {
    if pieces == [] then [] else DecodeConcatenated(codec, pieces[0].bytes) + PiecesTxs(codec, pieces[1..])
  }

  /** A fully present range that decodes has emitted its batch exactly; a salvaged one has emitted what
      streaming had yielded and then what its pieces decode to, once each. */
  ghost predicate Explains(env: Env, finish: Finish, emitted: transactions)
  {
    match finish
    case Whole(bytes, _) =>
      DecodeBatch(env.codec, bytes).Some? ==> emitted == Dedup(DecodeBatch(env.codec, bytes).value)
    case Salvaged(_, head, before, pieces, _) =>
      && emitted == Dedup(before + PiecesTxs(env.codec, pieces))
      && (head.Some? ==> Accepts(env.codec, head.value) && before == Dedup(Yield(env.codec, head.value)))
  }

  function RunsOf(pieces: seq<Piece>): (runs: seq<Run>)
    ensures |runs| == |pieces| && forall k :: 0 <= k < |runs| ==> runs[k] == pieces[k].run
  {
    if pieces == [] then [] else [pieces[0].run] + RunsOf(pieces[1..])
  }

  /** The salvaged pieces are the maximal runs of what was present. */
  ghost predicate WellSalvaged(finish: Finish, start: nat, last: nat)
  {
    finish.Salvaged? ==> MaximalRuns(finish.present, start, last + 1, RunsOf(finish.pieces))
  }

  /** Whatever a range decoded to, it delivered nothing twice, and what it should. */
  ghost predicate CompletionOk(env: Env, c: Completion)
  {
    && c.last in c.boundaries && Once(c.emitted)
    && (forall b :: b in c.boundaries ==> c.start <= b <= c.last)
    && Explains(env, c.finish, c.emitted) && WellSalvaged(c.finish, c.start, c.last)
  }

  /** Everything the completed ranges delivered, in order. */
  function AllEmitted(cs: seq<Completion>): transactions
  {
    if cs == [] then [] else AllEmitted(cs[..|cs| - 1]) + cs[|cs| - 1].emitted
  }

  /** Every completion was counted once, as long as no counter has saturated. */
  ghost predicate Accounted(stats: Stats, n: nat)
  {
    && stats.batchesStreaming <= n && stats.batchesFallback <= n && stats.batchesSkipped <= n
    && (n <= U64_MAX ==> stats.batchesStreaming + stats.batchesFallback + stats.batchesSkipped == n)
    && stats.forcedCorrupted == 0
  }

  ghost predicate Ledger(env: Env, s: State)
  {
    && Tiled(s.log.completions, s.batchStart)
    && (forall k :: 0 <= k < |s.log.completions| ==> CompletionOk(env, s.log.completions[k]))
    && s.log.delivered == AllEmitted(s.log.completions) + s.log.emitted
    && Once(s.log.emitted) && s.yielded == FirstSigs(s.log.emitted)
  }

  ghost predicate Inv(env: Env, s: State)
  {
    Shape(s) && Tracks(env, s) && Ledger(env, s) && Accounted(s.stats, |s.log.completions|)
  }

  // ---------- Boundary positions ----------

  ghost predicate NoBoundary(s: State)
  {
    forall i :: s.batchStart <= i < s.cursor ==> !IsBoundary(s.pending, i)
  }

  /** A batch end may have just been streamed, none before it. */
  ghost predicate AtMostLast(s: State)
  {
    forall i :: s.batchStart <= i && i + 1 < s.cursor ==> !IsBoundary(s.pending, i)
  }

  /** No known batch end has its whole range present from the pool. */
  ghost predicate NothingReady(s: State)
  {
    forall b: nat :: IsBoundary(s.pending, b) && s.batchStart <= b ==> !PoolRange(s.pending, s.batchStart, b + 1)
  }

  /** The least known batch end has not waited out the timeout. */
  ghost predicate NotOverdue(env: Env, now: nat, s: State)
  {
    BoundariesFrom(s) != {} ==> now < s.boundaries[Least(BoundariesFrom(s))] + env.timeout
  }

  /** What holds whenever no call is in progress. */
  ghost predicate Resting(env: Env, s: State)
  {
    Inv(env, s) && NoBoundary(s) && NothingReady(s)
  }

  // ---------- Concatenation ----------

  lemma {:induction false} ConcatAgree(p: Pending, q: Pending, lo: nat, hi: nat)
    requires forall i :: lo <= i < hi ==> (i in p <==> i in q) && (i in p ==> p[i].Payload() == q[i].Payload())
    ensures Concat(p, lo, hi) == Concat(q, lo, hi)
    decreases hi
  {
    if lo < hi {
      ConcatAgree(p, q, lo, hi - 1);
    }
  }

  lemma {:induction false} ConcatSplit(p: Pending, lo: nat, mid: nat, hi: nat)
    requires lo <= mid <= hi
    ensures Concat(p, lo, hi) == Concat(p, lo, mid) + Concat(p, mid, hi)
    decreases hi
  {
    if mid < hi {
      ConcatSplit(p, lo, mid, hi - 1);
      var last := if hi - 1 in p then p[hi - 1].Payload().GetOr([]) else [];
      assert Concat(p, mid, hi) == Concat(p, mid, hi - 1) + last;
      assert Concat(p, lo, hi) == Concat(p, lo, hi - 1) + last;
    } else {
      assert Concat(p, mid, hi) == [];
    }
  }

  // ---------- Inserting a shred ----------

  lemma InsertShape(now: nat, s: State, i: nat, ps: PendingShred)
    requires Shape(s) && s.batchStart <= i && i !in s.pending && EntryOk(i, ps)
    ensures Shape(InsertEntry(now, s, i, ps))
  {
    var s' := InsertEntry(now, s, i, ps);
    assert !IsBoundary(s.pending, i);
    forall b
      ensures b in s'.boundaries <==> IsBoundary(s'.pending, b)
    {
      if b != i { assert IsBoundary(s'.pending, b) <==> IsBoundary(s.pending, b); }
    }
  }

  lemma InsertTracks(env: Env, now: nat, s: State, i: nat, ps: PendingShred)
    requires Shape(s) && Tracks(env, s) && i !in s.pending && s.batchStart <= i
    ensures Tracks(env, InsertEntry(now, s, i, ps))
  {
    hide Accepts, Yield, PushAll;
    var s' := InsertEntry(now, s, i, ps);
    assert i >= s.cursor;
    ConcatAgree(s.pending, s'.pending, s.log.streamFrom, s.cursor);
    ConcatAgree(s.pending, s'.pending, s.batchStart, s.cursor);
  }

  // ---------- Refilling ----------

  /** What recovery can change: new recovered entries with their boundaries, and spent FEC sets. */
  ghost predicate RefillOf(now: nat, s: State, s': State)
  {
    && s'.cursor == s.cursor && s'.decoder == s.decoder && s'.yielded == s.yielded
    && s'.batchStart == s.batchStart && s'.log == s.log
    && s'.stats == s.stats.(recoveriesDone := s'.stats.recoveriesDone, recoveryFailures := s'.stats.recoveryFailures)
    && (forall i :: i in s.pending ==> i in s'.pending && s'.pending[i] == s.pending[i])
    && (forall i :: i in s'.pending && i !in s.pending ==>
          s.batchStart <= i && s'.pending[i].source.FromRecovery? && EntryOk(i, s'.pending[i]))
    && (forall b :: b in s'.boundaries <==> IsBoundary(s'.pending, b))
    && (forall b :: b in s'.boundaries ==> if b in s.boundaries then s'.boundaries[b] == s.boundaries[b]
                                           else b !in s.pending && s'.boundaries[b] == now)
    && (forall f :: f in s'.fecSets ==> f in s.fecSets && s'.fecSets[f] == s.fecSets[f])
  }

  lemma RefillRefl(now: nat, s: State)
    requires Shape(s)
    ensures RefillOf(now, s, s)
  {
  }

  lemma RefillTrans(now: nat, a: State, b: State, c: State)
    requires Shape(a) && RefillOf(now, a, b) && RefillOf(now, b, c)
    ensures RefillOf(now, a, c)
  {
    forall x | x in c.boundaries
      ensures if x in a.boundaries then c.boundaries[x] == a.boundaries[x]
              else x !in a.pending && c.boundaries[x] == now
    {
      if x in a.boundaries {
        assert IsBoundary(a.pending, x);
        assert IsBoundary(b.pending, x);
      }
    }
  }

  lemma RefillShape(now: nat, s: State, s': State)
    requires Shape(s) && RefillOf(now, s, s')
    ensures Shape(s')
  {
    forall i | i in s'.pending
      ensures s'.batchStart <= i && EntryOk(i, s'.pending[i])
    {
      if i in s.pending { assert EntryOk(i, s.pending[i]); }
    }
  }

  lemma RefillTracks(env: Env, now: nat, s: State, s': State)
    requires Shape(s) && Tracks(env, s) && RefillOf(now, s, s')
    ensures Tracks(env, s')
  {
    hide Accepts, Yield, PushAll;
    ConcatAgree(s.pending, s'.pending, s.log.streamFrom, s.cursor);
    ConcatAgree(s.pending, s'.pending, s.batchStart, s.cursor);
  }

  lemma RefillInv(env: Env, now: nat, s: State, s': State)
    requires Inv(env, s) && RefillOf(now, s, s')
    ensures Inv(env, s')
    ensures NoBoundary(s) ==> NoBoundary(s')
    ensures AtMostLast(s) ==> AtMostLast(s')
  {
    RefillShape(now, s, s');
    RefillTracks(env, now, s, s');
    forall i | s.batchStart <= i < s.cursor
      ensures IsBoundary(s'.pending, i) <==> IsBoundary(s.pending, i)
    {
      assert i in s.pending;
    }
  }

  lemma InsertEntryRefills(now: nat, s: State, i: nat, ps: PendingShred)
    requires Shape(s) && s.batchStart <= i && i !in s.pending && EntryOk(i, ps) && ps.source.FromRecovery?
    ensures RefillOf(now, s, InsertEntry(now, s, i, ps))
  {
    hide EntryOk;
    var s' := InsertEntry(now, s, i, ps);
    InsertShape(now, s, i, ps);
    assert !IsBoundary(s.pending, i);
    assert i !in s.boundaries;
    assert forall j :: j in s'.pending ==> j == i || j in s.pending;
  }

  lemma InsertRecoveredRefills(now: nat, s: State, f: nat, r: Recovered)
    requires Shape(s) && f + r.position < U32_MAX
    ensures RefillOf(now, s, InsertRecovered(now, s, f, r))
  {
    hide RecoveredEntry, InsertEntry, Shape;
    var i := f + r.position;
    if s.batchStart <= i && i !in s.pending && RecoveredEntry(f, r.bytes).Some? && !RecoveredEntry(f, r.bytes).value.1 {
      RecoveredEntryOk(f, r.bytes, i);
      InsertEntryRefills(now, s, i, RecoveredEntry(f, r.bytes).value.0);
    } else {
      FlagRefills(now, s, true);
      RefillRefl(now, s);
    }
  }

  lemma FlagRefills(now: nat, s: State, complete: bool)
    requires Shape(s)
    ensures RefillOf(now, s, s.(slotComplete := complete))
  {
  }

  lemma RecoveredEntryOk(f: nat, bytes: seq<byte>, i: nat)
    requires RecoveredEntry(f, bytes).Some? && f <= i < U32_MAX
    ensures EntryOk(i, RecoveredEntry(f, bytes).value.0)
    ensures RecoveredEntry(f, bytes).value.0.source.FromRecovery?
  {
  }

  lemma {:induction false} InsertAllRefills(now: nat, s: State, f: nat, recovered: seq<Recovered>)
    requires Shape(s) && forall i :: 0 <= i < |recovered| ==> f + recovered[i].position < U32_MAX
    ensures RefillOf(now, s, InsertAll(now, s, f, recovered))
    decreases |recovered|
  {
    hide InsertRecovered, RefillOf, Shape;
    if recovered == [] {
      RefillRefl(now, s);
    } else {
      var s1 := InsertRecovered(now, s, f, recovered[0]);
      InsertRecoveredRefills(now, s, f, recovered[0]);
      RefillShape(now, s, s1);
      InsertAllRefills(now, s1, f, recovered[1..]);
      RefillTrans(now, s, s1, InsertAll(now, s1, f, recovered[1..]));
    }
  }

  lemma SpentRefills(now: nat, s: State, s1: State, f: nat, n: nat)
    requires RefillOf(now, s, s1)
    ensures RefillOf(now, s, s1.(stats := s1.stats.(recoveriesDone := n), fecSets := s1.fecSets - {f}))
  {
  }

  lemma FailedRefills(now: nat, s: State, n: nat)
    requires Shape(s)
    ensures RefillOf(now, s, s.(stats := s.stats.(recoveryFailures := n)))
  {
  }

  lemma FecFillRefills(env: Env, now: nat, s: State, hint: nat)
    requires Shape(s)
    ensures RefillOf(now, s, FecFill(env, now, s, hint).state)
  {
    hide Reconstruct, InsertAll, RefillOf, SelectRecoverable, DataRefs;
    RefillRefl(now, s);
    var target := SelectRecoverable(s, hint);
    if target.Some? && target.value in s.fecSets && s.fecSets[target.value].numData != 0 {
      var f := target.value;
      var r := Reconstruct(env.lib, s.fecSets[f], DataRefs(s, f, s.fecSets[f].numData));
      if r.Some? {
        ReconstructPositions(env.lib, s.fecSets[f], DataRefs(s, f, s.fecSets[f].numData));
        InsertAllRefills(now, s, f, r.value);
        var s1 := InsertAll(now, s, f, r.value);
        SpentRefills(now, s, s1, f, SatAdd(s1.stats.recoveriesDone, 1, U64_MAX));
      } else {
        FailedRefills(now, s, SatAdd(s.stats.recoveryFailures, 1, U64_MAX));
      }
    }
  }

  lemma {:induction false} FillAllRefills(env: Env, now: nat, s: State, hints: seq<nat>)
    requires Shape(s)
    ensures RefillOf(now, s, FillAll(env, now, s, hints))
    decreases |hints|
  {
    hide FecFill, RefillOf, Shape;
    if hints == [] {
      RefillRefl(now, s);
    } else {
      var s1 := FecFill(env, now, s, hints[0]).state;
      FecFillRefills(env, now, s, hints[0]);
      RefillShape(now, s, s1);
      FillAllRefills(env, now, s1, hints[1..]);
      RefillTrans(now, s, s1, FillAll(env, now, s1, hints[1..]));
    }
  }

  lemma RefilledRefills(env: Env, now: nat, s: State, bc: nat)
    requires Shape(s)
    ensures RefillOf(now, s, Refilled(env, now, s, bc))
  {
    hide RefillOf, FillAll;
    RefillRefl(now, s);
    FillAllRefills(env, now, s, Hints(s, bc));
  }

  // ---------- Streaming ----------

  lemma IncreasingAppend(xs: seq<nat>, x: nat)
    requires Increasing(xs) && forall i :: 0 <= i < |xs| ==> xs[i] < x
    ensures Increasing(xs + [x])
  {
  }

  lemma StreamOneShape(env: Env, s: State)
    requires Shape(s) && s.cursor in s.pending && s.pending[s.cursor].source.FromPool?
    ensures Shape(StreamOne(env, s, s.pending[s.cursor].Payload().value))
  {
    hide Pushed;
    assert EntryOk(s.cursor, s.pending[s.cursor]);
    var s' := StreamOne(env, s, s.pending[s.cursor].Payload().value);
    IncreasingAppend(s.log.streamed, s.cursor);
    assert s'.log.streamed == s.log.streamed + [s.cursor];
    assert s'.cursor == s.cursor + 1;
  }

  lemma StreamOneTracks(env: Env, s: State)
    requires Shape(s) && Tracks(env, s) && s.cursor in s.pending && s.pending[s.cursor].source.FromPool?
    ensures Tracks(env, StreamOne(env, s, s.pending[s.cursor].Payload().value))
  {
    hide Accepts, PushAll, Pushed, Dedup;
    assert EntryOk(s.cursor, s.pending[s.cursor]);
    var p := s.pending[s.cursor].Payload().value;
    var s' := StreamOne(env, s, p);
    var held := Concat(s.pending, s.log.streamFrom, s.cursor);
    var all := Concat(s.pending, s.batchStart, s.cursor);
    assert Concat(s.pending, s.log.streamFrom, s.cursor + 1) == held + p;
    assert Concat(s.pending, s.batchStart, s.cursor + 1) == all + p;
    PushContinues(env.codec, held, p);
    if s.log.errored {
      RejectionPersists(env.codec, all, p);
    }
    var r := Pushed(env.codec, s.decoder, p);
    if r.txs.Some? {
      EmitSeen(s.(cursor := s.cursor + 1, decoder := r.state, log := s.log.(streamed := s.log.streamed + [s.cursor])),
        r.txs.value);
      if !s.log.errored {
        EmitResumes(s.log.emitted, Yield(env.codec, held), r.txs.value);
      }
    } else {
      EmptyAccepted(env.codec);
      assert Concat(s.pending, s.cursor + 1, s.cursor + 1) == [];
    }
  }

  lemma EmitResumes(emitted: transactions, before: transactions, more: transactions)
    requires emitted == Dedup(before)
    ensures emitted + Fresh(FirstSigs(emitted), more) == Dedup(before + more)
  {
    FreshAppend({}, before, more);
    FreshSigs({}, before);
    assert {} + FirstSigs(before) == FirstSigs(before);
    assert {} + FirstSigs(emitted) == FirstSigs(emitted);
  }

  lemma EmptyAccepted(c: EntryCodec)
    ensures Accepts(c, []) && PushAll(c, []).state == EMPTY && Yield(c, []) == []
  {
    PushAllShort(c, []);
  }

  lemma StreamOneLedger(env: Env, s: State, payload: seq<byte>)
    requires Ledger(env, s) && Accounted(s.stats, |s.log.completions|)
    ensures var s' := StreamOne(env, s, payload);
            && Ledger(env, s') && Accounted(s'.stats, |s'.log.completions|)
            && s'.log.completions == s.log.completions && s'.batchStart == s.batchStart
            && s'.boundaries == s.boundaries && s'.fecSets == s.fecSets && s'.pending == s.pending
            && s.log.delivered <= s'.log.delivered
  {
    hide Pushed, CompletionOk, Once, Fresh, FirstSigs;
    var s' := StreamOne(env, s, payload);
    var r := Pushed(env.codec, s.decoder, payload);
    if r.txs.Some? {
      var novel := Fresh(s.yielded, r.txs.value);
      assert AllEmitted(s.log.completions) + s.log.emitted + novel
        == AllEmitted(s.log.completions) + (s.log.emitted + novel);
      OnceMore(s.log.emitted, r.txs.value);
      EmitSeen(s, r.txs.value);
    }
  }

  /** What was not yet seen can be added. */
  lemma OnceMore(emitted: transactions, txs: transactions)
    requires Once(emitted)
    ensures Once(emitted + Fresh(FirstSigs(emitted), txs))
  {
    hide Fresh;
    var seen := FirstSigs(emitted);
    FreshOnce(seen, txs);
    var novel := Fresh(seen, txs);
    forall i, j | 0 <= i < |emitted| && 0 <= j < |novel|
      ensures emitted[i].signatures[0] != novel[j].signatures[0]
    {
      FirstSigsAre(emitted, emitted[i].signatures[0]);
      assert SignedBy(emitted[i], emitted[i].signatures[0]);
    }
  }

  lemma {:induction false} FreshOnce(seen: set<signature>, txs: transactions)
    ensures Once(Fresh(seen, txs))
    ensures forall i :: 0 <= i < |Fresh(seen, txs)| ==> Fresh(seen, txs)[i].signatures[0] !in seen
    decreases |txs|
  {
    if txs != [] {
      if txs[0].signatures == [] || txs[0].signatures[0] in seen {
        FreshOnce(seen, txs[1..]);
      } else {
        FreshOnce(seen + {txs[0].signatures[0]}, txs[1..]);
      }
    }
  }

  /** What streaming leaves alone. */
  ghost predicate SameShreds(s: State, s': State)
  {
    && s'.pending == s.pending && s'.boundaries == s.boundaries && s'.fecSets == s.fecSets
    && s'.batchStart == s.batchStart && s'.log.completions == s.log.completions && s.cursor <= s'.cursor
    && s.log.delivered <= s'.log.delivered
  }

  lemma {:induction false} AdvanceInv(env: Env, s: State)
    requires Inv(env, s) && NoBoundary(s) && Bounded(s)
    ensures Inv(env, Advance(env, s)) && AtMostLast(Advance(env, s)) && SameShreds(s, Advance(env, s))
    decreases U32_MAX - s.cursor
  {
    hide StreamOne, Shape, Tracks, Ledger, Pushed, Bounded, Accounted;
    if s.cursor in s.pending && s.pending[s.cursor].source.FromPool? {
      AdvanceStep(env, s);
      var ps := s.pending[s.cursor];
      var s1 := StreamOne(env, s, ps.Payload().value);
      if Pushed(env.codec, s.decoder, ps.Payload().value).txs.Some? && !ps.batchComplete {
        AdvanceInv(env, s1);
      }
    }
  }

  lemma AdvanceStep(env: Env, s: State)
    requires Inv(env, s) && NoBoundary(s) && s.cursor in s.pending && s.pending[s.cursor].source.FromPool?
    ensures s.cursor < U32_MAX && s.pending[s.cursor].Payload().Some?
    ensures var s1 := StreamOne(env, s, s.pending[s.cursor].Payload().value);
            && Inv(env, s1) && Bounded(s1) && SameShreds(s, s1) && s1.cursor == s.cursor + 1
            && AtMostLast(s1)
            && (!s.pending[s.cursor].batchComplete ==> NoBoundary(s1))
  {
    hide StreamOne, Tracks, Ledger, Accounted;
    assert EntryOk(s.cursor, s.pending[s.cursor]);
    StreamOneShape(env, s);
    StreamOneTracks(env, s);
    StreamOneLedger(env, s, s.pending[s.cursor].Payload().value);
    ShapeBounded(StreamOne(env, s, s.pending[s.cursor].Payload().value));
  }

  // ---------- Finishing a range ----------

  lemma CompleteShape(s: State, bc: nat, finish: Finish)
    requires Shape(s) && s.batchStart <= bc < U32_MAX && s.cursor <= bc + 1
    ensures Shape(Complete(s, bc, finish))
    ensures Complete(s, bc, finish).cursor == Complete(s, bc, finish).batchStart == bc + 1
  {
    var s' := Complete(s, bc, finish);
    forall b
      ensures b in s'.boundaries <==> IsBoundary(s'.pending, b)
    {
      assert b in s.boundaries <==> IsBoundary(s.pending, b);
    }
  }

  lemma CompleteTracks(env: Env, s: State, bc: nat, finish: Finish)
    requires s.cursor <= bc + 1 && bc < U32_MAX
    ensures Tracks(env, Complete(s, bc, finish))
  {
    var s' := Complete(s, bc, finish);
    EmptyAccepted(env.codec);
    assert Concat(s'.pending, bc + 1, bc + 1) == [];
    assert s'.log.emitted == Dedup([]);
  }

  lemma CompleteLedger(env: Env, s: State, bc: nat, finish: Finish)
    requires Ledger(env, s) && s.batchStart <= bc < U32_MAX && IsBoundary(s.pending, bc)
    requires Explains(env, finish, s.log.emitted) && WellSalvaged(finish, s.batchStart, bc)
    ensures Ledger(env, Complete(s, bc, finish))
    ensures |Complete(s, bc, finish).log.completions| == |s.log.completions| + 1
    ensures Complete(s, bc, finish).stats == s.stats
  {
    hide Dedup, DecodeBatch, Explains, WellSalvaged;
    var s' := Complete(s, bc, finish);
    assert FirstSigs([]) == {};
    var cs := s'.log.completions;
    var c := cs[|cs| - 1];
    assert cs[..|cs| - 1] == s.log.completions;
    assert CompletionOk(env, c);
    forall k | 0 <= k < |cs|
      ensures CompletionOk(env, cs[k])
    {
      if k < |cs| - 1 { assert cs[k] == s.log.completions[k]; }
    }
    assert AllEmitted(cs) == AllEmitted(s.log.completions) + s.log.emitted;
    assert s'.log.delivered == AllEmitted(cs) + [];
    TiledExtends(s.log.completions, s.batchStart, c);
  }

  lemma TiledExtends(cs: seq<Completion>, start: nat, c: Completion)
    requires Tiled(cs, start) && c.start == start <= c.last
    ensures Tiled(cs + [c], c.last + 1)
  {
    var all := cs + [c];
    forall k | 0 <= k < |all|
      ensures all[k].start <= all[k].last
      ensures all[k].start == if k == 0 then 0 else all[k - 1].last + 1
    {
      if 0 < k { assert all[k - 1] == cs[k - 1]; }
      if k < |cs| {
        assert all[k] == cs[k];
        assert cs[k].start == if k == 0 then 0 else cs[k - 1].last + 1;
      } else {
        assert all[k] == c;
      }
    }
  }

  /** Whole-batch decoding after any amount of streaming delivers the batch exactly. */
  lemma WholeExact(env: Env, s: State, bc: nat)
    requires Shape(s) && Tracks(env, s) && s.batchStart <= s.cursor <= bc + 1
    requires DecodeBatch(env.codec, Concat(s.pending, s.batchStart, bc + 1)).Some?
    ensures var txs := DecodeBatch(env.codec, Concat(s.pending, s.batchStart, bc + 1)).value;
            Emit(s, txs).log.emitted == Dedup(txs)
  {
    hide PushAll, DecodeBatch;
    var bytes := Concat(s.pending, s.batchStart, bc + 1);
    var prefix := Concat(s.pending, s.batchStart, s.cursor);
    ConcatSplit(s.pending, s.batchStart, s.cursor, bc + 1);
    StreamingPrefix(env.codec, bytes, prefix);
    ResumeExact(Yield(env.codec, prefix), DecodeBatch(env.codec, bytes).value);
  }

  lemma EmitInv(env: Env, s: State, txs: transactions)
    requires Shape(s) && Ledger(env, s)
    ensures Shape(Emit(s, txs)) && Ledger(env, Emit(s, txs))
  {
    hide CompletionOk, Fresh, FirstSigs, Once;
    var novel := Fresh(s.yielded, txs);
    OnceMore(s.log.emitted, txs);
    EmitSeen(s, txs);
    assert AllEmitted(s.log.completions) + s.log.emitted + novel
      == AllEmitted(s.log.completions) + (s.log.emitted + novel);
  }

  lemma CompleteInv(env: Env, s: State, bc: nat, finish: Finish)
    requires Shape(s) && Ledger(env, s) && Accounted(s.stats, |s.log.completions| + 1)
    requires s.batchStart <= bc < U32_MAX && s.cursor <= bc + 1 && IsBoundary(s.pending, bc)
    requires Explains(env, finish, s.log.emitted) && WellSalvaged(finish, s.batchStart, bc)
    ensures Inv(env, Complete(s, bc, finish))
  {
    hide Shape, Tracks, Ledger, Accounted, Complete, Explains, WellSalvaged;
    CompleteShape(s, bc, finish);
    CompleteTracks(env, s, bc, finish);
    CompleteLedger(env, s, bc, finish);
  }

  /** Finishing leaves the cursor at the new batch start, so the next batch is decoded afresh. */
  ghost predicate Finished(s: State, bc: nat, s': State)
  {
    && s'.batchStart == s'.cursor == bc + 1 && s.log.delivered <= s'.log.delivered
    && |s'.log.completions| == |s.log.completions| + 1
    && s'.log.completions[..|s.log.completions|] == s.log.completions
    && s'.log.completions[|s.log.completions|].start == s.batchStart
    && s'.log.completions[|s.log.completions|].last == bc
    && s'.log.completions[|s.log.completions|].boundaries == BoundariesIn(s.pending, s.batchStart, bc + 1)
  }

  lemma CompleteFinished(s: State, bc: nat, finish: Finish)
    requires bc < U32_MAX && s.cursor <= bc + 1
    ensures Finished(s, bc, Complete(s, bc, finish))
    ensures Complete(s, bc, finish).log.completions[|s.log.completions|].finish == finish
  {
  }

  lemma FinishWholeInv(env: Env, s: State, bc: nat)
    requires Inv(env, s) && s.batchStart <= bc < U32_MAX && s.cursor <= bc + 1 && IsBoundary(s.pending, bc)
    ensures Inv(env, FinishWhole(env, s, bc)) && Finished(s, bc, FinishWhole(env, s, bc))
  {
    hide Shape, Tracks, Ledger, Complete, DecodeBatch, Dedup;
    var bytes := Concat(s.pending, s.batchStart, bc + 1);
    match DecodeBatch(env.codec, bytes)
    case Some(txs) =>
      hide Emit;
      WholeExactHere(env, s, bc, txs);
      EmitInv(env, s, txs);
      var e := Emit(s, txs);
      EmitKeeps(s, txs);
      var s1 := if Fresh(s.yielded, txs) != [] then CountFallback(e) else CountStreaming(e);
      StatsOnly(env, e, s1);
      CompleteInv(env, s1, bc, Whole(bytes, s.log.emitted));
      CompleteFinished(s1, bc, Whole(bytes, s.log.emitted));
    case None =>
      var s1 := CountSkipped(CountDecodeError(s));
      StatsOnly(env, s, s1);
      CompleteInv(env, s1, bc, Whole(bytes, s.log.emitted));
      CompleteFinished(s1, bc, Whole(bytes, s.log.emitted));
  }

  lemma WholeExactHere(env: Env, s: State, bc: nat, txs: transactions)
    requires Inv(env, s) && s.cursor <= bc + 1
    requires DecodeBatch(env.codec, Concat(s.pending, s.batchStart, bc + 1)) == Some(txs)
    ensures Emit(s, txs).log.emitted == Dedup(txs)
  {
    hide Dedup, Emit, DecodeBatch, Tracks, Ledger;
    WholeExact(env, s, bc);
  }

  lemma EmitKeeps(s: State, txs: transactions)
    ensures var e := Emit(s, txs);
            && e.pending == s.pending && e.boundaries == s.boundaries && e.fecSets == s.fecSets
            && e.cursor == s.cursor && e.batchStart == s.batchStart && e.stats == s.stats
            && e.log.completions == s.log.completions && e.log.released == s.log.released
            && e.log.streamed == s.log.streamed
            && e.slotComplete == s.slotComplete && s.log.delivered <= e.log.delivered
  {
  }

  lemma StatsOnly(env: Env, s: State, s': State)
    requires Shape(s) && Ledger(env, s) && s' == s.(stats := s'.stats)
    ensures Shape(s') && Ledger(env, s')
  {
  }

  lemma FinishSalvagedInv(env: Env, s: State, bc: nat, timedOut: bool)
    requires Inv(env, s) && s.batchStart <= bc < U32_MAX && s.cursor <= bc + 1 && IsBoundary(s.pending, bc)
    ensures Inv(env, FinishSalvaged(env, s, bc, timedOut)) && Finished(s, bc, FinishSalvaged(env, s, bc, timedOut))
  {
    hide Shape, Tracks, Ledger, Complete, Emit, RunsTxs, SalvagedFrom, Explains, WellSalvaged;
    var txs := RunsTxs(env, s.pending, Runs(s.pending.Keys, s.batchStart, bc + 1));
    SalvageExplained(env, s, bc, timedOut);
    SalvageIsMaximal(s, bc, timedOut);
    EmitInv(env, s, txs);
    EmitKeeps(s, txs);
    var s1 := Salvage(env, s, s.batchStart, bc);
    var s2 := if |s1.log.emitted| > |s.log.emitted| then CountFallback(s1) else CountSkipped(s1);
    var s3 := if timedOut then CountTimeout(s2) else s2;
    StatsOnly(env, s1, s3);
    CompleteInv(env, s3, bc, SalvagedFrom(s, bc, timedOut));
    CompleteFinished(s3, bc, SalvagedFrom(s, bc, timedOut));
  }

  lemma {:induction false} PiecesDecode(env: Env, pending: Pending, runs: seq<Run>)
    ensures PiecesTxs(env.codec, Pieces(pending, runs)) == RunsTxs(env, pending, runs)
  {
    hide DecodeConcatenated, Concat;
    if runs != [] {
      PiecesDecode(env, pending, runs[1..]);
      assert Pieces(pending, runs)[1..] == Pieces(pending, runs[1..]);
    }
  }

  lemma {:induction false} OnceIsDedup(txs: transactions)
    requires Once(txs)
    ensures Dedup(txs) == txs
    decreases |txs|
  {
    if txs != [] {
      var n := |txs| - 1;
      var init := txs[..n];
      OnceIsDedup(init);
      FreshAppend({}, init, [txs[n]]);
      assert txs == init + [txs[n]];
      FirstSigsAre(init, txs[n].signatures[0]);
      assert [txs[n]][1..] == [];
    }
  }

  lemma {:induction false} PiecesOfRuns(pending: Pending, runs: seq<Run>)
    ensures RunsOf(Pieces(pending, runs)) == runs
  {
    hide Concat;
    if runs != [] {
      PiecesOfRuns(pending, runs[1..]);
      assert Pieces(pending, runs)[1..] == Pieces(pending, runs[1..]);
    }
  }

  lemma SalvageIsMaximal(s: State, bc: nat, timedOut: bool)
    ensures WellSalvaged(SalvagedFrom(s, bc, timedOut), s.batchStart, bc)
  {
    hide Runs, Concat, MaximalRuns, Pieces;
    var runs, present := Runs(s.pending.Keys, s.batchStart, bc + 1), set i | i in s.pending && s.batchStart <= i <= bc;
    RunsAreMaximal(s.pending.Keys, s.batchStart, bc + 1);
    PiecesOfRuns(s.pending, runs);
    MaximalWithin(s.pending.Keys, present, s.batchStart, bc + 1, runs);
  }

  lemma SalvageExplained(env: Env, s: State, bc: nat, timedOut: bool)
    requires Tracks(env, s) && Ledger(env, s)
    ensures Explains(env, SalvagedFrom(s, bc, timedOut), Salvage(env, s, s.batchStart, bc).log.emitted)
  {
    hide RunsTxs, Runs, Once, Concat, DecodeConcatenated, PushAll, Accepts;
    var runs := Runs(s.pending.Keys, s.batchStart, bc + 1);
    var txs := RunsTxs(env, s.pending, runs);
    PiecesDecode(env, s.pending, runs);
    OnceIsDedup(s.log.emitted);
    FreshAppend({}, s.log.emitted, txs);
    assert {} + FirstSigs(s.log.emitted) == s.yielded;
  }
}
