/** Recovery is complete: whenever a call returns with a batch end still waiting, nothing that could have been
    rebuilt for its range is missing. */
module Exhaustion {
  import opened Bytes
  import opened Collections
  import opened Parser
  import opened Erasure
  import opened Fec
  import opened Slot
  import opened Reachable
  import opened Recovery

  /** A rebuilt shred that the window lacks and that the slot would store. */
  ghost predicate Insertable(s: State, f: nat, r: Recovered)
  {
    && s.batchStart <= f + r.position && f + r.position !in s.pending
    && RecoveredEntry(f, r.bytes).Some? && !RecoveredEntry(f, r.bytes).value.1
  }

  /** The set cannot be rebuilt, or rebuilding it would bring nothing. */
  ghost predicate Exhausted(env: Env, s: State, f: nat)
  {
    Recoverable(s, f) ==>
      match Reconstruct(env.lib, s.fecSets[f], DataRefs(s, f, s.fecSets[f].numData))
      case None => true
      case Some(rs) => forall k :: 0 <= k < |rs| ==> !Insertable(s, f, rs[k])
  }

  // ---------- One refill ----------

  /** Some entries of set `g` have been added, and sets may have been spent. */
  ghost predicate Grown(s: State, s': State, g: nat)
  {
    && s'.batchStart == s.batchStart
    && (forall i :: i in s.pending ==> i in s'.pending && s'.pending[i] == s.pending[i])
    && (forall i :: i in s'.pending && i !in s.pending ==> s'.pending[i].fecSetIndex == g)
    && (forall b :: b in s.boundaries ==> b in s'.boundaries)
    && (forall f :: f in s'.fecSets ==> f in s.fecSets && s'.fecSets[f] == s.fecSets[f])
    && (s.slotComplete ==> s'.slotComplete)
  }

  lemma {:induction false} InsertAllGrows(now: nat, s: State, f: nat, rs: seq<Recovered>)
    ensures Grown(s, InsertAll(now, s, f, rs), f) && InsertAll(now, s, f, rs).fecSets == s.fecSets
    decreases |rs|
  {
    hide RecoveredEntry;
    if rs != [] {
      InsertAllGrows(now, InsertRecovered(now, s, f, rs[0]), f, rs[1..]);
    }
  }

  lemma NotInserted(now: nat, s: State, f: nat, r: Recovered)
    requires InsertRecovered(now, s, f, r).pending == s.pending
    ensures !Insertable(s, f, r)
  {
    hide RecoveredEntry;
  }

  /** Nothing was inserted only if nothing was insertable. */
  lemma {:induction false} NothingInserted(now: nat, s: State, f: nat, rs: seq<Recovered>)
    requires InsertAll(now, s, f, rs).pending == s.pending
    ensures forall k :: 0 <= k < |rs| ==> !Insertable(s, f, rs[k])
    decreases |rs|
  {
    hide RecoveredEntry;
    if rs != [] {
      var s1 := InsertRecovered(now, s, f, rs[0]);
      InsertAllGrows(now, s1, f, rs[1..]);
      InsertAllGrows(now, s, f, [rs[0]]);
      assert InsertAll(now, s, f, [rs[0]]) == s1;
      assert s1.pending == s.pending;
      NotInserted(now, s, f, rs[0]);
      NothingInserted(now, s1, f, rs[1..]);
      forall k | 0 <= k < |rs|
        ensures !Insertable(s, f, rs[k])
      {
        if k > 0 { assert rs[k] == rs[1..][k - 1]; }
      }
    }
  }

  /** The entries of this set are the same. */
  ghost predicate SameOf(s: State, s': State, f: nat)
  {
    && (forall i :: i in s.pending && s.pending[i].fecSetIndex == f ==>
          i in s'.pending && s'.pending[i] == s.pending[i])
    && (forall i :: i in s'.pending && s'.pending[i].fecSetIndex == f ==>
          i in s.pending && s'.pending[i] == s.pending[i])
  }

  lemma SameDataCount(s: State, s': State, f: nat, n: nat)
    requires SameOf(s, s', f)
    ensures DataCount(s', f, n) == DataCount(s, f, n)
  {
    if n != 0 {
      assert (set i | i in s'.pending && f <= i < SatAdd(f, n, U32_MAX) && s'.pending[i].fecSetIndex == f)
          == (set i | i in s.pending && f <= i < SatAdd(f, n, U32_MAX) && s.pending[i].fecSetIndex == f);
    }
  }

  /** More entries of other sets neither help nor harm. */
  lemma ExhaustedStays(env: Env, s: State, s': State, f: nat)
    requires SameOf(s, s', f) && s.pending.Keys <= s'.pending.Keys && s'.batchStart == s.batchStart
    requires f in s'.fecSets ==> f in s.fecSets && s'.fecSets[f] == s.fecSets[f]
    requires Exhausted(env, s, f)
    ensures Exhausted(env, s', f)
  {
    hide Reconstruct, RecoveredEntry, DataCount;
    if f in s'.fecSets {
      var n := s.fecSets[f].numData;
      SameDataCount(s, s', f, n);
      assert DataRefs(s', f, n) == DataRefs(s, f, n);
    }
  }

  lemma GrownExhausted(env: Env, s: State, s': State, g: nat, f: nat)
    requires Grown(s, s', g) && Exhausted(env, s, f) && (g != f || s'.pending == s.pending)
    ensures Exhausted(env, s', f)
  {
    hide Exhausted;
    ExhaustedStays(env, s, s', f);
  }

  /** A refill exhausts the hinted set, and leaves exhausted ones so. */
  lemma FillExhausts(env: Env, now: nat, s: State, hint: nat)
    ensures var s1 := FecFill(env, now, s, hint).state;
            && Exhausted(env, s1, hint) && (forall h :: Exhausted(env, s, h) ==> Exhausted(env, s1, h))
            && exists g :: Grown(s, s1, g)
  {
    hide Reconstruct, RecoveredEntry, DataCount, InsertAll, DataRefs, Insertable;
    var s1 := FecFill(env, now, s, hint).state;
    if SelectRecoverable(s, hint).None? {
      assert Grown(s, s1, 0);
    } else {
      var f := SelectRecoverable(s, hint).value;
      FillOne(env, now, s, hint, f);
      forall h | Exhausted(env, s, h)
        ensures Exhausted(env, s1, h)
      {
        if h != f { GrownExhausted(env, s, s1, f, h); }
      }
      if hint != f {
        assert Exhausted(env, s, hint);
      }
    }
  }

  lemma GrownSpent(s: State, s1: State, s': State, f: nat)
    requires Grown(s, s1, f) && s' == s1.(stats := s'.stats, fecSets := s1.fecSets - {f})
    ensures Grown(s, s', f)
  {
  }

  lemma FillOne(env: Env, now: nat, s: State, hint: nat, f: nat)
    requires SelectRecoverable(s, hint) == Some(f)
    ensures Grown(s, FecFill(env, now, s, hint).state, f) && Exhausted(env, FecFill(env, now, s, hint).state, f)
    ensures Recoverable(s, f)
  {
    hide Reconstruct, RecoveredEntry, DataCount, InsertAll, DataRefs, Insertable;
    var r := Reconstruct(env.lib, s.fecSets[f], DataRefs(s, f, s.fecSets[f].numData));
    if r.Some? {
      hide Grown;
      var s1 := InsertAll(now, s, f, r.value);
      InsertAllGrows(now, s, f, r.value);
      if s1.pending == s.pending {
        NothingInserted(now, s, f, r.value);
        assert Exhausted(env, s, f);
        GrownExhausted(env, s, s1, f, f);
      } else {
        GrownSpent(s, s1, FecFill(env, now, s, hint).state, f);
      }
    } else {
      assert Exhausted(env, s, f);
      ExhaustedStays(env, s, FecFill(env, now, s, hint).state, f);
    }
  }

  lemma {:induction false} FillAllExhausts(env: Env, now: nat, s: State, hints: seq<nat>)
    ensures var s' := FillAll(env, now, s, hints);
            && (forall h :: h in hints || Exhausted(env, s, h) ==> Exhausted(env, s', h))
            && s'.batchStart == s.batchStart && (forall b :: b in s.boundaries ==> b in s'.boundaries)
            && (forall f :: f in s'.fecSets ==> f in s.fecSets && s'.fecSets[f] == s.fecSets[f])
    decreases |hints|
  {
    hide FecFill, Exhausted;
    if hints != [] {
      FillExhausts(env, now, s, hints[0]);
      FillAllExhausts(env, now, FecFill(env, now, s, hints[0]).state, hints[1..]);
    }
  }

  // ---------- The flush loop and the calls ----------

  /** The set reaches into the range that waits for this batch end. */
  ghost predicate Overlaps(s: State, f: nat, bc: nat)
  {
    f in s.fecSets && s.fecSets[f].numData != 0 && f + s.fecSets[f].numData > s.batchStart && f <= bc
  }

  /** If a batch end waits, every set that reaches into its range is exhausted. */
  ghost predicate AllExhausted(env: Env, s: State)
  {
    BoundariesFrom(s) != {} ==> forall f :: Overlaps(s, f, Least(BoundariesFrom(s))) ==> Exhausted(env, s, f)
  }

  lemma StopExhausts(env: Env, now: nat, s: State)
    requires BoundariesFrom(s) != {}
    requires var bc := Least(BoundariesFrom(s)); FlushTurn(env, now, s, bc, s.boundaries[bc]).Stop?
    ensures AllExhausted(env, Refilled(env, now, s, Least(BoundariesFrom(s))))
  {
    hide Exhausted, FillAll;
    var bc := Least(BoundariesFrom(s));
    var hints := Hints(s, bc);
    FillAllExhausts(env, now, s, hints);
    var s' := FillAll(env, now, s, hints);
    assert Refilled(env, now, s, bc) == s';
    assert bc in BoundariesFrom(s');
    forall f | Overlaps(s', f, Least(BoundariesFrom(s')))
      ensures Exhausted(env, s', f)
    {
      assert Overlaps(s, f, bc);
      assert f in hints;
    }
  }

  lemma {:induction false} FlushExhausts(env: Env, now: nat, s: State)
    requires Bounded(s)
    ensures AllExhausted(env, Flush(env, now, s))
    decreases U32_MAX - s.batchStart
  {
    hide Bounded, FlushTurn, Refilled, Exhausted, Overlaps;
    if BoundariesFrom(s) != {} {
      var bc := Least(BoundariesFrom(s));
      BoundaryBounded(s, bc);
      FlushTurnBounded(env, now, s, bc, s.boundaries[bc]);
      match FlushTurn(env, now, s, bc, s.boundaries[bc])
      case Stop => StopExhausts(env, now, s);
      case FinishNow(s1) => FlushExhausts(env, now, s1);
    }
  }

  lemma ReleaseExhausted(env: Env, s: State, idx: nat)
    requires AllExhausted(env, s)
    ensures AllExhausted(env, Release(s, idx))
  {
    hide Exhausted;
    var s' := Release(s, idx);
    assert BoundariesFrom(s') == BoundariesFrom(s);
    forall f | Exhausted(env, s, f)
      ensures Exhausted(env, s', f)
    {
      ExhaustedStays(env, s, s', f);
    }
  }

  lemma StepExhausts(env: Env, s: State, e: Event)
    requires Bounded(s) && EventOk(e) && AllExhausted(env, s)
    ensures AllExhausted(env, Step(env, s, e))
  {
    hide Bounded, Flush, Streamed, CodeStreamed, AllExhausted, DataOk, CodeOk;
    match e
    case Data(now, d) =>
      if d.lastInSlot {
        FlagKeepsBounded(s);
        FlushExhausts(env, now, s.(slotComplete := true));
        ReleaseExhausted(env, Flush(env, now, s.(slotComplete := true)), d.handle.idx);
      } else if d.index < s.batchStart || d.index in s.pending {
        ReleaseExhausted(env, s, d.handle.idx);
      } else {
        FlushExhausts(env, now, Streamed(env, now, s, d));
      }
    case Code(now, c) => FlushExhausts(env, now, CodeStreamed(env, now, s, c));
  }

  lemma {:induction false} AlwaysExhausted(env: Env, events: Events)
    requires EventsOk(events)
    ensures AllExhausted(env, After(env, events))
    decreases |events|
  {
    hide Step, EventOk, Exhausted;
    if events == [] {
      assert BoundariesFrom(NEW_SLOT) == {};
    } else {
      var n := |events| - 1;
      AlwaysExhausted(env, events[..n]);
      StepExhausts(env, After(env, events[..n]), events[n]);
    }
  }

  /** Completeness of recovery. In every reachable state in which a batch end waits, no FEC set that reaches
      into its range can be rebuilt to anything the slot would store. */
  lemma NothingToRecover(env: Env, events: Events, s: State, f: nat)
    requires Reaches(env, events, s) && BoundariesFrom(s) != {} && Overlaps(s, f, Least(BoundariesFrom(s)))
    ensures Exhausted(env, s, f)
  {
    hide Reaches, After, Exhausted, Overlaps;
    ReachesAfter(env, events, s);
    AlwaysExhausted(env, events);
  }

  // ---------- For one sender's shreds ----------

  lemma {:induction false} CountOfKeys(s: slots, keys: set<nat>, lo: nat)
    requires forall k :: k in keys ==> lo <= k < lo + |s| && s[k - lo].Some?
    ensures |keys| <= CountPresent(s)
    decreases |s|
  {
    if s == [] {
      assert keys == {};
    } else {
      assert forall k :: k in keys - {lo} ==> s[1..][k - (lo + 1)] == s[k - lo];
      CountOfKeys(s[1..], keys - {lo}, lo + 1);
      assert lo !in keys ==> keys - {lo} == keys;
    }
  }

  lemma {:induction false} CountOfBoth(a: slots, b: slots)
    ensures CountPresent(a + b) == CountPresent(a) + CountPresent(b)
  {
    if a == [] {
      assert a + b == b;
    } else {
      assert (a + b)[1..] == a[1..] + b;
      CountOfBoth(a[1..], b);
    }
  }

  ghost function HeldOf(s: State, f: nat, n: nat): set<nat>
  {
    set i | i in s.pending && f <= i < f + n && s.pending[i].fecSetIndex == f
  }

  lemma DataIsPlaced(lib: ErasureLibrary, sent: SentSlot, s: State, f: nat)
    requires SentSlotOk(lib, sent) && AsSent(lib, sent, s) && f in s.fecSets
    ensures var n := s.fecSets[f].numData;
            |HeldOf(s, f, n)| <= CountPresent(Placed(s.fecSets[f], DataRefs(s, f, n))[..n])
  {
    hide SentSlotOk, EntryAsSent, SentSetOk, DataShard, CodeShard, CodeFrom, SentShredOk, CompletionAsSent;
    var fec := s.fecSets[f];
    var n := fec.numData;
    var placed := Placed(fec, DataRefs(s, f, n))[..n];
    assert BufferAsSent(lib, sent, f, fec);
    forall i | i in HeldOf(s, f, n)
      ensures placed[i - f].Some?
    {
      assert HoldsPosition(s.pending, f, i - f);
      assert EntryAsSent(lib, sent, f + (i - f), s.pending[i]);
      RefAsSent(lib, sent, fec, f, i - f, s.pending[i]);
    }
    CountOfKeys(placed, HeldOf(s, f, n), f);
  }

  lemma CodeIsPlaced(fec: FecSet, refs: map<nat, seq<byte>>)
    requires CodeWhole(fec)
    ensures |fec.code| <= CountPresent(Placed(fec, refs)[fec.numData..])
  {
    hide CodeShard, DataShard;
    var n := fec.numData;
    var placed := Placed(fec, refs);
    forall j | j in fec.code
      ensures j < |placed[n..]| && placed[n..][j].Some?
    {
      assert CodeShard(fec, fec.code[j]).Some?;
      assert placed[n + j] == SlotAt(fec, refs, n + j);
    }
    CountOfKeys(placed[n..], fec.code.Keys, 0);
    assert |fec.code| == |fec.code.Keys|;
  }

  lemma HeldIsCounted(s: State, f: nat, n: nat)
    requires f + n <= U32_MAX && n > 0
    ensures DataCount(s, f, n) == |HeldOf(s, f, n)|
  {
    assert HeldOf(s, f, n) == set i | i in s.pending && f <= i < SatAdd(f, n, U32_MAX) && s.pending[i].fecSetIndex == f;
  }

  /** Every shred that counts towards a sender's set is laid out for the decoder. */
  lemma EnoughIsPlaced(lib: ErasureLibrary, sent: SentSlot, s: State, f: nat)
    requires SentSlotOk(lib, sent) && AsSent(lib, sent, s) && Bounded(s) && Recoverable(s, f)
    ensures CountPresent(Placed(s.fecSets[f], DataRefs(s, f, s.fecSets[f].numData))) >= s.fecSets[f].numData
  {
    hide SentSlotOk, EntryAsSent, SentSetOk, CodeFrom, CompletionAsSent, DataCount, HeldOf, CodeWhole, DataRefs;
    var fec := s.fecSets[f];
    var n := fec.numData;
    var placed := Placed(fec, DataRefs(s, f, n));
    assert BufferAsSent(lib, sent, f, fec);
    HeldIsCounted(s, f, n);
    DataIsPlaced(lib, sent, s, f);
    CodeIsPlaced(fec, DataRefs(s, f, n));
    assert placed == placed[..n] + placed[n..];
    CountOfBoth(placed[..n], placed[n..]);
  }

  /** The shred at this index was sent in this set as the last of the slot. */
  ghost predicate SentLast(sent: SentSlot, f: nat, i: nat)
  {
    Covers(sent, f, i)
    && match ParseKind(sent[f].raws[i - f])
       case Ok(Data(d)) => d.lastInSlot
       case _ => false
  }

  /** A set of the sender's that has enough shards and is exhausted lacks nothing in the window but what was
      sent last in the slot, which is never stored. */
  lemma ExhaustedHoldsAll(env: Env, sent: SentSlot, s: State, f: nat, i: nat)
    requires SentSlotOk(env.lib, sent) && AsSent(env.lib, sent, s) && Bounded(s)
    requires Recoverable(s, f) && Exhausted(env, s, f)
    requires s.batchStart <= i && f <= i < f + s.fecSets[f].numData && i !in s.pending
    ensures SentLast(sent, f, i)
  {
    hide SentSlotOk, EntryAsSent, Reconstruct, Placed, DataCount, RecoveredEntry, CompletionAsSent, ParseKind,
      Bounded;
    var fec, p := s.fecSets[f], i - f;
    var refs := DataRefs(s, f, fec.numData);
    EnoughIsPlaced(env.lib, sent, s, f);
    RefsAsSent(env.lib, sent, s, f);
    ReconstructRestores(env.lib, fec, refs, sent[f]);
    assert SentShredOk(sent[f], f, p);
    assert p !in refs;
    var rs, r := Reconstruct(env.lib, fec, refs).value, Recovered(p, Framed(SentShard(sent[f], p)));
    assert r in rs;
    var k :| 0 <= k < |rs| && rs[k] == r;
    assert !Insertable(s, f, rs[k]);
    RecoveredAsSent(env.lib, sent, f, p);
    RecoveredFlag(sent[f], f, p);
  }

  lemma RecoveredFlag(sent: SentSet, f: nat, p: nat)
    requires WellSent(sent) && p < |sent.raws| && SentShredOk(sent, f, p)
    requires RecoveredEntry(f, Framed(SentShard(sent, p))).Some?
    ensures RecoveredEntry(f, Framed(SentShard(sent, p))).value.1 == SentHeader(sent, p).lastInSlot
  {
    hide ParseKind, Field;
    RecoveredParsesAsSent(sent, p);
  }

  /** Completeness for one sender's shreds. In every state that these lead to with a batch end waiting, an
      FEC set reaching into its range that lacks any shred of the window not sent last in the slot holds
      too few shards to be rebuilt. */
  lemma MissingMeansTooFew(env: Env, sent: SentSlot, events: Events, s: State, f: nat, i: nat)
    requires Reaches(env, events, s) && SentSlotOk(env.lib, sent)
    requires forall k :: 0 <= k < |events| ==> EventAsSent(env.lib, sent, events[k])
    requires BoundariesFrom(s) != {} && Overlaps(s, f, Least(BoundariesFrom(s)))
    requires s.batchStart <= i && Covers(sent, f, i) && i !in s.pending && !SentLast(sent, f, i)
    ensures DataCount(s, f, s.fecSets[f].numData) + |s.fecSets[f].code| < s.fecSets[f].numData
  {
    hide Reaches, After, Exhausted, SentSlotOk, EventAsSent, EntryAsSent, CompletionAsSent, ParseKind, DataCount,
      Bounded;
    ReachesAfter(env, events, s);
    AlwaysAsSent(env, sent, events);
    NothingToRecover(env, events, s, f);
    assert BufferAsSent(env.lib, sent, f, s.fecSets[f]);
    if Recoverable(s, f) {
      ExhaustedHoldsAll(env, sent, s, f, i);
    }
  }
}
