/** How far `max_fec_sets_per_slot` bounds the FEC sets a slot buffers. */
module FecCap {
  import opened Bytes
  import opened Collections
  import opened Variant
  import opened Parser
  import opened Packets
  import opened Fec
  import opened Slot
  import opened Window
  import opened Invariant
  import opened Reachable
  import opened Recovery

  /** The set is known, there is room, or an older set can make room. */
  ghost predicate FitsCap(env: Env, s: State, c: CodeArrival)
  {
    || c.fecSetIndex in s.fecSets || |s.fecSets| < env.maxFecSets
    || (s.fecSets.Keys != {} && Least(s.fecSets.Keys) < c.fecSetIndex)
  }

  /** Recording a code shred keeps the configured number as a bound exactly when the shred fits; one that
      does not, of a set older than all of a full buffer, is added to it. */
  lemma FecCapExactly(env: Env, s: State, c: CodeArrival)
    requires |s.fecSets| <= env.maxFecSets
    ensures |Recorded(env, s, c).fecSets| <= env.maxFecSets <==> FitsCap(env, s, c)
    ensures |Recorded(env, s, c).fecSets| <= env.maxFecSets + 1
  {
    hide Recorded;
    RecordedKeys(env, s, c);
    var keys, f := s.fecSets.Keys, c.fecSetIndex;
    assert |s.fecSets| == |keys|;
    assert |Recorded(env, s, c).fecSets| == |Recorded(env, s, c).fecSets.Keys|;
    if f in keys {
      assert keys + {f} == keys;
    }
  }

  lemma RecordedKeys(env: Env, s: State, c: CodeArrival)
    ensures var keys, f := s.fecSets.Keys, c.fecSetIndex;
            var makesRoom := f !in keys && |keys| >= env.maxFecSets && keys != {} && Least(keys) < f;
            && Recorded(env, s, c).fecSets.Keys == (if makesRoom then keys - {Least(keys)} else keys) + {f}
            && Recorded(env, s, c).stats == s.stats.(fecSetsEvicted :=
                 if makesRoom then SatAdd(s.stats.fecSetsEvicted, 1, U64_MAX) else s.stats.fecSetsEvicted)
  {
    assert |s.fecSets| == |s.fecSets.Keys|;
    assert s.fecSets != map[] <==> s.fecSets.Keys != {};
  }

  // ---------- At the public return ----------

  ghost predicate NoNewSets(s: State, s': State)
  {
    s'.fecSets.Keys <= s.fecSets.Keys
  }

  lemma FillShrinks(env: Env, now: nat, s: State, hint: nat)
    ensures NoNewSets(s, FecFill(env, now, s, hint).state)
  {
    hide Reconstruct;
    if SelectRecoverable(s, hint).Some? {
      var f := SelectRecoverable(s, hint).value;
      var rs := Reconstruct(env.lib, s.fecSets[f], DataRefs(s, f, s.fecSets[f].numData));
      if rs.Some? { InsertAllSameSets(now, s, f, rs.value); }
    }
  }

  lemma {:induction false} InsertAllSameSets(now: nat, s: State, f: nat, rs: seq<Recovered>)
    ensures InsertAll(now, s, f, rs).fecSets == s.fecSets
    decreases |rs|
  {
    hide RecoveredEntry;
    if rs != [] {
      InsertAllSameSets(now, InsertRecovered(now, s, f, rs[0]), f, rs[1..]);
    }
  }

  lemma {:induction false} FillAllShrinks(env: Env, now: nat, s: State, hints: seq<nat>)
    ensures NoNewSets(s, FillAll(env, now, s, hints))
    decreases |hints|
  {
    hide FecFill;
    if hints != [] {
      FillShrinks(env, now, s, hints[0]);
      FillAllShrinks(env, now, FecFill(env, now, s, hints[0]).state, hints[1..]);
    }
  }

  lemma FinishShrinks(env: Env, s: State, bc: nat)
    ensures NoNewSets(s, FinishWhole(env, s, bc)) && NoNewSets(s, FinishSalvaged(env, s, bc, true))
  {
    hide Complete, Emit, Fresh, Concat, RunsTxs, Runs;
    forall t: State, finish | t.fecSets == s.fecSets
      ensures NoNewSets(s, Complete(t, bc, finish))
    {
      CompleteShrinks(t, bc, finish);
    }
    forall txs
      ensures Emit(s, txs).fecSets == s.fecSets
    {
      EmitKeeps(s, txs);
    }
  }

  lemma CompleteShrinks(s: State, bc: nat, finish: Finish)
    ensures NoNewSets(s, Complete(s, bc, finish))
  {
    hide HandlesOf, Sorted, KeysBelow, BoundariesIn;
  }

  lemma {:induction false} FlushShrinks(env: Env, now: nat, s: State)
    requires Bounded(s)
    ensures NoNewSets(s, Flush(env, now, s))
    decreases U32_MAX - s.batchStart
  {
    hide Bounded, FillAll, FinishWhole, FinishSalvaged;
    if BoundariesFrom(s) != {} {
      var bc := Least(BoundariesFrom(s));
      BoundaryBounded(s, bc);
      FlushTurnBounded(env, now, s, bc, s.boundaries[bc]);
      FillAllShrinks(env, now, s, Hints(s, bc));
      FinishShrinks(env, Refilled(env, now, s, bc), bc);
      match FlushTurn(env, now, s, bc, s.boundaries[bc])
      case Stop =>
      case FinishNow(s1) => FlushShrinks(env, now, s1);
    }
  }

  /** After recording, a call only ever drops sets. */
  lemma PushCodeShrinks(env: Env, now: nat, s: State, c: CodeArrival)
    requires Bounded(s) && CodeOk(c)
    ensures NoNewSets(Recorded(env, s, c), PushCode(env, now, s, c))
  {
    hide Bounded, Recorded, FecFill, Advance, Flush;
    RecordedBounded(env, s, c);
    var s1 := Recorded(env, s, c);
    FecFillBounded(env, now, s1, c.fecSetIndex);
    FillShrinks(env, now, s1, c.fecSetIndex);
    var fill := FecFill(env, now, s1, c.fecSetIndex);
    if fill.any { AdvanceKeepsShreds(env, fill.state); }
    FlushShrinks(env, now, CodeStreamed(env, now, s, c));
  }

  /** At the return of `push_code` the configured number bounds the sets if the shred fits, and in any
      case one call exceeds it by one at most. */
  lemma FecCapAtReturn(env: Env, now: nat, s: State, c: CodeArrival)
    requires Bounded(s) && CodeOk(c) && |s.fecSets| <= env.maxFecSets
    ensures FitsCap(env, s, c) ==> |PushCode(env, now, s, c).fecSets| <= env.maxFecSets
    ensures |PushCode(env, now, s, c).fecSets| <= env.maxFecSets + 1
  {
    hide Bounded, Recorded, PushCode;
    PushCodeShrinks(env, now, s, c);
    FecCapExactly(env, s, c);
    var r, p := Recorded(env, s, c).fecSets, PushCode(env, now, s, c).fecSets;
    SubsetSize(p.Keys, r.Keys);
    assert |r| == |r.Keys| && |p| == |p.Keys|;
  }

  /** Nothing has arrived that a code shred could recover with, and no set has enough of its own. */
  ghost predicate Starved(s: State)
  {
    && s.pending == map[] && s.boundaries == map[]
    && forall f :: f in s.fecSets ==> !CanRecoverWith(s.fecSets[f], 0)
  }

  lemma StarvedWaits(env: Env, now: nat, s: State, c: CodeArrival)
    requires Bounded(s) && CodeOk(c) && Starved(Recorded(env, s, c))
    ensures PushCode(env, now, s, c) == Recorded(env, s, c)
  {
    hide Bounded, Recorded;
    RecordedBounded(env, s, c);
    var s1 := Recorded(env, s, c);
    forall f
      ensures !Recoverable(s1, f)
    {
      NoData(s1, f);
    }
    assert FecFill(env, now, s1, c.fecSetIndex) == Fill(s1, false);
    assert BoundariesFrom(s1) == {};
  }

  lemma NoData(s: State, f: nat)
    requires Starved(s)
    ensures !Recoverable(s, f)
  {
    if f in s.fecSets {
      CountWithin(s, f, s.fecSets[f].numData);
      assert s.pending.Keys == {};
    }
  }

  lemma CountWithin(s: State, f: nat, n: nat)
    ensures DataCount(s, f, n) <= |s.pending.Keys|
  {
    var counted := set i | i in s.pending && f <= i < SatAdd(f, n, U32_MAX) && s.pending[i].fecSetIndex == f;
    SubsetSize(counted, s.pending.Keys);
  }

  /** For a starved slot the bound is kept at the return exactly if the shred fits. */
  lemma StarvedCapExactly(env: Env, now: nat, s: State, c: CodeArrival)
    requires Bounded(s) && CodeOk(c) && |s.fecSets| <= env.maxFecSets && Starved(Recorded(env, s, c))
    ensures |PushCode(env, now, s, c).fecSets| <= env.maxFecSets <==> FitsCap(env, s, c)
  {
    hide Bounded, Recorded, PushCode, Starved;
    StarvedWaits(env, now, s, c);
    FecCapExactly(env, s, c);
  }

  // ---------- Runs that exceed it ----------

  /** The first shreds of sets that need at least two, each set older than those before. */
  ghost predicate Falling(cs: seq<CodeArrival>)
  {
    && (forall k :: 0 <= k < |cs| ==> cs[k].numData >= 2 && CodeOk(cs[k]))
    && forall j, k :: 0 <= j < k < |cs| ==> cs[k].fecSetIndex < cs[j].fecSetIndex
  }

  function CodeEvents(now: nat, cs: seq<CodeArrival>): Events
  {
    seq(|cs|, (k: nat) requires k < |cs| => Event.Code(now, cs[k]))
  }

  ghost predicate Named(cs: seq<CodeArrival>, f: nat)
  {
    exists k :: 0 <= k < |cs| && cs[k].fecSetIndex == f
  }

  /** One code shred each of these sets, and nothing else. */
  ghost predicate Stacked(s: State, cs: seq<CodeArrival>)
  {
    && s.pending == map[] && s.boundaries == map[]
    && (forall f :: f in s.fecSets <==> Named(cs, f))
    && |s.fecSets| == |cs|
    && forall f :: f in s.fecSets ==> s.fecSets[f].numData >= 2 && |s.fecSets[f].code| == 1
  }

  /** A set older than all buffered ones is added whatever the limit. */
  lemma StackOne(env: Env, now: nat, s: State, cs: seq<CodeArrival>, c: CodeArrival)
    requires Stacked(s, cs) && Bounded(s) && Falling(cs + [c])
    ensures CodeOk(c) && Stacked(PushCode(env, now, s, c), cs + [c])
  {
    hide Bounded, Recorded, PushCode, Stacked, CodeOk, Falling;
    LastFalls(cs, c);
    RecordedStacks(env, s, cs, c);
    StackedStarves(Recorded(env, s, c), cs + [c]);
    StarvedWaits(env, now, s, c);
  }

  lemma NewestIsLeast(s: State, cs: seq<CodeArrival>, c: CodeArrival)
    requires Stacked(s, cs) && Falling(cs + [c])
    ensures forall f :: f in s.fecSets ==> c.fecSetIndex < f
  {
    forall f | f in s.fecSets
      ensures c.fecSetIndex < f
    {
      var k :| 0 <= k < |cs| && cs[k].fecSetIndex == f;
      assert (cs + [c])[k] == cs[k] && (cs + [c])[|cs|] == c;
    }
  }

  /** A set older than all buffered ones makes no room for itself. */
  lemma RecordedAdds(env: Env, s: State, c: CodeArrival)
    requires forall f :: f in s.fecSets ==> c.fecSetIndex < f
    ensures var one := RecordCode(NewFecSet(c.fecSetIndex), c.position, c.numData, c.numCoding, c.coded, c.variant);
            Recorded(env, s, c) == s.(fecSets := s.fecSets[c.fecSetIndex := one])
  {
    hide RecordCode;
    if s.fecSets != map[] {
      assert Least(s.fecSets.Keys) in s.fecSets;
    }
  }

  lemma RecordedStacks(env: Env, s: State, cs: seq<CodeArrival>, c: CodeArrival)
    requires Stacked(s, cs) && Falling(cs + [c])
    ensures Stacked(Recorded(env, s, c), cs + [c])
  {
    hide RecordCode, Recorded, Falling, Named;
    assert c.numData >= 2 by { LastFalls(cs, c); }
    NewestIsLeast(s, cs, c);
    FirstShred(c);
    RecordedAdds(env, s, c);
    var sets := Recorded(env, s, c).fecSets;
    assert sets.Keys == s.fecSets.Keys + {c.fecSetIndex};
    assert |sets| == |sets.Keys| && |s.fecSets| == |s.fecSets.Keys|;
    forall f: nat
      ensures f in sets <==> Named(cs + [c], f)
    {
      NamedOneMore(cs, c, f);
    }
  }

  lemma LastFalls(cs: seq<CodeArrival>, c: CodeArrival)
    requires Falling(cs + [c])
    ensures c.numData >= 2 && CodeOk(c)
  {
    assert (cs + [c])[|cs|] == c;
  }

  lemma NamedOneMore(cs: seq<CodeArrival>, c: CodeArrival, f: nat)
    ensures Named(cs + [c], f) <==> Named(cs, f) || f == c.fecSetIndex
  {
    var all := cs + [c];
    assert all[|cs|] == c;
    if k :| 0 <= k < |cs| && cs[k].fecSetIndex == f { assert all[k].fecSetIndex == f; }
    if k :| 0 <= k < |all| && all[k].fecSetIndex == f {
      if k < |cs| { assert cs[k].fecSetIndex == f; }
    }
  }

  lemma FirstShred(c: CodeArrival)
    requires c.numData >= 2
    ensures var one := RecordCode(NewFecSet(c.fecSetIndex), c.position, c.numData, c.numCoding, c.coded, c.variant);
            one.numData == c.numData && |one.code| == 1
  {
    assert map[][c.position := c.coded].Keys == {c.position};
  }

  lemma StackedStarves(s: State, cs: seq<CodeArrival>)
    requires Stacked(s, cs)
    ensures Starved(s)
  {
  }

  lemma {:induction false} FallingStacks(env: Env, now: nat, cs: seq<CodeArrival>)
    requires Falling(cs)
    ensures EventsOk(CodeEvents(now, cs)) && Stacked(After(env, CodeEvents(now, cs)), cs)
    decreases |cs|
  {
    hide Stacked, PushCode, Bounded, CodeOk;
    if cs == [] {
      NothingStacked();
    } else {
      var n := |cs| - 1;
      FallingStacks(env, now, cs[..n]);
      assert CodeEvents(now, cs)[..n] == CodeEvents(now, cs[..n]);
      assert cs == cs[..n] + [cs[n]];
      StackOne(env, now, After(env, CodeEvents(now, cs[..n])), cs[..n], cs[n]);
    }
  }

  lemma NothingStacked()
    ensures Stacked(NEW_SLOT, [])
  {
  }

  /** Whatever the limit, each code shred of a falling run leaves one more set buffered. */
  lemma FecCapExceeded(env: Env, now: nat, cs: seq<CodeArrival>, s: State)
    requires Falling(cs) && Reaches(env, CodeEvents(now, cs), s)
    ensures |s.fecSets| == |cs|
  {
    hide Reaches, After, Bounded, Falling;
    ReachesAfter(env, CodeEvents(now, cs), s);
    FallingStacks(env, now, cs);
  }

  // ---------- Such packets are admitted ----------

  /** The first code shred of a set of two, with a Merkle suffix of one hash. */
  function LoneShred(f: nat): CodeShred
  {
    var header := CodeShred(0, f, 0, f, 2, 1, 0, [], CodeMerkle(0, false));
    header.(coded := CodedPart(header, [1]))
  }

  function LoneArrival(f: nat): CodeArrival
  {
    CodeOf(LoneShred(f))
  }

  function LonePacket(f: nat): seq<byte>
  {
    CodePacket(LoneShred(f), Zeros(MERKLE_ROOT_SIZE))
  }

  /** What the listener makes of the packets for sets n - 1 down to 0. */
  function LoneRun(n: nat): seq<CodeArrival>
  {
    seq(n, (k: nat) requires k < n => LoneArrival(n - 1 - k))
  }

  /** Packets of a falling run of any length are admitted, and in the range the accumulator works in. */
  lemma FallingIsAdmitted(n: nat, lastSlot: nat, seen: set<nat>)
    requires n + 2 <= U32_MAX && 0 !in seen
    ensures Falling(LoneRun(n)) && |LoneRun(n)| == n
    ensures forall k :: 0 <= k < n ==>
              && Admit(Handle(k, LonePacket(n - 1 - k)), lastSlot, seen, true) == ToCode(0, LoneRun(n)[k])
              && InRange(LonePacket(n - 1 - k))
  {
    hide ParseKind, LonePacket, LoneArrival;
    forall f: nat | f < n
      ensures LoneArrival(f).fecSetIndex == f && LoneArrival(f).numData == 2
      ensures Admit(Handle(n - 1 - f, LonePacket(f)), lastSlot, seen, true) == ToCode(0, LoneArrival(f))
      ensures InRange(LonePacket(f))
    {
      LoneIsAdmitted(f, n - 1 - f, lastSlot, seen);
    }
    forall k | 0 <= k < n
      ensures Admit(Handle(k, LonePacket(n - 1 - k)), lastSlot, seen, true) == ToCode(0, LoneRun(n)[k])
      ensures InRange(LonePacket(n - 1 - k))
    {
      assert k == n - 1 - (n - 1 - k);
    }
  }

  lemma LoneIsAdmitted(f: nat, idx: nat, lastSlot: nat, seen: set<nat>)
    requires f + 2 <= U32_MAX && 0 !in seen
    ensures LoneArrival(f).fecSetIndex == f && LoneArrival(f).numData == 2
    ensures Admit(Handle(idx, LonePacket(f)), lastSlot, seen, true) == ToCode(0, LoneArrival(f))
    ensures InRange(LonePacket(f))
  {
    hide ParseKind, LonePacket, LoneShred;
    LoneParses(f);
  }

  lemma LoneParses(f: nat)
    requires f <= U32_MAX
    ensures ParseKind(LonePacket(f)) == Ok(ShredKind.Code(LoneShred(f)))
    ensures LoneShred(f).slot == 0 && LoneShred(f).fecSetIndex == f && LoneShred(f).numData == 2
  {
    hide ParseKind;
    var header := CodeShred(0, f, 0, f, 2, 1, 0, [], CodeMerkle(0, false));
    assert CodedPart(header, [1])[CODE_HEADER_SIZE..] == [1];
    CodeRoundTrip(LoneShred(f), Zeros(MERKLE_ROOT_SIZE));
  }

  /** The packets of such a run alone leave n sets buffered under any limit. */
  lemma LonePacketsExceed(env: Env, now: nat, n: nat, s: State)
    requires n + 2 <= U32_MAX && Reaches(env, CodeEvents(now, LoneRun(n)), s)
    ensures |s.fecSets| == n
  {
    hide Reaches, Falling;
    FallingIsAdmitted(n, 0, {});
    FecCapExceeded(env, now, LoneRun(n), s);
  }
}
