/** Order independence: without code shreds and as long as no timeout fires, what a slot has completed,
    keeps pending and has delivered is a function of the set of shreds received. */
module Order {
  import opened Bytes
  import opened Collections
  import opened Decoder
  import opened Streaming
  import opened Slot
  import opened Invariant
  import opened Lifetime
  import opened Reachable
  import opened Recovery

  /** A shred apart from the buffer it happens to sit in. */
  datatype Shred = Shred(payload: seq<byte>, batchComplete: bool, fecSetIndex: nat)

  type Shreds = map<nat, Shred>

  function ShredOf(ps: PendingShred): Shred
  {
    Shred(ps.Payload().GetOr([]), ps.batchComplete, ps.fecSetIndex)
  }

  /** First arrivals: what the slot has been given, duplicates and last-in-slot shreds aside. */
  function Received(events: Events): Shreds
    decreases |events|
  {
    if events == [] then map[]
    else
      var n := |events| - 1;
      Receive(Received(events[..n]), events[n])
  }

  function Receive(r: Shreds, e: Event): Shreds
  {
    match e
    case Data(_, d) => if d.lastInSlot || d.index in r then r else r[d.index := ShredOf(d.Entry())]
    case Code(_, _) => r
  }

  ghost predicate Present(r: Shreds, lo: nat, hi: nat)
  {
    forall i :: lo <= i < hi ==> i in r
  }

  ghost predicate Ends(r: Shreds, i: nat)
  {
    i in r && r[i].batchComplete
  }

  /** One past the last batch end whose whole prefix has been received. */
  ghost predicate Frontier(r: Shreds, n: nat)
  {
    && Present(r, 0, n)
    && (n > 0 ==> Ends(r, n - 1))
    && (forall b: nat :: n <= b && Ends(r, b) ==> !Present(r, n, b + 1))
  }

  lemma FrontierLeast(r: Shreds, m: nat, n: nat)
    requires Frontier(r, m) && Present(r, 0, n) && (n > 0 ==> Ends(r, n - 1))
    ensures n <= m
  {
    if m < n {
      assert Present(r, m, n);
    }
  }

  lemma FrontierUnique(r: Shreds, m: nat, n: nat)
    requires Frontier(r, m) && Frontier(r, n)
    ensures m == n
  {
    FrontierLeast(r, m, n);
    FrontierLeast(r, n, m);
  }

  function Payloads(r: Shreds, lo: nat, hi: nat): seq<byte>
    decreases hi
  {
    if lo >= hi then [] else Payloads(r, lo, hi - 1) + (if hi - 1 in r then r[hi - 1].payload else [])
  }

  /** A completed range is exactly one batch of the received shreds. */
  ghost predicate OneBatch(r: Shreds, c: Completion)
  {
    && c.start <= c.last && Ends(r, c.last)
    && (forall i: nat :: c.start <= i < c.last ==> !Ends(r, i))
    && c.boundaries == {c.last}
    && c.finish.Whole? && c.finish.payload == Payloads(r, c.start, c.last + 1)
  }

  /** A slot that has only seen data shreds and has finished no range by timeout. */
  ghost predicate Quiet(s: State, r: Shreds)
  {
    && s.fecSets == map[]
    && (forall i :: i in s.pending ==> s.pending[i].source.FromPool?)
    && (forall i :: i in s.pending <==> i in r && s.batchStart <= i)
    && (forall i :: i in s.pending ==> r[i] == ShredOf(s.pending[i]))
    && Present(r, 0, s.batchStart)
    && (s.batchStart > 0 ==> Ends(r, s.batchStart - 1))
    && (forall k :: 0 <= k < |s.log.completions| ==>
          OneBatch(r, s.log.completions[k]) && s.log.completions[k].last < s.batchStart)
  }

  // ---------- Keeping quiet ----------

  lemma {:induction false} PayloadsAre(s: State, r: Shreds, lo: nat, hi: nat)
    requires forall i :: i in s.pending ==> i in r && r[i] == ShredOf(s.pending[i])
    requires forall i :: lo <= i < hi && i in r ==> i in s.pending
    ensures Concat(s.pending, lo, hi) == Payloads(r, lo, hi)
    decreases hi
  {
    if lo < hi {
      PayloadsAre(s, r, lo, hi - 1);
    }
  }

  lemma NoSetsToFill(env: Env, now: nat, s: State, hint: nat)
    requires s.fecSets == map[]
    ensures FecFill(env, now, s, hint) == Fill(s, false)
  {
  }

  lemma NoHints(env: Env, now: nat, s: State, bc: nat)
    requires s.fecSets == map[]
    ensures Refilled(env, now, s, bc) == s
  {
    assert s.fecSets.Keys == {};
    assert Hints(s, bc) == [];
  }

  lemma SameQuiet(s: State, s': State, r: Shreds)
    requires Quiet(s, r)
    requires s'.fecSets == s.fecSets && s'.boundaries == s.boundaries && s'.pending == s.pending
    requires s'.batchStart == s.batchStart && s'.log.completions == s.log.completions
    ensures Quiet(s', r)
  {
    hide OneBatch;
  }

  lemma CompleteQuiet(s: State, r: Shreds, bc: nat, before: transactions)
    requires Quiet(s, r) && Shape(s) && s.batchStart <= bc < U32_MAX
    requires AllPresent(s.pending, s.batchStart, bc + 1) && IsBoundary(s.pending, bc)
    requires forall i :: s.batchStart <= i < bc ==> !IsBoundary(s.pending, i)
    ensures Quiet(Complete(s, bc, Whole(Concat(s.pending, s.batchStart, bc + 1), before)), r)
  {
    hide OneBatch, Shape;
    PayloadsHere(s, r, bc);
    OneBatchHere(s, r, bc);
    var finish := Whole(Payloads(r, s.batchStart, bc + 1), before);
    var cs := Complete(s, bc, finish).log.completions;
    NewBatch(s, r, bc, finish);
    forall k | 0 <= k < |cs|
      ensures OneBatch(r, cs[k]) && cs[k].last < bc + 1
    {
      if k < |cs| - 1 { assert cs[k] == s.log.completions[k]; }
    }
    WindowAfter(s, r, bc, finish);
  }

  lemma NewBatch(s: State, r: Shreds, bc: nat, finish: Finish)
    requires s.batchStart <= bc && BoundariesIn(s.pending, s.batchStart, bc + 1) == {bc} && Ends(r, bc)
    requires forall i: nat :: s.batchStart <= i < bc ==> !Ends(r, i)
    requires finish.Whole? && finish.payload == Payloads(r, s.batchStart, bc + 1)
    ensures var cs := Complete(s, bc, finish).log.completions;
            cs[..|cs| - 1] == s.log.completions && OneBatch(r, cs[|cs| - 1])
  {
  }

  lemma PayloadsHere(s: State, r: Shreds, bc: nat)
    requires Quiet(s, r)
    ensures Concat(s.pending, s.batchStart, bc + 1) == Payloads(r, s.batchStart, bc + 1)
  {
    hide OneBatch;
    PayloadsAre(s, r, s.batchStart, bc + 1);
  }

  /** The window clauses after a completion. */
  lemma WindowAfter(s: State, r: Shreds, bc: nat, finish: Finish)
    requires Quiet(s, r) && Shape(s) && s.batchStart <= bc < U32_MAX
    requires AllPresent(s.pending, s.batchStart, bc + 1) && Ends(r, bc)
    ensures var s' := Complete(s, bc, finish);
            && s'.fecSets == map[] && s'.batchStart == bc + 1
            && (forall i :: i in s'.pending ==> s'.pending[i].source.FromPool?)
            && (forall i :: i in s'.pending <==> i in r && s'.batchStart <= i)
            && (forall i :: i in s'.pending ==> r[i] == ShredOf(s'.pending[i]))
            && Present(r, 0, s'.batchStart)
  {
    hide OneBatch, ShredOf;
    forall i | 0 <= i < bc + 1
      ensures i in r
    {
      if s.batchStart <= i { assert i in s.pending; }
    }
  }

  lemma OneBatchHere(s: State, r: Shreds, bc: nat)
    requires Quiet(s, r) && s.batchStart <= bc && IsBoundary(s.pending, bc)
    requires forall i :: s.batchStart <= i < bc ==> !IsBoundary(s.pending, i)
    ensures BoundariesIn(s.pending, s.batchStart, bc + 1) == {bc}
    ensures Ends(r, bc)
    ensures forall i: nat :: s.batchStart <= i < bc ==> !Ends(r, i)
  {
    hide OneBatch;
    assert bc in s.pending;
    assert BoundariesIn(s.pending, s.batchStart, bc + 1) <= {bc} by {
      assert forall i :: i in s.pending && s.pending[i].batchComplete ==> IsBoundary(s.pending, i);
    }
    forall i: nat | s.batchStart <= i < bc
      ensures !Ends(r, i)
    {
      assert !IsBoundary(s.pending, i);
      assert i in s.pending <==> i in r;
    }
  }

  lemma FinishQuiet(env: Env, s: State, r: Shreds, bc: nat)
    requires Quiet(s, r) && Shape(s) && s.batchStart <= bc < U32_MAX
    requires AllPresent(s.pending, s.batchStart, bc + 1) && IsBoundary(s.pending, bc)
    requires forall i :: s.batchStart <= i < bc ==> !IsBoundary(s.pending, i)
    ensures Quiet(FinishWhole(env, s, bc), r)
  {
    hide Quiet, Shape, Complete, Emit, DecodeBatch;
    var bytes := Concat(s.pending, s.batchStart, bc + 1);
    match DecodeBatch(env.codec, bytes)
    case Some(txs) =>
      EmitKeeps(s, txs);
      var e := Emit(s, txs);
      var s1 := if Fresh(s.yielded, txs) != [] then CountFallback(e) else CountStreaming(e);
      SameQuiet(s, s1, r);
      SameShape(s, s1);
      CompleteQuiet(s1, r, bc, s.log.emitted);
    case None =>
      var s1 := CountSkipped(CountDecodeError(s));
      SameQuiet(s, s1, r);
      SameShape(s, s1);
      CompleteQuiet(s1, r, bc, s.log.emitted);
  }

  lemma SameShape(s: State, s': State)
    requires Shape(s) && s'.pending == s.pending && s'.boundaries == s.boundaries && s'.fecSets == s.fecSets
    requires s'.batchStart == s.batchStart && s'.cursor == s.cursor && s'.log.streamed == s.log.streamed
    ensures Shape(s')
  {
  }

  lemma LeastIsFirst(s: State)
    requires Shape(s) && BoundariesFrom(s) != {}
    ensures forall i :: s.batchStart <= i < Least(BoundariesFrom(s)) ==> !IsBoundary(s.pending, i)
    ensures Least(BoundariesFrom(s)) in s.boundaries
  {
    forall i: nat | s.batchStart <= i < Least(BoundariesFrom(s))
      ensures !IsBoundary(s.pending, i)
    {
      assert i !in BoundariesFrom(s);
      assert i in s.boundaries <==> IsBoundary(s.pending, i);
    }
  }

  lemma TurnQuiet(env: Env, now: nat, s: State, r: Shreds)
    requires Inv(env, s) && AtMostLast(s) && BoundariesFrom(s) != {}
    requires Quiet(s, r)
    ensures var bc := Least(BoundariesFrom(s));
            var turn := FlushTurn(env, now, s, bc, s.boundaries[bc]);
            && Refilled(env, now, s, bc) == s
            && (turn.FinishNow? && turn.state.stats.forcedTimeout == 0 ==> Quiet(turn.state, r))
  {
    hide Shape, Tracks, Ledger, Accounted, Quiet, FinishWhole, FinishSalvaged, Refilled;
    LeastBoundary(env, s);
    LeastIsFirst(s);
    var bc := Least(BoundariesFrom(s));
    QuietSets(s, r);
    NoHints(env, now, s, bc);
    if AllPresent(s.pending, s.batchStart, bc + 1) {
      FinishQuiet(env, s, r, bc);
    } else {
      SalvageCounts(env, s, bc);
    }
  }

  // ---------- Timeouts show ----------

  /** Finishing by timeout shows in the counter. */
  lemma SalvageCounts(env: Env, s: State, bc: nat)
    ensures FinishSalvaged(env, s, bc, true).stats.forcedTimeout > 0
    ensures s.fecSets == map[] ==> FinishSalvaged(env, s, bc, true).fecSets == map[]
  {
    hide RunsTxs, Runs;
  }

  lemma WholeCounts(env: Env, s: State, bc: nat)
    ensures FinishWhole(env, s, bc).stats.forcedTimeout == s.stats.forcedTimeout
    ensures s.fecSets == map[] ==> FinishWhole(env, s, bc).fecSets == map[]
  {
    hide DecodeBatch, Concat, Fresh;
  }

  lemma TurnDry(env: Env, now: nat, s: State, bc: nat, firstSeen: nat)
    requires s.fecSets == map[]
    ensures var turn := FlushTurn(env, now, s, bc, firstSeen);
            turn.FinishNow? ==>
              && turn.state.fecSets == map[]
              && (s.stats.forcedTimeout > 0 ==> turn.state.stats.forcedTimeout > 0)
    ensures Refilled(env, now, s, bc) == s
  {
    hide FinishWhole, FinishSalvaged, Refilled;
    NoHints(env, now, s, bc);
    SalvageCounts(env, s, bc);
    WholeCounts(env, s, bc);
  }

  /** Without code shreds no set appears, and a timeout once counted stays counted. */
  lemma {:induction false} FlushDry(env: Env, now: nat, s: State)
    requires Bounded(s) && s.fecSets == map[]
    ensures Flush(env, now, s).fecSets == map[]
    ensures s.stats.forcedTimeout > 0 ==> Flush(env, now, s).stats.forcedTimeout > 0
    decreases U32_MAX - s.batchStart
  {
    hide FlushTurn, Refilled, Bounded;
    if BoundariesFrom(s) != {} {
      var bc := Least(BoundariesFrom(s));
      BoundaryBounded(s, bc);
      FlushTurnBounded(env, now, s, bc, s.boundaries[bc]);
      TurnDry(env, now, s, bc, s.boundaries[bc]);
      match FlushTurn(env, now, s, bc, s.boundaries[bc])
      case Stop =>
      case FinishNow(s1) => FlushDry(env, now, s1);
    }
  }

  lemma {:induction false} AdvanceDry(env: Env, s: State)
    requires Bounded(s)
    ensures Advance(env, s).fecSets == s.fecSets && Advance(env, s).stats.forcedTimeout == s.stats.forcedTimeout
    decreases U32_MAX - s.cursor
  {
    hide Bounded, StreamOne;
    if s.cursor in s.pending && s.pending[s.cursor].source.FromPool? {
      BoundedPayload(s, s.cursor);
      var s1 := StreamOne(env, s, s.pending[s.cursor].Payload().value);
      StreamOneDry(env, s, s.pending[s.cursor].Payload().value);
      if s1 != Advance(env, s) {
        AdvanceDry(env, s1);
      }
    }
  }

  lemma StreamOneDry(env: Env, s: State, payload: seq<byte>)
    ensures StreamOne(env, s, payload).fecSets == s.fecSets
    ensures StreamOne(env, s, payload).stats.forcedTimeout == s.stats.forcedTimeout
  {
    hide Pushed;
  }

  lemma StreamedDry(env: Env, now: nat, s: State, d: DataArrival)
    requires Bounded(s) && DataOk(d) && s.fecSets == map[]
    ensures Streamed(env, now, s, d).fecSets == map[]
    ensures Streamed(env, now, s, d).stats.forcedTimeout == s.stats.forcedTimeout
  {
    hide Bounded, Advance, FecFill;
    InsertBounded'(now, s, d);
    var s1 := InsertEntry(now, s, d.index, d.Entry());
    AdvanceDry(env, s1);
    NoSetsToFill(env, now, Advance(env, s1), d.fecSetIndex);
  }

  lemma StepDry(env: Env, s: State, e: Event)
    requires Bounded(s) && EventOk(e) && e.Data? && s.fecSets == map[]
    ensures Step(env, s, e).fecSets == map[]
    ensures s.stats.forcedTimeout > 0 ==> Step(env, s, e).stats.forcedTimeout > 0
  {
    hide Bounded, Flush, Streamed;
    var d := e.data;
    if d.lastInSlot {
      FlagKeepsBounded(s);
      FlushDry(env, e.now, s.(slotComplete := true));
    } else if d.index >= s.batchStart && d.index !in s.pending {
      StreamedDry(env, e.now, s, d);
      FlushDry(env, e.now, Streamed(env, e.now, s, d));
    }
  }

  lemma {:induction false} RunDry(env: Env, events: Events)
    requires EventsOk(events) && forall i :: 0 <= i < |events| ==> events[i].Data?
    ensures After(env, events).fecSets == map[]
    decreases |events|
  {
    hide Step;
    if events != [] {
      var n := |events| - 1;
      RunDry(env, events[..n]);
      StepDry(env, After(env, events[..n]), events[n]);
    }
  }

  lemma QuietSets(s: State, r: Shreds)
    requires Quiet(s, r)
    ensures s.fecSets == map[]
  {
  }

  lemma {:induction false} FlushQuiet(env: Env, now: nat, s: State, r: Shreds)
    requires Inv(env, s) && AtMostLast(s) && Bounded(s)
    requires Quiet(s, r) && Flush(env, now, s).stats.forcedTimeout == 0
    ensures Quiet(Flush(env, now, s), r)
    decreases U32_MAX - s.batchStart
  {
    hide Shape, Tracks, Ledger, Accounted, Quiet, FlushTurn, Refilled, Bounded, NothingReady;
    if BoundariesFrom(s) != {} {
      var bc := Least(BoundariesFrom(s));
      FlushTurnBounded'(env, now, s, bc);
      QuietSets(s, r);
      TurnQuiet(env, now, s, r);
      TurnDry(env, now, s, bc, s.boundaries[bc]);
      match FlushTurn(env, now, s, bc, s.boundaries[bc])
      case Stop =>
      case FinishNow(s1) =>
        TurnFinishes(env, now, s);
        FlushDry(env, now, s1);
        FlushQuiet(env, now, s1, r);
    }
  }

  /** A shred that was received before does not change what is known of the window. */
  lemma InsertQuiet(now: nat, s: State, r: Shreds, d: DataArrival)
    requires Quiet(s, r) && s.batchStart <= d.index && d.index !in s.pending
    ensures d.index !in r
    ensures Quiet(InsertEntry(now, s, d.index, d.Entry()), r[d.index := ShredOf(d.Entry())])
  {
    var r' := r[d.index := ShredOf(d.Entry())];
    hide OneBatch;
    forall k | 0 <= k < |s.log.completions|
      ensures OneBatch(r', s.log.completions[k])
    {
      assert OneBatch(r, s.log.completions[k]);
      WindowOnly(s, r, s.log.completions[k], d.index, ShredOf(d.Entry()));
    }
  }

  lemma WindowOnly(s: State, r: Shreds, c: Completion, i: nat, shred: Shred)
    requires OneBatch(r, c) && i !in r && Present(r, 0, s.batchStart) && s.batchStart <= i
    ensures OneBatch(r[i := shred], c) || c.last >= i
    ensures c.last < s.batchStart ==> OneBatch(r[i := shred], c)
  {
    if c.last < i {
      var r' := r[i := shred];
      assert Ends(r', c.last);
      forall j: nat | c.start <= j < c.last
        ensures !Ends(r', j)
      {
        assert !Ends(r, j);
      }
      PayloadsKeep(r, i, shred, c.start, c.last + 1);
    }
  }

  lemma {:induction false} PayloadsKeep(r: Shreds, i: nat, shred: Shred, lo: nat, hi: nat)
    requires hi <= i
    ensures Payloads(r[i := shred], lo, hi) == Payloads(r, lo, hi)
    decreases hi
  {
    if lo < hi {
      PayloadsKeep(r, i, shred, lo, hi - 1);
    }
  }

  // ---------- One call ----------

  lemma {:induction false} AdvanceQuiet(env: Env, s: State, r: Shreds)
    requires Quiet(s, r) && Bounded(s)
    ensures Quiet(Advance(env, s), r)
  {
    hide Quiet, Bounded;
    AdvanceKeepsShreds(env, s);
    SameQuiet(s, Advance(env, s), r);
  }

  lemma StreamedQuiet(env: Env, now: nat, s: State, r: Shreds, d: DataArrival)
    requires Quiet(s, r) && Bounded(s) && DataOk(d)
    requires s.batchStart <= d.index && d.index !in s.pending
    ensures d.index !in r
    ensures Quiet(Streamed(env, now, s, d), r[d.index := ShredOf(d.Entry())])
  {
    hide Quiet, Bounded, Advance, InsertEntry, FecFill;
    InsertQuiet(now, s, r, d);
    InsertBounded'(now, s, d);
    var r' := r[d.index := ShredOf(d.Entry())];
    var s1 := InsertEntry(now, s, d.index, d.Entry());
    AdvanceQuiet(env, s1, r');
    var s2 := Advance(env, s1);
    QuietSets(s2, r');
    NoSetsToFill(env, now, s2, d.fecSetIndex);
  }

  lemma KnownAlready(s: State, r: Shreds, i: nat)
    requires Quiet(s, r) && (i < s.batchStart || i in s.pending)
    ensures i in r
  {
    hide OneBatch;
  }

  lemma StepQuiet(env: Env, s: State, r: Shreds, e: Event)
    requires Resting(env, s) && Bounded(s) && EventOk(e)
    requires Quiet(s, r) && e.Data? && Step(env, s, e).stats.forcedTimeout == 0
    ensures Quiet(Step(env, s, e), Receive(r, e))
  {
    hide Shape, Tracks, Ledger, Accounted, NothingReady, Quiet, Bounded, Flush, Streamed, ShredOf;
    var d := e.data;
    if d.lastInSlot {
      var s1 := s.(slotComplete := true);
      FlagRests(env, s, true);
      SameQuiet(s, s1, r);
      FlushQuiet(env, e.now, s1, r);
      SameQuiet(Flush(env, e.now, s1), Release(Flush(env, e.now, s1), d.handle.idx), r);
    } else if d.index < s.batchStart || d.index in s.pending {
      KnownAlready(s, r, d.index);
      SameQuiet(s, Release(s, d.handle.idx), r);
    } else {
      StreamedQuiet(env, e.now, s, r, d);
      StreamedInv(env, e.now, s, d);
      FlushQuiet(env, e.now, Streamed(env, e.now, s, d), r[d.index := ShredOf(d.Entry())]);
    }
  }

  // ---------- Whole runs ----------

  /** Data shreds only, and no timeout counted in the end. */
  ghost predicate QuietRun(env: Env, events: Events)
  {
    && EventsOk(events) && After(env, events).stats.forcedTimeout == 0
    && forall i :: 0 <= i < |events| ==> events[i].Data?
  }

  lemma {:induction false} RunQuiet(env: Env, events: Events)
    requires QuietRun(env, events)
    ensures Quiet(After(env, events), Received(events))
    decreases |events|
  {
    hide Step, Quiet, Receive;
    if events == [] {
      NewSlotQuiet();
    } else {
      var n := |events| - 1;
      RunDry(env, events[..n]);
      StepDry(env, After(env, events[..n]), events[n]);
      RunQuiet(env, events[..n]);
      AlwaysRests(env, events[..n]);
      StepQuiet(env, After(env, events[..n]), Received(events[..n]), events[n]);
    }
  }

  lemma NewSlotQuiet()
    ensures Quiet(NEW_SLOT, map[])
  {
  }

  ghost predicate DataOnly(events: Events)
  {
    forall i :: 0 <= i < |events| ==> events[i].Data?
  }

  /** Everything a caller can see of a slot that got data shreds only and counted no timeout is fixed
      by what it received: the window starts at the frontier, it holds exactly the received shreds from
      there on, and every completed range is one batch of them. */
  lemma WindowIsFrontier(env: Env, events: Events, s: State)
    requires Reaches(env, events, s) && DataOnly(events) && s.stats.forcedTimeout == 0
    ensures var r := Received(events);
            && Frontier(r, s.batchStart)
            && (forall i :: i in s.pending <==> i in r && s.batchStart <= i)
            && (forall i :: i in s.pending ==> ShredOf(s.pending[i]) == r[i])
            && (forall k :: 0 <= k < |s.log.completions| ==> OneBatch(r, s.log.completions[k]))
  {
    hide Reaches, After, Received, Resting;
    ReachesAfter(env, events, s);
    RunQuiet(env, events);
    AlwaysRests(env, events);
    RestingFrontier(env, s, Received(events));
  }

  lemma RestingFrontier(env: Env, s: State, r: Shreds)
    requires Resting(env, s) && Quiet(s, r)
    ensures Frontier(r, s.batchStart)
  {
    hide Shape, Tracks, Ledger, Accounted, OneBatch;
    forall b: nat | s.batchStart <= b && Ends(r, b)
      ensures !Present(r, s.batchStart, b + 1)
    {
      assert b in s.pending;
      assert IsBoundary(s.pending, b);
      assert !PoolRange(s.pending, s.batchStart, b + 1);
      var gap :| s.batchStart <= gap < b + 1 && !(gap in s.pending && s.pending[gap].source.FromPool?);
      assert gap !in s.pending;
      assert gap !in r;
    }
  }

  // ---------- What was received does not depend on the order ----------

  ghost predicate Arrives(events: Events, i: nat, shred: Shred)
  {
    exists k :: 0 <= k < |events| && ArrivesAt(events[k], i, shred)
  }

  ghost predicate ArrivesAt(e: Event, i: nat, shred: Shred)
  {
    e.Data? && !e.data.lastInSlot && e.data.index == i && ShredOf(e.data.Entry()) == shred
  }

  /** No index arrives with two different contents. */
  ghost predicate NoConflict(events: Events)
  {
    forall i, a, b :: Arrives(events, i, a) && Arrives(events, i, b) ==> a == b
  }

  lemma {:induction false} ReceivedArrives(events: Events)
    ensures forall i :: i in Received(events) ==> Arrives(events, i, Received(events)[i])
    ensures forall i, a :: Arrives(events, i, a) ==> i in Received(events)
    decreases |events|
  {
    if events != [] {
      var n := |events| - 1;
      ReceivedArrives(events[..n]);
      var r := Received(events[..n]);
      forall i | i in Received(events)
        ensures Arrives(events, i, Received(events)[i])
      {
        if i in r {
          var k :| 0 <= k < n && ArrivesAt(events[..n][k], i, r[i]);
          assert ArrivesAt(events[k], i, r[i]);
        } else {
          assert ArrivesAt(events[n], i, Received(events)[i]);
        }
      }
      forall i, a | Arrives(events, i, a)
        ensures i in Received(events)
      {
        var k :| 0 <= k < |events| && ArrivesAt(events[k], i, a);
        if k < n {
          assert ArrivesAt(events[..n][k], i, a);
          assert Arrives(events[..n], i, a);
        }
      }
    }
  }

  /** The same shreds arrive, in any order and with any repeats. */
  ghost predicate SameArrivals(a: Events, b: Events)
  {
    forall i, x :: Arrives(a, i, x) <==> Arrives(b, i, x)
  }

  lemma ReceivedIsSet(a: Events, b: Events)
    requires NoConflict(a) && SameArrivals(a, b)
    ensures Received(a) == Received(b)
  {
    ReceivedArrives(a);
    ReceivedArrives(b);
    forall i
      ensures i in Received(a) <==> i in Received(b)
      ensures i in Received(a) && i in Received(b) ==> Received(a)[i] == Received(b)[i]
    {
      if i in Received(a) { assert Arrives(b, i, Received(a)[i]); }
      if i in Received(b) { assert Arrives(a, i, Received(b)[i]); }
    }
  }

  // ---------- The completed ranges are determined ----------

  /** A range without what was emitted for it. */
  function Outline(c: Completion): (nat, nat, set<nat>, Option<seq<byte>>)
  {
    (c.start, c.last, c.boundaries, if c.finish.Whole? then Some(c.finish.payload) else None)
  }

  lemma SameBatch(r: Shreds, a: Completion, b: Completion)
    requires OneBatch(r, a) && OneBatch(r, b) && a.start == b.start
    ensures Outline(a) == Outline(b)
  {
    assert !(a.last < b.last);
    assert !(b.last < a.last);
  }

  lemma {:induction false} SameBatches(r: Shreds, a: seq<Completion>, b: seq<Completion>, end: nat)
    requires Tiled(a, end) && Tiled(b, end)
    requires forall k :: 0 <= k < |a| ==> OneBatch(r, a[k])
    requires forall k :: 0 <= k < |b| ==> OneBatch(r, b[k])
    ensures |a| == |b|
    ensures forall k :: 0 <= k < |a| ==> Outline(a[k]) == Outline(b[k])
  {
    hide OneBatch;
    var k := 0;
    while k < |a| && k < |b|
      invariant 0 <= k <= |a| && k <= |b|
      invariant forall j :: 0 <= j < k ==> Outline(a[j]) == Outline(b[j])
    {
      if k > 0 {
        assert Outline(a[k - 1]) == Outline(b[k - 1]);
      }
      SameBatch(r, a[k], b[k]);
      k := k + 1;
    }
    SameLength(a, b, end);
  }

  lemma SameLength(a: seq<Completion>, b: seq<Completion>, end: nat)
    requires Tiled(a, end) && Tiled(b, end)
    requires forall j :: 0 <= j < |a| && j < |b| ==> Outline(a[j]) == Outline(b[j])
    ensures |a| == |b|
  {
    if 0 < |a| <= |b| { assert Outline(a[|a| - 1]) == Outline(b[|a| - 1]); }
    if 0 < |b| <= |a| { assert Outline(a[|b| - 1]) == Outline(b[|b| - 1]); }
    if |a| < |b| { TiledEnds(b, end, |a|); }
    if |b| < |a| { TiledEnds(a, end, |b|); }
  }

  /** A proper prefix of a tiling ends before it. */
  lemma {:induction false} TiledEnds(cs: seq<Completion>, end: nat, k: nat)
    requires Tiled(cs, end) && k < |cs|
    ensures cs[k].start < end
    decreases |cs| - k
  {
    if k + 1 < |cs| {
      TiledEnds(cs, end, k + 1);
      assert cs[k + 1].start == cs[k].last + 1;
    }
    assert cs[k].start <= cs[k].last;
  }

  /** The visible part of a slot's state is that of these received shreds. */
  ghost predicate Mirrors(env: Env, s: State, r: Shreds)
  {
    && Frontier(r, s.batchStart)
    && (forall i :: i in s.pending <==> i in r && s.batchStart <= i)
    && (forall i :: i in s.pending ==> ShredOf(s.pending[i]) == r[i])
    && (forall k :: 0 <= k < |s.log.completions| ==> OneBatch(r, s.log.completions[k]))
    && Ledger(env, s)
  }

  /** Same bounds and bytes, and for a batch that decodes the same transactions. */
  ghost predicate SameResult(env: Env, a: Completion, b: Completion)
  {
    && Outline(a) == Outline(b) && a.finish.Whole?
    && (DecodeBatch(env.codec, a.finish.payload).Some? ==> a.emitted == b.emitted)
  }

  ghost predicate SameView(env: Env, s: State, t: State)
  {
    && s.batchStart == t.batchStart
    && s.pending.Keys == t.pending.Keys
    && (forall i :: i in s.pending ==> ShredOf(s.pending[i]) == ShredOf(t.pending[i]))
    && |s.log.completions| == |t.log.completions|
    && (forall k :: 0 <= k < |s.log.completions| ==> SameResult(env, s.log.completions[k], t.log.completions[k]))
  }

  lemma ResultIsSame(env: Env, r: Shreds, a: Completion, b: Completion)
    requires OneBatch(r, a) && CompletionOk(env, a) && CompletionOk(env, b) && Outline(a) == Outline(b)
    ensures SameResult(env, a, b)
  {
  }

  lemma MirrorsAgree(env: Env, s: State, t: State, r: Shreds)
    requires Mirrors(env, s, r) && Mirrors(env, t, r)
    ensures SameView(env, s, t)
  {
    hide OneBatch, Frontier, ShredOf, SameResult, CompletionOk;
    FrontierUnique(r, s.batchStart, t.batchStart);
    SameBatches(r, s.log.completions, t.log.completions, s.batchStart);
    forall k | 0 <= k < |s.log.completions|
      ensures SameResult(env, s.log.completions[k], t.log.completions[k])
    {
      ResultIsSame(env, r, s.log.completions[k], t.log.completions[k]);
    }
  }

  lemma RunMirrors(env: Env, events: Events, s: State)
    requires Reaches(env, events, s) && DataOnly(events) && s.stats.forcedTimeout == 0
    ensures Mirrors(env, s, Received(events))
  {
    hide Reaches, Received, Shape, Tracks, Ledger, Accounted, NothingReady;
    WindowIsFrontier(env, events, s);
    ReachableRests(env, events, s);
  }

  /** Order independence. Two runs of data shreds that receive the same shreds, in any orders and with
      any repeats, and count no timeout stand at the same batch start, keep the same shreds pending,
      have completed the same ranges from the same bytes, and have delivered the same transactions for
      every one that decodes. */
  lemma OrderIndependence(env: Env, a: Events, b: Events, s: State, t: State)
    requires Reaches(env, a, s) && Reaches(env, b, t)
    requires DataOnly(a) && DataOnly(b) && s.stats.forcedTimeout == 0 && t.stats.forcedTimeout == 0
    requires NoConflict(a) && SameArrivals(a, b)
    ensures SameView(env, s, t)
  {
    hide Reaches, Received, SameView, Mirrors;
    ReceivedIsSet(a, b);
    RunMirrors(env, a, s);
    RunMirrors(env, b, t);
    MirrorsAgree(env, s, t, Received(a));
  }
}
