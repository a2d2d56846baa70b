/** When order matters: exactly which sets of data shreds a slot treats alike in every order. Of two
    different shreds at one index the first to arrive is kept, which shows unless they differ in the FEC
    set index alone and a finished batch covers them. */
module Conflicts {
  import opened Bytes
  import opened Collections
  import opened Variant
  import opened Parser
  import opened Packets
  import opened Slot
  import opened Invariant
  import opened Lifetime
  import opened Reachable
  import opened Recovery
  import opened Delivery
  import opened Order
  import opened Window

  // ---------- The first to arrive is kept ----------

  lemma {:induction false} FirstWins(e: Event, a: Events)
    requires e.Data? && !e.data.lastInSlot
    ensures Received([e] + a) == Received(a)[e.data.index := ShredOf(e.data.Entry())]
    decreases |a|
  {
    hide ShredOf;
    if a == [] {
      assert [e] + a == [e] && [e][..0] == [];
    } else {
      var n := |a| - 1;
      FirstWins(e, a[..n]);
      assert ([e] + a)[..n + 1] == [e] + a[..n];
      assert ([e] + a)[n + 1] == a[n];
    }
  }

  /** This event brings a shred that these bring, too. */
  ghost predicate Repeats(a: Events, e: Event)
  {
    e.Data? && !e.data.lastInSlot && Arrives(a, e.data.index, ShredOf(e.data.Entry()))
  }

  /** Putting some of the arrivals in front adds none. */
  lemma SameInFront(a: Events, front: Events)
    requires forall k :: 0 <= k < |front| ==> Repeats(a, front[k])
    ensures SameArrivals(a, front + a)
  {
    hide ShredOf;
    forall i, x
      ensures Arrives(a, i, x) <==> Arrives(front + a, i, x)
    {
      if Arrives(a, i, x) {
        var k :| 0 <= k < |a| && ArrivesAt(a[k], i, x);
        assert ArrivesAt((front + a)[|front| + k], i, x);
      }
      if Arrives(front + a, i, x) {
        var k :| 0 <= k < |front + a| && ArrivesAt((front + a)[k], i, x);
        if k >= |front| {
          assert ArrivesAt(a[k - |front|], i, x);
        } else {
          assert Repeats(a, front[k]);
        }
      }
    }
  }

  /** What is received depends on the set of arrivals alone if and only if no index arrives with two
      different contents. */
  lemma ReceivedExactly(a: Events)
    ensures NoConflict(a)
            <==> (forall b, c :: SameArrivals(a, b) && SameArrivals(a, c) ==> Received(b) == Received(c))
  {
    hide SameArrivals, Received, Arrives, ShredOf;
    if NoConflict(a) {
      forall b, c | SameArrivals(a, b) && SameArrivals(a, c)
        ensures Received(b) == Received(c)
      {
        ReceivedIsSet(a, b);
        ReceivedIsSet(a, c);
      }
    } else {
      var i, x, y :| Arrives(a, i, x) && Arrives(a, i, y) && x != y;
      var d := ArrivalAt(a, i, x);
      var e := ArrivalAt(a, i, y);
      SameInFront(a, [d]);
      SameInFront(a, [e]);
      FirstWins(d, a);
      FirstWins(e, a);
      assert Received([d] + a)[i] != Received([e] + a)[i];
    }
  }

  lemma ArrivalAt(a: Events, i: nat, x: Shred) returns (e: Event)
    requires Arrives(a, i, x)
    ensures e in a && ArrivesAt(e, i, x)
  {
    var k :| 0 <= k < |a| && ArrivesAt(a[k], i, x);
    e := a[k];
  }

  // ---------- Runs in which no time passes ----------

  ghost predicate AllAt(events: Events, now: nat)
  {
    forall k :: 0 <= k < |events| ==> events[k].Data? && events[k].now == now
  }

  /** Every batch end was first seen now, so none is overdue. */
  ghost predicate AtOnce(s: State, now: nat)
  {
    s.fecSets == map[] && s.stats.forcedTimeout == 0 && forall b :: b in s.boundaries ==> s.boundaries[b] == now
  }

  lemma {:induction false} FlushAtOnce(env: Env, now: nat, s: State)
    requires Bounded(s) && AtOnce(s, now) && env.timeout > 0
    ensures AtOnce(Flush(env, now, s), now)
    decreases U32_MAX - s.batchStart
  {
    hide Refilled, FinishWhole, FinishSalvaged, Bounded;
    if BoundariesFrom(s) != {} {
      var bc := Least(BoundariesFrom(s));
      BoundaryBounded(s, bc);
      FlushTurnBounded(env, now, s, bc, s.boundaries[bc]);
      NoHints(env, now, s, bc);
      WholeCounts(env, s, bc);
      WholeBoundaries(env, s, bc);
      match FlushTurn(env, now, s, bc, s.boundaries[bc])
      case Stop =>
      case FinishNow(s1) => FlushAtOnce(env, now, s1);
    }
  }

  lemma WholeBoundaries(env: Env, s: State, bc: nat)
    ensures forall b :: b in FinishWhole(env, s, bc).boundaries ==>
              b in s.boundaries && FinishWhole(env, s, bc).boundaries[b] == s.boundaries[b]
  {
    hide Concat, Fresh, HandlesOf, BoundariesIn, Emit;
    forall txs
      ensures Emit(s, txs).boundaries == s.boundaries
    {
      EmitKeeps(s, txs);
    }
  }

  lemma StreamedAtOnce(env: Env, now: nat, s: State, d: DataArrival)
    requires Bounded(s) && DataOk(d) && AtOnce(s, now)
    ensures AtOnce(Streamed(env, now, s, d), now)
  {
    hide Bounded, Advance, FecFill;
    StreamedDry(env, now, s, d);
    InsertBounded'(now, s, d);
    var s1 := InsertEntry(now, s, d.index, d.Entry());
    AdvanceKeepsShreds(env, s1);
    AdvanceDry(env, s1);
    NoSetsToFill(env, now, Advance(env, s1), d.fecSetIndex);
  }

  lemma StepAtOnce(env: Env, s: State, e: Event)
    requires Bounded(s) && EventOk(e) && e.Data? && AtOnce(s, e.now) && env.timeout > 0
    ensures AtOnce(Step(env, s, e), e.now)
  {
    hide Bounded, Flush, Streamed;
    var d := e.data;
    if d.lastInSlot {
      FlagKeepsBounded(s);
      FlushAtOnce(env, e.now, s.(slotComplete := true));
    } else if d.index >= s.batchStart && d.index !in s.pending {
      StreamedAtOnce(env, e.now, s, d);
      FlushAtOnce(env, e.now, Streamed(env, e.now, s, d));
    }
  }

  lemma {:induction false} RunAtOnce(env: Env, events: Events, now: nat)
    requires EventsOk(events) && AllAt(events, now) && env.timeout > 0
    ensures AtOnce(After(env, events), now)
    decreases |events|
  {
    hide Step, EventOk, AtOnce;
    if events == [] {
      NewAtOnce(now);
    } else {
      var n := |events| - 1;
      RunAtOnce(env, events[..n], now);
      StepAtOnce(env, After(env, events[..n]), events[n]);
    }
  }

  lemma NewAtOnce(now: nat)
    ensures AtOnce(NEW_SLOT, now)
  {
  }

  /** A run of data shreds that counted no timeout. */
  ghost predicate Ran(env: Env, events: Events, s: State)
  {
    Reaches(env, events, s) && DataOnly(events) && s.stats.forcedTimeout == 0
  }

  lemma AtOnceRan(env: Env, events: Events, now: nat)
    requires EventsOk(events) && AllAt(events, now) && env.timeout > 0
    ensures Ran(env, events, After(env, events)) && Mirrors(env, After(env, events), Received(events))
  {
    hide Reaches, After, Received, Mirrors;
    RunAtOnce(env, events, now);
    AfterReached(env, events);
    RunMirrors(env, events, After(env, events));
  }

  // ---------- Shreds that differ in the set index alone ----------

  /** The bytes and the batch flag of two shreds agree. */
  ghost predicate Similar(x: Shred, y: Shred)
  {
    x.payload == y.payload && x.batchComplete == y.batchComplete
  }

  ghost predicate SimilarShreds(r: Shreds, q: Shreds)
  {
    r.Keys == q.Keys && forall i :: i in r ==> Similar(r[i], q[i])
  }

  lemma SimilarFrontier(r: Shreds, q: Shreds, n: nat)
    requires SimilarShreds(r, q) && Frontier(q, n)
    ensures Frontier(r, n)
  {
    forall b: nat | n <= b && Ends(r, b)
      ensures !Present(r, n, b + 1)
    {
      assert Ends(q, b);
    }
  }

  lemma {:induction false} SimilarPayloads(r: Shreds, q: Shreds, lo: nat, hi: nat)
    requires SimilarShreds(r, q)
    ensures Payloads(r, lo, hi) == Payloads(q, lo, hi)
    decreases hi
  {
    if lo < hi {
      SimilarPayloads(r, q, lo, hi - 1);
    }
  }

  lemma SimilarBatch(r: Shreds, q: Shreds, c: Completion)
    requires SimilarShreds(r, q) && OneBatch(q, c)
    ensures OneBatch(r, c)
  {
    SimilarPayloads(r, q, c.start, c.last + 1);
    forall i: nat | c.start <= i < c.last
      ensures !Ends(r, i)
    {
      assert !Ends(q, i);
    }
  }

  lemma MirrorsSimilar(env: Env, s: State, r: Shreds, q: Shreds)
    requires Mirrors(env, s, q) && SimilarShreds(r, q)
    requires forall i :: i in r && s.batchStart <= i ==> r[i] == q[i]
    ensures Mirrors(env, s, r)
  {
    hide OneBatch, Frontier, ShredOf, CompletionOk, Similar, Tiled;
    SimilarFrontier(r, q, s.batchStart);
    forall k | 0 <= k < |s.log.completions|
      ensures OneBatch(r, s.log.completions[k])
    {
      SimilarBatch(r, q, s.log.completions[k]);
    }
  }

  // ---------- What shows ----------

  lemma {:induction false} PayloadsAround(r: Shreds, lo: nat, i: nat, hi: nat)
    requires lo <= i < hi && i in r
    ensures Payloads(r, lo, hi) == Payloads(r, lo, i) + r[i].payload + Payloads(r, i + 1, hi)
    decreases hi
  {
    if i + 1 < hi {
      PayloadsAround(r, lo, i, hi - 1);
    } else {
      assert Payloads(r, i + 1, hi) == [];
    }
  }

  lemma {:induction false} PayloadsWithout(r: Shreds, i: nat, x: Shred, lo: nat, hi: nat)
    requires i < lo || hi <= i
    ensures Payloads(r[i := x], lo, hi) == Payloads(r, lo, hi)
    decreases hi
  {
    if lo < hi {
      PayloadsWithout(r, i, x, lo, hi - 1);
    }
  }

  lemma MiddleIsSame<T>(a: seq<T>, x: seq<T>, y: seq<T>, b: seq<T>)
    requires a + x + b == a + y + b
    ensures x == y
  {
    assert |x| == |y|;
    forall k | 0 <= k < |x|
      ensures x[k] == y[k]
    {
      assert (a + x + b)[|a| + k] == (a + y + b)[|a| + k];
    }
  }

  /** Two one-batch ranges with the same outline have similar shreds at any index of theirs. */
  lemma BatchShows(r: Shreds, i: nat, x: Shred, y: Shred, b: Completion, c: Completion)
    requires OneBatch(r[i := x], b) && OneBatch(r[i := y], c) && Outline(b) == Outline(c) && b.start <= i <= b.last
    ensures Similar(x, y)
  {
    var p, q := r[i := x], r[i := y];
    PayloadsAround(p, b.start, i, b.last + 1);
    PayloadsAround(q, b.start, i, b.last + 1);
    PayloadsWithout(r, i, x, b.start, i);
    PayloadsWithout(r, i, y, b.start, i);
    PayloadsWithout(r, i, x, i + 1, b.last + 1);
    PayloadsWithout(r, i, y, i + 1, b.last + 1);
    MiddleIsSame(Payloads(r, b.start, i), x.payload, y.payload, Payloads(r, i + 1, b.last + 1));
    assert Ends(p, i) <==> i == b.last;
    assert Ends(q, i) <==> i == b.last;
  }

  /** Two slots that received the same but for one index look alike only if the shreds at it are similar,
      and the same unless the window is past them. */
  lemma DifferenceShows(env: Env, s: State, t: State, r: Shreds, i: nat, x: Shred, y: Shred)
    requires Mirrors(env, s, r[i := x]) && Mirrors(env, t, r[i := y]) && SameView(env, s, t)
    ensures Similar(x, y) && (x == y || i < s.batchStart)
  {
    hide OneBatch, Frontier, ShredOf, CompletionOk, Similar;
    if i < s.batchStart {
      TiledOnce(s.log.completions, s.batchStart, i);
      var k :| 0 <= k < |s.log.completions| && s.log.completions[k].start <= i <= s.log.completions[k].last;
      assert SameResult(env, s.log.completions[k], t.log.completions[k]);
      BatchShows(r, i, x, y, s.log.completions[k], t.log.completions[k]);
    } else {
      assert i in s.pending && i in t.pending;
      SimilarToItself(x);
    }
  }

  lemma SimilarToItself(x: Shred)
    ensures Similar(x, x)
  {
  }

  // ---------- Exactly when order does not matter ----------

  /** A finished batch covers this index. */
  ghost predicate Passed(r: Shreds, i: nat)
  {
    exists b :: i <= b && Ends(r, b) && Present(r, 0, b + 1)
  }

  /** Two shreds that arrive at one index have the same bytes and flag, and are the same unless a finished
      batch covers them. */
  ghost predicate Harmless(a: Events)
  {
    forall i, x, y :: Arrives(a, i, x) && Arrives(a, i, y) ==> Similar(x, y) && (x == y || Passed(Received(a), i))
  }

  /** All runs over these arrivals, in any order and with any repeats, end alike. */
  ghost predicate Alike(env: Env, a: Events)
  {
    forall b, c, s, t :: SameArrivals(a, b) && SameArrivals(a, c) && Ran(env, b, s) && Ran(env, c, t) ==>
      SameView(env, s, t)
  }

  lemma PassedFrontier(r: Shreds, i: nat, n: nat)
    requires Frontier(r, n)
    ensures Passed(r, i) <==> i < n
  {
    if Passed(r, i) {
      var b :| i <= b && Ends(r, b) && Present(r, 0, b + 1);
      FrontierLeast(r, n, b + 1);
    }
    if i < n {
      assert i <= n - 1 && Ends(r, n - 1);
    }
  }

  lemma PassedSimilar(r: Shreds, q: Shreds, i: nat)
    requires SimilarShreds(r, q) && Passed(q, i)
    ensures Passed(r, i)
  {
    var b :| i <= b && Ends(q, b) && Present(q, 0, b + 1);
    assert Ends(r, b) && Present(r, 0, b + 1);
  }

  lemma HarmlessSimilar(a: Events, b: Events)
    requires Harmless(a) && SameArrivals(a, b)
    ensures SimilarShreds(Received(a), Received(b)) && Received(a).Keys == Received(b).Keys
    ensures forall i :: i in Received(a) && !Passed(Received(a), i) ==> Received(a)[i] == Received(b)[i]
  {
    hide Received, Arrives, Passed, Similar;
    var r, q := Received(a), Received(b);
    ReceivedArrives(a);
    ReceivedArrives(b);
    forall i
      ensures i in r <==> i in q
      ensures i in r && i in q ==> Similar(r[i], q[i]) && (r[i] == q[i] || Passed(r, i))
    {
      if i in r { assert Arrives(b, i, r[i]); }
      if i in q { assert Arrives(a, i, q[i]); }
    }
  }

  lemma HarmlessMirrors(env: Env, a: Events, b: Events, s: State)
    requires Harmless(a) && SameArrivals(a, b) && Mirrors(env, s, Received(b))
    ensures Mirrors(env, s, Received(a))
  {
    hide Received, Passed, OneBatch, Harmless, SimilarShreds, Frontier, Ledger;
    var r, q := Received(a), Received(b);
    HarmlessSimilar(a, b);
    SimilarFrontier(r, q, s.batchStart);
    forall i | i in r && s.batchStart <= i
      ensures i in q && r[i] == q[i]
    {
      PassedFrontier(r, i, s.batchStart);
    }
    MirrorsSimilar(env, s, r, q);
  }

  lemma HarmlessIsAlike(env: Env, a: Events)
    requires Harmless(a)
    ensures Alike(env, a)
  {
    hide Harmless, SameArrivals, Mirrors, SameView, Reaches, Received;
    forall b, c, s, t | SameArrivals(a, b) && SameArrivals(a, c) && Ran(env, b, s) && Ran(env, c, t)
      ensures SameView(env, s, t)
    {
      RunMirrors(env, b, s);
      RunMirrors(env, c, t);
      HarmlessMirrors(env, a, b, s);
      HarmlessMirrors(env, a, c, t);
      MirrorsAgree(env, s, t, Received(a));
    }
  }

  /** The same arrivals, all at one time. */
  function AtTime(a: Events, now: nat): (b: Events)
    requires DataOnly(a)
    ensures |b| == |a|
  {
    seq(|a|, (k: nat) requires k < |a| => Event.Data(now, a[k].data))
  }

  lemma {:induction false} TimeIsNothing(a: Events, now: nat)
    requires DataOnly(a)
    ensures Received(AtTime(a, now)) == Received(a)
    decreases |a|
  {
    hide ShredOf;
    if a != [] {
      var n := |a| - 1;
      TimeIsNothing(a[..n], now);
      assert AtTime(a, now)[..n] == AtTime(a[..n], now);
    }
  }

  lemma SameAtTime(a: Events, now: nat)
    requires DataOnly(a)
    ensures SameArrivals(a, AtTime(a, now))
  {
    hide ShredOf;
    var b := AtTime(a, now);
    forall i, x
      ensures Arrives(a, i, x) <==> Arrives(b, i, x)
    {
      if Arrives(a, i, x) {
        var k :| 0 <= k < |a| && ArrivesAt(a[k], i, x);
        assert ArrivesAt(b[k], i, x);
      }
      if Arrives(b, i, x) {
        var k :| 0 <= k < |b| && ArrivesAt(b[k], i, x);
        assert ArrivesAt(a[k], i, x);
      }
    }
  }

  /** A run over the same arrivals in which this one comes first. */
  lemma RunWithFirst(env: Env, a: Events, i: nat, x: Shred) returns (b: Events, s: State)
    requires EventsOk(a) && DataOnly(a) && env.timeout > 0 && Arrives(a, i, x)
    ensures SameArrivals(a, b) && Ran(env, b, s) && Mirrors(env, s, Received(a)[i := x])
  {
    hide Received, Reaches, Mirrors, After, ShredOf, Arrives;
    var d := ArrivalAt(a, i, x);
    var first := Event.Data(0, d.data);
    var rest := AtTime(a, 0);
    b := [first] + rest;
    SameAtTime(a, 0);
    SameInFront(rest, [first]);
    FirstWins(first, rest);
    TimeIsNothing(a, 0);
    assert EventsOk(b) && AllAt(b, 0);
    AtOnceRan(env, b, 0);
    s := After(env, b);
  }

  lemma AlikeIsHarmless(env: Env, a: Events)
    requires EventsOk(a) && DataOnly(a) && env.timeout > 0 && Alike(env, a)
    ensures Harmless(a)
  {
    hide Received, SameArrivals, Mirrors, SameView, Ran, Similar, Passed, ShredOf, Arrives, SimilarShreds;
    forall i, x, y | Arrives(a, i, x) && Arrives(a, i, y)
      ensures Similar(x, y) && (x == y || Passed(Received(a), i))
    {
      var r := Received(a);
      ReceivedArrives(a);
      var s := SeenApart(env, a, i, x, y);
      var _ := SeenApart(env, a, i, r[i], x);
      OneSimilar(r, i, x);
      MirrorsFrontier(env, s, r[i := x]);
      PassedFrontier(r[i := x], i, s.batchStart);
      if x != y {
        PassedSimilar(r, r[i := x], i);
      }
    }
  }

  lemma SeenApart(env: Env, a: Events, i: nat, x: Shred, y: Shred) returns (s: State)
    requires EventsOk(a) && DataOnly(a) && env.timeout > 0 && Alike(env, a) && Arrives(a, i, x) && Arrives(a, i, y)
    ensures Mirrors(env, s, Received(a)[i := x])
    ensures Similar(x, y) && (x == y || i < s.batchStart)
  {
    hide Received, SameArrivals, Mirrors, SameView, Ran, Similar, ShredOf, Arrives;
    var b, c, t;
    b, s := RunWithFirst(env, a, i, x);
    c, t := RunWithFirst(env, a, i, y);
    assert SameView(env, s, t);
    DifferenceShows(env, s, t, Received(a), i, x, y);
  }

  lemma MirrorsFrontier(env: Env, s: State, r: Shreds)
    requires Mirrors(env, s, r)
    ensures Frontier(r, s.batchStart)
  {
  }

  lemma OneSimilar(r: Shreds, i: nat, x: Shred)
    requires i in r && Similar(r[i], x)
    ensures SimilarShreds(r, r[i := x])
  {
  }

  /** Order independence, exactly. All runs over a set of data shreds that count no timeout end alike if and
      only if two shreds at one index never differ in bytes or batch flag, nor in their set index unless a
      finished batch covers them. */
  lemma OrderMattersExactly(env: Env, a: Events)
    requires EventsOk(a) && DataOnly(a) && env.timeout > 0
    ensures Alike(env, a) <==> Harmless(a)
  {
    hide Alike, Harmless;
    if Harmless(a) {
      HarmlessIsAlike(env, a);
    }
    if Alike(env, a) {
      AlikeIsHarmless(env, a);
    }
  }

  // ---------- A conflict ----------

  /** Two different shreds for one index other than the first, alone in their slot: the two orders end
      differently. */
  lemma ConflictShows(env: Env, now: nat, d: DataArrival, e: DataArrival, s: State, t: State)
    requires DataOk(d) && DataOk(e) && !d.lastInSlot && !e.lastInSlot && env.timeout > 0
    requires d.index == e.index > 0 && ShredOf(d.Entry()) != ShredOf(e.Entry())
    requires Reaches(env, [Event.Data(now, d), Event.Data(now, e)], s)
    requires Reaches(env, [Event.Data(now, e), Event.Data(now, d)], t)
    ensures !SameView(env, s, t)
  {
    hide Reaches, After, ShredOf, SameView, Mirrors;
    PairMirrors(env, now, d, e, s);
    PairMirrors(env, now, e, d, t);
    var x, y := ShredOf(d.Entry()), ShredOf(e.Entry());
    if SameView(env, s, t) {
      DifferenceShows(env, s, t, map[], d.index, x, y);
      MirrorsFrontier(env, s, map[d.index := x]);
      LoneFrontier(d.index, x, s.batchStart);
    }
  }

  lemma LoneFrontier(i: nat, x: Shred, n: nat)
    requires Frontier(map[i := x], n) && i > 0
    ensures n == 0
  {
    assert 0 !in map[i := x];
  }

  const ONE_TICK := Flags(false, false, 1)

  /** A data shred of slot 0 and FEC set 0 with index 1. */
  function OneShred(payload: seq<byte>): DataShred
  {
    DataShred(0, 1, 0, 0, 0, payload, false, false, DataMerkle(0, false), DATA_HEADER_SIZE + |payload|)
  }

  /** Two packets that the listener admits as such a pair. */
  lemma ConflictIsAdmitted(i: nat, j: nat, lastSlot: nat, seen: set<nat>, enableFec: bool)
    requires 0 !in seen
    ensures var a := Admit(Handle(i, DataPacket(OneShred([]), ONE_TICK, [])), lastSlot, seen, enableFec);
            var b := Admit(Handle(j, DataPacket(OneShred([0]), ONE_TICK, [])), lastSlot, seen, enableFec);
            && a.ToData? && b.ToData? && a.slot == b.slot == 0 && a.data.index == b.data.index == 1
            && DataOk(a.data) && DataOk(b.data) && !a.data.lastInSlot && !b.data.lastInSlot
            && ShredOf(a.data.Entry()) != ShredOf(b.data.Entry())
  {
    hide ParseKind, DataPacket;
    DataRoundTrip(OneShred([]), ONE_TICK, []);
    DataRoundTrip(OneShred([0]), ONE_TICK, []);
    DataShredBounds(DataPacket(OneShred([]), ONE_TICK, []));
    DataShredBounds(DataPacket(OneShred([0]), ONE_TICK, []));
  }

  lemma PairMirrors(env: Env, now: nat, d: DataArrival, e: DataArrival, s: State)
    requires DataOk(d) && DataOk(e) && !d.lastInSlot && !e.lastInSlot && env.timeout > 0 && d.index == e.index
    requires Reaches(env, [Event.Data(now, d), Event.Data(now, e)], s)
    ensures Mirrors(env, s, map[][d.index := ShredOf(d.Entry())])
  {
    hide Reaches, After, ShredOf, Mirrors;
    var run := [Event.Data(now, d), Event.Data(now, e)];
    ReachesAfter(env, run, s);
    AtOnceRan(env, run, now);
    assert run[..1] == [Event.Data(now, d)] && run[..1][..0] == [];
    assert Received(run[..1]) == map[d.index := ShredOf(d.Entry())];
    assert Received(run) == Receive(Received(run[..1]), run[1]);
  }
}
