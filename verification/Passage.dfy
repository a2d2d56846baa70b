/** What a packet does to a listener, over values (src/listener.rs): the methods of the listener object
    are proved against these predicates, and what the listener promises is proved of them. */
module Passage {
  import opened Bytes
  import opened Collections
  import opened Variant
  import opened Parser
  import opened Packets
  import opened Slot
  import opened Invariant
  import opened Lifetime
  import opened Pool
  import opened Window

  /** What a listener is set up with. */
  datatype Terms = Terms(env: Env, capacity: nat, maxAge: nat, enableFec: bool, disableSalvageDelivery: bool)

  /** Where a listener stands: its live slots, the slots that ever ended and those turned away, the newest
      slot, its counters, the rolled-up totals with the number of ranges they stand for, and the queue. */
  datatype Standing = Standing(
    views: Views, evicted: set<nat>, seen: set<nat>, lingering: set<nat>, lastSlot: nat,
    counters: Counters, totals: Stats, closed: nat, queue: Batches)

  // ---------- Evictions ----------

  /** These slots have ended, in some order, and nothing else has happened. */
  ghost predicate Ended(t: Terms, s: Standing, done: set<nat>, s': Standing, now: nat)
  {
    && s'.views == s.views - done && s'.lastSlot == s.lastSlot
    && s'.evicted == s.evicted + done && s'.seen == s.seen + done && s'.lingering == s.lingering + done
    && Counted(s.counters, s'.counters, t.env, now, s.views, done)
    && Settled(s.totals, s.closed, s'.totals, s'.closed, t.env, now, s.views, done)
    && Queued(s.queue, s'.queue, Owed(t.env, now, s.views, done, t.disableSalvageDelivery))
  }

  lemma NoneEnded(t: Terms, s: Standing, now: nat)
    requires InWidth(s.totals)
    ensures Ended(t, s, {}, s, now)
  {
    QueuedNone(s.queue, t.env, now, s.views, t.disableSalvageDelivery);
    CountedNone(s.counters, t.env, now, s.views);
    SettledNone(s.totals, s.closed, t.env, now, s.views);
  }

  /** One slot has ended. */
  ghost function EndOne(t: Terms, s: Standing, slot: nat, now: nat): Standing
    requires slot in s.views
  {
    var h, tail := Harvest(t.env, now, s.views[slot]), Tail(t.env, now, s.views[slot]);
    s.(views := s.views - {slot},
       evicted := s.evicted + {slot}, seen := s.seen + {slot}, lingering := s.lingering + {slot},
       counters := CountEnd(s.counters, h.slotComplete, tail != []),
       totals := RollUp(s.totals, h.stats), closed := s.closed + Calls(h),
       queue := s.queue + Due(slot, tail, t.disableSalvageDelivery))
  }

  lemma OneMoreEnded(t: Terms, s: Standing, done: set<nat>, mid: Standing, now: nat, slot: nat)
    requires Ended(t, s, done, mid, now) && slot in mid.views && slot !in done
    ensures Ended(t, s, done + {slot}, EndOne(t, mid, slot, now), now)
  {
    hide Harvest, Tail, Due, Queued, Owed, Counted, CountEnd, Settled, RollUp;
    CountedOneMore(s.counters, mid.counters, t.env, now, s.views, done, slot);
    SettledOneMore(s.totals, s.closed, mid.totals, mid.closed, t.env, now, s.views, done, slot);
    QueuedOneMore(s.queue, mid.queue, t.env, now, s.views, done, t.disableSalvageDelivery, slot);
    assert s.views - done - {slot} == s.views - (done + {slot});
    assert s.evicted + done + {slot} == s.evicted + (done + {slot});
    assert s.seen + done + {slot} == s.seen + (done + {slot});
    assert s.lingering + done + {slot} == s.lingering + (done + {slot});
  }

  /** Pruning the slots turned away. */
  ghost function Pruned(t: Terms, s: Standing): Standing
  {
    s.(seen := Unexpired(s.seen, s.lastSlot, t.maxAge), lingering := {})
  }

  /** `evict_old_slots`: exactly the slots past their threshold have ended, then the list was pruned. */
  ghost predicate Swept(t: Terms, s: Standing, s': Standing, now: nat)
  {
    var aging := Aging(s.views, s.lastSlot, t.maxAge);
    var mid := s'.(seen := s.seen + aging, lingering := s.lingering + aging);
    Ended(t, s, aging, mid, now) && s' == Pruned(t, mid)
  }

  /** `force_evict_oldest_slot` when there is one. */
  ghost predicate Forced(t: Terms, s: Standing, s': Standing, now: nat)
  {
    s.views.Keys != {} && Ended(t, s, {Least(s.views.Keys)}, s', now)
  }

  /** How a packet came by a free buffer, or failed to: one was free; or none was, and a sweep freed one;
      or it did not, and the oldest slot was forced out. */
  datatype Way = Free | Sweep | Force

  ghost predicate MadeRoom(t: Terms, way: Way, s: Standing, s': Standing, now: nat)
  {
    match way
    case Free => !Full(s.views, t.capacity) && s' == s
    case Sweep => Full(s.views, t.capacity) && Swept(t, s, s', now) && !Full(s'.views, t.capacity)
    case Force =>
      Full(s.views, t.capacity)
      && exists mid :: Swept(t, s, mid, now) && Full(mid.views, t.capacity) && Forced(t, mid, s', now)
  }

  lemma RoomForced(t: Terms, s: Standing, mid: Standing, s': Standing, now: nat)
    requires Full(s.views, t.capacity) && Full(mid.views, t.capacity)
    requires Swept(t, s, mid, now) && Forced(t, mid, s', now)
    ensures MadeRoom(t, Force, s, s', now)
  {
    hide Full, Swept, Forced;
  }

  lemma RoomSwept(t: Terms, s: Standing, s': Standing, now: nat)
    requires Full(s.views, t.capacity) && Swept(t, s, s', now) && !Full(s'.views, t.capacity)
    ensures MadeRoom(t, Sweep, s, s', now)
  {
    hide Full, Swept;
  }

  lemma RoomFree(t: Terms, s: Standing, now: nat)
    requires !Full(s.views, t.capacity)
    ensures MadeRoom(t, Free, s, s, now)
  {
    hide Full;
  }

  /** The slots that making room ends. */
  ghost function RoomEnds(t: Terms, way: Way, s: Standing): set<nat>
  {
    var aging := Aging(s.views, s.lastSlot, t.maxAge);
    match way
    case Free => {}
    case Sweep => aging
    case Force => if s.views.Keys - aging == {} then aging else aging + {Least(s.views.Keys - aging)}
  }

  // ---------- A packet ----------

  /** The window moved up to a slot, if that is the newest. */
  ghost predicate Raised(t: Terms, s: Standing, slot: nat, s': Standing, now: nat)
  {
    if slot > s.lastSlot then Swept(t, s.(lastSlot := slot), s', now) else s' == s
  }

  /** A packet that has been counted and goes to a slot: the window moves up, the slot is opened if it is
      not live, moves on to `next`, and what it newly delivered is the answer. */
  ghost predicate Delivered(t: Terms, s: Standing, s': Standing, slot: nat, next: State, r: Reply, now: nat)
  {
    && Raised(t, s, slot, s'.(views := MovedUp(s.views, s.lastSlot, slot, t.maxAge)), now)
    && s'.views == MovedUp(s.views, s.lastSlot, slot, t.maxAge)[slot := next]
    && AnsweredFor(r, slot, Current(s.views, slot), next)
  }

  /** What a packet that has its buffer does, by what becomes of it. */
  ghost predicate Handled(t: Terms, s: Standing, s': Standing, a: Admission, len: nat, r: Reply, now: nat)
  {
    var counted := s.(counters := Tally(s.counters, a, len));
    match a
    case ToData(slot, d) => Delivered(t, counted, s', slot, NextOnData(t.env, now, Current(s.views, slot), d), r, now)
    case ToCode(slot, c) => Delivered(t, counted, s', slot, NextOnCode(t.env, now, Current(s.views, slot), c), r, now)
    case _ => r == None && s' == counted
  }

  /** How a packet fared: it was refused, or got a buffer when the listener stood so. */
  datatype Room = Refused(at: Standing) | Given(way: Way, at: Standing, handle: Handle)

  /** `handle_packet`. */
  ghost predicate PacketDone(t: Terms, s: Standing, s': Standing, raw: seq<byte>, room: Room, r: Reply, now: nat)
  {
    match room
    case Refused(at) =>
      && MadeRoom(t, Force, s, at, now) && Full(at.views, t.capacity)
      && s' == at.(counters := CountRefusal(at.counters)) && r == None
    case Given(way, at, h) =>
      && MadeRoom(t, way, s, at, now) && !Full(at.views, t.capacity) && h.bytes == Cut(raw)
      && Handled(t, at, s', Admit(h, at.lastSlot, at.seen, t.enableFec), |h.bytes|, r, now)
  }

  /** `recv_one`: a queued batch goes first, and then nothing else happens. */
  ghost predicate Received(t: Terms, s: Standing, s': Standing, raw: seq<byte>, room: Room, r: Reply, now: nat)
  {
    if s.queue != [] then s' == s.(queue := s.queue[1..]) && r == Some(s.queue[0])
    else PacketDone(t, s, s', raw, room, r, now)
  }

  // ---------- Several calls ----------

  /** A call of `recv_one` at some time, over some packet. */
  ghost predicate Call(t: Terms, s: Standing, s': Standing, packet: (nat, seq<byte>), r: Reply)
  {
    exists room :: Received(t, s, s', packet.1, room, r, packet.0)
  }

  /** The k-th call of `recv_one` took the k-th packet and answered nothing. */
  ghost predicate SilentStep(t: Terms, trail: seq<Standing>, packets: seq<(nat, seq<byte>)>, k: nat)
  {
    && k + 1 < |trail| && k < |packets| && trail[k].queue == []
    && Call(t, trail[k], trail[k + 1], packets[k], None)
  }

  /** The last call, over the next packet, answered. */
  ghost predicate LastStep(t: Terms, trail: seq<Standing>, packets: seq<(nat, seq<byte>)>, r: Reply)
  {
    var k := |trail| - 2;
    0 <= k < |packets| && r.Some? && Call(t, trail[k], trail[k + 1], packets[k], r)
  }

  /** The calls along a trail answered nothing up to the last, which answered `r`; with no answer the
      packets have run out. */
  ghost predicate Answers(t: Terms, trail: seq<Standing>, packets: seq<(nat, seq<byte>)>, r: Reply)
  {
    if r.Some? then LastStep(t, trail, packets, r)
      && forall k :: 0 <= k < |trail| - 2 ==> SilentStep(t, trail, packets, k)
    else |trail| == |packets| + 1 && forall k :: 0 <= k < |packets| ==> SilentStep(t, trail, packets, k)
  }

  lemma StepsKeep(t: Terms, trail: seq<Standing>, trail': seq<Standing>, packets: seq<(nat, seq<byte>)>, n: nat)
    requires |trail| == n + 1 && |trail'| == n + 2 && trail'[..n + 1] == trail
    requires forall k :: 0 <= k < n ==> SilentStep(t, trail, packets, k)
    ensures forall k :: 0 <= k < n ==> SilentStep(t, trail', packets, k)
  {
    hide Call;
    forall k | 0 <= k < n
      ensures SilentStep(t, trail', packets, k)
    {
      assert SilentStep(t, trail, packets, k);
      assert trail'[k] == trail'[..n + 1][k] && trail'[k + 1] == trail'[..n + 1][k + 1];
    }
  }

  lemma StepTaken(t: Terms, trail: seq<Standing>, packets: seq<(nat, seq<byte>)>, n: nat, room: Room, r: Reply)
    requires |trail| == n + 2 && n < |packets|
    requires Received(t, trail[n], trail[n + 1], packets[n].1, room, r, packets[n].0)
    ensures if r.Some? then LastStep(t, trail, packets, r) else SilentStep(t, trail, packets, n)
  {
    hide Received;
    assert Call(t, trail[n], trail[n + 1], packets[n], r);
    if r.None? {
      SilentCalls(t, trail[n], trail[n + 1], packets[n].1, room, packets[n].0);
    }
  }

  /** A call with a batch queued answers. */
  lemma SilentCalls(t: Terms, s: Standing, s': Standing, raw: seq<byte>, room: Room, now: nat)
    requires Received(t, s, s', raw, room, None, now)
    ensures s.queue == []
  {
    hide PacketDone;
  }

  /** The listener counted a packet as refused. */
  predicate Refusal(s: Standing, s': Standing)
  {
    s'.counters.poolExhausted != s.counters.poolExhausted
  }

  /** The refusals along a trail. */
  function RefusalsIn(trail: seq<Standing>): nat
  {
    if |trail| < 2 then 0
    else
      var n := |trail| - 1;
      RefusalsIn(trail[..n]) + (if Refusal(trail[n - 1], trail[n]) then 1 else 0)
  }

  lemma RefusalsOneMore(trail: seq<Standing>, s: Standing)
    requires trail != []
    ensures RefusalsIn(trail + [s]) == RefusalsIn(trail) + (if Refusal(trail[|trail| - 1], s) then 1 else 0)
  {
    assert (trail + [s])[..|trail|] == trail;
  }

  /** A packet is counted as refused exactly if it was. */
  lemma RefusedIsCounted(t: Terms, s: Standing, s': Standing, raw: seq<byte>, room: Room, r: Reply, now: nat)
    requires Received(t, s, s', raw, room, r, now)
    ensures Refusal(s, s') <==> s.queue == [] && room.Refused?
  {
    hide MadeRoom, Handled, Admit, Full, Cut;
    if s.queue == [] {
      match room
      case Refused(at) => RoomIsSilent(t, Force, s, at, now);
      case Given(way, at, h) =>
        RoomIsSilent(t, way, s, at, now);
        HandlingIsSilent(t, at, s', Admit(h, at.lastSlot, at.seen, t.enableFec), |h.bytes|, r, now);
    }
  }

  lemma SweepIsSilent(t: Terms, s: Standing, s': Standing, now: nat)
    requires Swept(t, s, s', now)
    ensures !Refusal(s, s')
  {
    hide Aging, Settled, Queued, Owed;
  }

  lemma RoomIsSilent(t: Terms, way: Way, s: Standing, s': Standing, now: nat)
    requires MadeRoom(t, way, s, s', now)
    ensures !Refusal(s, s')
  {
    hide Swept, Forced, Full;
    match way
    case Free =>
    case Sweep => SweepIsSilent(t, s, s', now);
    case Force =>
      var mid :| Swept(t, s, mid, now) && Forced(t, mid, s', now);
      SweepIsSilent(t, s, mid, now);
      ForcingIsSilent(t, mid, s', now);
  }

  lemma ForcingIsSilent(t: Terms, s: Standing, s': Standing, now: nat)
    requires Forced(t, s, s', now)
    ensures !Refusal(s, s')
  {
    hide Settled, Queued, Owed;
  }

  lemma HandlingIsSilent(t: Terms, s: Standing, s': Standing, a: Admission, len: nat, r: Reply, now: nat)
    requires Handled(t, s, s', a, len, r, now)
    ensures !Refusal(s, s')
  {
    hide Swept, NextOnData, NextOnCode, MovedUp, AnsweredFor, WrapAdd64, Current;
    if (a.ToData? || a.ToCode?) && a.slot > s.lastSlot {
      var counted := s.(counters := Tally(s.counters, a, len));
      SweepIsSilent(t, counted.(lastSlot := a.slot), s'.(views := MovedUp(s.views, s.lastSlot, a.slot, t.maxAge)), now);
    }
  }

  // ---------- Sizes ----------

  lemma SweptViews(t: Terms, s: Standing, s': Standing, now: nat)
    requires Swept(t, s, s', now)
    ensures s'.views == s.views - Aging(s.views, s.lastSlot, t.maxAge) && |s'.views.Keys| <= |s.views.Keys|
    ensures s'.lastSlot == s.lastSlot && s.evicted <= s'.evicted
  {
    hide Aging, Counted, Settled, Queued, Owed;
    SubsetSize(s'.views.Keys, s.views.Keys);
  }

  /** A slot that was not live and not turned away is not turned away after a sweep. */
  lemma SweptSeen(t: Terms, s: Standing, s': Standing, now: nat, slot: nat)
    requires Swept(t, s, s', now) && slot !in s.views && slot !in s.seen
    ensures slot !in s'.seen
  {
    hide Ended;
  }

  lemma EndedSeen(t: Terms, s: Standing, done: set<nat>, s': Standing, now: nat)
    requires Ended(t, s, done, s', now)
    ensures s'.seen == s.seen + done && s'.lingering == s.lingering + done && s'.lastSlot == s.lastSlot
    ensures s'.views == s.views - done
  {
  }

  /** A sweep does not depend on what lingered before it. */
  lemma SweptAnyLingering(t: Terms, s: Standing, raised: Standing, s': Standing, now: nat)
    requires Swept(t, raised, s', now) && raised == s.(lingering := raised.lingering)
    ensures Swept(t, s, s', now)
  {
    hide Counted, Settled, Queued, Owed, Aging;
  }

  lemma ForcedViews(t: Terms, s: Standing, s': Standing, now: nat)
    requires Forced(t, s, s', now)
    ensures s'.views == s.views - {Least(s.views.Keys)} && |s'.views.Keys| < |s.views.Keys|
    ensures s'.lastSlot == s.lastSlot && s.evicted <= s'.evicted
  {
    hide Counted, Settled, Queued, Owed;
    assert s'.views.Keys == s.views.Keys - {Least(s.views.Keys)};
  }

  /** Making room ends exactly these slots; forcing costs at least one. */
  lemma RoomViews(t: Terms, way: Way, s: Standing, s': Standing, now: nat)
    requires MadeRoom(t, way, s, s', now)
    ensures s'.views == s.views - RoomEnds(t, way, s)
    ensures |s'.views.Keys| <= |s.views.Keys| && (way == Force ==> |s'.views.Keys| < |s.views.Keys|)
    ensures s'.lastSlot == s.lastSlot && s.evicted <= s'.evicted
  {
    hide Swept, Forced, Aging, Full;
    match way
    case Free =>
    case Sweep => SweptViews(t, s, s', now);
    case Force =>
      var mid :| Swept(t, s, mid, now) && Forced(t, mid, s', now);
      SweptViews(t, s, mid, now);
      ForcedViews(t, mid, s', now);
      ForcedKeys(t, mid, s', now);
      assert mid.views.Keys == s.views.Keys - Aging(s.views, s.lastSlot, t.maxAge);
  }

  lemma ForcedKeys(t: Terms, s: Standing, s': Standing, now: nat)
    requires Forced(t, s, s', now)
    ensures s.views.Keys != {}
  {
  }

  /** A packet opens at most one slot, never moves the window back, and once it has moved the window
      every live slot is within the age bound of the newest. */
  lemma HandledBounds(t: Terms, s: Standing, s': Standing, a: Admission, len: nat, r: Reply, now: nat)
    requires Handled(t, s, s', a, len, r, now)
    requires forall slot :: slot in s.views ==> slot <= s.lastSlot
    requires (a.ToData? || a.ToCode?) ==> a.slot <= MAX_PLAUSIBLE_SLOT
    ensures |s'.views.Keys| <= |s.views.Keys| + 1 && s.lastSlot <= s'.lastSlot && s.evicted <= s'.evicted
    ensures s'.lastSlot > s.lastSlot ==> Aged(s'.views.Keys, s'.lastSlot, t.maxAge)
    ensures s'.lastSlot == if a.ToData? || a.ToCode? then Max(s.lastSlot, a.slot) else s.lastSlot
  {
    hide NextOnData, NextOnCode, Swept, Aging, AnsweredFor, Tally, Aged;
    if a.ToData? || a.ToCode? {
      var counted := s.(counters := Tally(s.counters, a, len));
      var moved := MovedUp(s.views, s.lastSlot, a.slot, t.maxAge);
      MovedIsAged(s.views, s.lastSlot, a.slot, t.maxAge);
      SubsetSize(s'.views.Keys, s.views.Keys + {a.slot});
      assert s'.views.Keys == moved.Keys + {a.slot};
      if a.slot > s.lastSlot {
        SweptViews(t, counted.(lastSlot := a.slot), s'.(views := moved), now);
      }
    }
  }

  // ---------- Accounting ----------

  /** The ranges ever finished: by slots that have ended and by live ones. */
  ghost function Ever(s: Standing): nat
  {
    s.closed + MapSum(LiveCalls(s.views))
  }

  ghost predicate AllRest(env: Env, views: Views)
  {
    forall s :: s in views ==> Resting(env, views[s])
  }

  /** The ranges a call or a harvest finished. */
  function NewRanges(s: State, s': State): nat
  {
    SatSub(Calls(s'), Calls(s))
  }

  /** The ranges the harvests of these slots finish. */
  ghost function HarvestRanges(env: Env, now: nat, views: Views, ended: set<nat>): nat
  {
    MapSum(Gains(env, now, views, ended))
  }

  ghost function Gains(env: Env, now: nat, views: Views, ended: set<nat>): map<nat, nat>
  {
    map s | s in ended && s in views :: NewRanges(views[s], Harvest(env, now, views[s]))
  }

  /** The ranges a packet's own call finishes. */
  ghost function OwnRanges(env: Env, now: nat, views: Views, a: Admission): nat
  {
    match a
    case ToData(slot, d) => NewRanges(Current(views, slot), NextOnData(env, now, Current(views, slot), d))
    case ToCode(slot, c) => NewRanges(Current(views, slot), NextOnCode(env, now, Current(views, slot), c))
    case _ => 0
  }

  lemma HarvestGrows(env: Env, now: nat, s: State)
    requires Resting(env, s)
    ensures Calls(Harvest(env, now, s)) == Calls(s) + NewRanges(s, Harvest(env, now, s))
  {
    hide Harvest, Resting;
    HarvestCloses(env, now, s);
  }

  /** Over the slots that end: ranges at the end are ranges before and ranges harvested. */
  lemma {:induction false} HarvestsAddUp(env: Env, now: nat, views: Views, ended: set<nat>)
    requires AllRest(env, views)
    ensures MapSum(LiveCalls(Harvested(env, now, views, ended)))
          + MapSum(LiveCalls(views - ended)) == MapSum(LiveCalls(views)) + HarvestRanges(env, now, views, ended)
    decreases |ended|
  {
    hide Harvest, Resting;
    if ended == {} {
      assert Harvested(env, now, views, {}) == map[] && LiveCalls(map[]) == map[] && views - {} == views;
      NoHarvests(env, now, views);
    } else {
      var s := Least(ended);
      HarvestsAddUp(env, now, views, ended - {s});
      if s in views {
        HarvestsAddOne(env, now, views, ended, s);
      } else {
        assert Harvested(env, now, views, ended) == Harvested(env, now, views, ended - {s});
        assert views - ended == views - (ended - {s});
        assert Gains(env, now, views, ended) == Gains(env, now, views, ended - {s});
      }
    }
  }

  lemma HarvestsAddOne(env: Env, now: nat, views: Views, ended: set<nat>, s: nat)
    requires s in ended && s in views && Resting(env, views[s])
    ensures MapSum(LiveCalls(Harvested(env, now, views, ended)))
         == MapSum(LiveCalls(Harvested(env, now, views, ended - {s}))) + Calls(Harvest(env, now, views[s]))
    ensures MapSum(LiveCalls(views - (ended - {s}))) == MapSum(LiveCalls(views - ended)) + Calls(views[s])
    ensures HarvestRanges(env, now, views, ended)
         == HarvestRanges(env, now, views, ended - {s}) + NewRanges(views[s], Harvest(env, now, views[s]))
    ensures Calls(Harvest(env, now, views[s])) == Calls(views[s]) + NewRanges(views[s], Harvest(env, now, views[s]))
  {
    hide Harvest, Resting, NewRanges, LiveCalls;
    HarvestGrows(env, now, views[s]);
    assert Harvested(env, now, views, ended) - {s} == Harvested(env, now, views, ended - {s});
    LiveCallsWithout(Harvested(env, now, views, ended), s);
    assert views - (ended - {s}) - {s} == views - ended;
    LiveCallsWithout(views - (ended - {s}), s);
    assert Gains(env, now, views, ended) - {s} == Gains(env, now, views, ended - {s});
    MapSumRemove(Gains(env, now, views, ended), s);
  }

  lemma EndedCounts(t: Terms, s: Standing, done: set<nat>, s': Standing, now: nat)
    requires Ended(t, s, done, s', now) && AllRest(t.env, s.views)
    ensures Ever(s') == Ever(s) + HarvestRanges(t.env, now, s.views, done)
    ensures AllRest(t.env, s'.views)
  {
    hide Harvest, Resting, Counted, Queued, Owed, RollUp, HarvestRanges;
    HarvestsAddUp(t.env, now, s.views, done);
  }

  lemma SweptCounts(t: Terms, s: Standing, s': Standing, now: nat)
    requires Swept(t, s, s', now) && AllRest(t.env, s.views)
    ensures Ever(s') == Ever(s) + HarvestRanges(t.env, now, s.views, Aging(s.views, s.lastSlot, t.maxAge))
    ensures AllRest(t.env, s'.views)
  {
    hide Ended, Aging, AllRest, HarvestRanges;
    var aging := Aging(s.views, s.lastSlot, t.maxAge);
    var mid := s'.(seen := s.seen + aging, lingering := s.lingering + aging);
    EndedCounts(t, s, aging, mid, now);
  }

  /** Making room finishes exactly the ranges that the harvests of the slots it ends finish. */
  lemma RoomCounts(t: Terms, way: Way, s: Standing, s': Standing, now: nat)
    requires MadeRoom(t, way, s, s', now) && AllRest(t.env, s.views)
    ensures Ever(s') == Ever(s) + HarvestRanges(t.env, now, s.views, RoomEnds(t, way, s))
    ensures AllRest(t.env, s'.views)
  {
    hide Swept, Forced, Aging, AllRest, HarvestRanges, Ever, Full;
    match way
    case Free => NoHarvests(t.env, now, s.views);
    case Sweep => SweptCounts(t, s, s', now);
    case Force =>
      var mid :| Swept(t, s, mid, now) && Forced(t, mid, s', now);
      SweptCounts(t, s, mid, now);
      SweptViews(t, s, mid, now);
      ForcedKeys(t, mid, s', now);
      ForcedCounts(t, mid, s', now);
      var aging := Aging(s.views, s.lastSlot, t.maxAge);
      assert mid.views.Keys == s.views.Keys - aging;
      HarvestsSplit(t.env, now, s.views, aging, {Least(mid.views.Keys)});
  }

  lemma NoHarvests(env: Env, now: nat, views: Views)
    ensures HarvestRanges(env, now, views, {}) == 0
  {
    assert Gains(env, now, views, {}).Keys == {};
  }

  lemma ForcedCounts(t: Terms, s: Standing, s': Standing, now: nat)
    requires Forced(t, s, s', now) && AllRest(t.env, s.views)
    ensures Ever(s') == Ever(s) + HarvestRanges(t.env, now, s.views, {Least(s.views.Keys)})
    ensures AllRest(t.env, s'.views)
  {
    hide Ended, AllRest, HarvestRanges;
    EndedCounts(t, s, {Least(s.views.Keys)}, s', now);
  }

  /** Slots that end later are harvested from the same state. */
  lemma HarvestsSplit(env: Env, now: nat, views: Views, first: set<nat>, one: set<nat>)
    requires AllRest(env, views) && AllRest(env, views - first)
    requires first !! one
    ensures HarvestRanges(env, now, views, first + one)
         == HarvestRanges(env, now, views, first) + HarvestRanges(env, now, views - first, one)
  {
    hide Harvest, Resting, LiveCalls, HarvestRanges;
    HarvestsAddUp(env, now, views, first + one);
    HarvestsAddUp(env, now, views, first);
    HarvestsAddUp(env, now, views - first, one);
    assert views - first - one == views - (first + one);
    HarvestedSplit(env, now, views, first, one);
  }

  lemma {:induction false} HarvestedSplit(env: Env, now: nat, views: Views, first: set<nat>, one: set<nat>)
    requires first !! one
    ensures MapSum(LiveCalls(Harvested(env, now, views, first + one)))
         == MapSum(LiveCalls(Harvested(env, now, views, first)))
           + MapSum(LiveCalls(Harvested(env, now, views - first, one)))
    decreases |one|
  {
    hide Harvest, LiveCalls;
    if one == {} {
      assert first + one == first && Harvested(env, now, views - first, one) == map[];
      NoCalls();
    } else {
      var s := Least(one);
      HarvestedSplit(env, now, views, first, one - {s});
      var all: Views, last: Views := Harvested(env, now, views, first + one), Harvested(env, now, views - first, one);
      assert all - {s} == Harvested(env, now, views, first + (one - {s}));
      assert last - {s} == Harvested(env, now, views - first, one - {s});
      if s in views {
        LiveCallsWithout(all, s);
        LiveCallsWithout(last, s);
      } else {
        assert all - {s} == all && last - {s} == last;
      }
    }
  }

  lemma NoCalls()
    ensures MapSum(LiveCalls(map[])) == 0
  {
    assert LiveCalls(map[]) == map[];
  }

  /** The slots a packet that has its buffer ends. */
  ghost function PacketEnds(t: Terms, s: Standing, a: Admission): set<nat>
  {
    match a
    case ToData(slot, _) => if slot > s.lastSlot then Aging(s.views, slot, t.maxAge) else {}
    case ToCode(slot, _) => if slot > s.lastSlot then Aging(s.views, slot, t.maxAge) else {}
    case _ => {}
  }

  lemma DataGrows(env: Env, now: nat, s: State, d: DataArrival)
    requires Resting(env, s)
    ensures Calls(NextOnData(env, now, s, d)) == Calls(s) + NewRanges(s, NextOnData(env, now, s, d))
    ensures Resting(env, NextOnData(env, now, s, d))
  {
    hide Resting, Bounded, DataOk, PushData;
    if Bounded(s) && DataOk(d) {
      PushDataRests(env, now, s, d);
    }
  }

  lemma CodeGrows(env: Env, now: nat, s: State, c: CodeArrival)
    requires Resting(env, s)
    ensures Calls(NextOnCode(env, now, s, c)) == Calls(s) + NewRanges(s, NextOnCode(env, now, s, c))
    ensures Resting(env, NextOnCode(env, now, s, c))
  {
    hide Resting, Bounded, CodeOk, PushCode;
    if Bounded(s) && CodeOk(c) {
      PushCodeRests(env, now, s, c);
    }
  }

  lemma CurrentRests(env: Env, views: Views, slot: nat)
    requires AllRest(env, views)
    ensures Resting(env, Current(views, slot))
    ensures slot !in views ==> Calls(Current(views, slot)) == 0
  {
    hide Resting;
    NewSlotRests(env);
  }

  lemma CallsWith(views: Views, slot: nat, next: State)
    ensures MapSum(LiveCalls(views[slot := next])) + Calls(Current(views, slot))
      == MapSum(LiveCalls(views)) + Calls(next)
  {
    var views' := views[slot := next];
    LiveCallsWithout(views', slot);
    assert views' - {slot} == views - {slot};
    if slot in views {
      LiveCallsWithout(views, slot);
    } else {
      assert views - {slot} == views;
    }
  }

  lemma DeliveredCounts(t: Terms, s: Standing, s': Standing, slot: nat, next: State, r: Reply, now: nat)
    requires Delivered(t, s, s', slot, next, r, now) && AllRest(t.env, s.views) && Resting(t.env, next)
    requires slot <= MAX_PLAUSIBLE_SLOT && forall x :: x in s.views ==> x <= s.lastSlot
    requires Calls(next) == Calls(Current(s.views, slot)) + NewRanges(Current(s.views, slot), next)
    ensures Ever(s') == Ever(s) + NewRanges(Current(s.views, slot), next)
              + HarvestRanges(t.env, now, s.views, if slot > s.lastSlot then Aging(s.views, slot, t.maxAge) else {})
    ensures AllRest(t.env, s'.views)
  {
    hide Swept, Aging, AnsweredFor, HarvestRanges, Resting, Calls, LiveCalls, MovedUp, NewRanges;
    var moved := MovedUp(s.views, s.lastSlot, slot, t.maxAge);
    var mid := s'.(views := moved);
    MovedIsAged(s.views, s.lastSlot, slot, t.maxAge);
    CallsWith(moved, slot, next);
    if slot > s.lastSlot {
      SweptCounts(t, s.(lastSlot := slot), mid, now);
    } else {
      NoHarvests(t.env, now, s.views);
    }
  }

  /** A packet that has its buffer finishes exactly the ranges of the harvests it causes and of its own
      call, and the count of ranges ever finished grows by just these. */
  lemma HandledCounts(t: Terms, s: Standing, s': Standing, a: Admission, len: nat, r: Reply, now: nat)
    requires Handled(t, s, s', a, len, r, now) && AllRest(t.env, s.views)
    requires forall slot :: slot in s.views ==> slot <= s.lastSlot
    requires (a.ToData? || a.ToCode?) ==> a.slot <= MAX_PLAUSIBLE_SLOT
    ensures Ever(s') == Ever(s) + HarvestRanges(t.env, now, s.views, PacketEnds(t, s, a))
      + OwnRanges(t.env, now, s.views, a)
    ensures AllRest(t.env, s'.views)
  {
    hide Delivered, Aging, HarvestRanges, Resting, NextOnData, NextOnCode, Calls, LiveCalls, Tally, NewRanges;
    var counted := s.(counters := Tally(s.counters, a, len));
    match a
    case ToData(slot, d) =>
      CurrentRests(t.env, s.views, slot);
      DataGrows(t.env, now, Current(s.views, slot), d);
      DeliveredCounts(t, counted, s', slot, NextOnData(t.env, now, Current(s.views, slot), d), r, now);
    case ToCode(slot, c) =>
      CurrentRests(t.env, s.views, slot);
      CodeGrows(t.env, now, Current(s.views, slot), c);
      DeliveredCounts(t, counted, s', slot, NextOnCode(t.env, now, Current(s.views, slot), c), r, now);
    case _ => NoHarvests(t.env, now, s.views);
  }

  /** The ranges that all of a packet's doings finish. */
  ghost function PacketRanges(t: Terms, s: Standing, room: Room, now: nat): nat
  {
    match room
    case Refused(_) => HarvestRanges(t.env, now, s.views, RoomEnds(t, Force, s))
    case Given(way, at, h) =>
      var a := Admit(h, at.lastSlot, at.seen, t.enableFec);
      HarvestRanges(t.env, now, s.views, RoomEnds(t, way, s))
      + HarvestRanges(t.env, now, at.views, PacketEnds(t, at, a)) + OwnRanges(t.env, now, at.views, a)
  }

  /** Over every packet, refused or not: the ranges ever finished grow by exactly those that the harvests
      of the slots it ends and its own call finish. */
  lemma PacketCounts(t: Terms, s: Standing, s': Standing, raw: seq<byte>, room: Room, r: Reply, now: nat)
    requires PacketDone(t, s, s', raw, room, r, now) && InRange(Cut(raw)) && AllRest(t.env, s.views)
    requires forall slot :: slot in s.views ==> slot <= s.lastSlot
    ensures Ever(s') == Ever(s) + PacketRanges(t, s, room, now)
    ensures AllRest(t.env, s'.views)
  {
    hide MadeRoom, Full, Handled, AllRest, HarvestRanges, Admit, Ever, RoomEnds, PacketEnds, OwnRanges, InRange,
      Cut;
    match room
    case Refused(at) =>
      RoomCounts(t, Force, s, at, now);
      SameEver(at, s');
    case Given(way, at, h) =>
      RoomCounts(t, way, s, at, now);
      RoomViews(t, way, s, at, now);
      AdmittedIsOk(h, at.lastSlot, at.seen, t.enableFec);
      HandledCounts(t, at, s', Admit(h, at.lastSlot, at.seen, t.enableFec), |h.bytes|, r, now);
  }

  lemma SameEver(s: Standing, s': Standing)
    requires s'.closed == s.closed && s'.views == s.views
    ensures Ever(s') == Ever(s)
  {
  }

  /** The k-th call of a listener's life: when, over which packet, how that fared, the answer, and where the
      listener stood afterwards. */
  datatype Turn = Turn(now: nat, raw: seq<byte>, room: Room, reply: Reply, next: Standing)

  /** A life: every call of `recv_one` went as it should. */
  ghost predicate Went(t: Terms, s: Standing, life: seq<Turn>)
    decreases |life|
  {
    life == [] || (
      && InRange(Cut(life[0].raw))
      && Received(t, s, life[0].next, life[0].raw, life[0].room, life[0].reply, life[0].now)
      && Went(t, life[0].next, life[1..]))
  }

  function Finally(s: Standing, life: seq<Turn>): Standing
  {
    if life == [] then s else life[|life| - 1].next
  }

  /** The ranges that the calls of a life finish, packet by packet. */
  ghost function LifeRanges(t: Terms, s: Standing, life: seq<Turn>): nat
    decreases |life|
  {
    if life == [] then 0
    else
      (if s.queue == [] then PacketRanges(t, s, life[0].room, life[0].now) else 0)
      + LifeRanges(t, life[0].next, life[1..])
  }

  ghost predicate Below(s: Standing)
  {
    forall slot :: slot in s.views ==> slot <= s.lastSlot
  }

  lemma DeliveredBelow(t: Terms, s: Standing, s': Standing, slot: nat, next: State, r: Reply, now: nat)
    requires Delivered(t, s, s', slot, next, r, now) && Below(s) && slot <= MAX_PLAUSIBLE_SLOT
    ensures Below(s')
  {
    hide Swept, Aging, AnsweredFor;
    MovedIsAged(s.views, s.lastSlot, slot, t.maxAge);
    if slot > s.lastSlot {
      SweptViews(t, s.(lastSlot := slot), s'.(views := MovedUp(s.views, s.lastSlot, slot, t.maxAge)), now);
    }
  }

  lemma HandledBelow(t: Terms, s: Standing, s': Standing, a: Admission, len: nat, r: Reply, now: nat)
    requires Handled(t, s, s', a, len, r, now) && Below(s)
    requires (a.ToData? || a.ToCode?) ==> a.slot <= MAX_PLAUSIBLE_SLOT
    ensures Below(s')
  {
    hide Delivered, NextOnData, NextOnCode, Tally, Current;
    var counted := s.(counters := Tally(s.counters, a, len));
    match a
    case ToData(slot, d) =>
      DeliveredBelow(t, counted, s', slot, NextOnData(t.env, now, Current(s.views, slot), d), r, now);
    case ToCode(slot, c) =>
      DeliveredBelow(t, counted, s', slot, NextOnCode(t.env, now, Current(s.views, slot), c), r, now);
    case _ =>
  }

  lemma PacketBelow(t: Terms, s: Standing, s': Standing, raw: seq<byte>, room: Room, r: Reply, now: nat)
    requires PacketDone(t, s, s', raw, room, r, now) && InRange(Cut(raw)) && Below(s)
    ensures Below(s')
  {
    hide MadeRoom, Full, Handled, Admit, RoomEnds, InRange, Cut;
    match room
    case Refused(at) => RoomViews(t, Force, s, at, now);
    case Given(way, at, h) =>
      RoomViews(t, way, s, at, now);
      AdmittedIsOk(h, at.lastSlot, at.seen, t.enableFec);
      HandledBelow(t, at, s', Admit(h, at.lastSlot, at.seen, t.enableFec), |h.bytes|, r, now);
  }

  /** Over a whole life: the ranges that live slots and slots long gone account for are those that the
      packets' own calls and the harvests finished, each counted once. */
  lemma {:induction false} LifeCounts(t: Terms, s: Standing, life: seq<Turn>)
    requires Went(t, s, life) && AllRest(t.env, s.views) && Below(s)
    ensures Ever(Finally(s, life)) == Ever(s) + LifeRanges(t, s, life)
    ensures AllRest(t.env, Finally(s, life).views)
    decreases |life|
  {
    hide PacketDone, AllRest, Ever, PacketRanges, InRange;
    if life != [] {
      var l := life[0];
      if s.queue != [] {
        SameEver(s, l.next);
      } else {
        PacketCounts(t, s, l.next, l.raw, l.room, l.reply, l.now);
        PacketBelow(t, s, l.next, l.raw, l.room, l.reply, l.now);
      }
      LifeCounts(t, l.next, life[1..]);
    }
  }

  lemma NewListenerCounts(t: Terms, life: seq<Turn>)
    requires Went(t, NEW_LISTENER, life)
    ensures Ever(Finally(NEW_LISTENER, life)) == LifeRanges(t, NEW_LISTENER, life)
  {
    hide Went, LifeRanges, Resting, LiveCalls;
    LifeCounts(t, NEW_LISTENER, life);
    NoCalls();
  }

  // ---------- Turning slots away ----------

  ghost predicate WindowSound(t: Terms, s: Standing)
  {
    WindowOk(s.views.Keys, s.seen, s.evicted, s.lingering, s.lastSlot, t.maxAge)
  }

  /** The slot a packet names, if it parses. */
  function SlotOf(bytes: seq<byte>): Option<nat>
  {
    match ParseKind(bytes)
    case Err(_) => None
    case Ok(Data(d)) => Some(d.slot)
    case Ok(Code(c)) => Some(c.slot)
  }

  /** A packet for a slot that ended is turned away as known if and only if the window has not moved on
      past the retention and the margin, or the slot was put on the list since that was last pruned. */
  lemma TurnedAwayExactly(t: Terms, s: Standing, h: Handle, slot: nat)
    requires WindowSound(t, s) && slot in s.evicted && SlotOf(h.bytes) == Some(slot)
    ensures Admit(h, s.lastSlot, s.seen, t.enableFec) == Known
            <==> s.lastSlot <= slot + t.maxAge + BLACKLIST_EXTRA_SLOTS || slot in s.lingering
  {
    hide ParseKind, ArrivalOf, CodeOf;
  }

  /** A packet that moves the window leaves nothing lingering. */
  lemma RaisedLeavesNone(t: Terms, s: Standing, s': Standing, a: Admission, len: nat, r: Reply, now: nat)
    requires Handled(t, s, s', a, len, r, now)
    ensures s'.lastSlot > s.lastSlot ==> s'.lingering == {}
    ensures s'.lastSlot <= s.lastSlot ==> s'.lingering == s.lingering && s'.seen == s.seen && s'.evicted == s.evicted
  {
    hide NextOnData, NextOnCode, Aging, AnsweredFor, Tally, Counted, Settled, Queued, Owed;
  }

  const NO_COUNTERS := Counters(0, 0, 0, 0, 0, 0, 0, 0, 0, 0, 0, 0)

  const NEW_LISTENER := Standing(map[], {}, {}, {}, 0, NO_COUNTERS, NO_STATS, 0, [])

  /** An empty data shred of this slot, as a packet. */
  function SlotPacket(slot: nat): seq<byte>
  {
    DataPacket(DataShred(slot, 0, 0, 0, 0, [], false, false, DataMerkle(0, false), DATA_HEADER_SIZE),
      Flags(false, false, 0), [])
  }

  /** Every slot number that fits its field is named by a packet. */
  lemma SlotPacketNames(slot: nat)
    requires slot <= U64_MAX
    ensures var p := ParseKind(SlotPacket(slot)); p.Ok? && p.kind.Data? && SlotOf(SlotPacket(slot)) == Some(slot)
    ensures InRange(SlotPacket(slot))
  {
    hide ParseKind, DataPacket;
    DataRoundTrip(DataShred(slot, 0, 0, 0, 0, [], false, false, DataMerkle(0, false), DATA_HEADER_SIZE),
      Flags(false, false, 0), []);
  }

  /** A slot that ended is opened again. Data packets for slots 1, 55 and 1 reach a new listener with the
      default retention of 3 slots: the second ends slot 1, the third gives it a new accumulator. */
  lemma EndedSlotReopens(t: Terms, s1: Standing, s2: Standing, s3: Standing, h1: Handle, h2: Handle, h3: Handle,
      r1: Reply, r2: Reply, r3: Reply, now: nat)
    requires t.maxAge == 3
    requires forall h :: h in {h1, h2, h3} ==> ParseKind(h.bytes).Ok? && ParseKind(h.bytes).kind.Data?
    requires SlotOf(h1.bytes) == Some(1) && SlotOf(h2.bytes) == Some(55) && SlotOf(h3.bytes) == Some(1)
    requires Handled(t, NEW_LISTENER, s1, Admit(h1, 0, {}, t.enableFec), |h1.bytes|, r1, now)
    requires Handled(t, s1, s2, Admit(h2, s1.lastSlot, s1.seen, t.enableFec), |h2.bytes|, r2, now)
    requires Handled(t, s2, s3, Admit(h3, s2.lastSlot, s2.seen, t.enableFec), |h3.bytes|, r3, now)
    ensures 1 in s2.evicted && 1 !in s2.views
    ensures 1 in s3.views && s3.lastSlot == 55
    ensures s3.views[1] == NextOnData(t.env, now, NEW_SLOT, ArrivalOf(h3, ParseKind(h3.bytes).kind.data))
  {
    hide ParseKind, ArrivalOf, NextOnData, AnsweredFor, Tally, Counted, Settled, Queued, Owed;
    assert h1 in {h1, h2, h3} && h2 in {h1, h2, h3} && h3 in {h1, h2, h3};
    assert s1.views.Keys == {1} && s1.lastSlot == 1;
    assert Aging(s1.views, 55, 3) == {1};
    assert s2.views.Keys == {55} && s2.lastSlot == 55 && 1 !in s2.seen;
  }
}
