/** A listener's life, slot by slot: every live slot stands where exactly the packets admitted for it since
    it was opened lead, so that what is proved of runs holds of the listener's slots, and everything its
    slots deliver is answered or queued once. */
module History {
  import opened Collections
  import opened Decoder
  import opened Erasure
  import opened Slot
  import opened Emission
  import opened Invariant
  import opened Lifetime
  import opened Reachable
  import opened Delivery
  import opened Recovery
  import opened Pool
  import opened Window
  import opened Passage

  /** What a slot was given since it was opened, and the transactions answered for it since then. */
  datatype Past = Past(events: Events, answered: transactions)

  type Pasts = map<nat, Past>

  ghost predicate Recalls(env: Env, p: Past, s: State)
  {
    Reaches(env, p.events, s) && s.log.delivered == p.answered
  }

  /** Every live slot has been reached by its past, and all it delivered has been answered. */
  ghost predicate Recalled(env: Env, pasts: Pasts, views: Views)
  {
    pasts.Keys == views.Keys && forall slot :: slot in views ==> Recalls(env, pasts[slot], views[slot])
  }

  function PastOf(pasts: Pasts, slot: nat): Past
  {
    if slot in pasts then pasts[slot] else Past([], [])
  }

  function Said(r: Reply): transactions
  {
    if r.Some? then r.value.1 else []
  }

  /** The pasts of the slots that are still live. */
  ghost function Surviving(pasts: Pasts, views: Views): Pasts
  {
    map slot | slot in pasts && slot in views :: pasts[slot]
  }

  function WithEvent(pasts: Pasts, slot: nat, e: Event, r: Reply): Pasts
  {
    var p := PastOf(pasts, slot);
    pasts[slot := Past(p.events + [e], p.answered + Said(r))]
  }

  /** The pasts after one more call: a slot that ends loses its past, and an admitted packet is added to the
      past of its slot. */
  ghost function PastsThen(t: Terms, pasts: Pasts, s: Standing, turn: Turn): Pasts
  {
    if s.queue != [] then pasts
    else match turn.room
      case Refused(at) => Surviving(pasts, at.views)
      case Given(way, at, h) =>
        PastsHandled(Surviving(pasts, at.views), Admit(h, at.lastSlot, at.seen, t.enableFec), turn)
  }

  ghost function PastsHandled(pasts: Pasts, a: Admission, turn: Turn): Pasts
  {
    var kept := Surviving(pasts, turn.next.views);
    match a
    case ToData(slot, d) => WithEvent(kept, slot, Event.Data(turn.now, d), turn.reply)
    case ToCode(slot, c) => WithEvent(kept, slot, Event.Code(turn.now, c), turn.reply)
    case _ => kept
  }

  ghost function PastsAfter(t: Terms, pasts: Pasts, s: Standing, life: seq<Turn>): Pasts
    decreases |life|
  {
    if life == [] then pasts
    else PastsAfter(t, PastsThen(t, pasts, s, life[0]), life[0].next, life[1..])
  }

  // ---------- One slot ----------

  lemma ReachesOneMore(env: Env, events: Events, s: State, e: Event)
    requires Reaches(env, events, s) && EventOk(e)
    ensures Bounded(s) && Reaches(env, events + [e], Step(env, s, e))
  {
    hide Reaches, Step, EventOk, Bounded;
    ReachesAfter(env, events, s);
    var more := events + [e];
    assert more[..|events|] == events;
    assert EventsOk(more) by {
      assert forall i :: 0 <= i < |more| ==> more[i] == if i < |events| then events[i] else e;
    }
    AfterReached(env, more);
  }

  lemma NewSlotRecalled(env: Env)
    ensures Recalls(env, Past([], []), NEW_SLOT)
  {
    hide Reaches;
    AfterReached(env, []);
  }

  lemma CurrentRecalled(env: Env, pasts: Pasts, views: Views, slot: nat)
    requires Recalled(env, pasts, views)
    ensures Recalls(env, PastOf(pasts, slot), Current(views, slot))
  {
    hide Recalls;
    NewSlotRecalled(env);
  }

  lemma SurvivingRecalled(env: Env, pasts: Pasts, views: Views, ended: set<nat>)
    requires Recalled(env, pasts, views)
    ensures Recalled(env, Surviving(pasts, views - ended), views - ended)
  {
    hide Recalls;
  }

  // ---------- One packet ----------

  /** The slot took this event. */
  ghost predicate Took(env: Env, s: State, e: Event, next: State)
  {
    Bounded(s) && EventOk(e) && next == Step(env, s, e)
  }

  lemma DeliveredRecalled(t: Terms, pasts: Pasts, s: Standing, s': Standing, slot: nat, e: Event, next: State,
    r: Reply, now: nat)
    requires Delivered(t, s, s', slot, next, r, now) && Recalled(t.env, pasts, s.views)
    requires Took(t.env, Current(s.views, slot), e, next)
    requires Below(s) && slot <= MAX_PLAUSIBLE_SLOT
    ensures Recalled(t.env, WithEvent(Surviving(pasts, s'.views), slot, e, r), s'.views)
  {
    hide Reaches, Raised, Step, EventOk, Bounded, Aging, Recalls;
    var ended := if slot > s.lastSlot then Aging(s.views, slot, t.maxAge) else {};
    var moved := s.views - ended;
    MovedIsAged(s.views, s.lastSlot, slot, t.maxAge);
    assert MovedUp(s.views, s.lastSlot, slot, t.maxAge) == moved;
    SurvivingRecalled(t.env, pasts, s.views, ended);
    assert Surviving(pasts, s'.views) == Surviving(pasts, moved);
    var kept := Surviving(pasts, moved);
    CurrentRecalled(t.env, kept, moved, slot);
    OneMoreRecalled(t.env, PastOf(kept, slot), Current(moved, slot), e, next, slot, r);
  }

  lemma OneMoreRecalled(env: Env, p: Past, s: State, e: Event, next: State, slot: nat, r: Reply)
    requires Recalls(env, p, s) && Took(env, s, e, next) && AnsweredFor(r, slot, s, next)
    ensures Recalls(env, Past(p.events + [e], p.answered + Said(r)), next)
  {
    hide Reaches, Step, EventOk, Bounded;
    ReachesOneMore(env, p.events, s, e);
  }

  lemma RecalledBounded(env: Env, pasts: Pasts, views: Views, slot: nat)
    requires Recalled(env, pasts, views)
    ensures Bounded(Current(views, slot))
  {
    hide Reaches, Bounded, After;
    CurrentRecalled(env, pasts, views, slot);
    ReachesAfter(env, PastOf(pasts, slot).events, Current(views, slot));
  }

  lemma HandledRecalled(t: Terms, pasts: Pasts, s: Standing, a: Admission, len: nat, turn: Turn)
    requires Handled(t, s, turn.next, a, len, turn.reply, turn.now) && Recalled(t.env, pasts, s.views) && Below(s)
    requires a.ToData? ==> DataOk(a.data) && a.slot <= MAX_PLAUSIBLE_SLOT
    requires a.ToCode? ==> CodeOk(a.code) && a.slot <= MAX_PLAUSIBLE_SLOT
    ensures Recalled(t.env, PastsHandled(pasts, a, turn), turn.next.views)
  {
    hide Delivered, Recalled, Bounded, DataOk, CodeOk, Current, PushData, PushCode, Tally;
    var counted, now := s.(counters := Tally(s.counters, a, len)), turn.now;
    match a
    case ToData(slot, d) =>
      RecalledBounded(t.env, pasts, s.views, slot);
      var next := NextOnData(t.env, now, Current(s.views, slot), d);
      DeliveredRecalled(t, pasts, counted, turn.next, slot, Event.Data(now, d), next, turn.reply, now);
    case ToCode(slot, c) =>
      RecalledBounded(t.env, pasts, s.views, slot);
      var next := NextOnCode(t.env, now, Current(s.views, slot), c);
      DeliveredRecalled(t, pasts, counted, turn.next, slot, Event.Code(now, c), next, turn.reply, now);
    case _ => AllRecalled(t.env, pasts, s.views);
  }

  lemma AllRecalled(env: Env, pasts: Pasts, views: Views)
    requires Recalled(env, pasts, views)
    ensures Recalled(env, Surviving(pasts, views), views)
  {
    hide Recalls;
    assert views - {} == views;
    SurvivingRecalled(env, pasts, views, {});
  }

  lemma TurnRecalled(t: Terms, pasts: Pasts, s: Standing, turn: Turn)
    requires Received(t, s, turn.next, turn.raw, turn.room, turn.reply, turn.now) && InRange(Cut(turn.raw))
    requires Recalled(t.env, pasts, s.views) && Below(s)
    ensures Recalled(t.env, PastsThen(t, pasts, s, turn), turn.next.views) && Below(turn.next)
  {
    hide MadeRoom, Full, Handled, Recalled, Admit, RoomEnds, InRange, Cut, DataOk, CodeOk, PastsHandled;
    if s.queue == [] {
      PacketBelow(t, s, turn.next, turn.raw, turn.room, turn.reply, turn.now);
      match turn.room
      case Refused(at) =>
        RoomViews(t, Force, s, at, turn.now);
        SurvivingRecalled(t.env, pasts, s.views, RoomEnds(t, Force, s));
      case Given(way, at, h) =>
        RoomViews(t, way, s, at, turn.now);
        SurvivingRecalled(t.env, pasts, s.views, RoomEnds(t, way, s));
        AdmittedIsOk(h, at.lastSlot, at.seen, t.enableFec);
        HandledRecalled(t, Surviving(pasts, at.views), at, Admit(h, at.lastSlot, at.seen, t.enableFec), |h.bytes|,
          turn);
    }
  }

  // ---------- A life ----------

  /** Over a whole life each live slot has been reached by exactly the packets admitted for it since it was
      opened, in the order and at the times of their calls, and exactly what it delivered has been
      answered for it, in that order. */
  lemma {:induction false} LifeRecalled(t: Terms, pasts: Pasts, s: Standing, life: seq<Turn>)
    requires Went(t, s, life) && Recalled(t.env, pasts, s.views) && Below(s)
    ensures Recalled(t.env, PastsAfter(t, pasts, s, life), Finally(s, life).views)
    decreases |life|
  {
    hide Received, Recalled, PastsThen, Below, InRange;
    if life != [] {
      TurnRecalled(t, pasts, s, life[0]);
      LifeRecalled(t, PastsThen(t, pasts, s, life[0]), life[0].next, life[1..]);
    }
  }

  /** What is proved of runs holds of every live slot of a listener: each range it has finished whole and
      that decodes was answered as exactly that batch, and the answers for the slot are these ranges' one
      after another and what was streamed since. */
  lemma LiveSlotDelivers(t: Terms, life: seq<Turn>, slot: nat, c: Completion)
    requires Went(t, NEW_LISTENER, life) && slot in Finally(NEW_LISTENER, life).views
    requires c in Finally(NEW_LISTENER, life).views[slot].log.completions
    ensures var s, p := Finally(NEW_LISTENER, life).views[slot], PastsAfter(t, map[], NEW_LISTENER, life);
            && slot in p && Reaches(t.env, p[slot].events, s)
            && p[slot].answered == AllEmitted(s.log.completions) + s.log.emitted
            && (c.finish.Whole? && DecodeBatch(t.env.codec, c.finish.payload).Some? ==>
                  c.emitted == FirstOccurrences(DecodeBatch(t.env.codec, c.finish.payload).value))
  {
    hide Went, Reaches, PastsAfter, DecodeBatch, FirstOccurrences, Finally;
    assert NEW_LISTENER.views == map[];
    LifeRecalled(t, map[], NEW_LISTENER, life);
    var s, p := Finally(NEW_LISTENER, life).views[slot], PastsAfter(t, map[], NEW_LISTENER, life)[slot];
    assert Recalls(t.env, p, s);
    CompletedRangesTile(t.env, p.events, s);
    ExactDelivery(t.env, p.events, s, c);
  }

  /** One sender's shreds and nothing else. */
  ghost predicate FedAsSent(lib: ErasureLibrary, sent: SentSlot, events: Events)
    requires SentSlotOk(lib, sent)
  {
    forall k :: 0 <= k < |events| ==> EventAsSent(lib, sent, events[k])
  }

  /** If all packets admitted for a live slot since it was opened carry what one sender sent, then whatever was
      lost, repeated, reordered or rebuilt, each range finished whole was answered as exactly the transactions of
      the sent bytes, once each and in order. */
  lemma LiveSlotIsAsSent(t: Terms, sent: SentSlot, life: seq<Turn>, slot: nat, c: Completion)
    requires Went(t, NEW_LISTENER, life) && slot in Finally(NEW_LISTENER, life).views
    requires c in Finally(NEW_LISTENER, life).views[slot].log.completions && c.finish.Whole?
    requires SentSlotOk(t.env.lib, sent)
    requires FedAsSent(t.env.lib, sent, PastOf(PastsAfter(t, map[], NEW_LISTENER, life), slot).events)
    ensures c.finish.payload == SentBytes(sent, c.start, c.last + 1)
    ensures DecodeBatch(t.env.codec, c.finish.payload).Some? ==>
              c.emitted == FirstOccurrences(DecodeBatch(t.env.codec, c.finish.payload).value)
  {
    hide Went, Reaches, PastsAfter, DecodeBatch, FirstOccurrences, Finally, SentSlotOk, EventAsSent;
    LifeRecalled(t, map[], NEW_LISTENER, life);
    var s, p := Finally(NEW_LISTENER, life).views[slot], PastsAfter(t, map[], NEW_LISTENER, life)[slot];
    assert Recalls(t.env, p, s);
    RecoveryIsInvisible(t.env, sent, p.events, s, c);
  }

  // ---------- Nothing is lost between a slot and its caller ----------

  /** When a slot ends, its answers and the tail its harvest yields are together all it ever delivered. */
  lemma EndingYieldsTheRest(env: Env, p: Past, s: State, now: nat)
    requires Recalls(env, p, s)
    ensures p.answered + Tail(env, now, s) == Harvest(env, now, s).log.delivered
  {
    hide Reaches, Resting, Harvest, Closed;
    ReachableRests(env, p.events, s);
    HarvestCloses(env, now, s);
  }

  function Spoken(r: Reply): Batches
  {
    if r.Some? then [r.value] else []
  }

  /** The batches a life answered, in order. */
  function Replies(life: seq<Turn>): Batches
  {
    if life == [] then [] else Spoken(life[0].reply) + Replies(life[1..])
  }

  /** The batches that the harvests of a packet yield. */
  ghost function PacketTails(t: Terms, s: Standing, turn: Turn): multiset<(nat, transactions)>
  {
    match turn.room
    case Refused(_) =>
      multiset(Owed(t.env, turn.now, s.views, RoomEnds(t, Force, s), t.disableSalvageDelivery))
    case Given(way, at, h) =>
      var ends := PacketEnds(t, at, Admit(h, at.lastSlot, at.seen, t.enableFec));
      multiset(Owed(t.env, turn.now, s.views, RoomEnds(t, way, s), t.disableSalvageDelivery))
      + multiset(Owed(t.env, turn.now, at.views, ends, t.disableSalvageDelivery))
  }

  /** The batches a life brought forth: what each packet's own slot newly delivered, and the tails of the
      slots it ended. */
  ghost function Produced(t: Terms, s: Standing, life: seq<Turn>): multiset<(nat, transactions)>
    decreases |life|
  {
    if life == [] then multiset{}
    else
      (if s.queue == [] then multiset(Spoken(life[0].reply)) + PacketTails(t, s, life[0]) else multiset{})
      + Produced(t, life[0].next, life[1..])
  }

  lemma QueuedAdds(q: Batches, q': Batches, owed: set<(nat, transactions)>)
    requires Queued(q, q', owed)
    ensures multiset(q') == multiset(q) + multiset(owed)
  {
    assert q' == q'[..|q|] + q'[|q|..];
  }

  lemma OwedSplit(env: Env, now: nat, views: Views, first: set<nat>, one: set<nat>, disabled: bool)
    requires first !! one
    ensures multiset(Owed(env, now, views, first + one, disabled))
         == multiset(Owed(env, now, views, first, disabled)) + multiset(Owed(env, now, views - first, one, disabled))
  {
    hide Tail;
    var a, b := Owed(env, now, views, first, disabled), Owed(env, now, views - first, one, disabled);
    assert Owed(env, now, views, first + one, disabled) == a + b;
    assert a !! b;
  }

  lemma NothingOwed(env: Env, now: nat, views: Views, disabled: bool)
    ensures multiset(Owed(env, now, views, {}, disabled)) == multiset{}
  {
    assert Owed(env, now, views, {}, disabled) == {};
  }

  lemma SweptQueues(t: Terms, s: Standing, s': Standing, now: nat)
    requires Swept(t, s, s', now)
    ensures var ends := Aging(s.views, s.lastSlot, t.maxAge);
            multiset(s'.queue)
            == multiset(s.queue) + multiset(Owed(t.env, now, s.views, ends, t.disableSalvageDelivery))
  {
    hide Aging, Counted, Settled, Queued, Owed;
    QueuedAdds(s.queue, s'.queue,
      Owed(t.env, now, s.views, Aging(s.views, s.lastSlot, t.maxAge), t.disableSalvageDelivery));
  }

  lemma ForcedQueues(t: Terms, s: Standing, s': Standing, now: nat)
    requires Forced(t, s, s', now)
    ensures s.views.Keys != {}
    ensures multiset(s'.queue) == multiset(s.queue)
              + multiset(Owed(t.env, now, s.views, {Least(s.views.Keys)}, t.disableSalvageDelivery))
  {
    hide Counted, Settled, Queued, Owed;
    QueuedAdds(s.queue, s'.queue, Owed(t.env, now, s.views, {Least(s.views.Keys)}, t.disableSalvageDelivery));
  }

  lemma RoomQueues(t: Terms, way: Way, s: Standing, s': Standing, now: nat)
    requires MadeRoom(t, way, s, s', now)
    ensures multiset(s'.queue) == multiset(s.queue)
              + multiset(Owed(t.env, now, s.views, RoomEnds(t, way, s), t.disableSalvageDelivery))
  {
    hide Swept, Forced, Aging, Full, Owed;
    match way
    case Free => NothingOwed(t.env, now, s.views, t.disableSalvageDelivery);
    case Sweep => SweptQueues(t, s, s', now);
    case Force =>
      var mid :| Swept(t, s, mid, now) && Forced(t, mid, s', now);
      SweptQueues(t, s, mid, now);
      SweptViews(t, s, mid, now);
      ForcedQueues(t, mid, s', now);
      var aging := Aging(s.views, s.lastSlot, t.maxAge);
      assert mid.views.Keys == s.views.Keys - aging;
      OwedSplit(t.env, now, s.views, aging, {Least(mid.views.Keys)}, t.disableSalvageDelivery);
  }

  lemma DeliveredQueues(t: Terms, s: Standing, s': Standing, slot: nat, next: State, r: Reply, now: nat)
    requires Delivered(t, s, s', slot, next, r, now)
    ensures var ends := if slot > s.lastSlot then Aging(s.views, slot, t.maxAge) else {};
            multiset(s'.queue)
            == multiset(s.queue) + multiset(Owed(t.env, now, s.views, ends, t.disableSalvageDelivery))
  {
    hide Swept, Aging, AnsweredFor, Owed, MovedUp;
    if slot > s.lastSlot {
      SweptQueues(t, s.(lastSlot := slot), s'.(views := MovedUp(s.views, s.lastSlot, slot, t.maxAge)), now);
    } else {
      NothingOwed(t.env, now, s.views, t.disableSalvageDelivery);
    }
  }

  lemma HandledQueues(t: Terms, s: Standing, s': Standing, a: Admission, len: nat, r: Reply, now: nat)
    requires Handled(t, s, s', a, len, r, now)
    ensures multiset(s'.queue) == multiset(s.queue)
              + multiset(Owed(t.env, now, s.views, PacketEnds(t, s, a), t.disableSalvageDelivery))
  {
    hide Delivered, NextOnData, NextOnCode, Tally, Current, Owed, Aging;
    var counted := s.(counters := Tally(s.counters, a, len));
    match a
    case ToData(slot, d) =>
      DeliveredQueues(t, counted, s', slot, NextOnData(t.env, now, Current(s.views, slot), d), r, now);
    case ToCode(slot, c) =>
      DeliveredQueues(t, counted, s', slot, NextOnCode(t.env, now, Current(s.views, slot), c), r, now);
    case _ => NothingOwed(t.env, now, s.views, t.disableSalvageDelivery);
  }

  lemma TurnQueues(t: Terms, s: Standing, turn: Turn)
    requires Received(t, s, turn.next, turn.raw, turn.room, turn.reply, turn.now)
    ensures multiset(Spoken(turn.reply)) + multiset(turn.next.queue)
         == multiset(s.queue)
              + if s.queue == [] then multiset(Spoken(turn.reply)) + PacketTails(t, s, turn) else multiset{}
  {
    hide MadeRoom, Full, Handled, Admit, RoomEnds, PacketEnds, Cut, Owed;
    if s.queue == [] {
      match turn.room
      case Refused(at) => RoomQueues(t, Force, s, at, turn.now);
      case Given(way, at, h) =>
        RoomQueues(t, way, s, at, turn.now);
        HandledQueues(t, at, turn.next, Admit(h, at.lastSlot, at.seen, t.enableFec), |h.bytes|, turn.reply, turn.now);
    } else {
      assert s.queue == [s.queue[0]] + s.queue[1..];
    }
  }

  lemma FinallyStep(s: Standing, life: seq<Turn>)
    requires life != []
    ensures Finally(s, life) == Finally(life[0].next, life[1..])
  {
  }

  lemma InAndOut<T(!new)>(said: multiset<T>, later: multiset<T>, q: multiset<T>, q': multiset<T>, q'': multiset<T>,
    made: multiset<T>, more: multiset<T>)
    requires said + q' == q + made && later + q'' == q' + more
    ensures (said + later) + q'' == q + (made + more)
  {
    forall x
      ensures ((said + later) + q'')[x] == (q + (made + more))[x]
    {
      assert (said + q')[x] == (q + made)[x] && (later + q'')[x] == (q' + more)[x];
    }
  }

  /** Over a whole life every batch a slot newly delivers and every tail a harvest yields is answered or
      still queued, exactly once, and nothing else is. */
  lemma {:induction false} LifeAnswersAll(t: Terms, s: Standing, life: seq<Turn>)
    requires Went(t, s, life)
    ensures multiset(Replies(life)) + multiset(Finally(s, life).queue) == multiset(s.queue) + Produced(t, s, life)
    decreases |life|
  {
    hide Received, PacketTails, InRange, Spoken, Finally;
    if life == [] {
      NothingYet(s);
    } else {
      var turn, rest := life[0], life[1..];
      TurnQueues(t, s, turn);
      LifeAnswersAll(t, turn.next, rest);
      FinallyStep(s, life);
      var said, later := Spoken(turn.reply), Replies(rest);
      assert multiset(said + later) == multiset(said) + multiset(later);
      var made := if s.queue == [] then multiset(Spoken(turn.reply)) + PacketTails(t, s, turn) else multiset{};
      InAndOut(multiset(said), multiset(later), multiset(s.queue), multiset(turn.next.queue),
        multiset(Finally(s, life).queue), made, Produced(t, turn.next, rest));
    }
  }

  lemma NothingYet(s: Standing)
    ensures Finally(s, []) == s
  {
  }
}
