/** What becomes of a packet, in plain numbers: which slots are within reach, which counter moves, and what its
    slot is given (src/listener.rs). */
module Fates {
  import opened Bytes
  import opened Parser
  import opened Slot
  import opened Window
  import opened Passage

  /** A slot number that a packet may name: no later than 2^40, and, once a slot has been seen, at most a
      million past the newest; before that at most ten thousand million. */
  predicate WithinReach(slot: nat, lastSlot: nat)
  {
    slot <= 0x100_0000_0000 && if lastSlot == 0 then slot <= 10_000_000_000 else slot <= lastSlot + 1_000_000
  }

  /** Nothing has happened but for these counters. */
  ghost predicate OnlyCounted(s: Standing, s': Standing, r: Reply, c: Counters)
  {
    s' == s.(counters := c) && r == None
  }

  /** Of all counters, those of ending slots apart, only these have moved. */
  ghost predicate CountedAs(s': Standing, c: Counters)
  {
    s'.counters == c.(slotsCompleted := s'.counters.slotsCompleted,
                      slotsEvictedByAge := s'.counters.slotsEvictedByAge,
                      harvestedBatches := s'.counters.harvestedBatches)
  }

  /** A live slot is kept when this is the newest: for one slot more if it is complete, else for the
      retention. */
  predicate Kept(slot: nat, s: State, lastSlot: nat, maxAge: nat)
  {
    lastSlot <= slot + if s.slotComplete then 1 else maxAge
  }

  /** The packet has reached its slot: the slot is live, has moved on to `next`, and is answered for. Of the
      others exactly those that are no longer kept have gone, if the packet's slot is the newest. */
  ghost predicate ReachedSlot(t: Terms, s: Standing, s': Standing, slot: nat, next: State, r: Reply)
  {
    && s'.lastSlot == Max(s.lastSlot, slot) && slot in s'.views && s'.views[slot] == next
    && (forall x :: x in s'.views <==>
          x == slot || (x in s.views && (slot > s.lastSlot ==> Kept(x, s.views[x], slot, t.maxAge))))
    && (forall other :: other in s'.views && other != slot ==> s'.views[other] == s.views[other])
    && AnsweredFor(r, slot, Current(s.views, slot), next)
  }

  ghost predicate DataFate(t: Terms, s: Standing, s': Standing, h: Handle, d: DataShred, r: Reply, now: nat)
  {
    var c := s.counters.(bytesReceived := WrapAdd64(s.counters.bytesReceived, |h.bytes|));
    var arrival :=
      DataArrival(d.index, d.fecSetIndex, h, 88 + |d.payload|, d.batchComplete, d.lastInSlot);
    if !WithinReach(d.slot, s.lastSlot) then OnlyCounted(s, s', r, c.(slotRange := WrapAdd64(c.slotRange, 1)))
    else if d.slot in s.seen then OnlyCounted(s, s', r, c.(droppedKnown := WrapAdd64(c.droppedKnown, 1)))
    else
      && ReachedSlot(t, s, s', d.slot, NextOnData(t.env, now, Current(s.views, d.slot), arrival), r)
      && CountedAs(s', c.(dataShreds := WrapAdd64(c.dataShreds, 1)))
  }

  ghost predicate CodeFate(t: Terms, s: Standing, s': Standing, h: Handle, k: CodeShred, r: Reply, now: nat)
  {
    var c := s.counters.(bytesReceived := WrapAdd64(s.counters.bytesReceived, |h.bytes|));
    var arrival := CodeArrival(k.fecSetIndex, k.numData, k.numCoding, k.position, k.coded, k.variant);
    if !WithinReach(k.slot, s.lastSlot) then OnlyCounted(s, s', r, c.(slotRange := WrapAdd64(c.slotRange, 1)))
    else if k.slot in s.seen then OnlyCounted(s, s', r, c.(droppedKnown := WrapAdd64(c.droppedKnown, 1)))
    else if !t.enableFec then OnlyCounted(s, s', r, c.(codeShreds := WrapAdd64(c.codeShreds, 1)))
    else
      && ReachedSlot(t, s, s', k.slot, NextOnCode(t.env, now, Current(s.views, k.slot), arrival), r)
      && CountedAs(s', c.(codeShreds := WrapAdd64(c.codeShreds, 1)))
  }

  /** Exactly what becomes of a packet. */
  ghost predicate Fate(t: Terms, s: Standing, s': Standing, h: Handle, r: Reply, now: nat)
  {
    var c := s.counters.(bytesReceived := WrapAdd64(s.counters.bytesReceived, |h.bytes|));
    match ParseKind(h.bytes)
    case Err(TooShort) => OnlyCounted(s, s', r, c.(tooShort := WrapAdd64(c.tooShort, 1)))
    case Err(UnknownVariant) => OnlyCounted(s, s', r, c.(unknownVariant := WrapAdd64(c.unknownVariant, 1)))
    case Err(PayloadInvalid) => OnlyCounted(s, s', r, c.(payloadInvalid := WrapAdd64(c.payloadInvalid, 1)))
    case Ok(Data(d)) => DataFate(t, s, s', h, d, r, now)
    case Ok(Code(k)) => CodeFate(t, s, s', h, k, r, now)
  }

  lemma ReachIsExact(slot: nat, lastSlot: nat)
    requires slot <= U64_MAX
    ensures Implausible(slot, lastSlot) <==> !WithinReach(slot, lastSlot)
  {
  }

  lemma SweepCounts(t: Terms, s: Standing, s': Standing, now: nat)
    requires Swept(t, s, s', now)
    ensures CountedAs(s', s.counters)
  {
    hide Aging, Settled, Queued, Owed;
  }

  lemma KeptIsExact(slot: nat, s: State, lastSlot: nat, maxAge: nat)
    requires lastSlot <= U64_MAX
    ensures TooOld(slot, s, lastSlot, maxAge) <==> !Kept(slot, s, lastSlot, maxAge)
  {
  }

  /** Exactly what a sweep leaves: the live slots still kept, and of the slots turned away, those that just
      ended included, the ones at most the retention and 50 behind the newest. */
  lemma SweepLeaves(t: Terms, s: Standing, s': Standing, now: nat)
    requires Swept(t, s, s', now) && s.lastSlot <= U64_MAX
    ensures forall x :: x in s'.views <==> x in s.views && Kept(x, s.views[x], s.lastSlot, t.maxAge)
    ensures forall x :: x in s'.views ==> s'.views[x] == s.views[x]
    ensures s'.lastSlot == s.lastSlot
    ensures forall x :: x in s'.seen <==>
              && (x in s.seen || (x in s.views && !Kept(x, s.views[x], s.lastSlot, t.maxAge)))
              && s.lastSlot <= x + (t.maxAge + 50)
  {
    hide Counted, Settled, Queued, Owed, TooOld, Kept;
    forall x | x in s.views
      ensures TooOld(x, s.views[x], s.lastSlot, t.maxAge) <==> !Kept(x, s.views[x], s.lastSlot, t.maxAge)
    {
      KeptIsExact(x, s.views[x], s.lastSlot, t.maxAge);
    }
  }

  lemma DeliveredReaches(t: Terms, s: Standing, s': Standing, slot: nat, next: State, r: Reply, now: nat)
    requires Delivered(t, s, s', slot, next, r, now) && slot <= MAX_PLAUSIBLE_SLOT
    ensures ReachedSlot(t, s, s', slot, next, r) && CountedAs(s', s.counters)
  {
    hide Swept, Aging, AnsweredFor, Kept, MovedUp;
    var views := MovedUp(s.views, s.lastSlot, slot, t.maxAge);
    if slot > s.lastSlot {
      var moved := s'.(views := views);
      SweepCounts(t, s.(lastSlot := slot), moved, now);
      SweepLeaves(t, s.(lastSlot := slot), moved, now);
    } else {
      assert views == s.views by { NotMoved(s.views, s.lastSlot, slot, t.maxAge); }
    }
  }

  lemma NotMoved(views: Views, lastSlot: nat, slot: nat, maxAge: nat)
    requires slot <= lastSlot
    ensures MovedUp(views, lastSlot, slot, maxAge) == views
  {
  }

  /** The fate of every packet that has its buffer. */
  lemma FateOf(t: Terms, s: Standing, s': Standing, h: Handle, r: Reply, now: nat)
    requires Handled(t, s, s', Admit(h, s.lastSlot, s.seen, t.enableFec), |h.bytes|, r, now)
    ensures Fate(t, s, s', h, r, now)
  {
    hide ParseKind, Delivered, NextOnData, NextOnCode, Current, Implausible, WithinReach, WrapAdd64, ReachedSlot,
      AnsweredFor;
    var a := Admit(h, s.lastSlot, s.seen, t.enableFec);
    var counted := s.(counters := Tally(s.counters, a, |h.bytes|));
    match ParseKind(h.bytes)
    case Err(_) =>
    case Ok(Data(d)) =>
      DataShredBounds(h.bytes);
      ReachIsExact(d.slot, s.lastSlot);
      if a.ToData? {
        AdmittedSlot(d.slot, s.lastSlot);
        DeliveredReaches(t, counted, s', d.slot, NextOnData(t.env, now, Current(s.views, d.slot), a.data), r, now);
        SameReached(t, s, counted, s', d.slot, NextOnData(t.env, now, Current(s.views, d.slot), a.data), r);
      }
    case Ok(Code(k)) =>
      CodeShredBounds(h.bytes);
      ReachIsExact(k.slot, s.lastSlot);
      if a.ToCode? {
        AdmittedSlot(k.slot, s.lastSlot);
        DeliveredReaches(t, counted, s', k.slot, NextOnCode(t.env, now, Current(s.views, k.slot), a.code), r, now);
        SameReached(t, s, counted, s', k.slot, NextOnCode(t.env, now, Current(s.views, k.slot), a.code), r);
      }
  }

  lemma AdmittedSlot(slot: nat, lastSlot: nat)
    requires !Implausible(slot, lastSlot)
    ensures slot <= MAX_PLAUSIBLE_SLOT
  {
  }

  lemma SameReached(t: Terms, s: Standing, counted: Standing, s': Standing, slot: nat, next: State, r: Reply)
    requires ReachedSlot(t, counted, s', slot, next, r) && counted == s.(counters := counted.counters)
    ensures ReachedSlot(t, s, s', slot, next, r)
  {
  }
}
