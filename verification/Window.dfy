/** The listener's bookkeeping over values (src/listener.rs): which buffers exist where, which slots
    may live, and how the per-slot counters add up. */
module Window {
  import opened Bytes
  import opened Collections
  import opened Parser
  import opened Decoder
  import opened Slot
  import opened Invariant
  import opened Lifetime
  import opened Handles

  const MAX_PLAUSIBLE_SLOT: nat := 0x100_0000_0000
  const MAX_SLOT_JUMP_FORWARD: nat := 1_000_000
  const MAX_BOOTSTRAP_SLOT: nat := 10_000_000_000
  const BLACKLIST_EXTRA_SLOTS: nat := 50
  const COMPLETED_RETENTION_SLOTS: nat := 1

  /** The live slots by number. */
  type Views = map<nat, State>

  // ---------- Admission ----------

  /** What becomes of a packet. */
  datatype Admission =
    | Unparseable(error: ParseError)
    | OutOfRange
    | Known
    | FecDisabled
    | ToData(slot: nat, data: DataArrival)
    | ToCode(slot: nat, code: CodeArrival)

  predicate Implausible(slot: nat, lastSlot: nat)
  {
    || slot > MAX_PLAUSIBLE_SLOT
    || (lastSlot == 0 && slot > MAX_BOOTSTRAP_SLOT)
    || (lastSlot > 0 && slot > SatAdd(lastSlot, MAX_SLOT_JUMP_FORWARD, U64_MAX))
  }

  function ArrivalOf(h: Handle, d: DataShred): DataArrival
  {
    DataArrival(d.index, d.fecSetIndex, h, DATA_HEADER_SIZE + |d.payload|, d.batchComplete, d.lastInSlot)
  }

  function CodeOf(c: CodeShred): CodeArrival
  {
    CodeArrival(c.fecSetIndex, c.numData, c.numCoding, c.position, c.coded, c.variant)
  }

  function Admit(h: Handle, lastSlot: nat, recentlySeen: set<nat>, enableFec: bool): Admission
  {
    match ParseKind(h.bytes)
    case Err(e) => Unparseable(e)
    case Ok(Data(d)) =>
      if Implausible(d.slot, lastSlot) then OutOfRange
      else if d.slot in recentlySeen then Known
      else ToData(d.slot, ArrivalOf(h, d))
    case Ok(Code(c)) =>
      if Implausible(c.slot, lastSlot) then OutOfRange
      else if c.slot in recentlySeen then Known
      else if !enableFec then FecDisabled
      else ToCode(c.slot, CodeOf(c))
  }

  /** The index range the accumulator works in: below the saturated 32-bit index. */
  ghost predicate InRange(bytes: seq<byte>)
  {
    match ParseKind(bytes)
    case Err(_) => true
    case Ok(Data(d)) => d.index < U32_MAX
    case Ok(Code(c)) => c.fecSetIndex + c.numData <= U32_MAX
  }

  /** Everything the parser lets through meets what the accumulator relies on: in particular no payload
      ever lies outside its buffer, so the accumulator's corrupted-payload branch is dead. */
  lemma AdmittedIsOk(h: Handle, lastSlot: nat, recentlySeen: set<nat>, enableFec: bool)
    requires InRange(h.bytes)
    ensures var a := Admit(h, lastSlot, recentlySeen, enableFec);
            && (a.ToData? ==>
                  DataOk(a.data) && a.data.handle == h && a.slot <= MAX_PLAUSIBLE_SLOT && a.slot !in recentlySeen)
            && (a.ToCode? ==> CodeOk(a.code) && a.slot <= MAX_PLAUSIBLE_SLOT && a.slot !in recentlySeen)
  {
    if ParseKind(h.bytes).Ok? && ParseKind(h.bytes).kind.Data? {
      DataShredBounds(h.bytes);
    }
  }

  /** The next state of a slot; on anything the slot cannot be given, itself. */
  ghost function NextOnData(env: Env, now: nat, s: State, d: DataArrival): State
  {
    if Bounded(s) && DataOk(d) then PushData(env, now, s, d) else s
  }

  lemma NextOnDataIs(env: Env, now: nat, s: State, d: DataArrival)
    requires Bounded(s) && DataOk(d)
    ensures NextOnData(env, now, s, d) == PushData(env, now, s, d)
  {
  }

  lemma NextOnCodeIs(env: Env, now: nat, s: State, c: CodeArrival)
    requires Bounded(s) && CodeOk(c)
    ensures NextOnCode(env, now, s, c) == PushCode(env, now, s, c)
  {
  }

  ghost function NextOnCode(env: Env, now: nat, s: State, c: CodeArrival): State
  {
    if Bounded(s) && CodeOk(c) then PushCode(env, now, s, c) else s
  }

  // ---------- Buffers ----------

  ghost predicate HeldIn(views: Views, s: nat, idx: nat)
  {
    s in views && idx in Held(views[s].pending)
  }

  /** Free buffers, buffers held by live slots and buffers in transit partition the pool. */
  ghost predicate Partition(free: seq<nat>, views: Views, transit: set<nat>, capacity: nat)
  {
    && NoDup(free)
    && (forall idx :: idx in free ==> idx < capacity && idx !in transit)
    && (forall idx :: idx in transit ==> idx < capacity)
    && (forall s: nat, idx: nat :: HeldIn(views, s, idx) ==> idx < capacity && idx !in free && idx !in transit)
    && (forall s: nat, t: nat, idx: nat :: HeldIn(views, s, idx) && HeldIn(views, t, idx) ==> s == t)
    && (forall idx: nat :: idx < capacity && idx !in free && idx !in transit ==> exists s :: HeldIn(views, s, idx))
  }

  lemma PartitionPool(free: seq<nat>, views: Views, transit: set<nat>, capacity: nat)
    requires Partition(free, views, transit, capacity)
    ensures NoDup(free) && Elements(free) <= Range(0, capacity)
    ensures forall idx :: idx in transit ==> idx < capacity
  {
  }

  lemma TransitNotHeld(free: seq<nat>, views: Views, capacity: nat, idx: nat, s: nat)
    requires Partition(free, views, {idx}, capacity) && s in views
    ensures idx !in Held(views[s].pending)
  {
    assert HeldIn(views, s, idx) <==> idx in Held(views[s].pending);
  }

  lemma PartitionAcquire(free: seq<nat>, free': seq<nat>, views: Views, capacity: nat, idx: nat)
    requires Partition(free, views, {}, capacity) && free == free' + [idx]
    ensures Partition(free', views, {idx}, capacity)
  {
    assert free[|free| - 1] == idx;
    assert forall i :: 0 <= i < |free'| ==> free[i] == free'[i];
    assert forall x :: x in free <==> x in free' || x == idx;
    assert idx !in free';
  }

  lemma PartitionRelease(free: seq<nat>, views: Views, capacity: nat, idx: nat)
    requires Partition(free, views, {idx}, capacity)
    ensures Partition(free + [idx], views, {}, capacity)
  {
    assert forall x :: x in free + [idx] <==> x in free || x == idx;
  }

  /** A call that took a transit buffer in and gave others back. */
  lemma PartitionTook(free: seq<nat>, views: Views, capacity: nat, s: nat, after: State, h: Handle, given: seq<nat>)
    requires Partition(free, views, {h.idx}, capacity)
    requires TookIn(if s in views then views[s] else NEW_SLOT, after, h, given)
    ensures Partition(free + given, views[s := after], {}, capacity)
  {
    var before := if s in views then views[s] else NEW_SLOT;
    NewSlotHoldsNothing();
    PartitionMove(free, views, {h.idx}, {}, capacity, s, after, given);
  }

  lemma PartitionShed(free: seq<nat>, views: Views, transit: set<nat>, capacity: nat, s: nat,
    after: State, given: seq<nat>)
    requires Partition(free, views, transit, capacity)
    requires Shed(if s in views then views[s] else NEW_SLOT, after, given)
    ensures Partition(free + given, views[s := after], transit, capacity)
  {
    NewSlotHoldsNothing();
    PartitionMove(free, views, transit, transit, capacity, s, after, given);
  }

  lemma NewSlotHoldsNothing()
    ensures Held(NEW_SLOT.pending) == {}
  {
    assert forall i, idx :: !HoldsAt(NEW_SLOT.pending, i, idx);
  }

  lemma PartitionMove(free: seq<nat>, views: Views, transit: set<nat>, transit': set<nat>, capacity: nat,
    s: nat, after: State, given: seq<nat>)
    requires Partition(free, views, transit, capacity) && transit' <= transit
    requires var held := if s in views then Held(views[s].pending) else {};
             && NoDup(given) && Held(after.pending) !! Elements(given)
             && held + (transit - transit') == Held(after.pending) + Elements(given)
    ensures Partition(free + given, views[s := after], transit', capacity)
  {
    var held := if s in views then Held(views[s].pending) else {};
    var views' := views[s := after];
    assert forall x :: x in free + given <==> x in free || x in Elements(given);
    assert forall x :: x in held ==> HeldIn(views, s, x);
    assert forall x :: x in Elements(given) || x in Held(after.pending) ==> x in held || x in transit;
    assert Elements(free) !! Elements(given) by {
      assert forall x :: x in Elements(free) <==> x in free;
    }
    NoDupAppend(free, given);
    forall t, x
      ensures HeldIn(views', t, x) <==> if t == s then x in Held(after.pending) else HeldIn(views, t, x)
    {
    }
    forall x: nat | x < capacity && x !in free + given && x !in transit'
      ensures exists t :: HeldIn(views', t, x)
    {
      if x in held || x in transit {
        assert x in Held(after.pending);
        assert HeldIn(views', s, x);
      } else {
        var t :| HeldIn(views, t, x);
        assert HeldIn(views', t, x);
      }
    }
  }

  /** A slot that ends gives everything it held back. */
  lemma PartitionRetire(free: seq<nat>, views: Views, transit: set<nat>, capacity: nat, s: nat, given: seq<nat>)
    requires Partition(free, views, transit, capacity) && s in views
    requires NoDup(given) && Elements(given) == Held(views[s].pending)
    ensures Partition(free + given, views - {s}, transit, capacity)
  {
    var views' := views - {s};
    assert forall x :: x in free + given <==> x in free || x in Elements(given);
    assert forall x :: x in Elements(given) ==> HeldIn(views, s, x);
    assert Elements(free) !! Elements(given) by {
      assert forall x :: x in Elements(free) <==> x in free;
    }
    NoDupAppend(free, given);
    forall t, x
      ensures HeldIn(views', t, x) <==> t != s && HeldIn(views, t, x)
    {
    }
    forall x: nat | x < capacity && x !in free + given && x !in transit
      ensures exists t :: HeldIn(views', t, x)
    {
      var t :| HeldIn(views, t, x);
      assert HeldIn(views', t, x);
    }
  }

  ghost predicate SomeoneHolds(views: Views, idx: nat)
  {
    exists s :: HeldIn(views, s, idx)
  }

  /** Live slots hold every buffer. */
  ghost predicate Full(views: Views, capacity: nat)
  {
    forall idx: nat :: idx < capacity ==> SomeoneHolds(views, idx)
  }

  /** The pool has run out exactly when live slots hold every buffer. */
  lemma FullExactly(free: seq<nat>, views: Views, capacity: nat)
    requires Partition(free, views, {}, capacity)
    ensures free == [] <==> Full(views, capacity)
  {
    hide Held;
    if free != [] {
      assert free[0] in free;
      assert !SomeoneHolds(views, free[0]);
    } else {
      forall idx: nat | idx < capacity
        ensures SomeoneHolds(views, idx)
      {
        assert idx !in free;
      }
    }
  }

  /** With no live slot and nothing in transit every buffer is free. */
  lemma NoSlotsAllFree(free: seq<nat>, views: Views, capacity: nat)
    requires Partition(free, views, {}, capacity) && views == map[] && capacity > 0
    ensures free != []
  {
    assert forall s, idx :: !HeldIn(views, s, idx);
    assert 0 in free;
  }

  /** An empty new slot holds nothing. */
  lemma PartitionOpen(free: seq<nat>, views: Views, transit: set<nat>, capacity: nat, s: nat)
    requires Partition(free, views, transit, capacity) && s !in views
    ensures Partition(free, views[s := NEW_SLOT], transit, capacity)
  {
    NewSlotHoldsNothing();
    var views' := views[s := NEW_SLOT];
    forall t, x
      ensures HeldIn(views', t, x) <==> HeldIn(views, t, x)
    {
    }
  }

  /** A pool-sourced pending shred's buffer is held. */
  lemma SourceHeld(views: Views, s: nat, i: nat)
    requires s in views && i in views[s].pending && views[s].pending[i].source.FromPool?
    ensures HeldIn(views, s, views[s].pending[i].source.handle.idx)
  {
    assert HoldsAt(views[s].pending, i, views[s].pending[i].source.handle.idx);
  }

  // ---------- The slot window ----------

  function Threshold(s: State, maxAge: nat): nat
  {
    if s.slotComplete then COMPLETED_RETENTION_SLOTS else maxAge
  }

  predicate TooOld(slot: nat, s: State, lastSlot: nat, maxAge: nat)
  {
    lastSlot > SatAdd(slot, Threshold(s, maxAge), U64_MAX)
  }

  /** The slots an eviction pass ends. */
  ghost function Aging(views: Views, lastSlot: nat, maxAge: nat): set<nat>
  {
    set s | s in views && TooOld(s, views[s], lastSlot, maxAge)
  }

  function BlacklistFloor(lastSlot: nat, maxAge: nat): nat
  {
    SatSub(lastSlot, maxAge + BLACKLIST_EXTRA_SLOTS)
  }

  /** What pruning leaves of the slots turned away. */
  function Unexpired(seen: set<nat>, lastSlot: nat, maxAge: nat): set<nat>
  {
    set s | s in seen && s >= BlacklistFloor(lastSlot, maxAge)
  }

  /** Live slots, slots turned away and slots that once ended. A slot is turned away exactly if it ended
      and is either still within the margin or `lingering`: put on the list since it was last pruned. */
  ghost predicate WindowOk(live: set<nat>, seen: set<nat>, evicted: set<nat>, lingering: set<nat>,
    lastSlot: nat, maxAge: nat)
  {
    && lastSlot <= MAX_PLAUSIBLE_SLOT && maxAge + BLACKLIST_EXTRA_SLOTS <= U64_MAX
    && (forall s :: s in live ==> s <= lastSlot && s !in seen)
    && (forall s :: s in evicted ==> s <= lastSlot)
    && (forall s :: s in seen <==> s in evicted && (lastSlot <= s + maxAge + BLACKLIST_EXTRA_SLOTS || s in lingering))
  }

  /** No reopening: a slot that ended has no accumulator until the window has moved past it by the
      retention and the blacklist margin. */
  lemma NoReopening(live: set<nat>, seen: set<nat>, evicted: set<nat>, lingering: set<nat>, lastSlot: nat,
    maxAge: nat, s: nat)
    requires WindowOk(live, seen, evicted, lingering, lastSlot, maxAge)
    requires s in evicted && lastSlot <= s + maxAge + BLACKLIST_EXTRA_SLOTS
    ensures s !in live
  {
  }

  lemma WindowRetire(live: set<nat>, seen: set<nat>, evicted: set<nat>, lingering: set<nat>, lastSlot: nat,
    maxAge: nat, s: nat)
    requires WindowOk(live, seen, evicted, lingering, lastSlot, maxAge) && s in live
    ensures WindowOk(live - {s}, seen + {s}, evicted + {s}, lingering + {s}, lastSlot, maxAge)
  {
  }

  lemma WindowPrune(live: set<nat>, seen: set<nat>, evicted: set<nat>, lingering: set<nat>, lastSlot: nat, maxAge: nat)
    requires WindowOk(live, seen, evicted, lingering, lastSlot, maxAge)
    ensures WindowOk(live, Unexpired(seen, lastSlot, maxAge), evicted, {}, lastSlot, maxAge)
  {
  }

  /** Until the list is pruned again, a new newest slot leaves everything on it. */
  lemma WindowRaise(live: set<nat>, seen: set<nat>, evicted: set<nat>, lingering: set<nat>, lastSlot: nat,
    maxAge: nat, slot: nat)
    requires WindowOk(live, seen, evicted, lingering, lastSlot, maxAge) && lastSlot < slot <= MAX_PLAUSIBLE_SLOT
    ensures WindowOk(live, seen, evicted, seen, slot, maxAge)
  {
  }

  lemma WindowOpen(live: set<nat>, seen: set<nat>, evicted: set<nat>, lingering: set<nat>, lastSlot: nat,
    maxAge: nat, slot: nat)
    requires WindowOk(live, seen, evicted, lingering, lastSlot, maxAge) && slot <= lastSlot && slot !in seen
    ensures WindowOk(live + {slot}, seen, evicted, lingering, lastSlot, maxAge)
  {
  }

  /** Every live slot within the age bound of the newest. */
  ghost predicate Aged(live: set<nat>, lastSlot: nat, maxAge: nat)
  {
    forall s :: s in live ==> lastSlot <= s + Max(maxAge, 1)
  }

  lemma WindowBound(live: set<nat>, lastSlot: nat, maxAge: nat)
    requires Aged(live, lastSlot, maxAge) && forall s :: s in live ==> s <= lastSlot
    ensures |live| <= Max(maxAge, 1) + 1
  {
    var lo := SatSub(lastSlot, Max(maxAge, 1));
    RangeSize(lo, lastSlot + 1);
    SubsetSize(live, Range(lo, lastSlot + 1));
  }

  /** The live slots after the window has moved up to a slot. */
  ghost function MovedUp(views: Views, lastSlot: nat, slot: nat, maxAge: nat): Views
  {
    if slot > lastSlot then views - Aging(views, slot, maxAge) else views
  }

  type Reply = Option<(nat, transactions)>

  /** A packet is answered with exactly what its slot newly delivered, if that is anything. */
  ghost predicate AnsweredFor(r: Reply, slot: nat, s: State, s': State)
  {
    match r
    case None => s'.log.delivered == s.log.delivered
    case Some(batch) => batch.0 == slot && batch.1 != [] && s'.log.delivered == s.log.delivered + batch.1
  }

  function ReplyOf(slot: nat, txs: transactions): (r: Reply)
    ensures r.None? <==> txs == []
  {
    if txs == [] then None else Some((slot, txs))
  }

  lemma ReplyAnswers(slot: nat, txs: transactions, s: State, s': State)
    requires s'.log.delivered == s.log.delivered + txs
    ensures AnsweredFor(ReplyOf(slot, txs), slot, s, s')
  {
  }

  function Current(views: Views, slot: nat): State
  {
    if slot in views then views[slot] else NEW_SLOT
  }

  /** Moving the window up to a slot never ends that slot, and leaves every other within the bound. */
  lemma MovedIsAged(views: Views, lastSlot: nat, slot: nat, maxAge: nat)
    requires slot <= MAX_PLAUSIBLE_SLOT && forall s :: s in views ==> s <= lastSlot
    ensures slot !in Aging(views, slot, maxAge)
    ensures Current(MovedUp(views, lastSlot, slot, maxAge), slot) == Current(views, slot)
    ensures slot > lastSlot ==> Aged(MovedUp(views, lastSlot, slot, maxAge).Keys + {slot}, slot, maxAge)
  {
  }

  // ---------- Queued tails ----------

  type Batches = seq<(nat, transactions)>

  /** What a slot's harvest adds to what the slot has delivered. */
  ghost function Tail(env: Env, now: nat, s: State): transactions
  {
    var d := Harvest(env, now, s).log.delivered;
    if |s.log.delivered| <= |d| then d[|s.log.delivered|..] else []
  }

  /** The batches owed for slots that end: one for each whose harvest yields anything. */
  ghost function Owed(env: Env, now: nat, views: Views, ended: set<nat>, disabled: bool): set<(nat, transactions)>
  {
    if disabled then {}
    else set s | s in ended && s in views && Tail(env, now, views[s]) != [] :: (s, Tail(env, now, views[s]))
  }

  /** The queue has grown by exactly these batches, each once, in some order. */
  ghost predicate Queued(q: Batches, q': Batches, owed: set<(nat, transactions)>)
  {
    |q| <= |q'| && q == q'[..|q|] && multiset(q'[|q|..]) == multiset(owed)
  }

  lemma QueuedNone(q: Batches, env: Env, now: nat, views: Views, disabled: bool)
    ensures Queued(q, q, Owed(env, now, views, {}, disabled))
  {
    assert Owed(env, now, views, {}, disabled) == {};
    assert q[|q|..] == [];
  }

  lemma TailIs(env: Env, now: nat, s: State, tail: transactions)
    requires Harvest(env, now, s).log.delivered == s.log.delivered + tail
    ensures Tail(env, now, s) == tail
  {
  }

  lemma QueuedOneMore(q: Batches, q': Batches, env: Env, now: nat, views: Views, ended: set<nat>,
    disabled: bool, s: nat)
    requires Queued(q, q', Owed(env, now, views, ended, disabled)) && s in views && s !in ended
    ensures Queued(q, q' + Due(s, Tail(env, now, views[s]), disabled), Owed(env, now, views, ended + {s}, disabled))
  {
    hide Tail;
    var due := Due(s, Tail(env, now, views[s]), disabled);
    var owed, owed' := Owed(env, now, views, ended, disabled), Owed(env, now, views, ended + {s}, disabled);
    assert (q' + due)[|q|..] == q'[|q|..] + due;
    if due == [] {
      assert owed' == owed;
    } else {
      assert due[0] !in owed;
      assert owed' == owed + {due[0]};
      assert multiset(owed') == multiset(owed) + multiset{due[0]};
    }
  }

  function Due(s: nat, tail: transactions, disabled: bool): Batches
  {
    if tail == [] || disabled then [] else [(s, tail)]
  }

  // ---------- Counters ----------

  type u64 = x: nat | x <= U64_MAX

  datatype Counters = Counters(
    poolExhausted: u64, dataShreds: u64, codeShreds: u64, bytesReceived: u64,
    tooShort: u64, unknownVariant: u64, payloadInvalid: u64, slotRange: u64, droppedKnown: u64,
    slotsCompleted: u64, slotsEvictedByAge: u64, harvestedBatches: u64)

  /** The slots that end complete, and those whose harvest yields anything. */
  ghost function Completing(env: Env, now: nat, views: Views, ended: set<nat>): set<nat>
  {
    set s | s in ended && s in views && Harvest(env, now, views[s]).slotComplete
  }

  ghost function Yielding(env: Env, now: nat, views: Views, ended: set<nat>): set<nat>
  {
    set s | s in ended && s in views && Tail(env, now, views[s]) != []
  }

  /** What the end of one slot adds. */
  function CountEnd(c: Counters, complete: bool, fruitful: bool): Counters
  {
    var c1 := if fruitful then c.(harvestedBatches := WrapAdd64(c.harvestedBatches, 1)) else c;
    if complete then c1.(slotsCompleted := WrapAdd64(c1.slotsCompleted, 1))
    else c1.(slotsEvictedByAge := WrapAdd64(c1.slotsEvictedByAge, 1))
  }

  /** The end of these slots counts each once, as complete or as aged, and each harvest that yields;
      nothing else. */
  ghost predicate Counted(c: Counters, c': Counters, env: Env, now: nat, views: Views, ended: set<nat>)
  {
    && c'.slotsCompleted == WrapAdd64(c.slotsCompleted, |Completing(env, now, views, ended)|)
    && c'.slotsEvictedByAge == WrapAdd64(c.slotsEvictedByAge, |ended - Completing(env, now, views, ended)|)
    && c'.harvestedBatches == WrapAdd64(c.harvestedBatches, |Yielding(env, now, views, ended)|)
    && c' == c.(slotsCompleted := c'.slotsCompleted, slotsEvictedByAge := c'.slotsEvictedByAge,
                harvestedBatches := c'.harvestedBatches)
  }

  lemma CountedNone(c: Counters, env: Env, now: nat, views: Views)
    ensures Counted(c, c, env, now, views, {})
  {
    hide WrapAdd64;
    assert Completing(env, now, views, {}) == {};
    assert Yielding(env, now, views, {}) == {};
    WrapNone(c.slotsCompleted);
    WrapNone(c.slotsEvictedByAge);
    WrapNone(c.harvestedBatches);
  }

  lemma WrapNone(x: u64)
    ensures WrapAdd64(x, 0) == x
  {
  }

  lemma CountedOneMore(c: Counters, c': Counters, env: Env, now: nat, views: Views, ended: set<nat>, s: nat)
    requires Counted(c, c', env, now, views, ended) && s in views && s !in ended
    ensures Counted(c, CountEnd(c', Harvest(env, now, views[s]).slotComplete, Tail(env, now, views[s]) != []),
              env, now, views, ended + {s})
  {
    hide Harvest, Tail, WrapAdd64, Completing, Yielding;
    CompletingOneMore(env, now, views, ended, s);
    YieldingOneMore(env, now, views, ended, s);
    WrapMore(c.slotsCompleted, |Completing(env, now, views, ended)|, 1);
    WrapMore(c.slotsEvictedByAge, |ended - Completing(env, now, views, ended)|, 1);
    WrapMore(c.harvestedBatches, |Yielding(env, now, views, ended)|, 1);
  }

  lemma CompletingOneMore(env: Env, now: nat, views: Views, ended: set<nat>, s: nat)
    requires s in views && s !in ended
    ensures var n := if Harvest(env, now, views[s]).slotComplete then 1 else 0;
            && |Completing(env, now, views, ended + {s})| == |Completing(env, now, views, ended)| + n
            && |ended + {s} - Completing(env, now, views, ended + {s})|
               == |ended - Completing(env, now, views, ended)| + 1 - n
  {
    hide Harvest;
    var done, complete := Completing(env, now, views, ended), Harvest(env, now, views[s]).slotComplete;
    assert Completing(env, now, views, ended + {s}) == if complete then done + {s} else done;
    SplitOneMore(ended, done, s, complete);
  }

  lemma SplitOneMore(ended: set<nat>, done: set<nat>, s: nat, complete: bool)
    requires done <= ended && s !in ended
    ensures var n, done' := if complete then 1 else 0, if complete then done + {s} else done;
            |done'| == |done| + n && |ended + {s} - done'| == |ended - done| + 1 - n
  {
    if complete {
      assert ended + {s} - (done + {s}) == ended - done;
    } else {
      assert ended + {s} - done == ended - done + {s};
    }
  }

  lemma YieldingOneMore(env: Env, now: nat, views: Views, ended: set<nat>, s: nat)
    requires s in views && s !in ended
    ensures |Yielding(env, now, views, ended + {s})|
         == |Yielding(env, now, views, ended)| + (if Tail(env, now, views[s]) != [] then 1 else 0)
  {
    hide Tail;
    var some, some' := Yielding(env, now, views, ended), Yielding(env, now, views, ended + {s});
    assert some' == if Tail(env, now, views[s]) != [] then some + {s} else some;
  }

  lemma WrapMore(x: nat, n: nat, m: nat)
    ensures WrapAdd64(WrapAdd64(x, n), m) == WrapAdd64(x, n + m)
  {
  }

  /** A packet that no buffer could be found for. */
  function CountRefusal(c: Counters): Counters
  {
    c.(poolExhausted := WrapAdd64(c.poolExhausted, 1))
  }

  /** What a packet adds to the counters, by what became of it. */
  function Tally(c: Counters, a: Admission, len: nat): Counters
  {
    var c1 := c.(bytesReceived := WrapAdd64(c.bytesReceived, len));
    match a
    case Unparseable(TooShort) => c1.(tooShort := WrapAdd64(c1.tooShort, 1))
    case Unparseable(UnknownVariant) => c1.(unknownVariant := WrapAdd64(c1.unknownVariant, 1))
    case Unparseable(PayloadInvalid) => c1.(payloadInvalid := WrapAdd64(c1.payloadInvalid, 1))
    case OutOfRange => c1.(slotRange := WrapAdd64(c1.slotRange, 1))
    case Known => c1.(droppedKnown := WrapAdd64(c1.droppedKnown, 1))
    case FecDisabled => c1.(codeShreds := WrapAdd64(c1.codeShreds, 1))
    case ToData(_, _) => c1.(dataShreds := WrapAdd64(c1.dataShreds, 1))
    case ToCode(_, _) => c1.(codeShreds := WrapAdd64(c1.codeShreds, 1))
  }

  /** `rollup_accumulator`. */
  function RollUp(t: Stats, a: Stats): Stats
  {
    Stats(WrapAdd64(t.decodeErrors, a.decodeErrors),
          WrapAdd64(t.recoveriesDone, a.recoveriesDone),
          WrapAdd64(t.recoveryFailures, a.recoveryFailures),
          WrapAdd64(t.batchesStreaming, a.batchesStreaming),
          WrapAdd64(t.batchesFallback, a.batchesFallback),
          WrapAdd64(t.batchesSkipped, a.batchesSkipped),
          WrapAdd64(t.fecSetsDiscarded, a.fecSetsDiscarded),
          WrapAdd64(t.fecSetsEvicted, a.fecSetsEvicted),
          WrapAdd64(t.salvagedTail, a.salvagedTail),
          WrapAdd64(t.forcedCorrupted, a.forcedCorrupted),
          WrapAdd64(t.forcedTimeout, a.forcedTimeout))
  }

  ghost predicate InWidth(a: Stats)
  {
    && a.decodeErrors <= U64_MAX && a.recoveriesDone <= U64_MAX && a.recoveryFailures <= U64_MAX
    && a.batchesStreaming <= U64_MAX && a.batchesFallback <= U64_MAX && a.batchesSkipped <= U64_MAX
    && a.fecSetsDiscarded <= U64_MAX && a.fecSetsEvicted <= U64_MAX && a.salvagedTail <= U64_MAX
    && a.forcedCorrupted <= U64_MAX && a.forcedTimeout <= U64_MAX
  }

  function Plus(a: Stats, b: Stats): Stats
  {
    Stats(a.decodeErrors + b.decodeErrors, a.recoveriesDone + b.recoveriesDone, a.recoveryFailures + b.recoveryFailures,
          a.batchesStreaming + b.batchesStreaming, a.batchesFallback + b.batchesFallback,
            a.batchesSkipped + b.batchesSkipped,
          a.fecSetsDiscarded + b.fecSetsDiscarded, a.fecSetsEvicted + b.fecSetsEvicted, a.salvagedTail + b.salvagedTail,
          a.forcedCorrupted + b.forcedCorrupted, a.forcedTimeout + b.forcedTimeout)
  }

  lemma RollUpNone(t: Stats)
    requires InWidth(t)
    ensures RollUp(t, NO_STATS) == t
  {
    hide WrapAdd64;
    WrapNone(t.decodeErrors);
    WrapNone(t.recoveriesDone);
    WrapNone(t.recoveryFailures);
    WrapNone(t.batchesStreaming);
    WrapNone(t.batchesFallback);
    WrapNone(t.batchesSkipped);
    WrapNone(t.fecSetsDiscarded);
    WrapNone(t.fecSetsEvicted);
    WrapNone(t.salvagedTail);
    WrapNone(t.forcedCorrupted);
    WrapNone(t.forcedTimeout);
  }

  /** Rolling up one after another is rolling up the sum. */
  lemma RollUpMore(t: Stats, a: Stats, b: Stats)
    ensures RollUp(RollUp(t, a), b) == RollUp(t, Plus(a, b)) && InWidth(RollUp(t, a))
  {
    hide WrapAdd64;
    WrapMore(t.decodeErrors, a.decodeErrors, b.decodeErrors);
    WrapMore(t.recoveriesDone, a.recoveriesDone, b.recoveriesDone);
    WrapMore(t.recoveryFailures, a.recoveryFailures, b.recoveryFailures);
    WrapMore(t.batchesStreaming, a.batchesStreaming, b.batchesStreaming);
    WrapMore(t.batchesFallback, a.batchesFallback, b.batchesFallback);
    WrapMore(t.batchesSkipped, a.batchesSkipped, b.batchesSkipped);
    WrapMore(t.fecSetsDiscarded, a.fecSetsDiscarded, b.fecSetsDiscarded);
    WrapMore(t.fecSetsEvicted, a.fecSetsEvicted, b.fecSetsEvicted);
    WrapMore(t.salvagedTail, a.salvagedTail, b.salvagedTail);
    WrapMore(t.forcedCorrupted, a.forcedCorrupted, b.forcedCorrupted);
    WrapMore(t.forcedTimeout, a.forcedTimeout, b.forcedTimeout);
  }

  /** One counter of every live slot. */
  ghost function Live(views: Views, f: Stats -> nat): map<nat, nat>
  {
    map s | s in views :: f(views[s].stats)
  }

  function Calls(s: State): nat
  {
    |s.log.completions|
  }

  /** The finished ranges of every live slot. */
  ghost function LiveCalls(views: Views): map<nat, nat>
  {
    map s | s in views :: Calls(views[s])
  }

  function ByStreaming(a: Stats): nat
  {
    a.batchesStreaming
  }

  function ByFallback(a: Stats): nat
  {
    a.batchesFallback
  }

  function Skipped(a: Stats): nat
  {
    a.batchesSkipped
  }

  function Corrupted(a: Stats): nat
  {
    a.forcedCorrupted
  }

  /** A public total: the rolled-up part and the live slots. */
  ghost function Public(totals: Stats, views: Views, f: Stats -> nat): nat
  {
    f(totals) + MapSum(Live(views, f))
  }

  /** Rolled-up totals stand for this many finished ranges of slots that have ended. */
  ghost predicate TotalsAccount(totals: Stats, closed: nat)
  {
    && (closed <= U64_MAX ==> totals.batchesStreaming + totals.batchesFallback + totals.batchesSkipped == closed)
    && totals.forcedCorrupted == 0 && InWidth(totals)
  }

  lemma RollUpAccounts(totals: Stats, closed: nat, a: Stats, calls: nat)
    requires TotalsAccount(totals, closed) && Accounted(a, calls)
    ensures TotalsAccount(RollUp(totals, a), closed + calls)
  {
    hide WrapAdd64;
    RollUpMore(totals, a, NO_STATS);
    WrapSmall(totals.batchesStreaming, a.batchesStreaming);
    WrapSmall(totals.batchesFallback, a.batchesFallback);
    WrapSmall(totals.batchesSkipped, a.batchesSkipped);
    WrapSmall(totals.forcedCorrupted, a.forcedCorrupted);
  }

  lemma WrapSmall(x: nat, n: nat)
    ensures x + n <= U64_MAX ==> WrapAdd64(x, n) == x + n
  {
  }

  // ---------- What ending slots adds ----------

  /** The last states of the slots that end. */
  ghost function Harvested(env: Env, now: nat, views: Views, ended: set<nat>): Views
  {
    map s | s in ended && s in views :: Harvest(env, now, views[s])
  }

  /** The counters of several slots together. */
  ghost function StatsSum(views: Views): Stats
    decreases |views|
  {
    if views == map[] then NO_STATS
    else
      var s := Least(views.Keys);
      assert |views - {s}| < |views|;
      Plus(StatsSum(views - {s}), views[s].stats)
  }

  /** In whatever order they are added. */
  lemma {:induction false} StatsSumWithout(views: Views, s: nat)
    requires s in views
    ensures StatsSum(views) == Plus(StatsSum(views - {s}), views[s].stats)
    decreases |views|
  {
    hide Plus;
    var l := Least(views.Keys);
    if l != s {
      var rest := views - {s};
      assert |views - {l}| < |views|;
      StatsSumWithout(views - {l}, s);
      assert l in rest.Keys && Least(rest.Keys) in views.Keys;
      assert Least(rest.Keys) == l && views - {l} - {s} == rest - {l};
      PlusSwap(StatsSum(rest - {l}), views[s].stats, views[l].stats);
    }
  }

  lemma PlusSwap(a: Stats, b: Stats, c: Stats)
    ensures Plus(Plus(a, b), c) == Plus(Plus(a, c), b)
  {
  }

  /** The end of these slots adds the ranges they finished, and rolls their counters up. */
  ghost predicate Settled(totals: Stats, closed: nat, totals': Stats, closed': nat, env: Env, now: nat,
    views: Views, ended: set<nat>)
  {
    var hs := Harvested(env, now, views, ended);
    closed' == closed + MapSum(LiveCalls(hs)) && totals' == RollUp(totals, StatsSum(hs))
  }

  lemma SettledNone(totals: Stats, closed: nat, env: Env, now: nat, views: Views)
    requires InWidth(totals)
    ensures Settled(totals, closed, totals, closed, env, now, views, {})
  {
    hide RollUp, Harvest;
    assert Harvested(env, now, views, {}) == map[];
    assert LiveCalls(map[]) == map[];
    RollUpNone(totals);
  }

  lemma SettledOneMore(totals: Stats, closed: nat, totals': Stats, closed': nat, env: Env, now: nat,
    views: Views, ended: set<nat>, s: nat)
    requires Settled(totals, closed, totals', closed', env, now, views, ended) && s in views && s !in ended
    ensures var h := Harvest(env, now, views[s]);
            Settled(totals, closed, RollUp(totals', h.stats), closed' + Calls(h), env, now, views, ended + {s})
  {
    hide RollUp, Harvest, Plus, LiveCalls, StatsSum;
    var hs: Views, hs': Views := Harvested(env, now, views, ended), Harvested(env, now, views, ended + {s});
    assert hs' - {s} == hs;
    LiveCallsWithout(hs', s);
    StatsSumWithout(hs', s);
    RollUpMore(totals, StatsSum(hs), hs'[s].stats);
  }

  lemma LiveWithout(views: Views, s: nat, f: Stats -> nat)
    requires s in views
    ensures MapSum(Live(views, f)) == MapSum(Live(views - {s}, f)) + f(views[s].stats)
  {
    assert Live(views - {s}, f) == Live(views, f) - {s};
    MapSumRemove(Live(views, f), s);
  }

  lemma NoneLive(views: Views, f: Stats -> nat)
    requires views.Keys == {}
    ensures MapSum(Live(views, f)) == 0
  {
    assert Live(views, f) == map[];
  }

  lemma LiveCallsWithout(views: Views, s: nat)
    requires s in views
    ensures MapSum(LiveCalls(views)) == MapSum(LiveCalls(views - {s})) + Calls(views[s])
  {
    assert LiveCalls(views - {s}) == LiveCalls(views) - {s};
    MapSumRemove(LiveCalls(views), s);
  }

  /** Over live slots the three batch counters add up to the finished ranges, and no range was ever
      finished as corrupted. */
  lemma {:induction false} LiveAccounts(views: Views)
    requires forall s :: s in views ==> Accounted(views[s].stats, Calls(views[s]))
    requires MapSum(LiveCalls(views)) <= U64_MAX
    ensures MapSum(Live(views, ByStreaming)) + MapSum(Live(views, ByFallback))
          + MapSum(Live(views, Skipped)) == MapSum(LiveCalls(views))
    decreases |views|
  {
    if views == map[] {
      assert LiveCalls(views) == map[];
      assert Live(views, ByStreaming) == map[];
      assert Live(views, ByFallback) == map[];
      assert Live(views, Skipped) == map[];
    } else {
      var s := Least(views.Keys);
      LiveCallsWithout(views, s);
      LiveWithout(views, s, ByStreaming);
      LiveWithout(views, s, ByFallback);
      LiveWithout(views, s, Skipped);
      LiveAccounts(views - {s});
    }
  }

  lemma {:induction false} LiveNoneCorrupted(views: Views)
    requires forall s :: s in views ==> Accounted(views[s].stats, Calls(views[s]))
    ensures MapSum(Live(views, Corrupted)) == 0
    decreases |views|
  {
    if views == map[] {
      assert Live(views, Corrupted) == map[];
    } else {
      var s := Least(views.Keys);
      LiveWithout(views, s, Corrupted);
      LiveNoneCorrupted(views - {s});
    }
  }

  /** The public batch totals together count every finished range there ever was, of ended slots and of
      live ones. */
  lemma PublicTotalsCount(totals: Stats, closed: nat, views: Views)
    requires TotalsAccount(totals, closed)
    requires forall s :: s in views ==> Accounted(views[s].stats, Calls(views[s]))
    requires closed + MapSum(LiveCalls(views)) <= U64_MAX
    ensures Public(totals, views, ByStreaming) + Public(totals, views, ByFallback) + Public(totals, views, Skipped)
         == closed + MapSum(LiveCalls(views))
    ensures Public(totals, views, Corrupted) == 0
  {
    LiveAccounts(views);
    LiveNoneCorrupted(views);
  }

  /** Ending a slot changes the public batch totals by exactly the ranges its harvest finished. */
  lemma EvictionConserves(env: Env, now: nat, totals: Stats, closed: nat, views: Views, s: nat)
    requires s in views && TotalsAccount(totals, closed)
    requires forall t :: t in views ==> Resting(env, views[t])
    requires closed + MapSum(LiveCalls(views)) + Calls(Harvest(env, now, views[s])) <= U64_MAX
    ensures var h := Harvest(env, now, views[s]);
            var totals', views' := RollUp(totals, h.stats), views - {s};
            && Calls(views[s]) <= Calls(h)
            && Public(totals', views', ByStreaming) + Public(totals', views', ByFallback)
               + Public(totals', views', Skipped)
            == Public(totals, views, ByStreaming) + Public(totals, views, ByFallback) + Public(totals, views, Skipped)
             + (Calls(h) - Calls(views[s]))
  {
    hide Harvest, Shape, Tracks, Ledger;
    var h := Harvest(env, now, views[s]);
    HarvestCloses(env, now, views[s]);
    LiveCallsWithout(views, s);
    RollUpAccounts(totals, closed, h.stats, Calls(h));
    PublicTotalsCount(totals, closed, views);
    PublicTotalsCount(RollUp(totals, h.stats), closed + Calls(h), views - {s});
  }
}
