/** The listener object (src/listener.rs): one accumulator per live slot, one buffer pool, one window. */
module Listener {
  import opened Bytes
  import opened Collections
  import opened Parser
  import opened Decoder
  import opened Fec
  import opened Slot
  import opened Invariant
  import opened Lifetime
  import opened Handles
  import opened Pool
  import opened Accumulator
  import opened Window
  import opened Passage
  import opened Fates

  class ShredListener {
    const env: Env
    const pool: ShredPool
    const rsCache: ReedSolomonCache
    const maxAge: nat
    const enableFec: bool
    const disableSalvageDelivery: bool

    var slots: map<nat, SlotAccumulator>
    var recentlySeen: set<nat>
    var pendingBatches: seq<(nat, transactions)>
    var lastSlot: nat
    var counters: Counters
    var totals: Stats

    ghost var views: Views
    ghost var evicted: set<nat>   // slots that have ever ended
    ghost var lingering: set<nat> // slots turned away since those were last pruned
    ghost var closed: nat         // finished ranges of slots that have ended
    ghost var Repr: set<object>

    /** Each live slot has its own accumulator, at rest, in the state recorded for it. */
    static ghost predicate SlotsAgree(slots: map<nat, SlotAccumulator>, views: Views, env: Env, pool: ShredPool)
      reads slots.Values, set a: SlotAccumulator, o | a in slots.Values && o in a.Repr :: o
    {
      && views.Keys == slots.Keys
      && (forall s :: s in slots ==>
            slots[s].Open() && slots[s].View() == views[s] && slots[s].env == env && slots[s].pool == pool)
      && (forall s, t :: s in slots && t in slots && s != t ==> slots[s].Repr !! slots[t].Repr)
    }

    /** Every byte of every handle a pending shred holds is still in its buffer. */
    static ghost predicate Coherent(pool: ShredPool, views: Views)
      reads pool.buffers
    {
      forall s, i :: s in views && i in views[s].pending && views[s].pending[i].source.FromPool? ==>
        pool.Backs(views[s].pending[i].source.handle)
    }

    /** The accumulators share no object with each other's surroundings. */
    static ghost predicate Separate(slots: map<nat, SlotAccumulator>, Repr: set<object>, own: set<object>)
      reads slots.Values
    {
      forall s :: s in slots ==> slots[s].Repr <= Repr && slots[s].Repr !! own
    }

    ghost function Own(): set<object>
    {
      {this, pool, rsCache, pool.buffers}
    }

    ghost predicate Base()
      reads this, Repr
    {
      && Own() <= Repr && slots.Values <= Repr && Separate(slots, Repr, Own())
      && pool.buffers.Length0 == pool.capacity && pool.buffers.Length1 == BUF_SIZE && 0 < pool.capacity <= U16_MAX
      && rsCache.Valid() && rsCache.lib == env.lib
      && (forall s :: s in slots ==> slots[s].Repr <= Repr)
      && SlotsAgree(slots, views, env, pool)
      && Coherent(pool, views)
    }

    /** The invariant with some buffers in transit. */
    ghost predicate ValidWith(transit: set<nat>)
      reads this, Repr
    {
      && Base() && TotalsAccount(totals, closed)
      && Partition(pool.free, views, transit, pool.capacity)
      && WindowOk(views.Keys, recentlySeen, evicted, lingering, lastSlot, maxAge)
    }

    ghost predicate Valid()
      reads this, Repr
    {
      ValidWith({})
    }

    ghost function Setup(): Terms
    {
      Terms(env, pool.capacity, maxAge, enableFec, disableSalvageDelivery)
    }

    ghost function Here(): Standing
      reads this
    {
      Standing(views, evicted, recentlySeen, lingering, lastSlot, counters, totals, closed, pendingBatches)
    }

    constructor (env: Env, poolSize: nat, maxAge: nat, enableFec: bool, disableSalvageDelivery: bool)
      requires 0 < poolSize <= U16_MAX && maxAge + BLACKLIST_EXTRA_SLOTS <= U64_MAX
      ensures Valid() && Here() == NEW_LISTENER
      ensures Setup() == Terms(env, poolSize, maxAge, enableFec, disableSalvageDelivery)
    {
      hide SlotsAgree, Coherent, Separate, Partition, WindowOk, TotalsAccount;
      this.env := env;
      this.maxAge := maxAge;
      this.enableFec := enableFec;
      this.disableSalvageDelivery := disableSalvageDelivery;
      var p := new ShredPool(poolSize);
      var c := new ReedSolomonCache(env.lib);
      pool := p;
      rsCache := c;
      slots := map[];
      recentlySeen := {};
      pendingBatches := [];
      lastSlot := 0;
      counters := NO_COUNTERS;
      totals := NO_STATS;
      views := map[];
      evicted := {};
      lingering := {};
      closed := 0;
      Repr := {this, p, c, p.buffers};
      new;
      NothingHeld(pool.free, pool.capacity);
      NoSlotsAgree(env, pool, Repr, Own());
      NothingYet(maxAge);
      assert views.Keys == {};
    }

    static lemma NoSlotsAgree(env: Env, pool: ShredPool, Repr: set<object>, own: set<object>)
      ensures SlotsAgree(map[], map[], env, pool) && Coherent(pool, map[]) && Separate(map[], Repr, own)
    {
    }

    // ---------- Ending a slot ----------

    /** Takes a slot out of the window; its accumulator is still alive. */
    method Detach(s: nat) returns (acc: SlotAccumulator)
      requires Base() && s in slots
      modifies this`slots, this`views
      ensures Base() && slots == old(slots) - {s} && views == old(views) - {s}
      ensures acc == old(slots)[s] && Apart(acc) && acc.View() == old(views)[s]
    {
      hide SlotsAgree, Coherent, Separate, SlotAccumulator.Valid, SlotAccumulator.View, Resting, Bounded, Distinct;
      NotThis();
      SeparateDetach(slots, Repr, Own(), s);
      SlotsAgreeDetach(slots, views, env, pool, s);
      CoherentDetach(pool, views, s);
      acc := slots[s];
      slots := slots - {s};
      views := views - {s};
    }

    static lemma SeparateDetach(slots: map<nat, SlotAccumulator>, Repr: set<object>, own: set<object>, s: nat)
      requires Separate(slots, Repr, own) && s in slots
      ensures Separate(slots - {s}, Repr, own) && slots[s].Repr <= Repr && slots[s].Repr !! own
    {
    }

    static lemma SlotsAgreeDetach(slots: map<nat, SlotAccumulator>, views: Views, env: Env, pool: ShredPool, s: nat)
      requires SlotsAgree(slots, views, env, pool) && s in slots
      ensures SlotsAgree(slots - {s}, views - {s}, env, pool)
      ensures slots[s].Open() && s in views && slots[s].View() == views[s] && slots[s].env == env
        && slots[s].pool == pool
      ensures forall t :: t in slots && t != s ==> slots[t].Repr !! slots[s].Repr && slots[t] !in slots[s].Repr
    {
      hide SlotAccumulator.Valid, SlotAccumulator.View, Resting, Bounded, Distinct;
      forall t | t in slots
        ensures slots[t] in slots[t].Repr
      {
        slots[t].Owned();
      }
    }

    static lemma CoherentDetach(pool: ShredPool, views: Views, s: nat)
      requires Coherent(pool, views)
      ensures Coherent(pool, views - {s})
    {
    }

    /** An accumulator of this listener that no live slot uses. */
    ghost predicate Apart(acc: SlotAccumulator)
      reads this, acc, acc.Repr, slots.Values
    {
      && acc.Open() && acc.env == env && acc.pool == pool && acc.Repr <= Repr
      && acc.Repr !! Own()
      && forall s :: s in slots ==> slots[s].Repr !! acc.Repr && slots[s] !in acc.Repr
    }

    /** Harvests a detached accumulator and drops it: everything it held is free again. */
    method HarvestAndDrop(now: nat, acc: SlotAccumulator) returns (tail: transactions, ghost given: seq<nat>)
      requires Base() && Apart(acc)
      modifies acc.Repr, pool`free, rsCache
      ensures Base()
      ensures pool.free == old(pool.free) + given
      ensures NoDup(given) && Elements(given) == old(Held(acc.pending))
      ensures acc.stats == Harvest(env, now, old(acc.View())).stats
      ensures acc.slotComplete == Harvest(env, now, old(acc.View())).slotComplete
      ensures rsCache.Valid()
      ensures Harvest(env, now, old(acc.View())).log.delivered == old(acc.View()).log.delivered + tail
    {
      hide Harvest, Shed, Distinct, Held, Resting, Bounded, SlotsAgree, Coherent, SlotAccumulator.Valid,
        SlotAccumulator.View, SlotAccumulator.FecAgree;
      ghost var before := acc.View();
      acc.Owned();
      assert forall s, o :: s in slots && o in slots[s].Repr ==> o !in acc.Repr && o != pool && o != rsCache;

      ghost var harvested, dropped;
      tail, harvested := acc.TryHarvestTail(now, rsCache);
      acc.Owned();
      ShedKeeps(before, acc.View(), harvested);
      dropped := acc.Drop();
      given := harvested + dropped;
      assert SlotsAgree(slots, views, env, pool);
      AllGiven(before, acc.View(), harvested, dropped);
    }

    /** Takes a slot out of the window, harvests it and drops it. */
    method EndSlot(now: nat, s: nat) returns (tail: transactions, stats: Stats, complete: bool, ghost given: seq<nat>)
      requires Base() && s in slots
      modifies Repr - {pool.buffers}
      ensures Base() && Repr == old(Repr)
      ensures slots == old(slots) - {s} && views == old(views) - {s}
      ensures pool.free == old(pool.free) + given
      ensures NoDup(given) && Elements(given) == Held(old(views)[s].pending)
      ensures var h := Harvest(env, now, old(views)[s]);
              && stats == h.stats && complete == h.slotComplete
              && h.log.delivered == old(views)[s].log.delivered + tail
      ensures Here() == old(Here()).(views := views)
    {
      hide Harvest, SlotsAgree, Coherent, Held, Distinct, Resting, Bounded, Separate;
      var acc := Detach(s);
      tail, given := HarvestAndDrop(now, acc);
      stats := acc.stats;
      complete := acc.slotComplete;
    }

    /** What both evictions do to a slot: harvest it, queue what that yields, count it, roll its
        counters up, turn it away from now on and drop it. */
    method RetireSlot(now: nat, s: nat, ghost transit: set<nat>)
      requires ValidWith(transit) && s in slots
      modifies Repr - {pool.buffers}
      ensures ValidWith(transit) && Repr == old(Repr)
      ensures slots == old(slots) - {s} && views == old(views) - {s}
      ensures s in old(views) && Here() == EndOne(Setup(), old(Here()), s, now)
    {
      hide Harvest, SlotsAgree, Coherent, Separate, Partition, WindowOk, RollUp, TotalsAccount, Tail, Due;
      ghost var before := views;
      RetireAccounts(s, now);
      assert (before - {s}).Keys + {s} == before.Keys;
      var tail, stats, complete := TakeOut(now, s, transit);
      Book(s, tail, stats, complete, Calls(Harvest(env, now, before[s])), transit);
    }

    /** Writes down what the end of a slot yielded. */
    method Book(s: nat, tail: transactions, stats: Stats, complete: bool, ghost calls: nat, ghost transit: set<nat>)
      requires Base() && Partition(pool.free, views, transit, pool.capacity) && s !in views
      requires WindowOk(views.Keys + {s}, recentlySeen, evicted, lingering, lastSlot, maxAge)
      requires TotalsAccount(RollUp(totals, stats), closed + calls)
      modifies this`counters, this`pendingBatches, this`totals, this`closed, this`recentlySeen, this`evicted,
        this`lingering
      ensures ValidWith(transit)
      ensures Here() == old(Here()).(
                evicted := old(evicted) + {s}, seen := old(recentlySeen) + {s}, lingering := old(lingering) + {s},
                counters := CountEnd(old(counters), complete, tail != []),
                totals := RollUp(old(totals), stats), closed := old(closed) + calls,
                queue := old(pendingBatches) + Due(s, tail, disableSalvageDelivery))
    {
      hide SlotsAgree, Coherent, Separate, Partition, WindowOk, RollUp, TotalsAccount, Due, WrapAdd64;
      NotThis();
      assert views.Keys + {s} - {s} == views.Keys;
      QueueTail(s, tail);
      Settle(s, stats, complete, calls, views.Keys + {s});
    }

    /** Ends a slot as far as its own buffers go. */
    method TakeOut(now: nat, s: nat, ghost transit: set<nat>) returns (tail: transactions, stats: Stats, complete: bool)
      requires Base() && Partition(pool.free, views, transit, pool.capacity) && s in slots
      modifies Repr - {pool.buffers}
      ensures Base() && Repr == old(Repr) && Partition(pool.free, views, transit, pool.capacity)
      ensures slots == old(slots) - {s} && views == old(views) - {s} && Here() == old(Here()).(views := views)
      ensures s in old(views)
      ensures var h := Harvest(env, now, old(views)[s]);
              stats == h.stats && complete == h.slotComplete && tail == Tail(env, now, old(views)[s])
    {
      hide Harvest, SlotsAgree, Coherent, Separate, Partition, Held, Tail;
      KeysAgree();
      ghost var given;
      tail, stats, complete, given := EndSlot(now, s);
      PartitionRetire(old(pool.free), old(views), transit, pool.capacity, s, given);
      TailIs(env, now, old(views)[s], tail);
    }

    /** What a harvest yields is queued for delivery, unless that is switched off. */
    method QueueTail(s: nat, tail: transactions)
      modifies this`counters, this`pendingBatches
      ensures pendingBatches == old(pendingBatches) + Due(s, tail, disableSalvageDelivery)
      ensures counters == old(counters).(harvestedBatches :=
                if tail == [] then old(counters).harvestedBatches else WrapAdd64(old(counters).harvestedBatches, 1))
    {
      if tail != [] {
        counters := counters.(harvestedBatches := WrapAdd64(counters.harvestedBatches, 1));
        if !disableSalvageDelivery {
          pendingBatches := pendingBatches + [(s, tail)];
        }
      }
    }

    method Settle(s: nat, stats: Stats, complete: bool, ghost calls: nat, ghost live: set<nat>)
      requires WindowOk(live, recentlySeen, evicted, lingering, lastSlot, maxAge) && s in live
      modifies this`counters, this`totals, this`closed, this`recentlySeen, this`evicted, this`lingering
      ensures WindowOk(live - {s}, recentlySeen, evicted, lingering, lastSlot, maxAge)
      ensures totals == RollUp(old(totals), stats) && closed == old(closed) + calls
      ensures recentlySeen == old(recentlySeen) + {s} && evicted == old(evicted) + {s}
        && lingering == old(lingering) + {s}
      ensures counters == if complete then old(counters).(slotsCompleted := WrapAdd64(old(counters).slotsCompleted, 1))
                          else old(counters).(slotsEvictedByAge := WrapAdd64(old(counters).slotsEvictedByAge, 1))
    {
      WindowRetire(live, recentlySeen, evicted, lingering, lastSlot, maxAge, s);
      if complete {
        counters := counters.(slotsCompleted := WrapAdd64(counters.slotsCompleted, 1));
      } else {
        counters := counters.(slotsEvictedByAge := WrapAdd64(counters.slotsEvictedByAge, 1));
      }
      totals := RollUp(totals, stats);
      recentlySeen := recentlySeen + {s};
      closed := closed + calls;
      evicted := evicted + {s};
      lingering := lingering + {s};
    }

    lemma RetireAccounts(s: nat, now: nat)
      requires Base() && TotalsAccount(totals, closed) && s in slots
      ensures s in views
      ensures var h := Harvest(env, now, views[s]);
              TotalsAccount(RollUp(totals, h.stats), closed + Calls(h))
    {
      hide Harvest, Shape, Tracks, Ledger;
      HarvestCloses(env, now, views[s]);
      RollUpAccounts(totals, closed, Harvest(env, now, views[s]).stats, Calls(Harvest(env, now, views[s])));
    }

    // ---------- Eviction ----------

    /** Every slot past its threshold ends, in whatever order the map yields them; then slots below the
        blacklist floor are forgotten. */
    method EvictOldSlots(now: nat, ghost transit: set<nat>)
      requires ValidWith(transit)
      modifies Repr - {pool.buffers}
      ensures ValidWith(transit) && Repr == old(Repr)
      ensures Swept(Setup(), old(Here()), Here(), now)
    {
      hide SlotsAgree, Coherent, Partition, WindowOk, TotalsAccount, Separate, Ended, Aging;
      var aged := AgedSlots();
      RetireAll(now, aged, transit);
      EndedSeen(Setup(), old(Here()), aged, Here(), now);
      Prune(transit);
    }

    method RetireAll(now: nat, aged: set<nat>, ghost transit: set<nat>)
      requires ValidWith(transit) && aged <= slots.Keys
      modifies Repr - {pool.buffers}
      ensures ValidWith(transit) && Repr == old(Repr)
      ensures Ended(Setup(), old(Here()), aged, Here(), now)
    {
      hide SlotsAgree, Coherent, Partition, WindowOk, TotalsAccount, Separate, Ended, Here, ValidWith, InWidth;
      var todo := aged;
      ghost var start := Here();
      TotalsInWidth(transit);
      NoneEnded(Setup(), start, now);
      assert aged - todo == {};
      while todo != {}
        invariant ValidWith(transit) && Repr == old(Repr)
        invariant todo <= aged && todo <= slots.Keys && Ended(Setup(), start, aged - todo, Here(), now)
        decreases |todo|
      {
        var s :| s in todo;
        RetireOneMore(now, s, transit, start, aged - todo);
        assert aged - todo + {s} == aged - (todo - {s});
        todo := todo - {s};
      }
      assert aged - todo == aged;
    }

    lemma TotalsInWidth(transit: set<nat>)
      requires ValidWith(transit)
      ensures InWidth(Here().totals)
    {
    }

    method RetireOneMore(now: nat, s: nat, ghost transit: set<nat>, ghost start: Standing, ghost done: set<nat>)
      requires ValidWith(transit) && s in slots && s !in done && Ended(Setup(), start, done, Here(), now)
      modifies Repr - {pool.buffers}
      ensures ValidWith(transit) && Repr == old(Repr) && slots == old(slots) - {s}
      ensures Ended(Setup(), start, done + {s}, Here(), now)
    {
      hide SlotsAgree, Coherent, Partition, WindowOk, TotalsAccount, Separate, Ended, EndOne;
      KeysAgree();
      ghost var mid := Here();
      RetireSlot(now, s, transit);
      OneMoreEnded(Setup(), start, done, mid, now, s);
    }

    /** What the listener reads of an accumulator is what its view says. */
    lemma FieldsAgree()
      requires Base()
      ensures views.Keys == slots.Keys
      ensures forall s :: s in views ==>
        views[s].slotComplete == slots[s].slotComplete && views[s].stats == slots[s].stats
    {
      hide Coherent, Separate, Resting, Bounded, Distinct, SlotAccumulator.Valid;
    }

    method AgedSlots() returns (aged: set<nat>)
      requires Base()
      ensures aged == Aging(views, lastSlot, maxAge) && aged <= slots.Keys
    {
      hide SlotsAgree, Coherent, Separate, Base;
      FieldsAgree();
      aged := set s | s in slots
        && lastSlot > SatAdd(s, if slots[s].slotComplete then COMPLETED_RETENTION_SLOTS else maxAge, U64_MAX);
    }

    method Prune(ghost transit: set<nat>)
      requires ValidWith(transit)
      modifies this`recentlySeen, this`lingering
      ensures ValidWith(transit) && Here() == Pruned(Setup(), old(Here()))
    {
      hide SlotsAgree, Coherent, Partition, TotalsAccount, WindowOk, Unexpired;
      NotThis();
      WindowPrune(views.Keys, recentlySeen, evicted, lingering, lastSlot, maxAge);
      recentlySeen := Unexpired(recentlySeen, lastSlot, maxAge);
      lingering := {};
    }

    method ForceEvictOldestSlot(now: nat)
      requires Valid()
      modifies Repr - {pool.buffers}
      ensures Valid() && Repr == old(Repr)
      ensures if old(views).Keys == {} then Here() == old(Here()) else Forced(Setup(), old(Here()), Here(), now)
    {
      hide SlotsAgree, Coherent, Partition, WindowOk, TotalsAccount, Separate, Ended;
      KeysAgree();
      if slots.Keys != {} {
        TotalsInWidth({});
        NoneEnded(Setup(), Here(), now);
        RetireOneMore(now, Least(slots.Keys), {}, Here(), {});
        assert {} + {Least(old(views).Keys)} == {Least(old(views).Keys)};
      }
    }

    /** A free buffer, evicting for it if need be. A refusal has cost at least one slot, and cannot
        happen when none is live. */
    method AcquireBufferWithFallback(now: nat) returns (h: Option<Handle>, ghost way: Way)
      requires Valid()
      modifies Repr
      ensures Repr == old(Repr)
      ensures h.Some? ==> ValidWith({h.value.idx}) && h.value.bytes == [] && h.value.idx < pool.capacity
      ensures h.None? ==> Valid() && way == Force
      ensures h.None? <==> Full(views, pool.capacity)
      ensures MadeRoom(Setup(), way, old(Here()), Here(), now)
    {
      hide SlotsAgree, Coherent, Partition, WindowOk, TotalsAccount, Separate, ValidWith, Swept, Forced, MadeRoom,
        Full;
      Owns({});
      ghost var before := Here();
      h := TakeFree();
      way := Free;
      if h.Some? {
        RoomFree(Setup(), Here(), now);
        return;
      }
      EvictOldSlots(now, {});
      ghost var mid := Here();
      h := TakeFree();
      way := Sweep;
      if h.Some? {
        RoomSwept(Setup(), before, mid, now);
        return;
      }
      LiveWhenExhausted();
      ForceEvictOldestSlot(now);
      way := Force;
      RoomForced(Setup(), before, mid, Here(), now);
      h := TakeFree();
    }

    method TakeFree() returns (h: Option<Handle>)
      requires Valid()
      modifies pool`free
      ensures h.Some? ==> ValidWith({h.value.idx}) && h.value.bytes == [] && h.value.idx < pool.capacity
      ensures h.None? ==> Valid() && pool.free == []
      ensures h.None? <==> Full(views, pool.capacity)
    {
      hide SlotsAgree, Coherent, Partition, WindowOk, TotalsAccount, Full;
      FullExactly(pool.free, views, pool.capacity);
      PartitionPool(pool.free, views, {}, pool.capacity);
      h := pool.Acquire();
      if h.Some? {
        PartitionAcquire(old(pool.free), pool.free, views, pool.capacity, h.value.idx);
        PartitionPool(pool.free, views, {h.value.idx}, pool.capacity);
      }
    }

    lemma KeysAgree()
      requires Base()
      ensures views.Keys == slots.Keys
    {
    }

    /** An empty free list means that some slot is live. */
    lemma LiveWhenExhausted()
      requires Valid() && pool.free == []
      ensures slots.Keys != {} && views.Keys != {}
    {
      if slots.Keys == {} {
        assert views == map[];
        NoSlotsAllFree(pool.free, views, pool.capacity);
      }
    }

    // ---------- Packets ----------

    /** Copies the packet into the buffer just acquired. No live handle points there, so every handle's
        bytes stay what they were. */
    method FillBuffer(h: Handle, raw: seq<byte>) returns (filled: Handle)
      requires ValidWith({h.idx})
      modifies pool.buffers
      ensures ValidWith({h.idx})
      ensures filled == Handle(h.idx, Cut(raw)) && pool.Backs(filled)
    {
      hide SlotsAgree, Partition, WindowOk, TotalsAccount;
      PartitionPool(pool.free, views, {h.idx}, pool.capacity);
      HeldElsewhere(h);
      assert forall s, o :: s in slots && o in slots[s].Repr ==> o != pool.buffers;
      filled := pool.Fill(h, raw);
    }

    lemma HeldElsewhere(h: Handle)
      requires ValidWith({h.idx})
      ensures forall s, i :: s in views && i in views[s].pending && views[s].pending[i].source.FromPool? ==>
                views[s].pending[i].source.handle.idx != h.idx
    {
      forall s, i | s in views && i in views[s].pending && views[s].pending[i].source.FromPool?
        ensures views[s].pending[i].source.handle.idx != h.idx
      {
        SourceHeld(views, s, i);
      }
    }

    /** `entry(slot).or_insert_with(...)`. */
    method OpenSlot(slot: nat, ghost transit: set<nat>)
      requires ValidWith(transit) && slot <= lastSlot && slot !in recentlySeen
      modifies this`slots, this`views, this`Repr
      ensures ValidWith(transit) && fresh(Repr - old(Repr)) && slot in slots
      ensures views == if slot in old(views) then old(views) else old(views)[slot := NEW_SLOT]
    {
      hide Partition, WindowOk, TotalsAccount, SlotsAgree, Coherent, Separate;
      KeysAgree();
      if slot !in slots {
        PartitionOpen(pool.free, views, transit, pool.capacity, slot);
        WindowOpen(views.Keys, recentlySeen, evicted, lingering, lastSlot, maxAge, slot);
        assert views[slot := NEW_SLOT].Keys == views.Keys + {slot};
        AddSlot(slot);
      }
    }

    method AddSlot(slot: nat)
      requires Base() && slot !in slots
      modifies this`slots, this`views, this`Repr
      ensures Base() && fresh(Repr - old(Repr))
      ensures slot in slots && views == old(views)[slot := NEW_SLOT]
    {
      hide SlotsAgree, Coherent, Separate, Resting, Bounded, Distinct, SlotAccumulator.Valid, SlotAccumulator.View;
      var acc := new SlotAccumulator(env, pool);
      SlotsAgreeAttach(slots, views, env, pool, slot, acc);
      SeparateAttach(slots, Repr, Own(), slot, acc);
      CoherentOpen(pool, views, slot);
      NotThis();
      ghost var more := slots[slot := acc];
      assert forall a: SlotAccumulator, o | a in more.Values && o in a.Repr :: o != this;
      slots := slots[slot := acc];
      views := views[slot := NEW_SLOT];
      Repr := Repr + acc.Repr;
      assert slots.Values <= Repr;
    }

    static lemma SlotsAgreeAttach(slots: map<nat, SlotAccumulator>, views: Views, env: Env, pool: ShredPool,
      s: nat, acc: SlotAccumulator)
      requires SlotsAgree(slots, views, env, pool)
      requires acc.Open() && acc.env == env && acc.pool == pool
      requires forall t :: t in slots && t != s ==> slots[t].Repr !! acc.Repr
      ensures SlotsAgree(slots[s := acc], views[s := acc.View()], env, pool)
    {
      hide SlotAccumulator.View, SlotAccumulator.Valid, Resting, Bounded, Distinct;
      StatesAttach(slots, views, env, pool, s, acc);
      ApartAttach(slots, s, acc);
    }

    static lemma StatesAttach(slots: map<nat, SlotAccumulator>, views: Views, env: Env, pool: ShredPool,
      s: nat, acc: SlotAccumulator)
      requires views.Keys == slots.Keys
      requires forall t :: t in slots ==>
        slots[t].Open() && slots[t].View() == views[t] && slots[t].env == env && slots[t].pool == pool
      requires acc.Open() && acc.env == env && acc.pool == pool
      ensures var slots', views' := slots[s := acc], views[s := acc.View()];
              && views'.Keys == slots'.Keys
              && forall t :: t in slots' ==>
                   slots'[t].Open() && slots'[t].View() == views'[t] && slots'[t].env == env && slots'[t].pool == pool
    {
      hide SlotAccumulator.View, SlotAccumulator.Valid, Resting, Bounded, Distinct;
    }

    static lemma ApartAttach(slots: map<nat, SlotAccumulator>, s: nat, acc: SlotAccumulator)
      requires forall t, u :: t in slots && u in slots && t != u ==> slots[t].Repr !! slots[u].Repr
      requires forall t :: t in slots && t != s ==> slots[t].Repr !! acc.Repr
      ensures var slots' := slots[s := acc];
              forall t, u :: t in slots' && u in slots' && t != u ==> slots'[t].Repr !! slots'[u].Repr
    {
    }

    static lemma SeparateAttach(slots: map<nat, SlotAccumulator>, Repr: set<object>, own: set<object>,
      s: nat, acc: SlotAccumulator)
      requires Separate(slots, Repr, own) && acc.Repr !! own
      ensures Separate(slots[s := acc], Repr + acc.Repr, own)
    {
    }

    static lemma CoherentOpen(pool: ShredPool, views: Views, s: nat)
      requires Coherent(pool, views)
      ensures Coherent(pool, views[s := NEW_SLOT])
    {
    }

    static lemma CoherentTook(pool: ShredPool, views: Views, s: nat, after: State, h: Handle, given: seq<nat>)
      requires Coherent(pool, views) && s in views && pool.Backs(h)
      requires TookIn(views[s], after, h, given)
      ensures Coherent(pool, views[s := after])
    {
      hide Held, Distinct;
    }

    static lemma CoherentShed(pool: ShredPool, views: Views, s: nat, after: State, given: seq<nat>)
      requires Coherent(pool, views) && s in views && Shed(views[s], after, given)
      ensures Coherent(pool, views[s := after])
    {
      hide Held, Distinct;
    }

    lemma NotThis()
      requires Base()
      ensures forall s, o :: s in slots && o in slots[s].Repr ==>
        o != this && o != pool && o != rsCache && o != pool.buffers
      ensures forall s :: s in slots ==> slots[s] in slots[s].Repr
    {
    }

    /** The slot's own accumulator, seen apart from the others. */
    lemma Single(slot: nat)
      requires Base() && slot in slots
      ensures slot in views
      ensures var acc := slots[slot];
              && acc.Open() && acc.View() == views[slot] && acc.env == env && acc.pool == pool
              && acc.Repr <= Repr && acc.Repr !! Own()
              && SlotsAgree(slots - {slot}, views - {slot}, env, pool)
              && Separate(slots - {slot}, Repr, Own())
      ensures forall s :: s in slots && s != slot ==> slots[s].Repr !! slots[slot].Repr && slots[s] !in slots[slot].Repr
      ensures forall s, o :: s in slots && s != slot && o in slots[s].Repr ==>
                o !in slots[slot].Repr && o != pool && o != rsCache && o != this
    {
      SlotsAgreeDetach(slots, views, env, pool, slot);
      SeparateDetach(slots, Repr, Own(), slot);
    }

    /** Calls `push_data` on one slot's accumulator, the others standing by. */
    method FeedData(now: nat, slot: nat, d: DataArrival) returns (txs: transactions, ghost given: seq<nat>)
      requires Base() && slot in slots && DataOk(d)
      requires d.handle.idx !in Held(slots[slot].pending)
      modifies slots[slot].Repr, pool`free, rsCache
      ensures slots[slot].Open() && slots[slot].Repr == old(slots[slot].Repr)
      ensures slot in views && slots[slot].View() == NextOnData(env, now, views[slot], d)
      ensures TookIn(views[slot], slots[slot].View(), d.handle, given) && pool.free == old(pool.free) + given
      ensures NextOnData(env, now, views[slot], d).log.delivered == views[slot].log.delivered + txs
      ensures SlotsAgree(slots - {slot}, views - {slot}, env, pool)
      ensures rsCache.Valid()
    {
      hide SlotsAgree, Coherent, Separate, Resting, Distinct, Held, TookIn, DataOk, Bounded, NextOnData,
        SlotAccumulator.Valid, SlotAccumulator.View;
      Single(slot);
      var acc := slots[slot];
      ghost var before := acc.View();
      RestingBounded(env, before);
      acc.Owned();
      NextOnDataIs(env, now, before, d);
      txs, given := acc.PushData(now, d, rsCache);
      acc.Owned();
    }

    /** Hands the packet's buffer to its slot. */
    method DataToSlot(now: nat, slot: nat, d: DataArrival) returns (txs: transactions)
      requires ValidWith({d.handle.idx}) && slot in slots && slot in views && DataOk(d) && pool.Backs(d.handle)
      modifies Repr
      ensures Valid() && Repr == old(Repr) && slots == old(slots)
      ensures views == old(views)[slot := NextOnData(env, now, old(views)[slot], d)]
      ensures views[slot].log.delivered == old(views)[slot].log.delivered + txs
      ensures Here() == old(Here()).(views := views)
    {
      hide Partition, WindowOk, TotalsAccount, SlotsAgree, Coherent, Separate, Resting, Bounded, Distinct, Held,
        TookIn, DataOk, NextOnData, SlotAccumulator.Valid, SlotAccumulator.View;
      Single(slot);
      var acc := slots[slot];
      HeldIs(slot);
      TransitNotHeld(pool.free, views, pool.capacity, d.handle.idx, slot);
      ghost var given;
      txs, given := FeedData(now, slot, d);
      ghost var after := NextOnData(env, now, views[slot], d);
      PartitionTook(old(pool.free), views, pool.capacity, slot, after, d.handle, given);
      CoherentTook(pool, views, slot, after, d.handle, given);
      assert views[slot := after].Keys == views.Keys;
      assert Repr + acc.Repr == Repr;
      Rejoin(slot, acc);
    }

    /** Records the new state of the accumulator that moved on. */
    ghost method Rejoin(slot: nat, acc: SlotAccumulator)
      requires Own() <= Repr && slots.Values <= Repr && rsCache.Valid() && rsCache.lib == env.lib
      requires pool.buffers.Length0 == pool.capacity && pool.buffers.Length1 == BUF_SIZE && 0 < pool.capacity <= U16_MAX
      requires slot in slots && slots[slot] == acc && acc.Open() && acc.env == env && acc.pool == pool
      requires SlotsAgree(slots - {slot}, views - {slot}, env, pool) && Separate(slots - {slot}, Repr, Own())
      requires acc.Repr !! Own() && forall s :: s in slots && s != slot ==> slots[s].Repr !! acc.Repr
      requires Coherent(pool, views[slot := acc.View()])
      modifies this`views, this`Repr
      ensures Base() && Repr == old(Repr) + acc.Repr && views == old(views)[slot := acc.View()]
    {
      hide SlotsAgree, Coherent, Resting, Bounded, Distinct, SlotAccumulator.Valid, SlotAccumulator.View;
      SeparateGrow(slots - {slot}, Repr, Own(), acc.Repr);
      assert forall s :: s in slots && s != slot ==> s in slots - {slot} && (slots - {slot})[s] == slots[s];
      assert forall s, o :: s in slots && o in slots[s].Repr ==> o != this;
      Repr := Repr + acc.Repr;
      Reunite(slot, acc);
      views := views[slot := acc.View()];
    }

    /** The accumulators agree again once the one that moved on is recorded in its new state. */
    lemma Reunite(slot: nat, acc: SlotAccumulator)
      requires slot in slots && slots[slot] == acc && acc.Open() && acc.env == env && acc.pool == pool
      requires SlotsAgree(slots - {slot}, views - {slot}, env, pool)
      requires forall s :: s in slots && s != slot ==> slots[s].Repr !! acc.Repr
      requires Separate(slots - {slot}, Repr, Own()) && acc.Repr !! Own() && acc.Repr <= Repr
      ensures SlotsAgree(slots, views[slot := acc.View()], env, pool)
      ensures Separate(slots, Repr, Own())
    {
      hide SlotsAgree, SlotAccumulator.Valid, SlotAccumulator.View, Resting, Bounded, Distinct, Separate;
      SeparateAttach(slots - {slot}, Repr, Own(), slot, acc);
      assert Repr + acc.Repr == Repr;
      SlotsAgreeAttach(slots - {slot}, views - {slot}, env, pool, slot, acc);
      assert (slots - {slot})[slot := acc] == slots;
      assert (views - {slot})[slot := acc.View()] == views[slot := acc.View()];
    }

    lemma HeldIs(slot: nat)
      requires Base() && slot in slots
      ensures slot in views && slots[slot].pending == views[slot].pending
    {
    }

    /** Calls `push_code` on one slot's accumulator, the others standing by. */
    method FeedCode(now: nat, slot: nat, c: CodeArrival) returns (txs: transactions, ghost given: seq<nat>)
      requires Base() && slot in slots && CodeOk(c)
      modifies slots[slot].Repr, pool`free, rsCache
      ensures slots[slot].Open() && fresh(slots[slot].Repr - old(slots[slot].Repr))
      ensures slot in views && slots[slot].View() == NextOnCode(env, now, views[slot], c)
      ensures Shed(views[slot], slots[slot].View(), given) && pool.free == old(pool.free) + given
      ensures NextOnCode(env, now, views[slot], c).log.delivered == views[slot].log.delivered + txs
      ensures SlotsAgree(slots - {slot}, views - {slot}, env, pool)
      ensures rsCache.Valid()
    {
      hide SlotsAgree, Coherent, Separate, Resting, Distinct, Held, Shed, CodeOk, Bounded, NextOnCode,
        SlotAccumulator.Valid, SlotAccumulator.View;
      Single(slot);
      var acc := slots[slot];
      ghost var before := acc.View();
      RestingBounded(env, before);
      acc.Owned();
      NextOnCodeIs(env, now, before, c);
      txs, given := acc.PushCode(now, c, rsCache);
      acc.Owned();
    }

    method CodeToSlot(now: nat, slot: nat, c: CodeArrival, ghost transit: set<nat>) returns (txs: transactions)
      requires ValidWith(transit) && slot in slots && slot in views && CodeOk(c)
      modifies Repr
      ensures ValidWith(transit) && fresh(Repr - old(Repr)) && slots == old(slots)
      ensures views == old(views)[slot := NextOnCode(env, now, old(views)[slot], c)]
      ensures views[slot].log.delivered == old(views)[slot].log.delivered + txs
      ensures Here() == old(Here()).(views := views)
    {
      hide Partition, WindowOk, TotalsAccount, SlotsAgree, Coherent, Separate, Resting, Bounded, Distinct, Held,
        Shed, CodeOk, NextOnCode, SlotAccumulator.Valid, SlotAccumulator.View;
      Single(slot);
      var acc := slots[slot];
      ghost var given;
      txs, given := FeedCode(now, slot, c);
      ghost var after := NextOnCode(env, now, views[slot], c);
      PartitionShed(old(pool.free), views, transit, pool.capacity, slot, after, given);
      CoherentShed(pool, views, slot, after, given);
      assert views[slot := after].Keys == views.Keys;
      Rejoin(slot, acc);
    }

    static lemma SeparateGrow(slots: map<nat, SlotAccumulator>, Repr: set<object>, own: set<object>, more: set<object>)
      requires Separate(slots, Repr, own)
      ensures Separate(slots, Repr + more, own)
    {
    }

    /** Moves the window up when the packet's slot is the newest. */
    method RaiseWindow(now: nat, slot: nat, ghost transit: set<nat>)
      requires ValidWith(transit) && slot <= MAX_PLAUSIBLE_SLOT && slot !in recentlySeen
      modifies Repr - {pool.buffers}
      ensures ValidWith(transit) && Repr == old(Repr)
      ensures lastSlot == Max(old(lastSlot), slot) && slot !in recentlySeen
      ensures Raised(Setup(), old(Here()), slot, Here(), now)
      ensures views == MovedUp(old(views), old(lastSlot), slot, maxAge)
      ensures Current(views, slot) == Current(old(views), slot)
    {
      hide SlotsAgree, Coherent, Partition, TotalsAccount, Separate, Aging, Swept, WindowOk;
      LiveBelow();
      MovedIsAged(views, lastSlot, slot, maxAge);
      NotThis();
      ghost var before := Here();
      if slot > lastSlot {
        NeverEnded(slot);
        WindowRaise(views.Keys, recentlySeen, evicted, lingering, lastSlot, maxAge, slot);
        lastSlot := slot;
        lingering := recentlySeen;
        ghost var raised := Here();
        EvictOldSlots(now, transit);
        SweptViews(Setup(), raised, Here(), now);
        SweptSeen(Setup(), raised, Here(), now, slot);
        SweptAnyLingering(Setup(), before.(lastSlot := slot), raised, Here(), now);
      }
    }

    /** No slot above the newest has ended. */
    lemma NeverEnded(slot: nat)
      requires WindowOk(views.Keys, recentlySeen, evicted, lingering, lastSlot, maxAge) && slot > lastSlot
      ensures slot !in views && slot !in recentlySeen
    {
    }

    lemma LiveBelow()
      requires WindowOk(views.Keys, recentlySeen, evicted, lingering, lastSlot, maxAge)
      ensures forall s :: s in views ==> s <= lastSlot
    {
    }

    /** The drop of a packet's handle that no slot took. */
    method DropPacket(h: Handle)
      requires ValidWith({h.idx})
      modifies pool`free
      ensures Valid()
    {
      hide SlotsAgree, Coherent, Partition, WindowOk, TotalsAccount;
      PartitionRelease(pool.free, views, pool.capacity, h.idx);
      pool.Release(h.idx);
    }

    /** The data branch of `handle_packet_owned`. */
    method HandleData(now: nat, slot: nat, d: DataArrival) returns (r: Reply)
      requires ValidWith({d.handle.idx}) && DataOk(d) && pool.Backs(d.handle)
      requires slot <= MAX_PLAUSIBLE_SLOT && slot !in recentlySeen
      modifies Repr
      ensures Valid() && fresh(Repr - old(Repr))
      ensures Delivered(Setup(), old(Here()), Here(), slot, NextOnData(env, now, Current(old(views), slot), d), r, now)
    {
      hide SlotsAgree, Coherent, Partition, TotalsAccount, Separate, DataOk, NextOnData, MovedUp, WindowOk,
        AnsweredFor, ReplyOf, ValidWith, Raised;
      Owns({d.handle.idx});
      ghost var before := Current(views, slot);
      RaiseWindow(now, slot, {d.handle.idx});
      ghost var moved := Here();
      OpenSlot(slot, {d.handle.idx});
      var txs := DataToSlot(now, slot, d);
      r := ReplyOf(slot, txs);
      ReplyAnswers(slot, txs, before, views[slot]);
      assert views == moved.views[slot := NextOnData(env, now, before, d)];
      assert Here().(views := moved.views) == moved;
    }

    /** The code branch of `handle_packet_owned`; the packet's own buffer goes back to the pool. */
    method HandleCode(now: nat, h: Handle, slot: nat, c: CodeArrival) returns (r: Reply)
      requires ValidWith({h.idx}) && CodeOk(c)
      requires slot <= MAX_PLAUSIBLE_SLOT && slot !in recentlySeen
      modifies Repr
      ensures Valid() && fresh(Repr - old(Repr))
      ensures Delivered(Setup(), old(Here()), Here(), slot, NextOnCode(env, now, Current(old(views), slot), c), r, now)
    {
      hide SlotsAgree, Coherent, Partition, TotalsAccount, Separate, CodeOk, NextOnCode, MovedUp, WindowOk,
        AnsweredFor, ReplyOf, ValidWith, Raised;
      Owns({h.idx});
      ghost var before := Current(views, slot);
      RaiseWindow(now, slot, {h.idx});
      ghost var moved := Here();
      OpenSlot(slot, {h.idx});
      var txs := CodeToSlot(now, slot, c, {h.idx});
      DropPacket(h);
      r := ReplyOf(slot, txs);
      ReplyAnswers(slot, txs, before, views[slot]);
      assert views == moved.views[slot := NextOnCode(env, now, before, c)];
      assert Here().(views := moved.views) == moved;
    }

    lemma Owns(transit: set<nat>)
      requires ValidWith(transit)
      ensures Own() <= Repr
    {
    }

    /** Bumps counters; nothing else depends on them. */
    method Count(c: Counters, ghost transit: set<nat>)
      requires ValidWith(transit)
      modifies this`counters
      ensures ValidWith(transit) && Here() == old(Here()).(counters := c)
    {
      hide SlotsAgree, Coherent, Separate, Partition, WindowOk, TotalsAccount;
      NotThis();
      counters := c;
    }

    /** Turns a packet away: its buffer goes back to the pool. */
    method TurnAway(h: Handle, c: Counters) returns (r: Reply)
      requires ValidWith({h.idx})
      modifies this`counters, pool`free
      ensures Valid() && Here() == old(Here()).(counters := c) && r == None
    {
      hide SlotsAgree, Coherent, Separate, Partition, WindowOk, TotalsAccount;
      Count(c, {h.idx});
      DropPacket(h);
      r := None;
    }

    /** `handle_packet_owned`. */
    method HandlePacketOwned(now: nat, h: Handle) returns (r: Reply)
      requires ValidWith({h.idx}) && pool.Backs(h) && InRange(h.bytes)
      modifies Repr
      ensures Valid() && fresh(Repr - old(Repr))
      ensures Handled(Setup(), old(Here()), Here(), Admit(h, old(lastSlot), old(recentlySeen), enableFec),
        |h.bytes|, r, now)
      ensures Fate(Setup(), old(Here()), Here(), h, r, now)
    {
      hide SlotsAgree, Coherent, Separate, Partition, WindowOk, TotalsAccount, ValidWith, Base, InRange, ParseKind,
        ArrivalOf, CodeOf, Implausible, WrapAdd64, Delivered, DataOk, CodeOk, NextOnData, NextOnCode, Current, Fate;
      AdmittedIsOk(h, lastSlot, recentlySeen, enableFec);
      Owns({h.idx});
      ghost var before, a := Here(), Admit(h, lastSlot, recentlySeen, enableFec);
      var c := counters.(bytesReceived := WrapAdd64(counters.bytesReceived, |h.bytes|));
      match ParseKind(h.bytes) {
        case Err(e) =>
          r := TurnAway(h, match e
            case TooShort => c.(tooShort := WrapAdd64(c.tooShort, 1))
            case UnknownVariant => c.(unknownVariant := WrapAdd64(c.unknownVariant, 1))
            case PayloadInvalid => c.(payloadInvalid := WrapAdd64(c.payloadInvalid, 1)));
        case Ok(Data(d)) =>
          if Implausible(d.slot, lastSlot) {
            r := TurnAway(h, c.(slotRange := WrapAdd64(c.slotRange, 1)));
          } else if d.slot in recentlySeen {
            r := TurnAway(h, c.(droppedKnown := WrapAdd64(c.droppedKnown, 1)));
          } else {
            Count(c.(dataShreds := WrapAdd64(c.dataShreds, 1)), {h.idx});
            assert a == ToData(d.slot, ArrivalOf(h, d))
              && Here() == before.(counters := Tally(before.counters, a, |h.bytes|));
            r := HandleData(now, d.slot, ArrivalOf(h, d));
          }
        case Ok(Code(k)) =>
          if Implausible(k.slot, lastSlot) {
            r := TurnAway(h, c.(slotRange := WrapAdd64(c.slotRange, 1)));
          } else if k.slot in recentlySeen {
            r := TurnAway(h, c.(droppedKnown := WrapAdd64(c.droppedKnown, 1)));
          } else if !enableFec {
            r := TurnAway(h, c.(codeShreds := WrapAdd64(c.codeShreds, 1)));
          } else {
            Count(c.(codeShreds := WrapAdd64(c.codeShreds, 1)), {h.idx});
            assert a == ToCode(k.slot, CodeOf(k))
              && Here() == before.(counters := Tally(before.counters, a, |h.bytes|));
            r := HandleCode(now, h, k.slot, CodeOf(k));
          }
      }
      FateOf(Setup(), before, Here(), h, r, now);
    }

    /** `handle_packet`. A refusal costs at least one slot; otherwise the packet is dealt with exactly as
        `HandlePacketOwned` says, from where the listener stood once the packet had its buffer. */
    method HandlePacket(now: nat, raw: seq<byte>) returns (r: Reply, ghost room: Room)
      requires Valid() && InRange(Cut(raw))
      modifies Repr
      ensures Valid() && fresh(Repr - old(Repr))
      ensures PacketDone(Setup(), old(Here()), Here(), raw, room, r, now)
      ensures |slots| <= |old(slots)| + 1 && (room.Refused? ==> |slots| < |old(slots)|)
      ensures old(evicted) <= evicted && old(lastSlot) <= lastSlot
      ensures lastSlot > old(lastSlot) ==> Aged(views.Keys, lastSlot, maxAge) && |slots| <= Max(maxAge, 1) + 1
      ensures Ever(Here()) == old(Ever(Here())) + PacketRanges(Setup(), old(Here()), room, now)
    {
      hide SlotsAgree, Coherent, Separate, Partition, WindowOk, TotalsAccount, Admit, Handled, Aged, ValidWith, Max,
        CountRefusal, MadeRoom, Full, AllRest, Ever, PacketRanges, InRange;
      OwnsAll();
      ghost var before := Here();
      var h;
      ghost var way;
      h, way := AcquireBufferWithFallback(now);
      ghost var at := Here();
      RoomViews(Setup(), way, before, at, now);
      if h.None? {
        SizesAgree();
        Count(CountRefusal(counters), {});
        r, room := None, Refused(at);
      } else {
        ghost var filled;
        r, filled := FillAndHandle(now, h.value, raw);
        room := Given(way, at, filled);
      }
      PacketCounts(Setup(), before, Here(), raw, room, r, now);
    }

    /** The second half of `handle_packet`, once the packet has a buffer. */
    method FillAndHandle(now: nat, h: Handle, raw: seq<byte>) returns (r: Reply, ghost filled: Handle)
      requires ValidWith({h.idx}) && InRange(Cut(raw))
      modifies Repr
      ensures Valid() && fresh(Repr - old(Repr))
      ensures filled == Handle(h.idx, Cut(raw))
      ensures Handled(Setup(), old(Here()), Here(), Admit(filled, old(lastSlot), old(recentlySeen), enableFec),
        |Cut(raw)|, r, now)
      ensures |slots| <= |old(views).Keys| + 1 && old(evicted) <= evicted && old(lastSlot) <= lastSlot
      ensures lastSlot > old(lastSlot) ==> Aged(views.Keys, lastSlot, maxAge) && |slots| <= Max(maxAge, 1) + 1
    {
      hide SlotsAgree, Coherent, Separate, Partition, WindowOk, TotalsAccount, Admit, Handled, Aged, InRange, Max;
      Owns({h.idx});
      LiveBelow();
      AdmittedIsOk(Handle(h.idx, Cut(raw)), lastSlot, recentlySeen, enableFec);
      ghost var before, a := Here(), Admit(Handle(h.idx, Cut(raw)), lastSlot, recentlySeen, enableFec);
      var packet := FillBuffer(h, raw);
      filled := packet;
      r := HandlePacketOwned(now, packet);
      HandledBounds(Setup(), before, Here(), a, |Cut(raw)|, r, now);
      SizesAgree();
    }

    lemma OwnsAll()
      requires Valid()
      ensures Own() <= Repr && |slots| == |views.Keys|
      ensures AllRest(env, views) && forall s :: s in views ==> s <= lastSlot
    {
      hide Coherent, Separate, Partition, WindowOk, TotalsAccount, Resting, Bounded, Distinct;
      SizesAgree();
      LiveBelow();
      forall s | s in views
        ensures Resting(env, views[s])
      {
        assert slots[s].Open();
      }
    }

    lemma SizesAgree()
      requires Valid()
      ensures |slots| == |views.Keys|
      ensures Aged(views.Keys, lastSlot, maxAge) ==> |slots| <= Max(maxAge, 1) + 1
    {
      hide Aged;
      assert |slots| == |slots.Keys|;
      LiveBelow();
      if Aged(views.Keys, lastSlot, maxAge) {
        WindowBound(views.Keys, lastSlot, maxAge);
      }
    }

    /** `recv_one`, given the packet the socket would yield; it is taken only if no batch was queued. */
    method RecvOne(now: nat, raw: seq<byte>) returns (r: Reply, consumed: bool, ghost room: Room)
      requires Valid() && InRange(Cut(raw))
      modifies Repr
      ensures Valid() && fresh(Repr - old(Repr))
      ensures consumed <==> old(pendingBatches) == []
      ensures Received(Setup(), old(Here()), Here(), raw, room, r, now)
      ensures |slots| <= |old(slots)| + (if consumed then 1 else 0)
        && (consumed && room.Refused? ==> |slots| < |old(slots)|)
    {
      hide SlotsAgree, Coherent, Separate, Partition, WindowOk, TotalsAccount, PacketDone, Aged, InRange,
        PacketRanges, Ever;
      if pendingBatches != [] {
        r, consumed, room := Some(pendingBatches[0]), false, Refused(Here());
        NotThis();
        pendingBatches := pendingBatches[1..];
      } else {
        r, room := HandlePacket(now, raw);
        consumed := true;
      }
    }

    /** The transaction iterator's `next` over the packets the socket yields before it runs dry. It calls
        `recv_one` until that answers, and answers the same. Each refusal has cost a slot, so the refusals
        are at most the slots there were and the packets let in: never more than the live slots in a row. */
    method Next(packets: seq<(nat, seq<byte>)>) returns (r: Reply, ghost trail: seq<Standing>)
      requires Valid() && forall p :: p in packets ==> InRange(Cut(p.1))
      modifies Repr
      ensures Valid() && fresh(Repr - old(Repr))
      ensures |trail| > 0 && trail[0] == old(Here()) && trail[|trail| - 1] == Here()
      ensures Answers(Setup(), trail, packets, r)
      ensures 2 * RefusalsIn(trail) + |slots| <= |old(slots)| + |trail| - 1
    {
      hide SlotsAgree, Coherent, Separate, Partition, WindowOk, TotalsAccount, InRange, ValidWith, Received,
        SilentStep, LastStep, Refusal;
      var taken := 0;
      trail, r := [Here()], None;
      while taken < |packets|
        invariant taken <= |packets| && r == None && |trail| == taken + 1 && trail[taken] == Here()
        invariant Valid() && fresh(Repr - old(Repr)) && trail[0] == old(Here())
        invariant forall k :: 0 <= k < taken ==> SilentStep(Setup(), trail, packets, k)
        invariant 2 * RefusalsIn(trail) + |slots| <= |old(slots)| + taken
      {
        assert packets[taken] in packets;
        var consumed;
        ghost var room;
        ghost var before := trail;
        r, consumed, room := RecvOne(packets[taken].0, packets[taken].1);
        trail := trail + [Here()];
        StepsKeep(Setup(), before, trail, packets, taken);
        StepTaken(Setup(), trail, packets, taken, room, r);
        RefusedIsCounted(Setup(), before[taken], Here(), packets[taken].1, room, r, packets[taken].0);
        RefusalsOneMore(before, Here());
        if r.Some? {
          return;
        }
        taken := taken + 1;
      }
    }

    /** A slot that has ended stays without an accumulator until the window has moved on far enough. */
    lemma EndedStaysEnded(s: nat)
      requires Valid() && s in evicted && lastSlot <= s + maxAge + BLACKLIST_EXTRA_SLOTS
      ensures s !in slots
    {
      NoReopening(views.Keys, recentlySeen, evicted, lingering, lastSlot, maxAge, s);
    }

    /** Exactly when a packet for a slot that has ended is turned away. */
    lemma EndedIsTurnedAway(h: Handle, s: nat)
      requires Valid() && s in evicted && SlotOf(h.bytes) == Some(s)
      ensures Admit(h, lastSlot, recentlySeen, enableFec) == Known
              <==> lastSlot <= s + maxAge + BLACKLIST_EXTRA_SLOTS || s in lingering
    {
      hide Base, Admit, SlotOf;
      TurnedAwayExactly(Setup(), Here(), h, s);
    }

    // ---------- Totals ----------

    /** `sum_live`. */
    method SumLive(f: Stats -> nat) returns (sum: nat)
      requires Valid()
      ensures sum == MapSum(Live(views, f))
    {
      hide Coherent, Separate, Partition, WindowOk, TotalsAccount, Live, SlotsAgree, ValidWith;
      LiveFields();
      var todo := slots.Keys;
      ghost var left := views;
      sum := 0;
      while todo != {}
        invariant todo <= slots.Keys && left.Keys == todo
        invariant forall s :: s in left ==> s in slots && left[s].stats == slots[s].stats
        invariant sum + MapSum(Live(left, f)) == MapSum(Live(views, f))
        decreases |todo|
      {
        var s :| s in todo;
        LiveWithout(left, s, f);
        sum := sum + f(slots[s].stats);
        todo := todo - {s};
        left := left - {s};
      }
      NoneLive(left, f);
    }

    lemma LiveFields()
      requires Valid()
      ensures views.Keys == slots.Keys && forall s :: s in views ==> views[s].stats == slots[s].stats
    {
      hide Coherent, Separate, Partition, WindowOk, TotalsAccount, SlotsAgree, SlotAccumulator.Valid;
      FieldsAgree();
    }

    method BatchesDecodedStreamingTotal() returns (n: nat)
      requires Valid()
      ensures n == Public(totals, views, ByStreaming)
    {
      hide Coherent, Separate, SlotsAgree, Partition, WindowOk, TotalsAccount, Live, MapSum;
      var live := SumLive(ByStreaming);
      n := totals.batchesStreaming + live;
    }

    method BatchesDecodedFallbackTotal() returns (n: nat)
      requires Valid()
      ensures n == Public(totals, views, ByFallback)
    {
      hide Coherent, Separate, SlotsAgree, Partition, WindowOk, TotalsAccount, Live, MapSum;
      var live := SumLive(ByFallback);
      n := totals.batchesFallback + live;
    }

    method BatchesSkippedTotal() returns (n: nat)
      requires Valid()
      ensures n == Public(totals, views, Skipped)
    {
      hide Coherent, Separate, SlotsAgree, Partition, WindowOk, TotalsAccount, Live, MapSum;
      var live := SumLive(Skipped);
      n := totals.batchesSkipped + live;
    }

    /** No packet ever makes the accumulator meet a payload outside its buffer. */
    method BatchesForceFinalizedCorruptedTotal() returns (n: nat)
      requires Valid()
      ensures n == 0
    {
      hide Coherent, Separate, SlotsAgree, Partition, WindowOk, Live, Accounted;
      var live := SumLive(Corrupted);
      n := totals.forcedCorrupted + live;
      AllAccounted();
      LiveNoneCorrupted(views);
    }

    /** The three public batch totals together count every finished range of every accumulator there
        ever was. */
    lemma TotalsCount()
      requires Valid() && Ever(Here()) <= U64_MAX
      ensures Public(totals, views, ByStreaming) + Public(totals, views, ByFallback) + Public(totals, views, Skipped)
           == Ever(Here())
    {
      AllAccounted();
      PublicTotalsCount(totals, closed, views);
    }

    lemma AllAccounted()
      requires Valid()
      ensures forall s :: s in views ==> Accounted(views[s].stats, Calls(views[s]))
    {
      hide Coherent, Separate, Partition, WindowOk, TotalsAccount;
      forall s | s in views
        ensures Accounted(views[s].stats, Calls(views[s]))
      {
        assert slots[s].Open();
      }
    }
  }

  lemma ShedKeeps(s: State, s': State, given: seq<nat>)
    requires Shed(s, s', given)
    ensures Distinct(s'.pending)
  {
  }

  /** What a harvest gives back and what the drop gives back are together what was held. */
  lemma AllGiven(s: State, s': State, harvested: seq<nat>, dropped: seq<nat>)
    requires Shed(s, s', harvested) && NoDup(dropped) && Elements(dropped) == Held(s'.pending)
    ensures NoDup(harvested + dropped) && Elements(harvested + dropped) == Held(s.pending)
  {
    NoDupAppend(harvested, dropped);
  }

  lemma NothingYet(maxAge: nat)
    requires maxAge + BLACKLIST_EXTRA_SLOTS <= U64_MAX
    ensures WindowOk({}, {}, {}, {}, 0, maxAge) && TotalsAccount(NO_STATS, 0)
  {
  }

  lemma NothingHeld(free: seq<nat>, capacity: nat)
    requires NoDup(free) && Elements(free) == Range(0, capacity)
    ensures Partition(free, map[], {}, capacity)
  {
    assert forall x :: x in free <==> x in Elements(free);
    assert forall s: nat, x: nat :: !HeldIn(map[], s, x);
  }
}
