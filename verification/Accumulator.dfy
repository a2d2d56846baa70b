/** The accumulator object (src/accumulator.rs). Each method is proved to compute the function of the
    same operation in Slot.dfy, to deliver what that function delivers and to give back exactly the
    pool buffers that function drops. */
module Accumulator {
  import opened Bytes
  import opened Collections
  import opened Parser
  import opened Codec
  import opened Decoder
  import opened Streaming
  import opened Fec
  import opened Slot
  import opened Emission
  import opened Invariant
  import opened Lifetime
  import opened Scanners
  import opened Handles
  import opened Recovery
  import opened Delivery
  import opened Pool

  class SlotAccumulator {
    const env: Env
    const pool: ShredPool
    const decoder: StreamingDecoder

    var pending: Pending
    var fecSets: map<nat, FecSetBuffer>
    var boundaries: map<nat, nat>
    var cursor: nat
    var yielded: set<signature>
    var batchStart: nat
    var slotComplete: bool
    var stats: Stats
    var scratch: seq<byte>

    ghost var fecView: map<nat, FecSet>
    ghost var log: Log
    ghost var Repr: set<object>

    ghost predicate Valid()
      reads this, Repr
    {
      && this in Repr && decoder in Repr && pool !in Repr
      && decoder.Valid() && decoder.codec == env.codec
      && fecSets.Values <= Repr
      && FecAgree(fecSets, fecView)
    }

    /** The buffers hold these sets, each its own. */
    static ghost predicate FecAgree(buffers: map<nat, FecSetBuffer>, view: map<nat, FecSet>)
      reads buffers.Values
    {
      && view.Keys == buffers.Keys
      && (forall f :: f in buffers ==> buffers[f].Valid() && buffers[f].View() == view[f])
      && (forall f, g :: f in buffers && g in buffers && f != g ==> buffers[f] != buffers[g])
    }

    ghost function View(): State
      requires Valid()
      reads this, Repr
    {
      State(pending, fecView, boundaries, cursor, decoder.View(), yielded, batchStart, slotComplete, stats, log)
    }

    /** The invariant between calls. */
    ghost predicate Open()
      reads this, Repr
    {
      Valid() && Bounded(View()) && Resting(env, View()) && Distinct(pending)
    }

    lemma Owned()
      requires Valid()
      ensures this in Repr && decoder in Repr && pool !in Repr
      ensures View().log == log && View().pending == pending && View().stats == stats
        && View().slotComplete == slotComplete
    {
    }

    constructor (env: Env, pool: ShredPool)
      ensures Open() && View() == NEW_SLOT && fresh(Repr) && this in Repr
      ensures this.env == env && this.pool == pool
    {
      hide Resting;
      this.env := env;
      this.pool := pool;
      var d := new StreamingDecoder(env.codec);
      decoder := d;
      pending := map[];
      fecSets := map[];
      boundaries := map[];
      cursor := 0;
      yielded := {};
      batchStart := 0;
      slotComplete := false;
      stats := NO_STATS;
      scratch := [];
      fecView := map[];
      log := NO_LOG;
      Repr := {this, d};
      new;
      NewSlotRests(env);
    }

    // ---------- Emission ----------

    method RecordSig(tx: Transaction) returns (isNew: bool)
      modifies this`yielded
      ensures isNew <==> tx.signatures != [] && tx.signatures[0] !in old(yielded)
      ensures yielded == old(yielded) + (if tx.signatures == [] then {} else {tx.signatures[0]})
    {
      if tx.signatures == [] {
        return false;
      }
      isNew := tx.signatures[0] !in yielded;
      yielded := yielded + {tx.signatures[0]};
    }

    /** The loop that offers decoded transactions to `record_sig` and keeps the new ones. */
    method EmitAll(txs: transactions) returns (out: transactions)
      requires Valid()
      modifies this`yielded, this`log
      ensures Valid() && View() == Emit(old(View()), txs)
      ensures out == Fresh(old(yielded), txs)
    {
      hide Fresh, FirstSigs, FecAgree;
      out := [];
      var i := 0;
      assert txs[0..] == txs;
      ghost var seen := yielded;
      while i < |txs|
        invariant 0 <= i <= |txs| && log == old(log)
        invariant Fresh(seen, txs) == out + Fresh(yielded, txs[i..])
        invariant seen + FirstSigs(txs) == yielded + FirstSigs(txs[i..])
      {
        var tx := txs[i];
        assert txs[i..][1..] == txs[i + 1..];
        FreshStep(yielded, txs[i..]);
        var isNew := RecordSig(tx);
        if isNew {
          out := out + [tx];
        }
        i := i + 1;
      }
      assert txs[i..] == [];
      NothingFresh(yielded);
      assert out + [] == out;
      log := log.(emitted := log.emitted + out, delivered := log.delivered + out);
    }

    // ---------- Streaming ----------

    method AdvanceStreaming() returns (out: transactions)
      requires Valid() && Bounded(View())
      modifies this`cursor, this`yielded, this`stats, this`log, decoder
      ensures Valid() && View() == Advance(env, old(View()))
      ensures log.delivered == old(log.delivered) + out
    {
      hide Advance, Bounded, FecAgree;
      out := [];
      var go := true;
      while go
        invariant Valid() && Bounded(View())
        invariant if go then Advance(env, View()) == Advance(env, old(View())) else View() == Advance(env, old(View()))
        invariant log.delivered == old(log.delivered) + out
        decreases go, U32_MAX - cursor
      {
        if cursor !in pending || pending[cursor].source.FromRecovery? {
          AdvanceStops(env, View());
          go := false;
        } else {
          PayloadThere(View());
          match pending[cursor].Payload() {
            case None =>
              // a payload outside its buffer: the parser admits none
              assert false;
            case Some(payload) =>
              var more, keepGoing := StreamShred(pending[cursor], payload);
              out := out + more;
              go := keepGoing;
          }
        }
      }
    }

    /** One shred pushed into the decoder. */
    method StreamShred(ps: PendingShred, payload: seq<byte>) returns (out: transactions, keepGoing: bool)
      requires Valid() && Bounded(View())
      requires cursor in pending && ps == pending[cursor] && ps.source.FromPool? && ps.Payload() == Some(payload)
      modifies this`cursor, this`yielded, this`stats, this`log, decoder
      ensures Valid() && Bounded(View()) && cursor == old(cursor) + 1 <= U32_MAX
      ensures keepGoing ==> Advance(env, View()) == Advance(env, old(View()))
      ensures !keepGoing ==> View() == Advance(env, old(View()))
      ensures log.delivered == old(log.delivered) + out
    {
      hide Emit, Bounded, FecAgree, Advance, Pushed;
      ghost var before := View();
      CursorBounded(before);
      out := [];
      var r := decoder.Push(payload);
      log := log.(streamed := log.streamed + [cursor]);
      cursor := SatAdd(cursor, 1, U32_MAX);
      match r {
        case Some(txs) =>
          ghost var moved := View();
          out := EmitAll(txs);
          EmitDelivers(moved, txs);
          keepGoing := !ps.batchComplete;
        case None =>
          stats := stats.(decodeErrors := SatAdd(stats.decodeErrors, 1, U32_MAX));
          log := log.(errored := true, streamFrom := cursor);
          decoder.Reset();
          keepGoing := false;
      }
      assert View() == StreamOne(env, before, payload);
      AdvanceUnfold(env, before);
    }

    // ---------- Finishing ----------

    /** `complete_batch`. The dropped shreds' buffers go back to the pool in index order. */
    method CompleteBatch(bc: nat, ghost finish: Finish) returns (ghost given: seq<nat>)
      requires Valid() && bc <= U32_MAX
      modifies this, decoder, pool`free
      ensures Valid() && Repr == old(Repr) && View() == Complete(old(View()), bc, finish)
      ensures log.released == old(log.released) + given && pool.free == old(pool.free) + given
    {
      hide FecAgree, Emit, HandlesOf, Complete;
      ghost var before := View();
      var next := SatAdd(bc, 1, U32_MAX);
      given := ReleaseKeys(Sorted(KeysBelow(pending, next)));
      PruneFecSets(next);
      ghost var pruned := View();
      MoveWindow(bc, next, given, finish);
      CompleteParts(before, pruned, bc, finish, given);
    }

    /** Drops the finished range and starts afresh behind it. */
    method MoveWindow(bc: nat, next: nat, ghost given: seq<nat>, ghost finish: Finish)
      requires Valid() && next == SatAdd(bc, 1, U32_MAX)
      modifies this`pending, this`boundaries, this`batchStart, this`cursor, this`yielded, this`log, decoder
      ensures Valid() && View() == Moved(old(View()), bc, next, given, finish)
    {
      hide FecAgree, BoundariesIn, Moved, KeysFrom;
      ghost var before := View();
      decoder.Reset();
      log := log.(
        completions := log.completions
          + [Completion(batchStart, bc, BoundariesIn(pending, batchStart, bc + 1), finish, log.emitted)],
        emitted := [], errored := false, streamFrom := Max(cursor, next), released := log.released + given);
      pending := KeysFrom(pending, next);
      boundaries := KeysFrom(boundaries, next);
      batchStart := next;
      cursor := Max(cursor, next);
      yielded := {};
      MovedIs(before, View(), bc, next, given, finish);
    }

    /** Forgets the FEC sets that end before the new batch start. */
    method PruneFecSets(next: nat)
      requires Valid()
      modifies this`fecSets, this`fecView
      ensures Valid()
      ensures View() == old(View()).(fecSets := map f | f in old(fecView)
        && !(old(fecView)[f].numData > 0 && SatAdd(f, old(fecView)[f].numData, U32_MAX) <= next) :: old(fecView)[f])
    {
      fecView := map f | f in fecView
        && !(fecView[f].numData > 0 && SatAdd(f, fecView[f].numData, U32_MAX) <= next) :: fecView[f];
      fecSets := map f | f in fecSets
        && !(fecSets[f].numData > 0 && SatAdd(f, fecSets[f].numData, U32_MAX) <= next) :: fecSets[f];
    }

    method ReleaseKeys(keys: seq<nat>) returns (ghost given: seq<nat>)
      modifies pool`free
      ensures given == HandlesOf(pending, keys) && pool.free == old(pool.free) + given
    {
      given := [];
      var k := 0;
      assert keys[0..] == keys;
      while k < |keys|
        invariant 0 <= k <= |keys|
        invariant pool.free == old(pool.free) + given
        invariant HandlesOf(pending, keys) == given + HandlesOf(pending, keys[k..])
      {
        assert keys[k..][1..] == keys[k + 1..];
        if keys[k] in pending && pending[keys[k]].source.FromPool? {
          pool.Release(pending[keys[k]].source.handle.idx);
          given := given + [pending[keys[k]].source.handle.idx];
        }
        k := k + 1;
      }
    }

    /** Copies the payloads of a range into the scratch buffer. */
    method Combine(lo: nat, hi: nat)
      modifies this`scratch
      ensures scratch == Concat(pending, lo, hi)
    {
      scratch := [];
      var i := lo;
      while i < hi
        invariant lo <= i && (i <= hi || i == lo)
        invariant scratch == Concat(pending, lo, i)
        decreases hi - i
      {
        if i in pending {
          match pending[i].Payload() {
            case Some(p) => scratch := scratch + p;
            case None =>
          }
        }
        i := i + 1;
      }
      assert hi <= lo ==> Concat(pending, lo, hi) == [];
    }

    /** A fully present range: the tail of both the flush loop and the harvest loop. */
    method FinishPresent(bc: nat) returns (out: transactions, ghost given: seq<nat>)
      requires Valid() && bc <= U32_MAX
      modifies this, decoder, pool`free
      ensures Valid() && Repr == old(Repr) && View() == FinishWhole(env, old(View()), bc)
      ensures log.delivered == old(log.delivered) + out
      ensures log.released == old(log.released) + given && pool.free == old(pool.free) + given
    {
      hide Emit, Complete, DecodeBatch, Fresh, FecAgree;
      ghost var before := View();
      Combine(batchStart, bc + 1);
      out := [];
      match DecodeBatch(env.codec, scratch) {
        case Some(txs) =>
          out := EmitAll(txs);
          EmitDelivers(before, txs);
          if out != [] {
            stats := stats.(batchesFallback := SatAdd(stats.batchesFallback, 1, U64_MAX));
          } else {
            stats := stats.(batchesStreaming := SatAdd(stats.batchesStreaming, 1, U64_MAX));
          }
        case None =>
          stats := stats.(decodeErrors := SatAdd(stats.decodeErrors, 1, U32_MAX));
          stats := stats.(batchesSkipped := SatAdd(stats.batchesSkipped, 1, U64_MAX));
      }
      ghost var counted := View();
      assert before.log.delivered + [] == before.log.delivered;
      ghost var finish := Whole(scratch, before.log.emitted);
      given := CompleteBatch(bc, finish);
      CompleteDelivers(counted, bc, finish);
    }

    /** The range scan for salvageable runs. */
    method SalvageRunsIn(start: nat, end: nat) returns (out: transactions, salvaged: nat)
      requires Valid() && end < U32_MAX
      modifies this`scratch, this`yielded, this`log
      ensures Valid() && View() == Salvage(env, old(View()), start, end)
      ensures log.delivered == old(log.delivered) + out && salvaged == |out|
      ensures log.released == old(log.released)
    {
      hide Emit, RunsTxs, Runs, FecAgree;
      out := [];
      salvaged := 0;
      var at := start;
      while at <= end
        invariant Valid() && pending == old(pending)
        invariant Emit(View(), Rest(at, end)) == Salvage(env, old(View()), start, end)
        invariant log.delivered == old(log.delivered) + out && salvaged == |out|
        invariant log.released == old(log.released)
        decreases end + 1 - at
      {
        var more;
        at, more := SalvageNext(at, end);
        out := out + more;
        salvaged := salvaged + |more|;
      }
      NoMoreRuns(env, pending, at, end + 1);
      EmitNothing(View());
    }

    /** What the runs from `at` on still have to give. */
    ghost function Rest(at: nat, end: nat): transactions
      reads this
    {
      RunsTxs(env, pending, Runs(pending.Keys, at, end + 1))
    }

    /** The next run, if there is one, found, decoded and emitted. */
    method SalvageNext(at: nat, end: nat) returns (next: nat, out: transactions)
      requires Valid() && at <= end < U32_MAX
      modifies this`scratch, this`yielded, this`log
      ensures Valid() && pending == old(pending) && at < next
      ensures Emit(View(), Rest(next, end)) == Emit(old(View()), Rest(at, end))
      ensures log.delivered == old(log.delivered) + out && log.released == old(log.released)
    {
      hide Emit, RunsTxs, Runs, FecAgree;
      var first := SkipAbsent(at, end);
      if first > end {
        return first, [];
      }
      next := CombineRun(first, end);
      NextRun(env, pending, first, next, end + 1);
      out := DecodeScratch(Rest(next, end));
    }

    method SkipAbsent(lo: nat, end: nat) returns (at: nat)
      requires lo <= end < U32_MAX
      ensures lo <= at <= end + 1
      ensures at <= end ==> at in pending
      ensures Runs(pending.Keys, lo, end + 1) == Runs(pending.Keys, at, end + 1)
    {
      at := lo;
      while at <= end && at !in pending
        invariant lo <= at <= end + 1
        invariant Runs(pending.Keys, lo, end + 1) == Runs(pending.Keys, at, end + 1)
      {
        at := SatAdd(at, 1, U32_MAX);
      }
    }

    /** Collects one run into the scratch buffer and returns where it ends. */
    method CombineRun(first: nat, end: nat) returns (at: nat)
      requires first <= end < U32_MAX && first in pending
      modifies this`scratch
      ensures first < at <= end + 1 && at == RunEnd(pending.Keys, first + 1, end + 1)
      ensures scratch == Concat(pending, first, at)
    {
      scratch := [];
      at := first;
      while at <= end && at in pending
        invariant first <= at <= end + 1
        invariant at == first || RunEnd(pending.Keys, first + 1, end + 1) == RunEnd(pending.Keys, at, end + 1)
        invariant scratch == Concat(pending, first, at)
      {
        match pending[at].Payload() {
          case Some(p) => scratch := scratch + p;
          case None =>
        }
        at := SatAdd(at, 1, U32_MAX);
      }
    }

    /** Decodes the scratch buffer and emits, before whatever is still to come. */
    method DecodeScratch(ghost later: transactions) returns (out: transactions)
      requires Valid()
      modifies this`yielded, this`log
      ensures Valid()
      ensures View() == Emit(old(View()), DecodeConcatenated(env.codec, scratch))
      ensures Emit(View(), later) == Emit(old(View()), DecodeConcatenated(env.codec, scratch) + later)
      ensures log.delivered == old(log.delivered) + out && log.released == old(log.released)
    {
      hide Emit, FecAgree;
      out := [];
      ghost var before := View();
      EmitNothing(before);
      if scratch != [] {
        var txs := DecodeConcatenatedLoop(env.codec, scratch);
        out := EmitAll(txs);
        EmitDelivers(before, txs);
      }
      EmitAppend(before, DecodeConcatenated(env.codec, scratch), later);
    }

    /** A range with gaps, on timeout or at harvest. */
    method FinishGapped(bc: nat, timedOut: bool) returns (out: transactions, ghost given: seq<nat>)
      requires Valid() && bc < U32_MAX
      modifies this, decoder, pool`free
      ensures Valid() && Repr == old(Repr) && View() == FinishSalvaged(env, old(View()), bc, timedOut)
      ensures log.delivered == old(log.delivered) + out
      ensures log.released == old(log.released) + given && pool.free == old(pool.free) + given
    {
      hide Complete, RunsTxs, Runs, Fresh, FecAgree, SalvagedFrom;
      ghost var before := View();
      var salvaged;
      out, salvaged := SalvageRunsIn(batchStart, bc);
      if salvaged > 0 {
        stats := stats.(batchesFallback := SatAdd(stats.batchesFallback, 1, U64_MAX));
      } else {
        stats := stats.(batchesSkipped := SatAdd(stats.batchesSkipped, 1, U64_MAX));
      }
      if timedOut {
        stats := stats.(forcedTimeout := SatAdd(stats.forcedTimeout, 1, U64_MAX));
      }
      ghost var counted := View();
      given := CompleteBatch(bc, SalvagedFrom(before, bc, timedOut));
      CompleteDelivers(counted, bc, SalvagedFrom(before, bc, timedOut));
    }

    // ---------- Recovery ----------

    method IsRecoverable(f: nat) returns (yes: bool)
      requires Valid() && f in fecSets
      ensures yes <==> Recoverable(View(), f)
    {
      var numData := fecSets[f].numData;
      var count := if numData == 0 then 0
                   else |set i | i in pending && f <= i < SatAdd(f, numData, U32_MAX) && pending[i].fecSetIndex == f|;
      yes := fecSets[f].CanRecover(count);
    }

    /** Around the cursor and recoverable. */
    method IsCandidate(f: nat) returns (yes: bool)
      requires Valid() && f in fecSets
      ensures yes <==> Candidate(View(), f)
    {
      hide Recoverable;
      yes := false;
      if fecSets[f].numData != 0 && f <= cursor < f + fecSets[f].numData {
        yes := IsRecoverable(f);
      }
    }

    /** The hint first, then the first set around the cursor. */
    method SelectRecoverableSet(hint: nat) returns (r: Option<nat>)
      requires Valid()
      ensures r == SelectRecoverable(View(), hint)
    {
      hide Recoverable, Candidate, Sorted, SelectRecoverable, FecAgree;
      if hint in fecSets {
        var yes := IsRecoverable(hint);
        if yes {
          HintFirst(View(), hint);
          return Some(hint);
        }
      }
      NotRecoverable(View(), hint);
      KeysViewed();
      var keys := Sorted(fecSets.Keys);
      var k := 0;
      while k < |keys|
        invariant 0 <= k <= |keys|
        invariant forall j :: 0 <= j < k ==> !Candidate(View(), keys[j])
      {
        assert keys[k] in keys;
        var yes := IsCandidate(keys[k]);
        if yes {
          FirstCandidate(View(), hint, keys, k);
          return Some(keys[k]);
        }
        k := k + 1;
      }
      NoCandidate(View(), hint, keys);
      return None;
    }

    /** The received shreds of a set, and what the library makes of them. */
    method ReconstructSet(f: nat, rsCache: ReedSolomonCache) returns (r: Option<seq<Recovered>>)
      requires Valid() && f in fecSets && rsCache.Valid() && rsCache.lib == env.lib && rsCache !in Repr
      modifies rsCache
      ensures Valid() && rsCache.Valid() && View() == old(View())
      ensures r == Reconstruct(env.lib, View().fecSets[f], DataRefs(View(), f, View().fecSets[f].numData))
    {
      hide Reconstruct;
      var numData := fecSets[f].numData;
      var refs := map p: nat | p < numData && HoldsPosition(pending, f, p) :: pending[f + p].source.Slice();
      r := fecSets[f].TryReconstruct(refs, rsCache);
    }

    method TryFecFill(now: nat, hint: nat, rsCache: ReedSolomonCache) returns (any: bool)
      requires Valid() && rsCache.Valid() && rsCache.lib == env.lib && rsCache !in Repr
      modifies this`pending, this`boundaries, this`fecSets, this`fecView, this`stats, this`slotComplete, rsCache
      ensures Valid() && rsCache.Valid()
      ensures Slot.Fill(View(), any) == FecFill(env, now, old(View()), hint)
    {
      hide Reconstruct, InsertAll, SelectRecoverable, FecAgree, DataRefs;
      KeysViewed();
      var target := SelectRecoverableSet(hint);
      if target.None? || target.value !in fecSets {
        return false;
      }
      var f := target.value;
      SetViewed(f);
      if fecSets[f].numData == 0 {
        return false;
      }
      var recovered := ReconstructSet(f, rsCache);
      if recovered.None? {
        stats := stats.(recoveryFailures := SatAdd(stats.recoveryFailures, 1, U64_MAX));
        return false;
      }
      any := InsertRecoveredShreds(now, f, recovered.value);
      if any {
        stats := stats.(recoveriesDone := SatAdd(stats.recoveriesDone, 1, U64_MAX));
        Forget(f);
      }
    }

    lemma KeysViewed()
      requires Valid()
      ensures View().fecSets.Keys == fecSets.Keys
    {
    }

    lemma SetViewed(f: nat)
      requires Valid() && f in fecSets
      ensures f in View().fecSets && View().fecSets[f].numData == fecSets[f].numData
      ensures fecSets[f].code.Keys == View().fecSets[f].code.Keys
    {
    }

    method Forget(f: nat)
      requires Valid()
      modifies this`fecSets, this`fecView
      ensures Valid() && View() == old(View()).(fecSets := old(fecView) - {f})
      ensures fecSets.Values <= old(fecSets.Values)
    {
      fecSets := fecSets - {f};
      fecView := fecView - {f};
    }

    method InsertRecoveredShreds(now: nat, f: nat, recovered: seq<Recovered>) returns (any: bool)
      requires Valid()
      modifies this`pending, this`boundaries, this`slotComplete
      ensures Valid() && View() == InsertAll(now, old(View()), f, recovered)
      ensures any <==> pending != old(pending)
    {
      hide InsertAll, RecoveredEntry, FecAgree;
      any := false;
      var k := 0;
      assert recovered[0..] == recovered;
      while k < |recovered|
        invariant 0 <= k <= |recovered|
        invariant Valid()
        invariant InsertAll(now, View(), f, recovered[k..]) == InsertAll(now, old(View()), f, recovered)
        invariant |pending| >= |old(pending)|
        invariant if any then |pending| > |old(pending)| else pending == old(pending)
      {
        InsertAllStep(now, View(), f, recovered[k..]);
        assert recovered[k..][1..] == recovered[k + 1..];
        var inserted := InsertOne(now, f, recovered[k]);
        any := any || inserted;
        k := k + 1;
      }
      InsertAllDone(now, View(), f, recovered[k..]);
    }

    method InsertOne(now: nat, f: nat, r: Recovered) returns (inserted: bool)
      requires Valid()
      modifies this`pending, this`boundaries, this`slotComplete
      ensures Valid() && View() == InsertRecovered(now, old(View()), f, r)
      ensures if inserted then |pending| == |old(pending)| + 1 else pending == old(pending)
    {
      hide FecAgree, ParseKind;
      var index := f + r.position;
      if index < batchStart || index in pending {
        return false;
      }
      var parsed := ParseKind(r.bytes);
      if !(parsed.Ok? && parsed.kind.Data?) {
        return false;
      }
      var d := parsed.kind.data;
      if d.lastInSlot {
        slotComplete := true;
        return false;
      }
      pending := pending[index := PendingShred(FromRecovery(r.bytes), DATA_HEADER_SIZE + |d.payload|,
        d.batchComplete, f)];
      if d.batchComplete && index !in boundaries {
        boundaries := boundaries[index := now];
      }
      return true;
    }

    method FillHints(now: nat, hints: seq<nat>, rsCache: ReedSolomonCache)
      requires Valid() && rsCache.Valid() && rsCache.lib == env.lib && rsCache !in Repr
      modifies this`pending, this`boundaries, this`fecSets, this`fecView, this`stats, this`slotComplete, rsCache
      ensures Valid() && rsCache.Valid() && View() == FillAll(env, now, old(View()), hints)
    {
      hide FillAll, FecFill, FecAgree;
      var k := 0;
      assert hints[0..] == hints;
      while k < |hints|
        invariant 0 <= k <= |hints|
        invariant Valid() && rsCache.Valid()
        invariant FillAll(env, now, View(), hints[k..]) == FillAll(env, now, old(View()), hints)
      {
        FillAllStep(env, now, View(), hints[k..]);
        assert hints[k..][1..] == hints[k + 1..];
        var _ := TryFecFill(now, hints[k], rsCache);
        k := k + 1;
      }
      FillAllDone(env, now, View(), hints[k..]);
    }

    // ---------- The flush loop ----------

    /** Refills the gaps of the range that ends at `bc`, if it has any. */
    method Refill(now: nat, bc: nat, rsCache: ReedSolomonCache)
      requires Valid() && batchStart <= bc && rsCache.Valid() && rsCache.lib == env.lib && rsCache !in Repr
      modifies this`pending, this`boundaries, this`fecSets, this`fecView, this`stats, this`slotComplete, rsCache
      ensures Valid() && rsCache.Valid() && View() == Refilled(env, now, old(View()), bc)
    {
      hide FillAll, FecAgree;
      CountingTest(pending, batchStart, bc);
      if |PresentIn(pending, batchStart, bc + 1)| < bc - batchStart + 1 {
        var hints := FlushHints(bc);
        FillHints(now, hints, rsCache);
      }
    }

    method FlushHints(bc: nat) returns (hints: seq<nat>)
      requires Valid()
      ensures hints == Hints(View(), bc)
    {
      var wanted := set f | f in fecSets && fecSets[f].numData != 0 && f + fecSets[f].numData > batchStart && f <= bc;
      assert wanted == set f | f in fecView && fecView[f].numData != 0 && f + fecView[f].numData > batchStart
        && f <= bc;
      hints := Sorted(wanted);
    }

    /** One turn on the least boundary; `again` tells whether the loop goes round. */
    method FlushOnce(now: nat, bc: nat, rsCache: ReedSolomonCache)
      returns (again: bool, out: transactions, ghost given: seq<nat>)
      requires Valid() && bc in boundaries && batchStart <= bc <= U32_MAX
      requires bc == U32_MAX ==> !Overdue(env, now, View(), bc)
      requires rsCache.Valid() && rsCache.lib == env.lib && rsCache !in Repr
      modifies this, decoder, pool`free, rsCache
      ensures Valid() && rsCache.Valid() && Repr == old(Repr)
      ensures var turn := FlushTurn(env, now, old(View()), bc, old(boundaries[bc]));
              && (again <==> turn.FinishNow?)
              && View() == if again then turn.state else Refilled(env, now, old(View()), bc)
      ensures log.delivered == old(log.delivered) + out
      ensures log.released == old(log.released) + given && pool.free == old(pool.free) + given
    {
      hide FillAll, FinishWhole, FinishSalvaged, Refilled, FecAgree;
      out := [];
      given := [];
      var firstSeen := boundaries[bc];
      ghost var before := View();
      Refill(now, bc, rsCache);
      RefillLog(env, now, before, bc);
      CountingTest(pending, batchStart, bc);
      if |PresentIn(pending, batchStart, bc + 1)| < bc - batchStart + 1 {
        if Elapsed(now, firstSeen) < env.timeout {
          return false, out, given;
        }
        out, given := FinishGapped(bc, true);
      } else {
        out, given := FinishPresent(bc);
      }
      again := true;
    }

    method TryFlushBatches(now: nat, rsCache: ReedSolomonCache) returns (out: transactions, ghost given: seq<nat>)
      requires Valid() && Bounded(View()) && rsCache.Valid() && rsCache.lib == env.lib && rsCache !in Repr
      modifies this, decoder, pool`free, rsCache
      ensures Valid() && rsCache.Valid() && Repr == old(Repr)
      ensures View() == Flush(env, now, old(View()))
      ensures log.delivered == old(log.delivered) + out
      ensures log.released == old(log.released) + given && pool.free == old(pool.free) + given
    {
      hide Flush, FlushTurn, Refilled, Bounded, FecAgree;
      out := [];
      given := [];
      var go := true;
      while go
        invariant Valid() && rsCache.Valid() && Repr == old(Repr) && Bounded(View())
        invariant if go then Flush(env, now, View()) == Flush(env, now, old(View()))
          else View() == Flush(env, now, old(View()))
        invariant log.delivered == old(log.delivered) + out
        invariant log.released == old(log.released) + given && pool.free == old(pool.free) + given
        decreases go, U32_MAX - batchStart
      {
        FlushUnfold(env, now, View());
        var known := set b | b in boundaries && b >= batchStart;
        if known == {} {
          go := false;
        } else {
          var more;
          ghost var back;
          go, more, back := FlushOnce(now, Least(known), rsCache);
          out := out + more;
          given := given + back;
        }
      }
    }

    // ---------- Public calls ----------

    /** Streams, and refills and streams again if the cursor still waits for the new shred. */
    method InsertAndStream(now: nat, d: DataArrival, rsCache: ReedSolomonCache) returns (out: transactions)
      requires Valid() && Bounded(View()) && DataOk(d) && d.index !in pending
      requires rsCache.Valid() && rsCache.lib == env.lib && rsCache !in Repr
      modifies this, decoder, rsCache
      ensures Valid() && rsCache.Valid() && Repr == old(Repr)
      ensures View() == Streamed(env, now, old(View()), d)
      ensures log.delivered == old(log.delivered) + out && log.released == old(log.released)
    {
      hide Advance, FecFill, Bounded, FecAgree, DataOk;
      ghost var before := View();
      InsertBounded'(now, before, d);
      Insert(now, d);
      ghost var s1 := View();
      out := AdvanceStreaming();
      AdvanceLog(env, s1);
      if cursor <= d.index {
        ghost var s2 := View();
        FecFillBounded(env, now, s2, d.fecSetIndex);
        FecFillLog(env, now, s2, d.fecSetIndex);
        var any := TryFecFill(now, d.fecSetIndex, rsCache);
        if any {
          ghost var s3 := View();
          var more := AdvanceStreaming();
          AdvanceLog(env, s3);
          out := out + more;
        }
      }
    }

    method Insert(now: nat, d: DataArrival)
      requires Valid()
      modifies this`pending, this`boundaries
      ensures Valid() && View() == InsertEntry(now, old(View()), d.index, d.Entry())
    {
      hide FecAgree;
      pending := pending[d.index := d.Entry()];
      if d.batchComplete && d.index !in boundaries {
        boundaries := boundaries[d.index := now];
      }
    }

    /** `push_data`. */
    method PushData(now: nat, d: DataArrival, rsCache: ReedSolomonCache)
      returns (out: transactions, ghost given: seq<nat>)
      requires Open() && DataOk(d) && d.handle.idx !in Held(pending)
      requires rsCache.Valid() && rsCache.lib == env.lib && rsCache !in Repr
      modifies this, decoder, pool`free, rsCache
      ensures Open() && rsCache.Valid() && Repr == old(Repr)
      ensures View() == Slot.PushData(env, now, old(View()), d)
      ensures log.delivered == old(log.delivered) + out
      ensures TookIn(old(View()), View(), d.handle, given) && pool.free == old(pool.free) + given
    {
      hide Resting, Bounded, Flush, Streamed, FecAgree, TookIn, Distinct, Held, DataOk;
      ghost var before := View();
      RestingBounded(env, before);
      PushDataRests(env, now, before, d);
      PushDataTakesIn(env, now, before, d);
      out := [];
      if d.lastInSlot {
        slotComplete := true;
        FlagKeepsBounded(before);
        ghost var back;
        out, back := TryFlushBatches(now, rsCache);
        given := DropHandle(d.handle, back);
      } else if d.index < batchStart || d.index in pending {
        given := DropHandle(d.handle, []);
      } else {
        out := InsertAndStream(now, d, rsCache);
        var more;
        more, given := TryFlushBatches(now, rsCache);
        out := out + more;
      }
      RestingBounded(env, View());
      TookInGiven(before, View(), d.handle, given);
      TakesInDistinct(before, View(), d.handle);
    }

    /** The end of a handle that was not kept. */
    method DropHandle(h: Handle, ghost back: seq<nat>) returns (ghost given: seq<nat>)
      requires Valid()
      modifies this`log, pool`free
      ensures Valid() && View() == Release(old(View()), h.idx)
      ensures given == back + [h.idx] && pool.free == old(pool.free) + [h.idx]
    {
      pool.Release(h.idx);
      log := log.(released := log.released + [h.idx]);
      given := back + [h.idx];
    }

    /** Makes room if the buffer is full and records the code shred in its set. */
    method RecordCodeShred(c: CodeArrival)
      requires Valid()
      modifies Repr
      ensures Valid() && fresh(Repr - old(Repr))
      ensures View() == Recorded(env, old(View()), c)
    {
      hide FecAgree, RecordCode, Roomy, Recorded;
      ghost var before := View();
      MakeRoom(c.fecSetIndex);
      OpenSet(c.fecSetIndex);
      RecordIn(c);
      RecordedParts(env, before, c);
    }

    /** The set's buffer, a new one if there is none. */
    method OpenSet(f: nat)
      requires Valid()
      modifies this`fecSets, this`fecView, this`Repr
      ensures Valid() && fresh(Repr - old(Repr)) && f in fecSets
      ensures View() == old(View()).(
                fecSets := if f in old(fecView) then old(fecView) else old(fecView)[f := NewFecSet(f)])
    {
      hide FecAgree;
      KeysViewed();
      if f !in fecSets {
        NewSet(f);
      }
    }

    method RecordIn(c: CodeArrival)
      requires Valid() && c.fecSetIndex in fecSets
      modifies this`fecView, fecSets[c.fecSetIndex]
      ensures Valid() && c.fecSetIndex in old(fecView)
      ensures View() == old(View()).(fecSets := old(fecView)[c.fecSetIndex :=
        RecordCode(old(fecView)[c.fecSetIndex], c.position, c.numData, c.numCoding, c.coded, c.variant)])
    {
      hide RecordCode, FecAgree;
      KeysViewed();
      ghost var view := RecordOne(fecSets, fecView, c);
      fecView := view;
    }

    static method RecordOne(buffers: map<nat, FecSetBuffer>, ghost view: map<nat, FecSet>, c: CodeArrival)
      returns (ghost view': map<nat, FecSet>)
      requires FecAgree(buffers, view) && c.fecSetIndex in buffers
      modifies buffers[c.fecSetIndex]
      ensures c.fecSetIndex in view && FecAgree(buffers, view')
      ensures view' == view[c.fecSetIndex :=
        RecordCode(view[c.fecSetIndex], c.position, c.numData, c.numCoding, c.coded, c.variant)]
    {
      hide RecordCode;
      var f := c.fecSetIndex;
      buffers[f].Record(c.position, c.numData, c.numCoding, c.coded, c.variant);
      view' := view[f := RecordCode(view[f], c.position, c.numData, c.numCoding, c.coded, c.variant)];
    }

    method MakeRoom(f: nat)
      requires Valid()
      modifies this`fecSets, this`fecView, this`stats
      ensures Valid() && fecSets.Values <= old(fecSets.Values)
      ensures View() == Roomy(env, old(View()), f)
    {
      hide FecAgree;
      KeysViewed();
      SameSize(fecSets, fecView);
      if |fecSets| >= env.maxFecSets && f !in fecSets && |fecSets| > 0 {
        var oldest := Least(fecSets.Keys);
        if oldest < f {
          Forget(oldest);
          stats := stats.(fecSetsEvicted := SatAdd(stats.fecSetsEvicted, 1, U64_MAX));
        }
      }
    }

    method NewSet(f: nat)
      requires Valid() && f !in fecSets
      modifies this`fecSets, this`fecView, this`Repr
      ensures Valid() && fresh(Repr - old(Repr)) && f in fecSets
      ensures View() == old(View()).(fecSets := old(fecView)[f := NewFecSet(f)])
    {
      var buffer := new FecSetBuffer(f);
      fecSets := fecSets[f := buffer];
      fecView := fecView[f := NewFecSet(f)];
      Repr := Repr + {buffer};
    }

    /** Records the code shred, and refills and streams if that brought anything back. */
    method RecordAndStream(now: nat, c: CodeArrival, rsCache: ReedSolomonCache) returns (out: transactions)
      requires Valid() && Bounded(View()) && CodeOk(c)
      requires rsCache.Valid() && rsCache.lib == env.lib && rsCache !in Repr && pool !in Repr
      modifies Repr, rsCache
      ensures Valid() && Bounded(View()) && rsCache.Valid() && fresh(Repr - old(Repr))
      ensures View() == CodeStreamed(env, now, old(View()), c)
      ensures log.delivered == old(log.delivered) + out && log.released == old(log.released)
    {
      hide Bounded, FecAgree, Advance, FecFill, Recorded, CodeOk;
      ghost var before := View();
      RecordedBounded(env, before, c);
      RecordCodeShred(c);
      RecordedLog(env, before, c);
      ghost var s1 := View();
      FecFillBounded(env, now, s1, c.fecSetIndex);
      FecFillLog(env, now, s1, c.fecSetIndex);
      out := [];
      var any := TryFecFill(now, c.fecSetIndex, rsCache);
      if any {
        ghost var s2 := View();
        out := AdvanceStreaming();
        AdvanceLog(env, s2);
      }
    }

    /** `push_code`. */
    method PushCode(now: nat, c: CodeArrival, rsCache: ReedSolomonCache)
      returns (out: transactions, ghost given: seq<nat>)
      requires Open() && CodeOk(c)
      requires rsCache.Valid() && rsCache.lib == env.lib && rsCache !in Repr && pool !in Repr
      modifies Repr, pool`free, rsCache
      ensures Open() && rsCache.Valid() && fresh(Repr - old(Repr))
      ensures View() == Slot.PushCode(env, now, old(View()), c)
      ensures log.delivered == old(log.delivered) + out
      ensures Shed(old(View()), View(), given) && pool.free == old(pool.free) + given
    {
      hide Resting, Bounded, Flush, FecAgree, Distinct, Held, CodeStreamed, CodeOk, Shed;
      ghost var before := View();
      PushCodeRests(env, now, before, c);
      PushCodeSheds(env, now, before, c);
      out := RecordAndStream(now, c, rsCache);
      var more;
      more, given := TryFlushBatches(now, rsCache);
      out := out + more;
      RestingBounded(env, View());
      ShedGiven(before, View(), given);
    }

    // ---------- Harvest and end ----------

    /** The batches of the harvest, over the list of boundaries taken beforehand. */
    method HarvestAll(bcs: seq<nat>) returns (out: transactions, ghost given: seq<nat>)
      requires Valid() && forall k :: 0 <= k < |bcs| ==> bcs[k] < U32_MAX
      modifies this, decoder, pool`free
      ensures Valid() && Repr == old(Repr) && View() == HarvestBatches(env, old(View()), bcs)
      ensures log.delivered == old(log.delivered) + out
      ensures log.released == old(log.released) + given && pool.free == old(pool.free) + given
    {
      hide FinishWhole, FinishSalvaged, HarvestBatches, FecAgree;
      out := [];
      given := [];
      var k := 0;
      assert bcs[0..] == bcs;
      while k < |bcs|
        invariant 0 <= k <= |bcs| && Valid() && Repr == old(Repr)
        invariant HarvestBatches(env, View(), bcs[k..]) == HarvestBatches(env, old(View()), bcs)
        invariant log.delivered == old(log.delivered) + out
        invariant log.released == old(log.released) + given && pool.free == old(pool.free) + given
      {
        HarvestUnfold(env, View(), bcs[k..]);
        assert bcs[k..][1..] == bcs[k + 1..];
        var bc := bcs[k];
        if bc >= batchStart {
          var more;
          ghost var back;
          if AllPresent(pending, batchStart, bc + 1) {
            more, back := FinishPresent(bc);
          } else {
            more, back := FinishGapped(bc, false);
          }
          out := out + more;
          given := given + back;
        }
        k := k + 1;
      }
      HarvestDone(env, View(), bcs[k..]);
    }

    /** The key-list scan over what is left. */
    method SalvageTail() returns (out: transactions)
      requires Valid() && forall i :: i in pending ==> i < U32_MAX
      modifies this`scratch, this`yielded, this`log
      ensures Valid()
      ensures View() == Emit(old(View()), RunsTxs(env, old(pending), Runs(old(pending).Keys, 0, U32_MAX)))
      ensures log.delivered == old(log.delivered) + out && log.released == old(log.released)
    {
      hide Emit, RunsTxs, Runs, KeyRuns, FecAgree, MaximalRuns, Sorted;
      ScannersAgree(pending.Keys, U32_MAX);
      var indices := Sorted(pending.Keys);
      assert forall k :: 0 <= k < |indices| ==> indices[k] in indices;
      out := SalvageKeys(indices);
    }

    method SalvageKeys(indices: seq<nat>) returns (out: transactions)
      requires Valid() && forall k :: 0 <= k < |indices| ==> indices[k] in pending && indices[k] < U32_MAX
      modifies this`scratch, this`yielded, this`log
      ensures Valid() && View() == Emit(old(View()), old(RestKeys(indices)))
      ensures log.delivered == old(log.delivered) + out && log.released == old(log.released)
    {
      hide Emit, RunsTxs, KeyRuns, FecAgree;
      out := [];
      assert indices[0..] == indices;
      var i := 0;
      while i < |indices|
        invariant 0 <= i <= |indices| && Valid()
        invariant Emit(View(), RestKeys(indices[i..])) == Emit(old(View()), old(RestKeys(indices)))
        invariant log.delivered == old(log.delivered) + out && log.released == old(log.released)
      {
        var more;
        i, more := TailNext(indices, i);
        out := out + more;
      }
      NoMoreKeys(env, pending, indices[i..]);
      EmitNothing(View());
    }

    ghost function RestKeys(ks: seq<nat>): transactions
      reads this
    {
      RunsTxs(env, pending, KeyRuns(ks))
    }

    /** The next run of consecutive keys, decoded and emitted. */
    method TailNext(indices: seq<nat>, at: nat) returns (next: nat, out: transactions)
      requires Valid() && at < |indices|
      requires forall k :: 0 <= k < |indices| ==> indices[k] in pending && indices[k] < U32_MAX
      modifies this`scratch, this`yielded, this`log
      ensures Valid() && pending == old(pending) && at < next <= |indices|
      ensures Emit(View(), RestKeys(indices[next..])) == Emit(old(View()), RestKeys(indices[at..]))
      ensures log.delivered == old(log.delivered) + out && log.released == old(log.released)
    {
      hide Emit, RunsTxs, Runs, KeyRuns, FecAgree;
      next := CombineKeys(indices, at);
      assert indices[at..][Consecutive(indices[at..])..] == indices[next..];
      NextKeyRun(env, pending, indices[at..]);
      out := DecodeScratch(RestKeys(indices[next..]));
    }

    /** Collects the consecutive keys from `at` on into the scratch buffer. */
    method CombineKeys(indices: seq<nat>, at: nat) returns (next: nat)
      requires at < |indices| && forall k :: 0 <= k < |indices| ==> indices[k] in pending && indices[k] < U32_MAX
      modifies this`scratch
      ensures at < next <= |indices| && next == at + Consecutive(indices[at..])
      ensures scratch == Concat(pending, indices[at], indices[at] + Consecutive(indices[at..]))
    {
      scratch := [];
      next := at;
      var first := indices[at];
      var expected := first;
      while next < |indices| && indices[next] == expected
        invariant at <= next <= |indices|
        invariant expected == first + (next - at)
        invariant forall j :: at <= j < next ==> indices[j] == first + (j - at)
        invariant scratch == Concat(pending, first, expected)
      {
        match pending[indices[next]].Payload() {
          case Some(p) => scratch := scratch + p;
          case None =>
        }
        expected := SatAdd(indices[next], 1, U32_MAX);
        next := next + 1;
      }
      forall j | 0 <= j < next - at
        ensures indices[at..][j] == indices[at..][0] + j
      {
        assert indices[at..][j] == indices[at + j];
      }
      ConsecutiveExact(indices[at..], next - at);
    }

    /** Every batch end in order, then whatever is left. */
    method HarvestPending() returns (out: transactions, ghost given: seq<nat>)
      requires Valid() && Bounded(View())
      modifies this, decoder, pool`free
      ensures Valid() && Repr == old(Repr) && View() == HarvestedPending(env, old(View()))
      ensures log.delivered == old(log.delivered) + out
      ensures log.released == old(log.released) + given && pool.free == old(pool.free) + given
    {
      hide Bounded, HarvestBatches, RunsTxs, Runs, Emit, FecAgree;
      ghost var s1 := View();
      BoundedEnds(s1);
      var bcs := Sorted(set i | i in pending && pending[i].batchComplete && i >= batchStart);
      assert bcs == HarvestBoundaries(s1);
      out, given := HarvestAll(bcs);
      HarvestKeepsBounded(env, s1, bcs);
      KeysBounded(View());
      var tail := SalvageTail();
      out := out + tail;
    }

    /** `try_harvest_tail`. */
    method TryHarvestTail(now: nat, rsCache: ReedSolomonCache) returns (out: transactions, ghost given: seq<nat>)
      requires Open() && rsCache.Valid() && rsCache.lib == env.lib && rsCache !in Repr
      modifies this, decoder, pool`free, rsCache
      ensures Valid() && rsCache.Valid() && Repr == old(Repr)
      ensures View() == Harvest(env, now, old(View()))
      ensures log.delivered == old(log.delivered) + out
      ensures Shed(old(View()), View(), given) && pool.free == old(pool.free) + given
    {
      hide Resting, Bounded, FillAll, FecAgree, Distinct, Held, Shed, HarvestedPending, Harvest, Sorted, SatAdd;
      ghost var before := View();
      RestingBounded(env, before);
      HarvestShedsHere(env, now, before);
      KeysViewed();
      var hints := Sorted(fecSets.Keys);
      FillHints(now, hints, rsCache);
      FillAllBounded(env, now, before, hints);
      FillAllLog(env, now, before, hints);
      out, given := HarvestPending();
      ghost var s3 := View();
      KeysViewed();
      SameSize(fecSets, fecView);
      stats := stats.(
        fecSetsDiscarded := SatAdd(stats.fecSetsDiscarded, |fecSets|, U64_MAX),
        salvagedTail := SatAdd(stats.salvagedTail, |out|, U64_MAX));
      HarvestParts(env, now, before, s3, out);
      ShedGiven(before, View(), given);
    }

    /** The drop of the accumulator itself: every handle still held goes back. */
    method Drop() returns (ghost given: seq<nat>)
      requires Distinct(pending)
      modifies pool`free
      ensures NoDup(given) && Elements(given) == Held(pending) && pool.free == old(pool.free) + given
    {
      DropReleasesHeld(pending);
      given := ReleaseKeys(Sorted(pending.Keys));
    }
  }

  /** The harvest after its refill, before its counters. */
  ghost function HarvestedPending(env: Env, s: State): State
  {
    var s2 := HarvestBatches(env, s, HarvestBoundaries(s));
    Emit(s2, RunsTxs(env, s2.pending, Runs(s2.pending.Keys, 0, U32_MAX)))
  }

  lemma HarvestParts(env: Env, now: nat, s: State, s3: State, out: transactions)
    requires s3 == HarvestedPending(env, FillAll(env, now, s, Sorted(s.fecSets.Keys)))
    requires s3.log.delivered == s.log.delivered + out
    ensures Harvest(env, now, s) == s3.(stats := s3.stats.(
      fecSetsDiscarded := SatAdd(s3.stats.fecSetsDiscarded, |s3.fecSets|, U64_MAX),
      salvagedTail := SatAdd(s3.stats.salvagedTail, |out|, U64_MAX)))
  {
    hide FillAll, HarvestBatches, Emit, RunsTxs, Runs;
  }

  lemma HarvestUnfold(env: Env, s: State, bcs: seq<nat>)
    requires bcs != []
    ensures HarvestBatches(env, s, bcs) ==
            if bcs[0] < s.batchStart then HarvestBatches(env, s, bcs[1..])
            else if AllPresent(s.pending, s.batchStart, bcs[0] + 1)
              then HarvestBatches(env, FinishWhole(env, s, bcs[0]), bcs[1..])
            else HarvestBatches(env, FinishSalvaged(env, s, bcs[0], false), bcs[1..])
  {
    hide FinishWhole, FinishSalvaged;
  }

  lemma HarvestDone(env: Env, s: State, bcs: seq<nat>)
    requires bcs == []
    ensures HarvestBatches(env, s, bcs) == s
  {
  }

  lemma NextKeyRun(env: Env, pending: Pending, ks: seq<nat>)
    requires ks != []
    ensures RunsTxs(env, pending, KeyRuns(ks))
         == DecodeConcatenated(env.codec, Concat(pending, ks[0], ks[0] + Consecutive(ks)))
            + RunsTxs(env, pending, KeyRuns(ks[Consecutive(ks)..]))
  {
    hide DecodeConcatenated, Concat, Consecutive;
    var rest := KeyRuns(ks[Consecutive(ks)..]);
    assert ([Run(ks[0], ks[0] + Consecutive(ks))] + rest)[1..] == rest;
  }

  lemma NoMoreKeys(env: Env, pending: Pending, ks: seq<nat>)
    requires ks == []
    ensures RunsTxs(env, pending, KeyRuns(ks)) == []
  {
  }

  lemma HarvestShedsHere(env: Env, now: nat, s: State)
    requires Resting(env, s) && Distinct(s.pending)
    ensures Sheds(s, Harvest(env, now, s))
  {
    hide Harvest, Distinct, Shape, Tracks, Ledger, Accounted;
    HarvestSheds(env, now, s);
  }

  lemma KeysBounded(s: State)
    requires Bounded(s)
    ensures forall i :: i in s.pending ==> i < U32_MAX
  {
  }

  lemma {:induction false} HarvestKeepsBounded(env: Env, s: State, bcs: seq<nat>)
    requires Bounded(s) && forall k :: 0 <= k < |bcs| ==> bcs[k] < U32_MAX
    ensures Bounded(HarvestBatches(env, s, bcs))
    decreases |bcs|
  {
    hide Bounded, FinishWhole, FinishSalvaged;
    if bcs != [] {
      FinishWholeBounded(env, s, bcs[0]);
      FinishSalvagedBounded(env, s, bcs[0], false);
      var s' := if bcs[0] < s.batchStart then s
                else if AllPresent(s.pending, s.batchStart, bcs[0] + 1) then FinishWhole(env, s, bcs[0])
                else FinishSalvaged(env, s, bcs[0], false);
      HarvestKeepsBounded(env, s', bcs[1..]);
    }
  }

  lemma {:induction false} AdvanceLog(env: Env, s: State)
    requires Bounded(s)
    ensures Advance(env, s).log.released == s.log.released
  {
    hide Bounded, Advance;
    AdvanceKeepsShreds(env, s);
  }

  lemma RestingBounded(env: Env, s: State)
    requires Resting(env, s)
    ensures Bounded(s)
  {
    ShapeBounded(s);
  }

  lemma TookInGiven(s: State, s': State, h: Handle, given: seq<nat>)
    requires TakesIn(s, s', h) && s'.log.released == s.log.released + given
    ensures TookIn(s, s', h, given)
  {
    var g :| TookIn(s, s', h, g);
    assert g == s'.log.released[|s.log.released|..] == given;
  }

  lemma TakesInDistinct(s: State, s': State, h: Handle)
    requires TakesIn(s, s', h)
    ensures Distinct(s'.pending)
  {
  }

  lemma ShedGiven(s: State, s': State, given: seq<nat>)
    requires Sheds(s, s') && s'.log.released == s.log.released + given
    ensures Shed(s, s', given) && Distinct(s'.pending)
  {
    var g :| Shed(s, s', g);
    assert g == s'.log.released[|s.log.released|..] == given;
  }

  /** The state after making room for a set. */
  ghost function Roomy(env: Env, s: State, f: nat): State
  {
    if |s.fecSets| >= env.maxFecSets && f !in s.fecSets && |s.fecSets| > 0 && Least(s.fecSets.Keys) < f then
      s.(fecSets := s.fecSets - {Least(s.fecSets.Keys)},
         stats := s.stats.(fecSetsEvicted := SatAdd(s.stats.fecSetsEvicted, 1, U64_MAX)))
    else s
  }

  lemma RecordedParts(env: Env, s: State, c: CodeArrival)
    ensures var r := Roomy(env, s, c.fecSetIndex);
            var f := if c.fecSetIndex in r.fecSets then r.fecSets[c.fecSetIndex] else NewFecSet(c.fecSetIndex);
            Recorded(env, s, c) == r.(fecSets := r.fecSets[c.fecSetIndex :=
              RecordCode(f, c.position, c.numData, c.numCoding, c.coded, c.variant)])
  {
    hide RecordCode;
    assert s.fecSets != map[] <==> |s.fecSets| > 0;
  }

  lemma SameSize<X, Y>(a: map<nat, X>, b: map<nat, Y>)
    requires a.Keys == b.Keys
    ensures |a| == |b|
  {
    assert |a| == |a.Keys| && |b| == |b.Keys|;
  }

  lemma FlushUnfold(env: Env, now: nat, s: State)
    requires Bounded(s)
    ensures BoundariesFrom(s) == {} ==> Flush(env, now, s) == s
    ensures BoundariesFrom(s) != {} ==>
              var bc := Least(BoundariesFrom(s));
              var turn := FlushTurn(env, now, s, bc, s.boundaries[bc]);
              && bc < U32_MAX && Bounded(Refilled(env, now, s, bc))
              && (turn.FinishNow? ==> Bounded(turn.state) && turn.state.batchStart == bc + 1
                                      && Flush(env, now, s) == Flush(env, now, turn.state))
              && (turn.Stop? ==> Flush(env, now, s) == Refilled(env, now, s, bc))
  {
    hide FlushTurn, Refilled;
    if BoundariesFrom(s) != {} {
      FlushTurnBounded(env, now, s, Least(BoundariesFrom(s)), s.boundaries[Least(BoundariesFrom(s))]);
    }
  }

  /** Recovery touches neither the history nor the window. */
  lemma RefillLog(env: Env, now: nat, s: State, bc: nat)
    ensures var s1 := Refilled(env, now, s, bc);
            s1.log == s.log && s1.batchStart == s.batchStart
  {
    FillAllLog(env, now, s, Hints(s, bc));
  }

  lemma {:induction false} FillAllLog(env: Env, now: nat, s: State, hints: seq<nat>)
    ensures FillAll(env, now, s, hints).log == s.log && FillAll(env, now, s, hints).batchStart == s.batchStart
    decreases |hints|
  {
    hide FecFill;
    if hints != [] {
      FecFillLog(env, now, s, hints[0]);
      FillAllLog(env, now, FecFill(env, now, s, hints[0]).state, hints[1..]);
    }
  }

  /** The turn of the flush loop on this batch end gives its range up. */
  ghost predicate Overdue(env: Env, now: nat, s: State, bc: nat)
    requires bc in s.boundaries
  {
    && !AllPresent(Refilled(env, now, s, bc).pending, s.batchStart, bc + 1)
    && Elapsed(now, s.boundaries[bc]) >= env.timeout
  }

  ghost predicate Candidate(s: State, f: nat)
  {
    f in s.fecSets && s.fecSets[f].numData != 0 && f <= s.cursor < f + s.fecSets[f].numData && Recoverable(s, f)
  }

  lemma HintFirst(s: State, hint: nat)
    requires Recoverable(s, hint)
    ensures SelectRecoverable(s, hint) == Some(hint)
  {
  }

  lemma NotRecoverable(s: State, f: nat)
    ensures f !in s.fecSets ==> !Recoverable(s, f)
  {
  }

  lemma FirstCandidate(s: State, hint: nat, keys: seq<nat>, k: nat)
    requires keys == Sorted(s.fecSets.Keys) && k < |keys| && Candidate(s, keys[k]) && !Recoverable(s, hint)
    requires forall j :: 0 <= j < k ==> !Candidate(s, keys[j])
    ensures SelectRecoverable(s, hint) == Some(keys[k])
  {
    hide Recoverable, Sorted;
    var candidates := set f | f in s.fecSets && s.fecSets[f].numData != 0
      && f <= s.cursor < f + s.fecSets[f].numData && Recoverable(s, f);
    assert forall f :: f in candidates <==> Candidate(s, f);
    assert keys[k] in candidates;
    var f := Least(candidates);
    assert f in keys;
    var j :| 0 <= j < |keys| && keys[j] == f;
    assert j >= k;
  }

  lemma NoCandidate(s: State, hint: nat, keys: seq<nat>)
    requires keys == Sorted(s.fecSets.Keys) && !Recoverable(s, hint)
    requires forall j :: 0 <= j < |keys| ==> !Candidate(s, keys[j])
    ensures SelectRecoverable(s, hint) == None
  {
    hide Recoverable, Sorted;
    var candidates := set f | f in s.fecSets && s.fecSets[f].numData != 0
      && f <= s.cursor < f + s.fecSets[f].numData && Recoverable(s, f);
    forall f | f in s.fecSets
      ensures f !in candidates
    {
      assert f in keys;
      assert !Candidate(s, f);
    }
    assert candidates == {};
  }

  lemma InsertAllStep(now: nat, s: State, f: nat, recovered: seq<Recovered>)
    requires recovered != []
    ensures InsertAll(now, s, f, recovered) == InsertAll(now, InsertRecovered(now, s, f, recovered[0]),
      f, recovered[1..])
  {
  }

  lemma InsertAllDone(now: nat, s: State, f: nat, recovered: seq<Recovered>)
    requires recovered == []
    ensures InsertAll(now, s, f, recovered) == s
  {
  }

  lemma FillAllStep(env: Env, now: nat, s: State, hints: seq<nat>)
    requires hints != []
    ensures FillAll(env, now, s, hints) == FillAll(env, now, FecFill(env, now, s, hints[0]).state, hints[1..])
  {
  }

  lemma FillAllDone(env: Env, now: nat, s: State, hints: seq<nat>)
    requires hints == []
    ensures FillAll(env, now, s, hints) == s
  {
  }

  lemma NextRun(env: Env, pending: Pending, first: nat, end: nat, hi: nat)
    requires first < hi && first in pending && end == RunEnd(pending.Keys, first + 1, hi)
    ensures RunsTxs(env, pending, Runs(pending.Keys, first, hi))
         == DecodeConcatenated(env.codec, Concat(pending, first, end))
           + RunsTxs(env, pending, Runs(pending.Keys, end, hi))
  {
    var rest := Runs(pending.Keys, end, hi);
    assert ([Run(first, end)] + rest)[1..] == rest;
  }

  lemma NoMoreRuns(env: Env, pending: Pending, at: nat, hi: nat)
    requires at >= hi
    ensures RunsTxs(env, pending, Runs(pending.Keys, at, hi)) == []
  {
  }

  lemma AdvanceStops(env: Env, s: State)
    requires Bounded(s) && (s.cursor !in s.pending || s.pending[s.cursor].source.FromRecovery?)
    ensures Advance(env, s) == s
  {
  }

  lemma PayloadThere(s: State)
    requires Bounded(s) && s.cursor in s.pending
    ensures s.pending[s.cursor].Payload().Some?
  {
  }

  /** `Complete` apart from the FEC sets. */
  ghost function Moved(s: State, bc: nat, next: nat, given: seq<nat>, finish: Finish): State
  {
    s.(pending := map i | i in s.pending && i >= next :: s.pending[i],
       boundaries := map b | b in s.boundaries && b >= next :: s.boundaries[b],
       batchStart := next,
       cursor := Max(s.cursor, next),
       decoder := EMPTY,
       yielded := {},
       log := s.log.(
         completions := s.log.completions
           + [Completion(s.batchStart, bc, BoundariesIn(s.pending, s.batchStart, bc + 1), finish, s.log.emitted)],
         emitted := [], errored := false, streamFrom := Max(s.cursor, next), released := s.log.released + given))
  }

  /** `retain(|k| k >= next)`. */
  function KeysFrom<V>(m: map<nat, V>, next: nat): map<nat, V>
  {
    map k | k in m && k >= next :: m[k]
  }

  lemma MovedIs(s: State, s': State, bc: nat, next: nat, given: seq<nat>, finish: Finish)
    requires s'.pending == KeysFrom(s.pending, next) && s'.boundaries == KeysFrom(s.boundaries, next)
    requires s'.fecSets == s.fecSets && s'.slotComplete == s.slotComplete && s'.stats == s.stats
    requires s'.batchStart == next && s'.cursor == Max(s.cursor, next) && s'.decoder == EMPTY && s'.yielded == {}
    requires s'.log == s.log.(
      completions := s.log.completions
        + [Completion(s.batchStart, bc, BoundariesIn(s.pending, s.batchStart, bc + 1), finish, s.log.emitted)],
      emitted := [], errored := false, streamFrom := Max(s.cursor, next), released := s.log.released + given)
    ensures s' == Moved(s, bc, next, given, finish)
  {
  }

  lemma CompleteParts(s: State, pruned: State, bc: nat, finish: Finish, given: seq<nat>)
    requires var next := SatAdd(bc, 1, U32_MAX);
             && given == HandlesOf(s.pending, Sorted(KeysBelow(s.pending, next)))
             && pruned == s.(fecSets := map f | f in s.fecSets
                  && !(s.fecSets[f].numData > 0 && SatAdd(f, s.fecSets[f].numData, U32_MAX) <= next) :: s.fecSets[f])
    ensures Moved(pruned, bc, SatAdd(bc, 1, U32_MAX), given, finish) == Complete(s, bc, finish)
  {
    hide HandlesOf, Sorted, KeysBelow, BoundariesIn, SatAdd;
  }

  lemma NothingFresh(seen: set<signature>)
    ensures Fresh(seen, []) == [] && seen + FirstSigs([]) == seen
  {
  }

  lemma FreshStep(seen: set<signature>, txs: transactions)
    requires txs != []
    ensures var sigs := txs[0].signatures;
            var seen' := seen + (if sigs == [] then {} else {sigs[0]});
            && Fresh(seen, txs) == (if sigs != [] && sigs[0] !in seen then [txs[0]] else []) + Fresh(seen', txs[1..])
            && seen + FirstSigs(txs) == seen' + FirstSigs(txs[1..])
  {
    var sigs := txs[0].signatures;
    if sigs == [] {
      assert seen + {} == seen;
    } else if sigs[0] in seen {
      assert seen + {sigs[0]} == seen;
    }
  }

  lemma EmitDelivers(s: State, txs: transactions)
    ensures Emit(s, txs).log.delivered == s.log.delivered + Fresh(s.yielded, txs)
    ensures Emit(s, txs).log.released == s.log.released
  {
  }

  lemma CompleteDelivers(s: State, bc: nat, finish: Finish)
    ensures Complete(s, bc, finish).log.delivered == s.log.delivered
  {
  }

  lemma CursorBounded(s: State)
    requires Bounded(s) && s.cursor in s.pending
    ensures s.cursor < U32_MAX
    ensures forall env, p :: Bounded(StreamOne(env, s, p))
  {
  }

  lemma AdvanceUnfold(env: Env, s: State)
    requires Bounded(s) && s.cursor in s.pending && s.pending[s.cursor].source.FromPool?
    requires s.pending[s.cursor].Payload().Some?
    ensures var p := s.pending[s.cursor].Payload().value;
            var s1 := StreamOne(env, s, p);
            && Bounded(s1)
            && (if Pushed(env.codec, s.decoder, p).txs.None? || s.pending[s.cursor].batchComplete
                then Advance(env, s) == s1
                else Advance(env, s) == Advance(env, s1))
  {
  }

  lemma EmitNothing(s: State)
    ensures Emit(s, []) == s
  {
  }
}
