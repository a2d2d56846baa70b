/** What a slot accumulator does to its state (src/accumulator.rs), one function per operation, over
    values. The class in Accumulator.dfy is proved to compute these; the theorems are about them. */
module Slot {
  import opened Bytes
  import opened Collections
  import opened Variant
  import opened Parser
  import opened Codec
  import opened Decoder
  import opened Streaming
  import opened Erasure
  import opened Fec

  /** What every accumulator is built with. */
  datatype Env = Env(codec: EntryCodec, lib: ErasureLibrary, maxFecSets: nat, timeout: nat)

  // ---------- Pending shreds ----------

  /** A pool buffer and the bytes it holds while the handle is alive. */
  datatype Handle = Handle(idx: nat, bytes: seq<byte>)

  datatype Source = FromPool(handle: Handle) | FromRecovery(bytes: seq<byte>)
  {
    function Slice(): seq<byte>
    {
      if FromPool? then handle.bytes else bytes
    }
  }

  datatype PendingShred = PendingShred(source: Source, payloadEnd: nat, batchComplete: bool, fecSetIndex: nat)
  {
    function Payload(): Option<seq<byte>>
    {
      if payloadEnd < DATA_HEADER_SIZE || payloadEnd > |source.Slice()| then None
      else Some(source.Slice()[DATA_HEADER_SIZE..payloadEnd])
    }
  }

  type Pending = map<nat, PendingShred>

  predicate AllPresent(pending: Pending, lo: nat, hi: nat)
  {
    forall i :: lo <= i < hi ==> i in pending
  }

  /** The payloads of the present indices of `[lo, hi)` in order. */
  function Concat(pending: Pending, lo: nat, hi: nat): seq<byte>
    decreases hi
  {
    if lo >= hi then []
    else Concat(pending, lo, hi - 1) + (if hi - 1 in pending then pending[hi - 1].Payload().GetOr([]) else [])
  }

  // ---------- State ----------

  datatype Stats = Stats(
    decodeErrors: nat, recoveriesDone: nat, recoveryFailures: nat,
    batchesStreaming: nat, batchesFallback: nat, batchesSkipped: nat,
    fecSetsDiscarded: nat, fecSetsEvicted: nat, salvagedTail: nat, forcedCorrupted: nat, forcedTimeout: nat)

  const NO_STATS := Stats(0, 0, 0, 0, 0, 0, 0, 0, 0, 0, 0)

  /** A run of present shreds and their bytes. */
  datatype Piece = Piece(run: Run, bytes: seq<byte>)

  /** How a range was finished after streaming had emitted `before`: decoded as one fully present batch from
      these bytes, or, with these indices present, salvaged from these runs, by timeout or in the harvest;
      `head` is what the streaming decoder saw, if it never failed. */
  datatype Finish =
    | Whole(payload: seq<byte>, before: transactions)
    | Salvaged(present: set<nat>, head: Option<seq<byte>>, before: transactions, pieces: seq<Piece>, timedOut: bool)

  /** One call of `complete_batch`: the range, its batch-complete indices, and everything emitted
      since the call before. */
  datatype Completion = Completion(start: nat, last: nat, boundaries: set<nat>, finish: Finish, emitted: transactions)

  /** History no decision of the source depends on. */
  datatype Log = Log(
    completions: seq<Completion>,
    emitted: transactions,      // since the last completion
    delivered: transactions,    // since the slot was opened
    streamed: seq<nat>,         // indices pushed into the streaming decoder
    errored: bool,              // a streaming error since the last completion
    streamFrom: nat,            // first index the decoder's buffer holds
    released: seq<nat>)         // pool buffers dropped

  const NO_LOG := Log([], [], [], [], false, 0, [])

  datatype State = State(
    pending: Pending,
    fecSets: map<nat, FecSet>,
    boundaries: map<nat, nat>,  // batch-complete index -> when first seen
    cursor: nat,
    decoder: DecoderState,
    yielded: set<signature>,
    batchStart: nat,
    slotComplete: bool,
    stats: Stats,
    log: Log)

  const NEW_SLOT := State(map[], map[], map[], 0, EMPTY, {}, 0, false, NO_STATS, NO_LOG)

  /** What the functions below need in order to be defined at all: indices short of the saturation
      point, and payload bounds as the parser leaves them. */
  ghost predicate Bounded(s: State)
  {
    && (forall i :: i in s.pending ==> i < U32_MAX && s.pending[i].Payload().Some?)
    && (forall b :: b in s.boundaries ==> b < U32_MAX)
    && (forall f :: f in s.fecSets ==> f + s.fecSets[f].numData <= U32_MAX)
    && s.cursor <= U32_MAX && s.batchStart <= U32_MAX
  }

  // ---------- Emission ----------

  /** `record_sig` over a list: the transactions that are signed and not yet seen, in order. */
  function Fresh(seen: set<signature>, txs: transactions): transactions
    decreases |txs|
  {
    if txs == [] then []
    else if txs[0].signatures == [] || txs[0].signatures[0] in seen then Fresh(seen, txs[1..])
    else [txs[0]] + Fresh(seen + {txs[0].signatures[0]}, txs[1..])
  }

  function FirstSigs(txs: transactions): set<signature>
  {
    if txs == [] then {}
    else (if txs[0].signatures == [] then {} else {txs[0].signatures[0]}) + FirstSigs(txs[1..])
  }

  function Emit(s: State, txs: transactions): State
  {
    var novel := Fresh(s.yielded, txs);
    s.(yielded := s.yielded + FirstSigs(txs),
       log := s.log.(emitted := s.log.emitted + novel, delivered := s.log.delivered + novel))
  }

  // ---------- Streaming ----------

  function StreamOne(env: Env, s: State, payload: seq<byte>): State
    ensures StreamOne(env, s, payload).pending == s.pending
    ensures StreamOne(env, s, payload).cursor == SatAdd(s.cursor, 1, U32_MAX)
  {
    var r := Pushed(env.codec, s.decoder, payload);
    var next := SatAdd(s.cursor, 1, U32_MAX);
    var moved := s.(cursor := next, decoder := r.state, log := s.log.(streamed := s.log.streamed + [s.cursor]));
    match r.txs
    case Some(txs) => Emit(moved, txs)
    case None =>
      moved.(decoder := EMPTY,
             stats := s.stats.(decodeErrors := SatAdd(s.stats.decodeErrors, 1, U32_MAX)),
             log := moved.log.(errored := true, streamFrom := next))
  }

  /** The streaming loop stops at a gap, a recovered shred, a decode error or a batch end. */
  ghost function Advance(env: Env, s: State): (s': State)
    requires Bounded(s)
    ensures Bounded(s')
    decreases U32_MAX - s.cursor
  {
    if s.cursor !in s.pending || s.pending[s.cursor].source.FromRecovery? then s
    else
      var ps := s.pending[s.cursor];
      var s1 := StreamOne(env, s, ps.Payload().value);
      if Pushed(env.codec, s.decoder, ps.Payload().value).txs.None? || ps.batchComplete then s1
      else Advance(env, s1)
  }

  // ---------- Erasure recovery ----------

  function DataCount(s: State, fecIndex: nat, numData: nat): nat
  {
    if numData == 0 then 0
    else
      |set i | i in s.pending && fecIndex <= i < SatAdd(fecIndex, numData, U32_MAX)
               && s.pending[i].fecSetIndex == fecIndex|
  }

  predicate Recoverable(s: State, f: nat)
  {
    f in s.fecSets && CanRecoverWith(s.fecSets[f], DataCount(s, f, s.fecSets[f].numData))
  }

  /** The hinted set if it can be recovered, otherwise the first one the cursor is in that can. */
  function SelectRecoverable(s: State, hint: nat): Option<nat>
  {
    if Recoverable(s, hint) then Some(hint)
    else
      var candidates := set f | f in s.fecSets && s.fecSets[f].numData != 0
        && f <= s.cursor < f + s.fecSets[f].numData && Recoverable(s, f);
      if candidates == {} then None else Some(Least(candidates))
  }

  predicate HoldsPosition(pending: Pending, f: nat, p: nat)
  {
    f + p in pending && pending[f + p].fecSetIndex == f
  }

  /** The received shreds of a set by position. */
  function DataRefs(s: State, f: nat, numData: nat): map<nat, seq<byte>>
  {
    map p: nat | p < numData && HoldsPosition(s.pending, f, p) :: s.pending[f + p].source.Slice()
  }

  /** The pending entry a recovered shred becomes; None when it is not a data shred. */
  function RecoveredEntry(f: nat, bytes: seq<byte>): (r: Option<(PendingShred, bool)>)
    ensures r.Some? ==> r.value.0.Payload().Some? && r.value.0.source.FromRecovery? && r.value.0.fecSetIndex == f
  {
    match ParseKind(bytes)
    case Ok(Data(d)) =>
      DataShredBounds(bytes);
      Some((PendingShred(FromRecovery(bytes), DATA_HEADER_SIZE + |d.payload|, d.batchComplete, f), d.lastInSlot))
    case _ => None
  }

  function InsertEntry(now: nat, s: State, i: nat, ps: PendingShred): State
  {
    s.(pending := s.pending[i := ps],
       boundaries := if ps.batchComplete && i !in s.boundaries then s.boundaries[i := now] else s.boundaries)
  }

  function InsertRecovered(now: nat, s: State, f: nat, r: Recovered): State
  {
    var i := f + r.position;
    if i < s.batchStart || i in s.pending then s
    else match RecoveredEntry(f, r.bytes)
      case None => s
      case Some((ps, last)) => if last then s.(slotComplete := true) else InsertEntry(now, s, i, ps)
  }

  function InsertAll(now: nat, s: State, f: nat, recovered: seq<Recovered>): State
    decreases |recovered|
  {
    if recovered == [] then s
    else InsertAll(now, InsertRecovered(now, s, f, recovered[0]), f, recovered[1..])
  }

  datatype Fill = Fill(state: State, any: bool)

  function FecFill(env: Env, now: nat, s: State, hint: nat): Fill
  {
    match SelectRecoverable(s, hint)
    case None => Fill(s, false)
    case Some(f) =>
      if f !in s.fecSets || s.fecSets[f].numData == 0 then Fill(s, false)
      else
        match Reconstruct(env.lib, s.fecSets[f], DataRefs(s, f, s.fecSets[f].numData))
        case None =>
          Fill(s.(stats := s.stats.(recoveryFailures := SatAdd(s.stats.recoveryFailures, 1, U64_MAX))), false)
        case Some(recovered) =>
          var s1 := InsertAll(now, s, f, recovered);
          if s1.pending == s.pending then Fill(s1, false)
          else Fill(s1.(stats := s1.stats.(recoveriesDone := SatAdd(s1.stats.recoveriesDone, 1, U64_MAX)),
                        fecSets := s1.fecSets - {f}), true)
  }

  function FillAll(env: Env, now: nat, s: State, hints: seq<nat>): State
    decreases |hints|
  {
    if hints == [] then s else FillAll(env, now, FecFill(env, now, s, hints[0]).state, hints[1..])
  }

  // ---------- Finishing batches ----------

  /** The buffers of the pool-sourced entries among these keys, in order. */
  function HandlesOf(pending: Pending, keys: seq<nat>): seq<nat>
  {
    if keys == [] then []
    else (if keys[0] in pending && pending[keys[0]].source.FromPool? then [pending[keys[0]].source.handle.idx] else [])
         + HandlesOf(pending, keys[1..])
  }

  function KeysBelow(pending: Pending, limit: nat): set<nat>
  {
    set i | i in pending && i < limit
  }

  function BoundariesIn(pending: Pending, lo: nat, hi: nat): set<nat>
  {
    set i | i in pending && lo <= i < hi && pending[i].batchComplete
  }

  /** `complete_batch`. */
  function Complete(s: State, bc: nat, finish: Finish): State
  {
    var next := SatAdd(bc, 1, U32_MAX);
    s.(pending := map i | i in s.pending && i >= next :: s.pending[i],
       boundaries := map b | b in s.boundaries && b >= next :: s.boundaries[b],
       fecSets := map f | f in s.fecSets
         && !(s.fecSets[f].numData > 0 && SatAdd(f, s.fecSets[f].numData, U32_MAX) <= next) :: s.fecSets[f],
       batchStart := next,
       cursor := Max(s.cursor, next),
       decoder := EMPTY,
       yielded := {},
       log := s.log.(
         completions := s.log.completions
           + [Completion(s.batchStart, bc, BoundariesIn(s.pending, s.batchStart, bc + 1), finish, s.log.emitted)],
         emitted := [],
         errored := false,
         streamFrom := Max(s.cursor, next),
         released := s.log.released + HandlesOf(s.pending, Sorted(KeysBelow(s.pending, next)))))
  }

  function CountFallback(s: State): State
  {
    s.(stats := s.stats.(batchesFallback := SatAdd(s.stats.batchesFallback, 1, U64_MAX)))
  }

  function CountStreaming(s: State): State
  {
    s.(stats := s.stats.(batchesStreaming := SatAdd(s.stats.batchesStreaming, 1, U64_MAX)))
  }

  function CountSkipped(s: State): State
  {
    s.(stats := s.stats.(batchesSkipped := SatAdd(s.stats.batchesSkipped, 1, U64_MAX)))
  }

  function CountTimeout(s: State): State
  {
    s.(stats := s.stats.(forcedTimeout := SatAdd(s.stats.forcedTimeout, 1, U64_MAX)))
  }

  function CountDecodeError(s: State): State
  {
    s.(stats := s.stats.(decodeErrors := SatAdd(s.stats.decodeErrors, 1, U32_MAX)))
  }

  /** A fully present range: decode it whole, emit what streaming has not, and finish it. */
  function FinishWhole(env: Env, s: State, bc: nat): State
  {
    var bytes := Concat(s.pending, s.batchStart, bc + 1);
    var s1 := match DecodeBatch(env.codec, bytes)
      case Some(txs) =>
        if Fresh(s.yielded, txs) != [] then CountFallback(Emit(s, txs)) else CountStreaming(Emit(s, txs))
      case None => CountSkipped(CountDecodeError(s));
    Complete(s1, bc, Whole(bytes, s.log.emitted))
  }

  /** The maximal runs of present indices in `[lo, hi)`, scanned upwards. */
  function RunEnd(keys: set<nat>, lo: nat, hi: nat): (e: nat)
    ensures lo <= hi ==> lo <= e <= hi
    ensures lo > hi ==> e == lo
    decreases hi - lo
  {
    if lo >= hi || lo !in keys then lo else RunEnd(keys, lo + 1, hi)
  }

  datatype Run = Run(first: nat, end: nat)

  function Runs(keys: set<nat>, lo: nat, hi: nat): seq<Run>
    decreases hi - lo
  {
    if lo >= hi then []
    else if lo !in keys then Runs(keys, lo + 1, hi)
    else [Run(lo, RunEnd(keys, lo + 1, hi))] + Runs(keys, RunEnd(keys, lo + 1, hi), hi)
  }

  /** Everything the runs decode to, run after run. */
  function RunsTxs(env: Env, pending: Pending, runs: seq<Run>): transactions
  {
    if runs == [] then []
    else DecodeConcatenated(env.codec, Concat(pending, runs[0].first, runs[0].end)) + RunsTxs(env, pending, runs[1..])
  }

  function Pieces(pending: Pending, runs: seq<Run>): seq<Piece>
  {
    if runs == [] then []
    else [Piece(runs[0], Concat(pending, runs[0].first, runs[0].end))] + Pieces(pending, runs[1..])
  }

  /** What a range that is to be salvaged is salvaged from. */
  function SalvagedFrom(s: State, bc: nat, timedOut: bool): Finish
  {
    Salvaged(set i | i in s.pending && s.batchStart <= i <= bc,
             if s.log.errored then None else Some(Concat(s.pending, s.batchStart, s.cursor)),
             s.log.emitted,
             Pieces(s.pending, Runs(s.pending.Keys, s.batchStart, bc + 1)),
             timedOut)
  }

  function Salvage(env: Env, s: State, start: nat, end: nat): State
  {
    Emit(s, RunsTxs(env, s.pending, Runs(s.pending.Keys, start, end + 1)))
  }

  /** A range with gaps: salvage what decodes, count it, and finish it. */
  function FinishSalvaged(env: Env, s: State, bc: nat, timedOut: bool): State
  {
    var s1 := Salvage(env, s, s.batchStart, bc);
    var s2 := if |s1.log.emitted| > |s.log.emitted| then CountFallback(s1) else CountSkipped(s1);
    Complete(if timedOut then CountTimeout(s2) else s2, bc, SalvagedFrom(s, bc, timedOut))
  }

  // ---------- The flush loop ----------

  function Elapsed(now: nat, since: nat): nat
  {
    SatSub(now, since)
  }

  function BoundariesFrom(s: State): set<nat>
  {
    set b | b in s.boundaries && b >= s.batchStart
  }

  /** The FEC sets that could fill a gap of the range. */
  function Hints(s: State, bc: nat): seq<nat>
  {
    Sorted(set f | f in s.fecSets && s.fecSets[f].numData != 0 && f + s.fecSets[f].numData > s.batchStart && f <= bc)
  }

  /** The state the range ending at `bc` is judged in: refilled if a shred of it is missing. */
  function Refilled(env: Env, now: nat, s: State, bc: nat): State
  {
    if AllPresent(s.pending, s.batchStart, bc + 1) then s else FillAll(env, now, s, Hints(s, bc))
  }

  datatype Verdict = Stop | FinishNow(state: State)

  /** One turn of the flush loop on the least boundary. */
  function FlushTurn(env: Env, now: nat, s: State, bc: nat, firstSeen: nat): Verdict
  {
    var s1 := Refilled(env, now, s, bc);
    if AllPresent(s1.pending, s.batchStart, bc + 1) then FinishNow(FinishWhole(env, s1, bc))
    else if Elapsed(now, firstSeen) >= env.timeout then FinishNow(FinishSalvaged(env, s1, bc, true))
    else Stop
  }

  // ---------- Boundedness is kept ----------

  lemma EmitBounded(s: State, txs: transactions)
    requires Bounded(s)
    ensures Bounded(Emit(s, txs))
  {
  }

  lemma InsertBounded(now: nat, s: State, f: nat, r: Recovered)
    requires Bounded(s) && f + r.position < U32_MAX
    ensures Bounded(InsertRecovered(now, s, f, r))
    ensures InsertRecovered(now, s, f, r).batchStart == s.batchStart
    ensures InsertRecovered(now, s, f, r).fecSets == s.fecSets
  {
  }

  lemma {:induction false} InsertAllBounded(now: nat, s: State, f: nat, recovered: seq<Recovered>)
    requires Bounded(s) && forall i :: 0 <= i < |recovered| ==> f + recovered[i].position < U32_MAX
    ensures Bounded(InsertAll(now, s, f, recovered))
    ensures InsertAll(now, s, f, recovered).batchStart == s.batchStart
    ensures InsertAll(now, s, f, recovered).fecSets == s.fecSets
    decreases |recovered|
  {
    if recovered != [] {
      InsertBounded(now, s, f, recovered[0]);
      InsertAllBounded(now, InsertRecovered(now, s, f, recovered[0]), f, recovered[1..]);
    }
  }

  lemma {:induction false} MissingPositions(f: FecSet, refs: map<nat, seq<byte>>, full: slots, pos: nat)
    requires |full| >= f.numData
    ensures forall i :: 0 <= i < |Missing(f, refs, full, pos)| ==>
              pos <= Missing(f, refs, full, pos)[i].position < f.numData
    decreases f.numData - pos
  {
    if pos < f.numData {
      MissingPositions(f, refs, full, pos + 1);
    }
  }

  lemma ReconstructPositions(lib: ErasureLibrary, f: FecSet, refs: map<nat, seq<byte>>)
    requires Reconstruct(lib, f, refs).Some?
    ensures forall i :: 0 <= i < |Reconstruct(lib, f, refs).value| ==>
              Reconstruct(lib, f, refs).value[i].position < f.numData
  {
    if Reconstructible(f) && CountPresent(Placed(f, refs)) >= f.numData {
      assert InPlaceAt(lib, f.numData, f.numCoding, Placed(f, refs));
      MissingPositions(f, refs, lib.reconstruct(f.numData, f.numCoding, Placed(f, refs)).value, 0);
    }
  }

  lemma FecFillBounded(env: Env, now: nat, s: State, hint: nat)
    requires Bounded(s)
    ensures Bounded(FecFill(env, now, s, hint).state)
    ensures FecFill(env, now, s, hint).state.batchStart == s.batchStart
  {
    hide Reconstruct;
    var target := SelectRecoverable(s, hint);
    if target.Some? && target.value in s.fecSets {
      var f := target.value;
      var refs := DataRefs(s, f, s.fecSets[f].numData);
      if Reconstruct(env.lib, s.fecSets[f], refs).Some? {
        ReconstructPositions(env.lib, s.fecSets[f], refs);
        InsertAllBounded(now, s, f, Reconstruct(env.lib, s.fecSets[f], refs).value);
      }
    }
  }

  lemma {:induction false} FillAllBounded(env: Env, now: nat, s: State, hints: seq<nat>)
    requires Bounded(s)
    ensures Bounded(FillAll(env, now, s, hints))
    ensures FillAll(env, now, s, hints).batchStart == s.batchStart
    decreases |hints|
  {
    hide FecFill;
    if hints != [] {
      FecFillBounded(env, now, s, hints[0]);
      FillAllBounded(env, now, FecFill(env, now, s, hints[0]).state, hints[1..]);
    }
  }

  lemma CompleteBounded(s: State, bc: nat, finish: Finish)
    requires Bounded(s) && bc < U32_MAX
    ensures Bounded(Complete(s, bc, finish))
    ensures Complete(s, bc, finish).batchStart == bc + 1
  {
  }

  lemma FinishWholeBounded(env: Env, s: State, bc: nat)
    requires Bounded(s) && bc < U32_MAX
    ensures Bounded(FinishWhole(env, s, bc))
    ensures FinishWhole(env, s, bc).batchStart == bc + 1
  {
    hide Complete, Emit;
    var bytes := Concat(s.pending, s.batchStart, bc + 1);
    match DecodeBatch(env.codec, bytes)
    case Some(txs) =>
      EmitBounded(s, txs);
      CompleteBounded(if Fresh(s.yielded, txs) != [] then CountFallback(Emit(s, txs)) else CountStreaming(Emit(s, txs)),
                      bc, Whole(bytes, s.log.emitted));
    case None =>
      CompleteBounded(CountSkipped(CountDecodeError(s)), bc, Whole(bytes, s.log.emitted));
  }

  lemma FinishSalvagedBounded(env: Env, s: State, bc: nat, timedOut: bool)
    requires Bounded(s) && bc < U32_MAX
    ensures Bounded(FinishSalvaged(env, s, bc, timedOut))
    ensures FinishSalvaged(env, s, bc, timedOut).batchStart == bc + 1
  {
    hide Complete, Emit, SalvagedFrom;
    EmitBounded(s, RunsTxs(env, s.pending, Runs(s.pending.Keys, s.batchStart, bc + 1)));
    var s1 := Salvage(env, s, s.batchStart, bc);
    var s2 := if |s1.log.emitted| > |s.log.emitted| then CountFallback(s1) else CountSkipped(s1);
    CompleteBounded(if timedOut then CountTimeout(s2) else s2, bc, SalvagedFrom(s, bc, timedOut));
  }

  lemma FlushTurnBounded(env: Env, now: nat, s: State, bc: nat, firstSeen: nat)
    requires Bounded(s) && bc < U32_MAX
    ensures Bounded(Refilled(env, now, s, bc))
    ensures FlushTurn(env, now, s, bc, firstSeen).FinishNow? ==>
              && Bounded(FlushTurn(env, now, s, bc, firstSeen).state)
              && FlushTurn(env, now, s, bc, firstSeen).state.batchStart == bc + 1
  {
    hide FinishWhole, FinishSalvaged, FillAll;
    FillAllBounded(env, now, s, Hints(s, bc));
    var s1 := Refilled(env, now, s, bc);
    FinishWholeBounded(env, s1, bc);
    FinishSalvagedBounded(env, s1, bc, true);
  }

  // ---------- Whole operations ----------

  /** `try_flush_batches`. It ends because every turn but the last raises the batch start, whatever
      boundaries the refill adds meanwhile. */
  ghost function Flush(env: Env, now: nat, s: State): (s': State)
    requires Bounded(s)
    ensures Bounded(s')
    decreases U32_MAX - s.batchStart
  {
    if BoundariesFrom(s) == {} then s
    else
      var bc := Least(BoundariesFrom(s));
      FlushTurnBounded(env, now, s, bc, s.boundaries[bc]);
      match FlushTurn(env, now, s, bc, s.boundaries[bc])
      case Stop => Refilled(env, now, s, bc)
      case FinishNow(s1) => Flush(env, now, s1)
  }

  /** A data shred as the parser hands it over. */
  datatype DataArrival = DataArrival(index: nat, fecSetIndex: nat, handle: Handle, payloadEnd: nat,
    batchComplete: bool, lastInSlot: bool)
  {
    function Entry(): PendingShred
    {
      PendingShred(FromPool(handle), payloadEnd, batchComplete, fecSetIndex)
    }
  }

  datatype CodeArrival = CodeArrival(fecSetIndex: nat, numData: nat, numCoding: nat, position: nat,
    coded: seq<byte>, variant: VariantKind)

  /** What the parser guarantees of a data shred, below the saturated index. */
  ghost predicate DataOk(d: DataArrival)
  {
    d.index < U32_MAX && d.fecSetIndex <= d.index && d.Entry().Payload().Some?
  }

  ghost predicate CodeOk(c: CodeArrival)
  {
    c.fecSetIndex + c.numData <= U32_MAX
  }

  function Release(s: State, idx: nat): State
  {
    s.(log := s.log.(released := s.log.released + [idx]))
  }

  /** `push_data`. A handle that is not kept is dropped. */
  ghost function PushData(env: Env, now: nat, s: State, d: DataArrival): (s': State)
    requires Bounded(s) && DataOk(d)
    ensures Bounded(s')
  {
    if d.lastInSlot then
      var s1 := s.(slotComplete := true);
      Release(Flush(env, now, s1), d.handle.idx)
    else if d.index < s.batchStart || d.index in s.pending then Release(s, d.handle.idx)
    else Flush(env, now, Streamed(env, now, s, d))
  }

  /** `push_data` up to the flush: insert, stream, and refill and stream again if still waiting. */
  ghost function Streamed(env: Env, now: nat, s: State, d: DataArrival): (s': State)
    requires Bounded(s) && DataOk(d)
    ensures Bounded(s')
  {
    var s1 := InsertEntry(now, s, d.index, d.Entry());
    var s2 := Advance(env, s1);
    if s2.cursor <= d.index then
      FecFillBounded(env, now, s2, d.fecSetIndex);
      var fill := FecFill(env, now, s2, d.fecSetIndex);
      if fill.any then Advance(env, fill.state) else fill.state
    else s2
  }

  /** The code shred recorded, after making room as the source does. */
  function Recorded(env: Env, s: State, c: CodeArrival): State
  {
    var full := |s.fecSets| >= env.maxFecSets && c.fecSetIndex !in s.fecSets;
    var s1 := if full && s.fecSets != map[] && Least(s.fecSets.Keys) < c.fecSetIndex then
                s.(fecSets := s.fecSets - {Least(s.fecSets.Keys)},
                   stats := s.stats.(fecSetsEvicted := SatAdd(s.stats.fecSetsEvicted, 1, U64_MAX)))
              else s;
    var before := if c.fecSetIndex in s1.fecSets then s1.fecSets[c.fecSetIndex] else NewFecSet(c.fecSetIndex);
    s1.(fecSets := s1.fecSets[c.fecSetIndex := RecordCode(before, c.position, c.numData, c.numCoding,
      c.coded, c.variant)])
  }

  lemma RecordedBounded(env: Env, s: State, c: CodeArrival)
    requires Bounded(s) && CodeOk(c)
    ensures Bounded(Recorded(env, s, c))
  {
  }

  /** `push_code` up to the flush: record, refill, and stream what came back. */
  ghost function CodeStreamed(env: Env, now: nat, s: State, c: CodeArrival): (s': State)
    requires Bounded(s) && CodeOk(c)
    ensures Bounded(s')
  {
    RecordedBounded(env, s, c);
    var s1 := Recorded(env, s, c);
    FecFillBounded(env, now, s1, c.fecSetIndex);
    var fill := FecFill(env, now, s1, c.fecSetIndex);
    if fill.any then Advance(env, fill.state) else fill.state
  }

  /** `push_code`. */
  ghost function PushCode(env: Env, now: nat, s: State, c: CodeArrival): (s': State)
    requires Bounded(s) && CodeOk(c)
    ensures Bounded(s')
  {
    Flush(env, now, CodeStreamed(env, now, s, c))
  }

  /** The batches of the harvest, boundary after boundary. */
  function HarvestBatches(env: Env, s: State, bcs: seq<nat>): State
    decreases |bcs|
  {
    if bcs == [] then s
    else if bcs[0] < s.batchStart then HarvestBatches(env, s, bcs[1..])
    else if AllPresent(s.pending, s.batchStart, bcs[0] + 1) then
      HarvestBatches(env, FinishWhole(env, s, bcs[0]), bcs[1..])
    else HarvestBatches(env, FinishSalvaged(env, s, bcs[0], false), bcs[1..])
  }

  function HarvestBoundaries(s: State): seq<nat>
  {
    Sorted(set i | i in s.pending && s.pending[i].batchComplete && i >= s.batchStart)
  }

  /** `try_harvest_tail`. */
  function Harvest(env: Env, now: nat, s: State): State
  {
    var s1 := FillAll(env, now, s, Sorted(s.fecSets.Keys));
    var s2 := HarvestBatches(env, s1, HarvestBoundaries(s1));
    var s3 := Emit(s2, RunsTxs(env, s2.pending, Runs(s2.pending.Keys, 0, U32_MAX)));
    s3.(stats := s3.stats.(
      fecSetsDiscarded := SatAdd(s3.stats.fecSetsDiscarded, |s3.fecSets|, U64_MAX),
      salvagedTail := SatAdd(s3.stats.salvagedTail, SatSub(|s3.log.delivered|, |s.log.delivered|), U64_MAX)))
  }

  // ---------- Runs ----------

  datatype Event = Data(now: nat, data: DataArrival) | Code(now: nat, code: CodeArrival)

  ghost predicate EventOk(e: Event)
  {
    match e
    case Data(_, d) => DataOk(d)
    case Code(_, c) => CodeOk(c)
  }

  type Events = seq<Event>

  ghost predicate EventsOk(events: Events)
  {
    forall i :: 0 <= i < |events| ==> EventOk(events[i])
  }

  ghost function Step(env: Env, s: State, e: Event): (s': State)
    requires Bounded(s) && EventOk(e)
    ensures Bounded(s')
  {
    match e
    case Data(now, d) => PushData(env, now, s, d)
    case Code(now, c) => PushCode(env, now, s, c)
  }

  /** The state of a slot after these arrivals, in this order. */
  ghost function After(env: Env, events: Events): (s: State)
    requires EventsOk(events)
    ensures Bounded(s)
    decreases |events|
  {
    if events == [] then NEW_SLOT
    else Step(env, After(env, events[..|events| - 1]), events[|events| - 1])
  }
}
