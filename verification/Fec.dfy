/** Erasure recovery of data shreds (src/fec.rs). */
module Fec {
  import opened Bytes
  import opened Collections
  import opened Variant
  import opened Parser
  import opened Erasure

  const CACHE_CAPACITY: nat := 32

  const SIZE_OF_SIGNATURE: nat := 64
  const SIZE_OF_CODING_SHRED_HEADERS: nat := 89
  const SIZE_OF_MERKLE_ROOT: nat := 32
  const SIZE_OF_MERKLE_PROOF_ENTRY: nat := 20
  const DATA_SHRED_PAYLOAD_LEN: nat := 1203
  const CODE_SHRED_PAYLOAD_LEN: nat := 1228
  const MAX_SHARD_SIZE: nat := 1107

  function ShardSize(proofSize: nibble, resigned: bool): (n: nat)
    ensures 0 < n <= MAX_SHARD_SIZE
  {
    CODE_SHRED_PAYLOAD_LEN - SIZE_OF_CODING_SHRED_HEADERS - SIZE_OF_MERKLE_ROOT
      - proofSize * SIZE_OF_MERKLE_PROOF_ENTRY - (if resigned then SIZE_OF_SIGNATURE else 0)
  }

  /** The erasure-coded part of a shred ends exactly where its Merkle suffix begins, for data and for
      code shreds, at every proof size and with or without the retransmitter signature. */
  lemma ShardGeometry(proofSize: nibble, resigned: bool)
    ensures SIZE_OF_SIGNATURE + ShardSize(proofSize, resigned)
         == DATA_SHRED_PAYLOAD_LEN - DataMerkle(proofSize, resigned).MerkleSuffix()
    ensures SIZE_OF_CODING_SHRED_HEADERS + ShardSize(proofSize, resigned)
         == CODE_SHRED_PAYLOAD_LEN - CodeMerkle(proofSize, resigned).MerkleSuffix()
    ensures DATA_HEADER_SIZE < SIZE_OF_SIGNATURE + ShardSize(proofSize, resigned)
  {
  }

  function DataShardSlice(raw: seq<byte>, variant: VariantKind): Option<shard>
  {
    match variant
    case DataMerkle(p, resigned) =>
      var end := SIZE_OF_SIGNATURE + ShardSize(p, resigned);
      if end <= |raw| then Some(raw[SIZE_OF_SIGNATURE..end]) else None
    case _ => None
  }

  function CodeShardSlice(raw: seq<byte>, variant: VariantKind): Option<shard>
  {
    match variant
    case CodeMerkle(p, resigned) =>
      var end := SIZE_OF_CODING_SHRED_HEADERS + ShardSize(p, resigned);
      if end <= |raw| then Some(raw[SIZE_OF_CODING_SHRED_HEADERS..end]) else None
    case _ => None
  }

  function VariantAsData(v: VariantKind): VariantKind
  {
    if v.CodeMerkle? then DataMerkle(v.proofSize, v.resigned) else v
  }

  // ---------- The cache of codes ----------

  /** A built code; the library works on the key it was built for. */
  datatype ReedSolomon = ReedSolomon(data: nat, coding: nat)

  type CacheEntries = seq<((nat, nat), ReedSolomon)>

  /** An element moved to the end, the last one taking its place. */
  function Touched<T>(s: seq<T>, pos: nat): seq<T>
    requires pos < |s|
  {
    var last := |s| - 1;
    s[pos := s[last]][..last] + [s[pos]]
  }

  /** A hit moves its entry to the end; a miss that is not refused appends one, and drops the first entry if
      there are 32. */
  ghost predicate Cached(s: CacheEntries, s': CacheEntries, key: (nat, nat), r: Option<ReedSolomon>)
  {
    if exists i :: 0 <= i < |s| && s[i].0 == key then
      exists i :: 0 <= i < |s| && s[i].0 == key && s' == Touched(s, i)
    else if r.Some? then s' == (if |s| < 32 then s else s[1..]) + [(key, r.value)]
    else s' == s
  }

  class ReedSolomonCache {
    const lib: ErasureLibrary
    var entries: CacheEntries

    ghost predicate Valid()
      reads this
    {
      && |entries| <= CACHE_CAPACITY
      && (forall i :: 0 <= i < |entries| ==>
            entries[i].1 == ReedSolomon(entries[i].0.0, entries[i].0.1)
            && lib.accepts(entries[i].0.0, entries[i].0.1))
      && (forall i, j :: 0 <= i < j < |entries| ==> entries[i].0 != entries[j].0)
    }

    constructor (lib: ErasureLibrary)
      ensures Valid() && this.lib == lib && entries == []
    {
      this.lib := lib;
      entries := [];
    }

    /** A hit: swap_remove, the last entry taking the place of the removed one, and push. */
    method Touch(pos: nat)
      requires Valid() && pos < |entries|
      modifies this
      ensures Valid() && entries == Touched(old(entries), pos)
      ensures forall e :: e in entries ==> e in old(entries)
    {
      var entry := entries[pos];
      var last := |entries| - 1;
      entries := entries[pos := entries[last]][..last] + [entry];
    }

    /** Always the code for the requested key, whatever was cached before; the library's refusal is
        the only error. */
    method GetOrBuild(data: nat, coding: nat) returns (r: Option<ReedSolomon>)
      requires Valid()
      modifies this
      ensures Valid()
      ensures r == if lib.accepts(data, coding) then Some(ReedSolomon(data, coding)) else None
      ensures r.Some? ==> entries != [] && entries[|entries| - 1] == ((data, coding), r.value)
      ensures r.None? ==> entries == old(entries)
      ensures forall e :: e in entries ==> e in old(entries) || e.0 == (data, coding)
      ensures Cached(old(entries), entries, (data, coding), r)
    {
      var pos := 0;
      while pos < |entries| && entries[pos].0 != (data, coding)
        invariant 0 <= pos <= |entries|
        invariant forall i :: 0 <= i < pos ==> entries[i].0 != (data, coding)
      {
        pos := pos + 1;
      }
      if pos < |entries| {
        var entry := entries[pos];
        Touch(pos);
        return Some(entry.1);
      }
      if !lib.accepts(data, coding) {
        return None;
      }
      if |entries| >= CACHE_CAPACITY {
        entries := entries[1..];
      }
      entries := entries + [((data, coding), ReedSolomon(data, coding))];
      return Some(ReedSolomon(data, coding));
    }
  }

  /** A hit loses nothing. */
  lemma TouchedIsSame<T>(s: seq<T>, pos: nat)
    requires pos < |s|
    ensures multiset(Touched(s, pos)) == multiset(s)
  {
    var last := |s| - 1;
    assert s == s[..last] + [s[last]];
    assert s[pos := s[last]] == s[pos := s[last]][..last] + [s[last]];
  }

  // ---------- One FEC set ----------

  datatype RawFecSet = FecSet(
    fecSetIndex: nat, numData: nat, numCoding: nat, shardSize: nat, variant: Option<VariantKind>,
    code: map<nat, seq<byte>>)

  type FecSet = f: RawFecSet | f.shardSize <= MAX_SHARD_SIZE witness FecSet(0, 0, 0, 0, None, map[])

  function NewFecSet(fecSetIndex: nat): FecSet
  {
    FecSet(fecSetIndex, 0, 0, 0, None, map[])
  }

  function RecordCode(f: FecSet, position: nat, numData: nat, numCoding: nat, raw: seq<byte>,
    variant: VariantKind): FecSet
  {
    FecSet(f.fecSetIndex,
           if f.numData == 0 then numData else f.numData,
           if f.numCoding == 0 then numCoding else f.numCoding,
           if f.shardSize == 0 && variant.CodeMerkle? then ShardSize(variant.proofSize, variant.resigned)
             else f.shardSize,
           if f.variant.None? then Some(variant) else f.variant,
           if position in f.code then f.code else f.code[position := raw])
  }

  predicate CanRecoverWith(f: FecSet, dataReceived: nat)
  {
    f.numData > 0 && dataReceived + |f.code| >= f.numData
  }

  /** The data shard a received packet contributes. */
  function DataShard(f: FecSet, raw: seq<byte>): Option<shard>
  {
    if f.variant.None? then None
    else
      var s := DataShardSlice(raw, VariantAsData(f.variant.value));
      if s.Some? && |s.value| == f.shardSize then s else None
  }

  function CodeShard(f: FecSet, raw: seq<byte>): Option<shard>
  {
    if f.variant.None? then None
    else
      var s := CodeShardSlice(raw, f.variant.value);
      if s.Some? && |s.value| == f.shardSize then s else None
  }

  /** The slot of position `i`: data shards first, then code shards. */
  function SlotAt(f: FecSet, refs: map<nat, seq<byte>>, i: nat): Option<shard>
  {
    if i < f.numData then (if i in refs then DataShard(f, refs[i]) else None)
    else if i - f.numData in f.code then CodeShard(f, f.code[i - f.numData]) else None
  }

  function Placed(f: FecSet, refs: map<nat, seq<byte>>): slots
  {
    seq(f.numData + f.numCoding, (i: nat) => SlotAt(f, refs, i))
  }

  /** A recovered shred: zero signature, the shard, zeroes up to the data shred length. */
  function Framed(s: shard): (raw: seq<byte>)
    requires SIZE_OF_SIGNATURE + |s| <= DATA_SHRED_PAYLOAD_LEN
    ensures |raw| == DATA_SHRED_PAYLOAD_LEN
    ensures raw[SIZE_OF_SIGNATURE..SIZE_OF_SIGNATURE + |s|] == s
  {
    seq(SIZE_OF_SIGNATURE, _ => 0) + s + seq(DATA_SHRED_PAYLOAD_LEN - SIZE_OF_SIGNATURE - |s|, _ => 0)
  }

  datatype Recovered = Recovered(position: nat, bytes: seq<byte>)

  /** The shreds returned: absent positions from `pos` on whose slot the library filled. */
  function Missing(f: FecSet, refs: map<nat, seq<byte>>, full: slots, pos: nat): seq<Recovered>
    requires |full| >= f.numData
    decreases f.numData - pos
  {
    if pos >= f.numData then []
    else if pos in refs || full[pos].None? || |full[pos].value| != f.shardSize then Missing(f, refs, full, pos + 1)
    else [Recovered(pos, Framed(full[pos].value))] + Missing(f, refs, full, pos + 1)
  }

  predicate Reconstructible(f: FecSet)
  {
    f.numData != 0 && f.shardSize != 0 && f.variant.Some? && f.variant.value.CodeMerkle?
  }

  /** `try_reconstruct`; None is the library's error. */
  function Reconstruct(lib: ErasureLibrary, f: FecSet, refs: map<nat, seq<byte>>): Option<seq<Recovered>>
  {
    if !Reconstructible(f) then Some([])
    else
      var placed := Placed(f, refs);
      if CountPresent(placed) < f.numData then Some([])
      else if !lib.accepts(f.numData, f.numCoding) then None
      else
        assert InPlaceAt(lib, f.numData, f.numCoding, placed);
        match lib.reconstruct(f.numData, f.numCoding, placed)
        case None => None
        case Some(full) => Some(Missing(f, refs, full, 0))
  }

  lemma MissingStep(f: FecSet, refs: map<nat, seq<byte>>, full: slots, pos: nat)
    requires |full| >= f.numData && pos < f.numData
    ensures var rest := Missing(f, refs, full, pos + 1);
            Missing(f, refs, full, pos)
            == if pos in refs || full[pos].None? || |full[pos].value| != f.shardSize then rest
               else [Recovered(pos, Framed(full[pos].value))] + rest
  {
  }

  lemma NoneMissing(f: FecSet, refs: map<nat, seq<byte>>, full: slots, pos: nat)
    requires |full| >= f.numData && pos >= f.numData
    ensures Missing(f, refs, full, pos) == []
  {
  }

  /** The slot of position `i` once the code shards at `done` are laid out. */
  function CodeSlot(f: FecSet, done: set<nat>, i: nat): Option<shard>
  {
    if f.numData <= i && i - f.numData in done && i - f.numData in f.code then CodeShard(f, f.code[i - f.numData])
      else None
  }

  class FecSetBuffer {
    var fecSetIndex: nat
    var numData: nat
    var numCoding: nat
    var shardSize: nat
    var variant: Option<VariantKind>
    var code: map<nat, seq<byte>>

    ghost predicate Valid()
      reads this
    {
      shardSize <= MAX_SHARD_SIZE
    }

    ghost function View(): FecSet
      requires Valid()
      reads this
    {
      FecSet(fecSetIndex, numData, numCoding, shardSize, variant, code)
    }

    constructor (fecSetIndex: nat)
      ensures Valid() && View() == NewFecSet(fecSetIndex)
    {
      this.fecSetIndex := fecSetIndex;
      numData := 0;
      numCoding := 0;
      shardSize := 0;
      variant := None;
      code := map[];
    }

    method Record(position: nat, numData: nat, numCoding: nat, raw: seq<byte>, variant: VariantKind)
      requires Valid()
      modifies this
      ensures Valid()
      ensures View() == RecordCode(old(View()), position, numData, numCoding, raw, variant)
    {
      if this.numData == 0 {
        this.numData := numData;
      }
      if this.numCoding == 0 {
        this.numCoding := numCoding;
      }
      if this.variant.None? {
        this.variant := Some(variant);
      }
      if shardSize == 0 && variant.CodeMerkle? {
        shardSize := ShardSize(variant.proofSize, variant.resigned);
      }
      if position !in code {
        code := code[position := raw];
      }
    }

    predicate CanRecover(dataReceived: nat)
      requires Valid()
      reads this
      ensures CanRecover(dataReceived) <==> CanRecoverWith(View(), dataReceived)
    {
      numData > 0 && dataReceived + |code| >= numData
    }

    /** Lays the code shards out, skipping positions past the end. */
    method PlaceCode(shards: array<Option<shard>>)
      requires Valid() && shards.Length == numData + numCoding
      requires forall i :: 0 <= i < shards.Length ==> shards[i] == None
      modifies shards
      ensures forall i :: 0 <= i < shards.Length ==> shards[i] == CodeSlot(View(), View().code.Keys, i)
    {
      hide CodeShard, DataShard, ShardOfCode, Sorted;
      ghost var f := View();
      ghost var done: set<nat> := {};
      var positions := Sorted(code.Keys);
      var k := 0;
      while k < |positions|
        invariant k <= |positions| && Valid() && View() == f
        invariant forall j :: j in done <==> j in positions[..k]
        invariant forall i :: 0 <= i < shards.Length ==> shards[i] == CodeSlot(f, done, i)
      {
        var pos := positions[k];
        assert pos in code;
        assert positions[..k + 1] == positions[..k] + [pos];
        if numData + pos < shards.Length {
          shards[numData + pos] := ShardOfCode(code[pos]);
        }
        done := done + {pos};
        k := k + 1;
      }
      assert positions[..|positions|] == positions;
    }

    /** Lays the received data shards out below them. */
    method PlaceData(shards: array<Option<shard>>, refs: map<nat, seq<byte>>)
      requires Valid() && shards.Length == numData + numCoding
      requires forall i :: 0 <= i < numData ==> shards[i] == None
      modifies shards
      ensures forall i :: numData <= i < shards.Length ==> shards[i] == old(shards[i])
      ensures forall i :: 0 <= i < numData ==> shards[i] == SlotAt(View(), refs, i)
    {
      hide CodeShard, DataShard, ShardOfData, Sorted;
      ghost var f := View();
      var arrived := Sorted(refs.Keys);
      var k := 0;
      while k < |arrived|
        invariant k <= |arrived|
        invariant forall i :: numData <= i < shards.Length ==> shards[i] == old(shards[i])
        invariant forall i :: 0 <= i < numData ==>
          shards[i] == if i in arrived[..k] then SlotAt(f, refs, i) else None
      {
        var p := arrived[k];
        assert p in refs;
        assert p !in arrived[..k];
        assert arrived[..k + 1] == arrived[..k] + [p];
        if p < numData && shards[p].None? {
          shards[p] := ShardOfData(refs[p]);
        }
        k := k + 1;
      }
      assert arrived[..|arrived|] == arrived;
    }

    function ShardOfCode(raw: seq<byte>): (s: Option<shard>)
      requires Valid()
      reads this
      ensures s == CodeShard(View(), raw)
    {
      if variant.None? then None
      else
        var s := CodeShardSlice(raw, variant.value);
        if s.Some? && |s.value| == shardSize then s else None
    }

    function ShardOfData(raw: seq<byte>): (s: Option<shard>)
      requires Valid()
      reads this
      ensures s == DataShard(View(), raw)
    {
      if variant.None? then None
      else
        var s := DataShardSlice(raw, VariantAsData(variant.value));
        if s.Some? && |s.value| == shardSize then s else None
    }

    method Place(refs: map<nat, seq<byte>>) returns (shards: array<Option<shard>>)
      requires Valid()
      ensures fresh(shards)
      ensures shards[..] == Placed(View(), refs)
    {
      shards := new Option<shard>[numData + numCoding](_ => None);
      PlaceCode(shards);
      PlaceData(shards, refs);
      assert forall i :: numData <= i ==> CodeSlot(View(), View().code.Keys, i) == SlotAt(View(), refs, i);
    }

    method TryReconstruct(refs: map<nat, seq<byte>>, cache: ReedSolomonCache) returns (r: Option<seq<Recovered>>)
      requires Valid() && cache.Valid()
      modifies cache
      ensures cache.Valid()
      ensures r == Reconstruct(cache.lib, View(), refs)
    {
      hide Cached;
      if numData == 0 || shardSize == 0 || variant.None? || !variant.value.CodeMerkle? {
        return Some([]);
      }
      var shards := Place(refs);
      var nd := numData;
      var have := CountPresent(shards[..]);
      if have < nd {
        return Some([]);
      }
      var rs := cache.GetOrBuild(numData, numCoding);
      if rs.None? {
        return None;
      }
      assert InPlaceAt(cache.lib, nd, numCoding, shards[..]);
      var full := cache.lib.reconstruct(rs.value.data, rs.value.coding, shards[..]);
      if full.None? {
        return None;
      }
      var out := CollectMissing(refs, full.value);
      return Some(out);
    }

    /** The shreds rebuilt at the absent positions, in order. */
    method CollectMissing(refs: map<nat, seq<byte>>, full: slots) returns (out: seq<Recovered>)
      requires Valid() && |full| >= numData
      ensures out == Missing(View(), refs, full, 0)
    {
      hide Missing, Framed;
      ghost var f := View();
      out := [];
      var pos := 0;
      while pos < numData
        invariant pos <= numData
        invariant out + Missing(f, refs, full, pos) == Missing(f, refs, full, 0)
      {
        MissingStep(f, refs, full, pos);
        ghost var rest := Missing(f, refs, full, pos + 1);
        if pos !in refs && full[pos].Some? && |full[pos].value| == shardSize {
          var one := Recovered(pos, Framed(full[pos].value));
          assert out + ([one] + rest) == out + [one] + rest;
          out := out + [one];
        }
        pos := pos + 1;
      }
      NoneMissing(f, refs, full, pos);
    }
  }

  // ---------- Recovery restores what was sent ----------

  /** What the sender erasure-coded: one Merkle variant, `numData` shreds and their code shards. */
  datatype SentSet = SentSet(proofSize: nibble, resigned: bool, numCoding: nat, raws: seq<seq<byte>>)

  function SentShard(sent: SentSet, i: nat): shard
    requires i < |sent.raws|
    requires SIZE_OF_SIGNATURE + ShardSize(sent.proofSize, sent.resigned) <= |sent.raws[i]|
  {
    sent.raws[i][SIZE_OF_SIGNATURE..SIZE_OF_SIGNATURE + ShardSize(sent.proofSize, sent.resigned)]
  }

  ghost predicate WellSent(sent: SentSet)
  {
    forall i :: 0 <= i < |sent.raws| ==>
      SIZE_OF_SIGNATURE + ShardSize(sent.proofSize, sent.resigned) <= |sent.raws[i]|
  }

  ghost function SentData(sent: SentSet): seq<shard>
    requires WellSent(sent)
  {
    seq(|sent.raws|, i requires 0 <= i < |sent.raws| => SentShard(sent, i))
  }

  ghost function Codeword(lib: ErasureLibrary, sent: SentSet): seq<shard>
    requires WellSent(sent)
  {
    SentData(sent) + lib.encode(|sent.raws|, sent.numCoding, SentData(sent))
  }

  /** The buffer describes this set and every code shred in it is the sender's. */
  ghost predicate CodeFrom(lib: ErasureLibrary, f: FecSet, sent: SentSet)
    requires WellSent(sent)
  {
    && f.numData == |sent.raws| && f.numCoding == sent.numCoding
    && f.variant == Some(CodeMerkle(sent.proofSize, sent.resigned))
    && f.shardSize == ShardSize(sent.proofSize, sent.resigned)
    && |lib.encode(f.numData, f.numCoding, SentData(sent))| == f.numCoding
    && forall j :: j in f.code && j < f.numCoding && CodeShard(f, f.code[j]).Some? ==>
         CodeShard(f, f.code[j]).value == lib.encode(f.numData, f.numCoding, SentData(sent))[j]
  }

  ghost predicate DataFrom(f: FecSet, refs: map<nat, seq<byte>>, sent: SentSet)
    requires WellSent(sent)
  {
    forall i :: i in refs && i < |sent.raws| && DataShard(f, refs[i]).Some? ==>
      DataShard(f, refs[i]).value == SentShard(sent, i)
  }

  lemma PlacedIsConsistent(lib: ErasureLibrary, f: FecSet, refs: map<nat, seq<byte>>, sent: SentSet)
    requires WellSent(sent) && CodeFrom(lib, f, sent) && DataFrom(f, refs, sent)
    ensures Consistent(Placed(f, refs), Codeword(lib, sent))
  {
    var s, w := Placed(f, refs), Codeword(lib, sent);
    forall i | 0 <= i < |s| && s[i].Some?
      ensures s[i].value == w[i]
    {
      if i >= f.numData {
        var j := i - f.numData;
        assert j in f.code;
      }
    }
  }

  /** Every shred that recovery returns carries exactly the shard bytes the sender encoded, at the
      place they had in the sent shred; the positions returned are exactly the absent ones. */
  lemma ReconstructRestores(lib: ErasureLibrary, f: FecSet, refs: map<nat, seq<byte>>, sent: SentSet)
    requires WellSent(sent) && CodeFrom(lib, f, sent) && DataFrom(f, refs, sent)
    requires f.numData > 0 && lib.accepts(f.numData, f.numCoding)
    ensures Reconstruct(lib, f, refs).Some?
    ensures forall r :: r in Reconstruct(lib, f, refs).value ==>
              && r.position < |sent.raws| && r.position !in refs
              && r.bytes == Framed(SentShard(sent, r.position))
    ensures CountPresent(Placed(f, refs)) >= f.numData ==>
              forall p :: 0 <= p < |sent.raws| && p !in refs ==>
                Recovered(p, Framed(SentShard(sent, p))) in Reconstruct(lib, f, refs).value
  {
    var placed := Placed(f, refs);
    if CountPresent(placed) >= f.numData {
      PlacedIsConsistent(lib, f, refs, sent);
      assert RestoresAt(lib, f.numData, f.numCoding, SentData(sent), f.shardSize, placed);
      var full := lib.reconstruct(f.numData, f.numCoding, placed).value;
      assert forall i :: 0 <= i < f.numData ==> full[i] == Some(SentShard(sent, i));
      MissingRestores(f, refs, sent, full, 0);
    }
  }

  lemma {:induction false} MissingRestores(f: FecSet, refs: map<nat, seq<byte>>, sent: SentSet, full: slots, pos: nat)
    requires WellSent(sent) && f.numData == |sent.raws| <= |full|
    requires f.shardSize == ShardSize(sent.proofSize, sent.resigned)
    requires forall i :: 0 <= i < f.numData ==> full[i] == Some(SentShard(sent, i))
    ensures forall r :: r in Missing(f, refs, full, pos) <==>
              && pos <= r.position < |sent.raws| && r.position !in refs
              && r.bytes == Framed(SentShard(sent, r.position))
    decreases f.numData - pos
  {
    if pos < f.numData {
      MissingRestores(f, refs, sent, full, pos + 1);
    }
  }

  /** A recovered shred is parsed as the sent one was: same indices, flags and payload, provided the
      declared size lies inside the coded shard. */
  lemma RecoveredParsesAsSent(sent: SentSet, i: nat)
    requires WellSent(sent) && i < |sent.raws|
    requires ParseKind(sent.raws[i]).Ok? && ParseKind(sent.raws[i]).kind.Data?
    requires ParseKind(sent.raws[i]).kind.data.variant.DataMerkle?
    requires Field(sent.raws[i], DATA_SIZE_OFFSET, 2) <= SIZE_OF_SIGNATURE + ShardSize(sent.proofSize, sent.resigned)
    ensures var p := ParseKind(Framed(SentShard(sent, i)));
            && p.Ok? && p.kind.Data?
            && p.kind.data == ParseKind(sent.raws[i]).kind.data.(rawLen := DATA_SHRED_PAYLOAD_LEN)
  {
    var s := SentShard(sent, i);
    ParseDependsOnShardOnly(sent.raws[i], Framed(s), SIZE_OF_SIGNATURE + |s|);
  }
}
