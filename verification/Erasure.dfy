/** The Reed-Solomon library as the source uses it: a code that restores the data shards from any
    `numData` shards of a codeword. The laws come with a one-parity code that satisfies them. */
module Erasure {
  import opened Bytes

  type shard = seq<byte>
  type slots = seq<Option<shard>>

  /** `reconstruct` is `reconstruct_data`: None for a library error, otherwise the slots afterwards. */
  datatype Library = Library(
    accepts: (nat, nat) -> bool,
    encode: (nat, nat, seq<shard>) -> seq<shard>,
    reconstruct: (nat, nat, slots) -> Option<slots>)

  function CountPresent(s: slots): nat
  {
    if s == [] then 0 else (if s[0].Some? then 1 else 0) + CountPresent(s[1..])
  }

  ghost predicate Uniform(data: seq<shard>, len: nat)
  {
    forall i :: 0 <= i < |data| ==> |data[i]| == len
  }

  /** Every shard present is the codeword's. */
  ghost predicate Consistent(s: slots, codeword: seq<shard>)
  {
    |s| == |codeword| && forall i :: 0 <= i < |s| && s[i].Some? ==> s[i].value == codeword[i]
  }

  ghost predicate EncodesAt(lib: Library, nd: nat, nc: nat, data: seq<shard>, len: nat)
  {
    lib.accepts(nd, nc) && |data| == nd && len > 0 && Uniform(data, len) ==>
      |lib.encode(nd, nc, data)| == nc && Uniform(lib.encode(nd, nc, data), len)
  }

  ghost predicate RestoresAt(lib: Library, nd: nat, nc: nat, data: seq<shard>, len: nat, s: slots)
  {
    && lib.accepts(nd, nc) && |data| == nd && len > 0 && Uniform(data, len)
    && Consistent(s, data + lib.encode(nd, nc, data)) && CountPresent(s) >= nd
    ==>
    && lib.reconstruct(nd, nc, s).Some?
    && |lib.reconstruct(nd, nc, s).value| == |s|
    && forall i :: 0 <= i < nd && i < |s| ==> lib.reconstruct(nd, nc, s).value[i] == Some(data[i])
  }

  /** Slots are filled in place. */
  ghost predicate InPlaceAt(lib: Library, nd: nat, nc: nat, s: slots)
  {
    lib.reconstruct(nd, nc, s).Some? ==> |lib.reconstruct(nd, nc, s).value| == |s|
  }

  ghost predicate MaximumDistance(lib: Library)
  {
    && (forall nd, nc, data, len :: EncodesAt(lib, nd, nc, data, len))
    && (forall nd, nc, data, len, s :: RestoresAt(lib, nd, nc, data, len, s))
    && (forall nd, nc, s :: InPlaceAt(lib, nd, nc, s))
  }

  // ---------- A one-parity code satisfying the laws ----------

  /** The sum of byte `k` over the shards that are present. */
  function ColumnSum(s: slots, k: nat): nat
  {
    if s == [] then 0
    else (if s[0].Some? && k < |s[0].value| then s[0].value[k] else 0) + ColumnSum(s[1..], k)
  }

  function Negated(n: nat): byte
  {
    (256 - n % 256) % 256
  }

  function AsSlots(data: seq<shard>): slots
  {
    seq(|data|, i requires 0 <= i < |data| => Some(data[i]))
  }

  function Parity(data: seq<shard>): shard
  {
    if data == [] then [] else seq(|data[0]|, (k: nat) => Negated(ColumnSum(AsSlots(data), k)))
  }

  function FirstPresent(s: slots): Option<shard>
  {
    if s == [] then None else if s[0].Some? then s[0] else FirstPresent(s[1..])
  }

  function Fill(s: slots, len: nat): shard
  {
    seq(len, (k: nat) => Negated(ColumnSum(s, k)))
  }

  function ParityReconstruct(nd: nat, nc: nat, s: slots): Option<slots>
  {
    if CountPresent(s) < nd || FirstPresent(s).None? then None
    else
      var missing := Fill(s, |FirstPresent(s).value|);
      Some(seq(|s|, i requires 0 <= i < |s| => if s[i].None? then Some(missing) else s[i]))
  }

  function ParityLibrary(): Library
  {
    Library((nd, nc) => nd > 0 && nc == 1, (nd, nc, data) => [Parity(data)], ParityReconstruct)
  }

  lemma {:induction false} CountBound(s: slots)
    ensures CountPresent(s) <= |s|
    ensures CountPresent(s) == |s| ==> forall i :: 0 <= i < |s| ==> s[i].Some?
  {
    if s != [] {
      CountBound(s[1..]);
      assert forall i :: 0 < i < |s| ==> s[i] == s[1..][i - 1];
    }
  }

  lemma {:induction false} AtMostOneMissing(s: slots, i: nat, j: nat)
    requires i < j < |s| && s[i].None? && s[j].None?
    ensures CountPresent(s) + 2 <= |s|
  {
    if i == 0 {
      CountBound(s[1..]);
      assert s[1..][j - 1].None?;
    } else {
      AtMostOneMissing(s[1..], i - 1, j - 1);
    }
  }

  /** Emptying one slot takes its bytes out of the column sum. */
  lemma {:induction false} ColumnSumMissing(s: slots, full: slots, m: nat, k: nat)
    requires |s| == |full| && m < |s| && s[m].None? && full[m].Some? && k < |full[m].value|
    requires forall i :: 0 <= i < |s| && i != m ==> s[i] == full[i]
    ensures ColumnSum(full, k) == ColumnSum(s, k) + full[m].value[k]
  {
    if m == 0 {
      assert s[1..] == full[1..];
    } else {
      forall i | 0 <= i < |s[1..]| && i != m - 1
        ensures s[1..][i] == full[1..][i]
      {
        assert s[1..][i] == s[i + 1] && full[1..][i] == full[i + 1];
      }
      ColumnSumMissing(s[1..], full[1..], m - 1, k);
    }
  }

  lemma {:induction false} ColumnSumLast(s: slots, last: Option<shard>, k: nat)
    ensures ColumnSum(s + [last], k) == ColumnSum(s, k) + (if last.Some? && k < |last.value| then last.value[k] else 0)
  {
    if s == [] {
      assert s + [last] == [last];
      assert [last][1..] == [];
    } else {
      assert (s + [last])[1..] == s[1..] + [last];
      ColumnSumLast(s[1..], last, k);
    }
  }

  /** The columns of a codeword sum to zero. */
  lemma CodewordColumns(data: seq<shard>, len: nat, k: nat)
    requires data != [] && Uniform(data, len) && k < len
    ensures |Parity(data)| == len
    ensures ColumnSum(AsSlots(data + [Parity(data)]), k) % 256 == 0
  {
    hide ColumnSum;
    assert AsSlots(data + [Parity(data)]) == AsSlots(data) + [Some(Parity(data))];
    ColumnSumLast(AsSlots(data), Some(Parity(data)), k);
    var n := ColumnSum(AsSlots(data), k);
    assert Parity(data)[k] == Negated(n);
    assert (n + Negated(n)) % 256 == 0;
  }

  lemma NegatedUnique(sum: nat, b: byte)
    requires (sum + b) % 256 == 0
    ensures b == Negated(sum)
  {
  }

  lemma FirstPresentLength(s: slots, len: nat)
    requires forall i :: 0 <= i < |s| && s[i].Some? ==> |s[i].value| == len
    ensures FirstPresent(s).Some? ==> |FirstPresent(s).value| == len
    ensures CountPresent(s) > 0 ==> FirstPresent(s).Some?
  {
    if s != [] {
      assert forall i :: 0 <= i < |s[1..]| ==> s[1..][i] == s[i + 1];
      FirstPresentLength(s[1..], len);
    }
  }

  lemma ParityRestores(data: seq<shard>, len: nat, s: slots, m: nat)
    requires data != [] && len > 0 && Uniform(data, len)
    requires Consistent(s, data + [Parity(data)]) && CountPresent(s) >= |data|
    requires m < |s| && s[m].None?
    ensures Fill(s, len) == (data + [Parity(data)])[m]
  {
    var codeword := data + [Parity(data)];
    var full := AsSlots(codeword);
    CodewordColumns(data, len, 0);
    forall i | 0 <= i < |s| && i != m
      ensures s[i] == full[i]
    {
      if s[i].None? {
        if i < m { AtMostOneMissing(s, i, m); } else { AtMostOneMissing(s, m, i); }
        assert false;
      }
    }
    forall k | 0 <= k < len
      ensures Fill(s, len)[k] == codeword[m][k]
    {
      ColumnSumMissing(s, full, m, k);
      CodewordColumns(data, len, k);
      NegatedUnique(ColumnSum(s, k), codeword[m][k]);
    }
    assert |codeword[m]| == len;
  }

  lemma ParityRestoresAt(nd: nat, nc: nat, data: seq<shard>, len: nat, s: slots)
    ensures RestoresAt(ParityLibrary(), nd, nc, data, len, s)
  {
    var lib := ParityLibrary();
    if lib.accepts(nd, nc) && |data| == nd && len > 0 && Uniform(data, len)
       && Consistent(s, data + lib.encode(nd, nc, data)) && CountPresent(s) >= nd {
      CodewordColumns(data, len, 0);
      assert forall i :: 0 <= i < |s| && s[i].Some? ==> |s[i].value| == len;
      FirstPresentLength(s, len);
      assert lib.reconstruct(nd, nc, s).Some?;
      forall i | 0 <= i < nd
        ensures lib.reconstruct(nd, nc, s).value[i] == Some(data[i])
      {
        if s[i].None? {
          ParityRestores(data, len, s, i);
        }
      }
    }
  }

  lemma ParityEncodesAt(nd: nat, nc: nat, data: seq<shard>, len: nat)
    ensures EncodesAt(ParityLibrary(), nd, nc, data, len)
  {
    if nd > 0 && |data| == nd && len > 0 && Uniform(data, len) {
      CodewordColumns(data, len, 0);
    }
  }

  function LawfulParityLibrary(): (lib: Library)
    ensures MaximumDistance(lib)
  {
    ParityIsMaximumDistance();
    ParityLibrary()
  }

  lemma ParityIsMaximumDistance()
    ensures MaximumDistance(ParityLibrary())
  {
    forall nd, nc, data, len
      ensures EncodesAt(ParityLibrary(), nd, nc, data, len)
    {
      ParityEncodesAt(nd, nc, data, len);
    }
    forall nd, nc, data, len, s
      ensures RestoresAt(ParityLibrary(), nd, nc, data, len, s)
    {
      ParityRestoresAt(nd, nc, data, len, s);
    }
  }

  /** Every erasure-coding library the recovery may be given. */
  type ErasureLibrary = lib: Library | MaximumDistance(lib) witness LawfulParityLibrary()
}
