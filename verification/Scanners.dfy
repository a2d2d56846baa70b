/** The two scanners that look for runs of present shreds (the range scan of
    `salvage_contiguous_runs_in` and the key-list scan of the harvest tail) against one definition of
    what they look for: the maximal runs, in order. */
module Scanners {
  import opened Collections
  import opened Slot

  ghost predicate Solid(keys: set<nat>, lo: nat, hi: nat)
  {
    forall i :: lo <= i < hi ==> i in keys
  }

  ghost predicate InRun(r: Run, i: nat)
  {
    r.first <= i < r.end
  }

  /** The maximal runs of `keys` inside `[lo, hi)`: solid, separated by gaps, missing nothing. */
  ghost predicate MaximalRuns(keys: set<nat>, lo: nat, hi: nat, runs: seq<Run>)
  {
    && (forall k :: 0 <= k < |runs| ==>
          lo <= runs[k].first < runs[k].end <= hi && Solid(keys, runs[k].first, runs[k].end))
    && (forall j, k :: 0 <= j < k < |runs| ==> runs[j].end < runs[k].first)
    && (forall i :: lo <= i < hi && i in keys ==> exists k :: 0 <= k < |runs| && InRun(runs[k], i))
  }

  /** Only the keys of the range matter. */
  lemma MaximalWithin(keys: set<nat>, present: set<nat>, lo: nat, hi: nat, runs: seq<Run>)
    requires MaximalRuns(keys, lo, hi, runs)
    requires forall i :: i in present <==> i in keys && lo <= i < hi
    ensures MaximalRuns(present, lo, hi, runs)
  {
    forall k | 0 <= k < |runs|
      ensures Solid(present, runs[k].first, runs[k].end)
    {
      assert Solid(keys, runs[k].first, runs[k].end);
    }
  }

  lemma {:induction false} RunEndIs(keys: set<nat>, lo: nat, hi: nat)
    requires lo <= hi
    ensures Solid(keys, lo, RunEnd(keys, lo, hi))
    ensures RunEnd(keys, lo, hi) == hi || RunEnd(keys, lo, hi) !in keys
    decreases hi - lo
  {
    if lo < hi && lo in keys {
      RunEndIs(keys, lo + 1, hi);
    }
  }

  lemma {:induction false} RunEndUnique(keys: set<nat>, lo: nat, hi: nat, e: nat)
    requires lo <= e <= hi && Solid(keys, lo, e) && (e == hi || e !in keys)
    ensures e == RunEnd(keys, lo, hi)
    decreases hi - lo
  {
    if lo < e {
      assert lo in keys;
      RunEndUnique(keys, lo + 1, hi, e);
    }
  }

  /** The upward scan finds the maximal runs. */
  lemma {:induction false} RunsAreMaximal(keys: set<nat>, lo: nat, hi: nat)
    ensures MaximalRuns(keys, lo, hi, Runs(keys, lo, hi))
    decreases hi - lo
  {
    if lo >= hi {
      NoRuns(keys, lo, hi);
    } else {
      hide MaximalRuns;
      if lo !in keys {
        RunsAreMaximal(keys, lo + 1, hi);
        WidenRuns(keys, lo, lo + 1, hi, Runs(keys, lo + 1, hi));
      } else {
        RunEndIs(keys, lo + 1, hi);
        var e := RunEnd(keys, lo + 1, hi);
        RunsAreMaximal(keys, e, hi);
        PrependRun(keys, lo, e, hi, Runs(keys, e, hi));
      }
    }
  }

  lemma NoRuns(keys: set<nat>, lo: nat, hi: nat)
    requires lo >= hi
    ensures MaximalRuns(keys, lo, hi, [])
  {
  }

  lemma PrependRun(keys: set<nat>, lo: nat, e: nat, hi: nat, rest: seq<Run>)
    requires lo < e <= hi && lo in keys && Solid(keys, lo + 1, e) && (e == hi || e !in keys)
    requires MaximalRuns(keys, e, hi, rest)
    ensures MaximalRuns(keys, lo, hi, [Run(lo, e)] + rest)
  {
    var runs := [Run(lo, e)] + rest;
    assert Solid(keys, lo, e);
    forall k | 0 < k < |runs|
      ensures runs[k] == rest[k - 1] && e < runs[k].first
    {
      var r := rest[k - 1];
      assert Solid(keys, r.first, r.end);
      assert r.first in keys;
    }
    forall i | lo <= i < hi && i in keys
      ensures exists k :: 0 <= k < |runs| && InRun(runs[k], i)
    {
      if i < e {
        assert InRun(runs[0], i);
      } else {
        var k :| 0 <= k < |rest| && InRun(rest[k], i);
        assert InRun(runs[k + 1], i);
      }
    }
  }

  /** There is only one such sequence, so any scanner that finds maximal runs finds these. */
  lemma {:induction false} MaximalRunsUnique(keys: set<nat>, lo: nat, hi: nat, runs: seq<Run>)
    requires MaximalRuns(keys, lo, hi, runs)
    ensures runs == Runs(keys, lo, hi)
    decreases hi - lo
  {
    if lo >= hi {
      assert runs == [];
    } else if lo !in keys {
      forall k | 0 <= k < |runs|
        ensures lo < runs[k].first
      {
        assert Solid(keys, runs[k].first, runs[k].end);
      }
      MaximalRunsUnique(keys, lo + 1, hi, runs);
    } else {
      FirstRun(keys, lo, hi, runs);
      var e := runs[0].end;
      RunEndUnique(keys, lo + 1, hi, e);
      RestOfRuns(keys, lo, hi, runs);
      MaximalRunsUnique(keys, e, hi, runs[1..]);
      assert runs == [runs[0]] + runs[1..];
    }
  }

  lemma FirstRun(keys: set<nat>, lo: nat, hi: nat, runs: seq<Run>)
    requires MaximalRuns(keys, lo, hi, runs) && lo < hi && lo in keys
    ensures runs != [] && runs[0].first == lo && runs[0].end > lo
    ensures Solid(keys, lo + 1, runs[0].end)
    ensures runs[0].end == hi || runs[0].end !in keys
  {
    var k :| 0 <= k < |runs| && InRun(runs[k], lo);
    var r := runs[0];
    assert lo <= r.first < r.end;
    assert forall j :: 0 < j < |runs| ==> r.end < runs[j].first;
    assert Solid(keys, r.first, r.end);
    forall j | 0 <= j < |runs|
      ensures !InRun(runs[j], r.end)
    {
    }
  }

  lemma RestOfRuns(keys: set<nat>, lo: nat, hi: nat, runs: seq<Run>)
    requires MaximalRuns(keys, lo, hi, runs) && runs != [] && runs[0].first == lo
    ensures MaximalRuns(keys, runs[0].end, hi, runs[1..])
  {
    var e, rest := runs[0].end, runs[1..];
    forall k | 0 <= k < |rest|
      ensures e <= rest[k].first < rest[k].end <= hi && Solid(keys, rest[k].first, rest[k].end)
    {
      assert rest[k] == runs[k + 1];
    }
    forall i | e <= i < hi && i in keys
      ensures exists k :: 0 <= k < |rest| && InRun(rest[k], i)
    {
      var k :| 0 <= k < |runs| && InRun(runs[k], i);
      assert InRun(rest[k - 1], i);
    }
  }

  // ---------- The key-list scan ----------

  /** How many keys from `ks[0]` on are consecutive. */
  function Consecutive(ks: seq<nat>): (n: nat)
    ensures n <= |ks| && (ks != [] ==> n > 0)
  {
    if |ks| <= 1 then |ks|
    else if ks[1] == ks[0] + 1 then 1 + Consecutive(ks[1..])
    else 1
  }

  function KeyRuns(ks: seq<nat>): seq<Run>
    decreases |ks|
  {
    if ks == [] then []
    else [Run(ks[0], ks[0] + Consecutive(ks))] + KeyRuns(ks[Consecutive(ks)..])
  }

  lemma {:induction false} ConsecutiveIs(ks: seq<nat>)
    requires Increasing(ks) && ks != []
    ensures forall i :: 0 <= i < Consecutive(ks) ==> ks[i] == ks[0] + i
    ensures Consecutive(ks) < |ks| ==> ks[Consecutive(ks)] > ks[0] + Consecutive(ks)
    decreases |ks|
  {
    if |ks| > 1 && ks[1] == ks[0] + 1 {
      var rest := ks[1..];
      ConsecutiveIs(rest);
      forall i | 0 < i < Consecutive(ks)
        ensures ks[i] == ks[0] + i
      {
        assert rest[i - 1] == rest[0] + (i - 1);
      }
      if Consecutive(ks) < |ks| {
        assert rest[Consecutive(rest)] == ks[Consecutive(ks)];
      }
    }
  }

  /** The converse: a prefix that counts up by one and cannot be extended is the run. */
  lemma {:induction false} ConsecutiveExact(ks: seq<nat>, n: nat)
    requires 0 < n <= |ks| && forall j :: 0 <= j < n ==> ks[j] == ks[0] + j
    requires n == |ks| || ks[n] != ks[0] + n
    ensures Consecutive(ks) == n
    decreases |ks|
  {
    if |ks| > 1 {
      if n == 1 {
        assert ks[1] != ks[0] + 1;
      } else {
        assert ks[1] == ks[0] + 1;
        var rest := ks[1..];
        assert forall j :: 0 <= j < n - 1 ==> rest[j] == ks[j + 1];
        assert rest[0] == ks[1];
        ConsecutiveExact(rest, n - 1);
      }
    }
  }

  lemma {:induction false} KeyRunsMaximal(ks: seq<nat>, keys: set<nat>, lo: nat, hi: nat)
    requires Increasing(ks)
    requires forall i :: lo <= i && i in keys <==> i in ks
    requires forall i :: i in ks ==> i < hi
    ensures MaximalRuns(keys, lo, hi, KeyRuns(ks))
    decreases |ks|
  {
    if ks != [] {
      var n := Consecutive(ks);
      var first, e, rest := ks[0], ks[0] + Consecutive(ks), ks[Consecutive(ks)..];
      ConsecutiveIs(ks);
      assert ks[n - 1] in ks;
      assert first in ks;
      forall i | first <= i < e
        ensures i in keys
      {
        assert ks[i - first] == i;
      }
      DropConsecutive(ks, keys, lo);
      KeyRunsMaximal(rest, keys, e, hi);
      assert e == hi || e !in keys;
      PrependRun(keys, first, e, hi, KeyRuns(rest));
      forall i | lo <= i < first
        ensures i !in keys
      {
        assert i !in ks;
      }
      WidenRuns(keys, lo, first, hi, KeyRuns(ks));
    }
  }

  lemma DropConsecutive(ks: seq<nat>, keys: set<nat>, lo: nat)
    requires Increasing(ks) && ks != []
    requires forall i :: lo <= i && i in keys <==> i in ks
    ensures var e, rest := ks[0] + Consecutive(ks), ks[Consecutive(ks)..];
            && Increasing(rest)
            && (forall i :: e <= i && i in keys <==> i in rest)
            && (forall i :: i in rest ==> i in ks)
            && e !in keys
  {
    hide Consecutive;
    var n := Consecutive(ks);
    var e, rest := ks[0] + n, ks[n..];
    ConsecutiveIs(ks);
    assert ks[0] in ks;
    forall k | 0 <= k < |rest|
      ensures rest[k] in ks && e < rest[k]
    {
      assert rest[k] == ks[n + k] && (k > 0 ==> ks[n] < ks[n + k]);
    }
    forall i | i in ks && e <= i
      ensures i in rest
    {
      var k :| 0 <= k < |ks| && ks[k] == i;
      assert rest[k - n] == i;
    }
  }

  lemma WidenRuns(keys: set<nat>, lo: nat, first: nat, hi: nat, runs: seq<Run>)
    requires lo <= first && MaximalRuns(keys, first, hi, runs)
    requires forall i :: lo <= i < first ==> i !in keys
    ensures MaximalRuns(keys, lo, hi, runs)
  {
  }

  /** Both scanners decode exactly the same runs. */
  lemma ScannersAgree(keys: set<nat>, hi: nat)
    requires forall i :: i in keys ==> i < hi
    ensures KeyRuns(Sorted(keys)) == Runs(keys, 0, hi)
    ensures MaximalRuns(keys, 0, hi, Runs(keys, 0, hi))
  {
    KeyRunsMaximal(Sorted(keys), keys, 0, hi);
    MaximalRunsUnique(keys, 0, hi, KeyRuns(Sorted(keys)));
  }
}
