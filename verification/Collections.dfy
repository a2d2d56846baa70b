/** Ordered views of finite sets and maps, as the source's B-tree containers give them. */
module Collections {

  ghost predicate IsLeast(x: nat, s: set<nat>)
  {
    x in s && forall y :: y in s ==> x <= y
  }

  lemma {:induction false} LeastExists(s: set<nat>)
    requires s != {}
    ensures exists x :: IsLeast(x, s)
    decreases |s|
  {
    var x :| x in s;
    var rest := s - {x};
    if rest == {} {
      assert s == rest + {x};
      assert IsLeast(x, s);
    } else {
      LeastExists(rest);
      var m :| IsLeast(m, rest);
      LeastOfMore(m, x, s, rest);
      assert IsLeast(if m <= x then m else x, s);
    }
  }

  lemma LeastOfMore(m: nat, x: nat, s: set<nat>, rest: set<nat>)
    requires x in s && rest == s - {x} && IsLeast(m, rest)
    ensures IsLeast(if m <= x then m else x, s)
  {
    assert forall y :: y in s ==> y == x || y in rest;
  }

  /** The first key of a B-tree container. */
  function Least(s: set<nat>): (x: nat)
    requires s != {}
    ensures x in s && forall y :: y in s ==> x <= y
  {
    LeastExists(s);
    assert exists x :: x in s && forall y :: y in s ==> x <= y by {
      var x :| IsLeast(x, s);
    }
    var x :| x in s && forall y :: y in s ==> x <= y;
    x
  }

  ghost predicate Increasing(xs: seq<nat>)
  {
    forall i, j :: 0 <= i < j < |xs| ==> xs[i] < xs[j]
  }

  /** The keys of a B-tree container in iteration order. */
  function Sorted(s: set<nat>): (xs: seq<nat>)
    ensures Increasing(xs) && |xs| == |s|
    ensures forall x :: x in xs <==> x in s
    decreases |s|
  {
    if s == {} then []
    else
      var x := Least(s);
      [x] + Sorted(s - {x})
  }

  lemma IncreasingHead(xs: seq<nat>, s: set<nat>)
    requires xs != [] && Increasing(xs)
    requires forall x :: x in xs <==> x in s
    ensures xs[0] in s && forall y :: y in s ==> xs[0] <= y
    ensures Increasing(xs[1..])
    ensures forall x :: x in xs[1..] <==> x in s - {xs[0]}
  {
    assert xs[0] in xs;
    forall y | y in s
      ensures y == xs[0] || (xs[0] < y && y in xs[1..])
    {
      var j :| 0 <= j < |xs| && xs[j] == y;
      if j > 0 { assert xs[1..][j - 1] == y; }
    }
    forall y | y in xs[1..]
      ensures y in s - {xs[0]}
    {
      var j :| 0 <= j < |xs[1..]| && xs[1..][j] == y;
      assert xs[j + 1] == y;
    }
  }

  /** An ascending listing of a set is determined by the set. */
  lemma {:induction false} SortedUnique(xs: seq<nat>, ys: seq<nat>, s: set<nat>)
    requires Increasing(xs) && Increasing(ys)
    requires forall x :: x in xs <==> x in s
    requires forall y :: y in ys <==> y in s
    ensures xs == ys
    decreases |xs|
  {
    assert forall i :: 0 <= i < |xs| ==> xs[i] in s;
    assert forall i :: 0 <= i < |ys| ==> ys[i] in s;
    assert forall x :: x in xs <==> x in ys;
    if xs == [] || ys == [] {
      assert |xs| == 0 <==> |ys| == 0;
    } else {
      IncreasingHead(xs, s);
      IncreasingHead(ys, s);
      assert xs[0] == ys[0];
      SortedUnique(xs[1..], ys[1..], s - {xs[0]});
      assert xs == [xs[0]] + xs[1..];
      assert ys == [ys[0]] + ys[1..];
    }
  }

  /** The half-open interval of indices. */
  function Range(lo: nat, hi: nat): (s: set<nat>)
    ensures forall i :: i in s <==> lo <= i < hi
    decreases hi
  {
    if lo >= hi then {} else Range(lo, hi - 1) + {hi - 1}
  }

  lemma {:induction false} RangeSize(lo: nat, hi: nat)
    requires lo <= hi
    ensures |Range(lo, hi)| == hi - lo
    decreases hi - lo
  {
    if lo < hi {
      RangeSize(lo, hi - 1);
      assert Range(lo, hi) == Range(lo, hi - 1) + {hi - 1};
    }
  }

  lemma {:induction false} SubsetSize<T>(a: set<T>, b: set<T>)
    requires a <= b
    ensures |a| <= |b|
    ensures |a| == |b| ==> a == b
    decreases |a|
  {
    if a == {} {
      if |b| == 0 { assert b == {}; }
    } else {
      var x :| x in a;
      SubsetSize(a - {x}, b - {x});
      if |a| == |b| {
        assert a == (a - {x}) + {x} == (b - {x}) + {x} == b;
      }
    }
  }

  ghost predicate NoDup<T>(xs: seq<T>)
  {
    forall i, j :: 0 <= i < j < |xs| ==> xs[i] != xs[j]
  }

  function Elements<T(!new)>(xs: seq<T>): (s: set<T>)
    ensures forall x :: x in s <==> x in xs
  {
    set x | x in xs
  }

  lemma NoDupAppend<T(!new)>(xs: seq<T>, ys: seq<T>)
    requires NoDup(xs) && NoDup(ys) && Elements(xs) !! Elements(ys)
    ensures NoDup(xs + ys) && Elements(xs + ys) == Elements(xs) + Elements(ys)
  {
    forall i, j | 0 <= i < j < |xs + ys|
      ensures (xs + ys)[i] != (xs + ys)[j]
    {
      if i < |xs| <= j {
        assert (xs + ys)[i] in Elements(xs) && (xs + ys)[j] in Elements(ys);
      }
    }
  }

  /** The sum of the values of a finite map. */
  ghost function MapSum(m: map<nat, nat>): nat
    decreases |m|
  {
    if m == map[] then 0
    else
      var k := Least(m.Keys);
      m[k] + MapSum(m - {k})
  }

  lemma {:induction false} MapSumRemove(m: map<nat, nat>, k: nat)
    requires k in m
    ensures MapSum(m) == m[k] + MapSum(m - {k})
    decreases |m|
  {
    var l := Least(m.Keys);
    if l != k {
      assert |m - {l}| < |m|;
      MapSumRemove(m - {l}, k);
      MapSumRemove'(m, k, l);
    }
  }

  lemma {:induction false} MapSumRemove'(m: map<nat, nat>, k: nat, l: nat)
    requires k in m && l in m && k != l && l == Least(m.Keys)
    ensures MapSum(m - {k}) == m[l] + MapSum(m - {l} - {k})
  {
    var n := m - {k};
    assert l in n;
    assert Least(n.Keys) == l;
    assert n - {l} == m - {l} - {k};
  }
}
