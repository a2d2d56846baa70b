/** What `record_sig` lets through: first occurrences by first signature, across any number of calls. */
module Emission {
  import opened Codec
  import opened Decoder
  import opened Slot

  /** A batch with unsigned transactions and repeats by first signature removed. */
  function Dedup(txs: transactions): transactions
  {
    Fresh({}, txs)
  }

  ghost predicate SignedBy(tx: Transaction, sig: signature)
  {
    tx.signatures != [] && tx.signatures[0] == sig
  }

  ghost predicate FirstAt(txs: transactions, i: nat)
    requires i < |txs|
  {
    && txs[i].signatures != []
    && forall j :: 0 <= j < i ==> !SignedBy(txs[j], txs[i].signatures[0])
  }

  /** The same removal stated by position: keep the entries no earlier entry shares a signature with. */
  ghost function FirstOccurrences(txs: transactions): transactions
  {
    if txs == [] then []
    else
      var n := |txs| - 1;
      FirstOccurrences(txs[..n]) + (if FirstAt(txs, n) then [txs[n]] else [])
  }

  lemma {:induction false} FirstSigsAre(txs: transactions, sig: signature)
    ensures sig in FirstSigs(txs) <==> exists j :: 0 <= j < |txs| && SignedBy(txs[j], sig)
  {
    if txs != [] {
      FirstSigsAre(txs[1..], sig);
      if j :| 1 <= j < |txs| && SignedBy(txs[j], sig) {
        assert SignedBy(txs[1..][j - 1], sig);
      }
      if j :| 0 <= j < |txs[1..]| && SignedBy(txs[1..][j], sig) {
        assert SignedBy(txs[j + 1], sig);
      }
    }
  }

  lemma {:induction false} FirstSigsAppend(a: transactions, b: transactions)
    ensures FirstSigs(a + b) == FirstSigs(a) + FirstSigs(b)
  {
    if a == [] {
      assert a + b == b;
    } else {
      assert (a + b)[1..] == a[1..] + b;
      FirstSigsAppend(a[1..], b);
    }
  }

  lemma {:induction false} FreshAppend(seen: set<signature>, a: transactions, b: transactions)
    ensures Fresh(seen, a + b) == Fresh(seen, a) + Fresh(seen + FirstSigs(a), b)
    decreases |a|
  {
    if a == [] {
      assert a + b == b;
      assert seen + {} == seen;
    } else {
      assert (a + b)[1..] == a[1..] + b;
      if a[0].signatures == [] {
        FreshAppend(seen, a[1..], b);
        assert FirstSigs(a) == FirstSigs(a[1..]);
      } else {
        var sig := a[0].signatures[0];
        if sig in seen {
          FreshAppend(seen, a[1..], b);
          assert seen + FirstSigs(a) == seen + FirstSigs(a[1..]);
        } else {
          FreshAppend(seen + {sig}, a[1..], b);
          assert seen + FirstSigs(a) == seen + {sig} + FirstSigs(a[1..]);
        }
      }
    }
  }

  /** What is let through carries the same signatures as what was offered. */
  lemma {:induction false} FreshSigs(seen: set<signature>, txs: transactions)
    ensures seen + FirstSigs(Fresh(seen, txs)) == seen + FirstSigs(txs)
    decreases |txs|
  {
    if txs != [] {
      if txs[0].signatures == [] || txs[0].signatures[0] in seen {
        FreshSigs(seen, txs[1..]);
      } else {
        var sig := txs[0].signatures[0];
        FreshSigs(seen + {sig}, txs[1..]);
        var rest := Fresh(seen + {sig}, txs[1..]);
        assert ([txs[0]] + rest)[1..] == rest;
        assert seen + FirstSigs([txs[0]] + rest) == seen + {sig} + FirstSigs(rest);
        assert seen + FirstSigs(txs) == seen + {sig} + FirstSigs(txs[1..]);
      }
    }
  }

  lemma {:induction false} FreshOfSeen(seen: set<signature>, txs: transactions)
    requires FirstSigs(txs) <= seen
    ensures Fresh(seen, txs) == []
    decreases |txs|
  {
    if txs != [] {
      FreshOfSeen(seen, txs[1..]);
    }
  }

  /** Offering a whole after a prefix of it has been let through gives exactly the rest: this is why
      decoding the same bytes twice delivers them once. */
  lemma ResumeExact(prefix: transactions, whole: transactions)
    requires prefix <= whole
    ensures Dedup(prefix) + Fresh(FirstSigs(Dedup(prefix)), whole) == Dedup(whole)
  {
    var rest := whole[|prefix|..];
    assert whole == prefix + rest;
    FreshSigs({}, prefix);
    var seen := FirstSigs(prefix);
    assert FirstSigs(Dedup(prefix)) == seen;
    FreshAppend(seen, prefix, rest);
    FreshOfSeen(seen, prefix);
    assert seen + FirstSigs(prefix) == seen;
    FreshAppend({}, prefix, rest);
    assert {} + FirstSigs(prefix) == seen;
  }

  /** Running the filter forwards with a set keeps exactly the first occurrences. */
  lemma {:induction false} DedupIsFirstOccurrences(txs: transactions)
    ensures Dedup(txs) == FirstOccurrences(txs)
  {
    if txs != [] {
      var n := |txs| - 1;
      var init := txs[..n];
      DedupIsFirstOccurrences(init);
      assert txs == init + [txs[n]];
      FreshAppend({}, init, [txs[n]]);
      var seen := {} + FirstSigs(init);
      assert [txs[n]][1..] == [];
      if txs[n].signatures != [] {
        FirstSigsAre(init, txs[n].signatures[0]);
        assert FirstAt(txs, n) <==> txs[n].signatures[0] !in seen;
      }
    }
  }

  /** Emission keeps the set of seen signatures equal to those of what was emitted. */
  lemma EmitSeen(s: State, txs: transactions)
    requires s.yielded == FirstSigs(s.log.emitted)
    ensures Emit(s, txs).yielded == FirstSigs(Emit(s, txs).log.emitted)
  {
    var novel := Fresh(s.yielded, txs);
    FreshSigs(s.yielded, txs);
    FirstSigsAppend(s.log.emitted, novel);
  }

  lemma EmitAppend(s: State, a: transactions, b: transactions)
    ensures Emit(Emit(s, a), b) == Emit(s, a + b)
  {
    FreshAppend(s.yielded, a, b);
    FirstSigsAppend(a, b);
    var x, y := Emit(Emit(s, a), b), Emit(s, a + b);
    assert x.yielded == y.yielded;
    assert x.log.emitted == y.log.emitted;
    assert x.log.delivered == y.log.delivered;
  }
}
