/** The wire codec the decoder is built on. The source takes `Entry` from external crates, so the
    codec is a parameter here: a reader with four laws, and a concrete reader that satisfies them. */
module Codec {
  import opened Bytes

  type signature = seq<byte>

  datatype Transaction = Transaction(signatures: seq<signature>, message: seq<byte>)

  datatype Entry = Entry(numHashes: nat, hash: seq<byte>, transactions: seq<Transaction>)

  /** Malformed is any read error other than running out of bytes. */
  datatype ReadResult<+T> = Parsed(value: T) | Truncated | Malformed

  datatype Reader<!T> = Reader(parse: seq<byte> -> ReadResult<T>, size: T -> nat)

  /** A value never claims more bytes than were there, and never fewer than `min`. */
  ghost predicate SizedAt<T>(r: Reader<T>, min: nat, s: seq<byte>)
  {
    r.parse(s).Parsed? ==> min <= r.size(r.parse(s).value) <= |s|
  }

  /** A value is determined by the bytes it occupies: trailing bytes are ignored. */
  ghost predicate LocalAt<T>(r: Reader<T>, s: seq<byte>, t: seq<byte>)
  {
    r.parse(s).Parsed? ==>
      var n := r.size(r.parse(s).value);
      n <= |s| && n <= |t| && s[..n] == t[..n] ==> r.parse(t) == r.parse(s)
  }

  /** A proper prefix of a value is reported as truncated, not as malformed. */
  ghost predicate IncrementalAt<T>(r: Reader<T>, s: seq<byte>, t: seq<byte>)
  {
    r.parse(s).Parsed? && t <= s && |t| < r.size(r.parse(s).value) ==> r.parse(t) == Truncated
  }

  /** No further bytes repair a malformed input. */
  ghost predicate PersistentAt<T>(r: Reader<T>, s: seq<byte>, t: seq<byte>)
  {
    r.parse(s).Malformed? && s <= t ==> r.parse(t).Malformed?
  }

  ghost predicate LawsAt<T>(r: Reader<T>, min: nat, s: seq<byte>, t: seq<byte>)
  {
    SizedAt(r, min, s) && LocalAt(r, s, t) && IncrementalAt(r, s, t) && PersistentAt(r, s, t)
  }

  ghost predicate Lawful<T(!new)>(r: Reader<T>, min: nat)
  {
    forall s, t :: LawsAt(r, min, s, t)
  }

  lemma ParseExtends<T(!new)>(r: Reader<T>, min: nat, s: seq<byte>, t: seq<byte>)
    requires Lawful(r, min)
    requires r.parse(s).Parsed? && s <= t
    ensures r.parse(t) == r.parse(s)
    ensures min <= r.size(r.parse(s).value) <= |s|
  {
    assert LawsAt(r, min, s, s);
    assert LawsAt(r, min, s, t);
    var n := r.size(r.parse(s).value);
    assert t[..n] == s[..n];
  }

  function SizeMany<T>(size: T -> nat, vs: seq<T>): nat
  {
    if vs == [] then 0 else size(vs[0]) + SizeMany(size, vs[1..])
  }

  /** `n` values in a row. */
  function ParseMany<T(!new)>(r: Reader<T>, min: nat, n: nat, s: seq<byte>): (result: ReadResult<seq<T>>)
    requires Lawful(r, min)
    ensures result.Parsed? ==> |result.value| == n && SizeMany(r.size, result.value) <= |s|
  {
    if n == 0 then Parsed([])
    else match r.parse(s)
      case Truncated => Truncated
      case Malformed => Malformed
      case Parsed(v) =>
        assert LawsAt(r, min, s, s);
        match ParseMany(r, min, n - 1, s[r.size(v)..])
        case Truncated => Truncated
        case Malformed => Malformed
        case Parsed(vs) =>
          assert ([v] + vs)[1..] == vs;
          Parsed([v] + vs)
  }

  /** One unfolding of a successful run of values. */
  lemma ManyStep<T(!new)>(r: Reader<T>, min: nat, n: nat, s: seq<byte>)
    requires Lawful(r, min) && n > 0
    ensures r.parse(s).Parsed? ==>
              var k := r.size(r.parse(s).value);
              && min <= k <= |s|
              && (ParseMany(r, min, n, s).Parsed? <==> ParseMany(r, min, n - 1, s[k..]).Parsed?)
              && (ParseMany(r, min, n, s).Truncated? <==> ParseMany(r, min, n - 1, s[k..]).Truncated?)
              && (ParseMany(r, min, n, s).Parsed? ==>
                    && ParseMany(r, min, n, s).value == [r.parse(s).value] + ParseMany(r, min, n - 1, s[k..]).value
                    && SizeMany(r.size, ParseMany(r, min, n, s).value)
                       == k + SizeMany(r.size, ParseMany(r, min, n - 1, s[k..]).value))
    ensures !r.parse(s).Parsed? ==>
              && (ParseMany(r, min, n, s).Truncated? <==> r.parse(s).Truncated?)
              && !ParseMany(r, min, n, s).Parsed?
  {
    assert LawsAt(r, min, s, s);
    if ParseMany(r, min, n, s).Parsed? {
      var v := r.parse(s).value;
      var vs := ParseMany(r, min, n - 1, s[r.size(v)..]).value;
      assert ([v] + vs)[1..] == vs;
    }
  }

  lemma {:induction false} ManySized<T(!new)>(r: Reader<T>, min: nat, n: nat, s: seq<byte>)
    requires Lawful(r, min)
    requires ParseMany(r, min, n, s).Parsed?
    ensures n * min <= SizeMany(r.size, ParseMany(r, min, n, s).value) <= |s|
  {
    hide Lawful;
    if n > 0 {
      ManyStep(r, min, n, s);
      ManySized(r, min, n - 1, s[r.size(r.parse(s).value)..]);
      OneMoreTimes(n, min);
    }
  }

  lemma OneMoreTimes(n: nat, min: nat)
    requires n > 0
    ensures (n - 1) * min + min == n * min
  {
  }

  lemma PrefixSplit(s: seq<byte>, t: seq<byte>, k: nat, m: nat)
    requires k + m <= |s| && k + m <= |t| && s[..k + m] == t[..k + m]
    ensures s[..k] == t[..k]
    ensures s[k..][..m] == t[k..][..m]
  {
    assert s[..k] == s[..k + m][..k] && t[..k] == t[..k + m][..k];
    assert s[k..][..m] == s[..k + m][k..] && t[k..][..m] == t[..k + m][k..];
  }

  lemma {:induction false} ManyLocal<T(!new)>(r: Reader<T>, min: nat, n: nat, s: seq<byte>, t: seq<byte>)
    requires Lawful(r, min)
    requires ParseMany(r, min, n, s).Parsed?
    requires var m := SizeMany(r.size, ParseMany(r, min, n, s).value); m <= |t| && s[..m] == t[..m]
    ensures ParseMany(r, min, n, t) == ParseMany(r, min, n, s)
  {
    if n > 0 {
      ManyStep(r, min, n, s);
      var k := r.size(r.parse(s).value);
      var m := SizeMany(r.size, ParseMany(r, min, n - 1, s[k..]).value);
      PrefixSplit(s, t, k, m);
      assert LawsAt(r, min, s, t);
      ManyLocal(r, min, n - 1, s[k..], t[k..]);
      ManyStep(r, min, n, t);
    }
  }

  lemma {:induction false} ManyIncremental<T(!new)>(r: Reader<T>, min: nat, n: nat, s: seq<byte>, t: seq<byte>)
    requires Lawful(r, min)
    requires ParseMany(r, min, n, s).Parsed?
    requires t <= s && |t| < SizeMany(r.size, ParseMany(r, min, n, s).value)
    ensures ParseMany(r, min, n, t) == Truncated
  {
    if n > 0 {
      ManyStep(r, min, n, s);
      ManyStep(r, min, n, t);
      var k := r.size(r.parse(s).value);
      assert LawsAt(r, min, s, t);
      if k <= |t| {
        assert t[..k] == s[..k];
        assert t[k..] <= s[k..];
        ManyIncremental(r, min, n - 1, s[k..], t[k..]);
      }
    }
  }

  lemma {:induction false} ManyPersistent<T(!new)>(r: Reader<T>, min: nat, n: nat, s: seq<byte>, t: seq<byte>)
    requires Lawful(r, min)
    requires ParseMany(r, min, n, s).Malformed? && s <= t
    ensures ParseMany(r, min, n, t).Malformed?
  {
    ManyStep(r, min, n, s);
    ManyStep(r, min, n, t);
    assert LawsAt(r, min, s, t);
    if r.parse(s).Parsed? {
      ParseExtends(r, min, s, t);
      var k := r.size(r.parse(s).value);
      assert s[k..] <= t[k..];
      ManyPersistent(r, min, n - 1, s[k..], t[k..]);
    }
  }

  // ---------- A concrete entry format satisfying the laws ----------

  const SIGNATURE_SIZE: nat := 64
  const ENTRY_HEADER_SIZE: nat := 48

  function TransactionSize(tx: Transaction): nat
  {
    2 + SIGNATURE_SIZE * |tx.signatures| + |tx.message|
  }

  /** One byte of signature count (below 128), the signatures, one byte of length, the message. */
  function ParseTransaction(s: seq<byte>): (r: ReadResult<Transaction>)
    ensures r.Parsed? ==> 1 <= TransactionSize(r.value) <= |s|
  {
    if |s| < 1 then Truncated
    else if s[0] >= 128 then Malformed
    else
      var at := 1 + SIGNATURE_SIZE * s[0];
      if |s| <= at then Truncated
      else if |s| < at + 1 + s[at] then Truncated
      else
        var signatures := seq(s[0], i requires 0 <= i < s[0] =>
          SlotInside(i, s[0]);
          s[1 + SIGNATURE_SIZE * i..1 + SIGNATURE_SIZE * i + SIGNATURE_SIZE]);
        Parsed(Transaction(signatures, s[at + 1..at + 1 + s[at]]))
  }

  lemma SlotInside(i: nat, n: nat)
    requires i < n
    ensures SIGNATURE_SIZE * i + SIGNATURE_SIZE <= SIGNATURE_SIZE * n
  {
  }

  function TransactionReader(): Reader<Transaction>
  {
    Reader(ParseTransaction, TransactionSize)
  }

  lemma TransactionLocal(s: seq<byte>, t: seq<byte>)
    requires ParseTransaction(s).Parsed?
    requires var n := TransactionSize(ParseTransaction(s).value); n <= |t| && s[..n] == t[..n]
    ensures ParseTransaction(t) == ParseTransaction(s)
  {
    var n := TransactionSize(ParseTransaction(s).value);
    var at := 1 + SIGNATURE_SIZE * s[0];
    assert forall i :: 0 <= i < n ==> s[i] == s[..n][i] == t[..n][i] == t[i];
    assert s[0] == t[0] && s[at] == t[at];
    var a, b := ParseTransaction(s).value, ParseTransaction(t).value;
    assert a.message == b.message;
    forall i | 0 <= i < |a.signatures|
      ensures a.signatures[i] == b.signatures[i]
    {
      SlotInside(i, s[0]);
      assert s[1 + SIGNATURE_SIZE * i..1 + SIGNATURE_SIZE * i + SIGNATURE_SIZE]
          == t[1 + SIGNATURE_SIZE * i..1 + SIGNATURE_SIZE * i + SIGNATURE_SIZE];
    }
    assert a.signatures == b.signatures;
  }

  lemma TransactionLaws(s: seq<byte>, t: seq<byte>)
    ensures LawsAt(TransactionReader(), 1, s, t)
  {
    var r := TransactionReader();
    if r.parse(s).Parsed? {
      var n := r.size(r.parse(s).value);
      if n <= |t| && s[..n] == t[..n] {
        TransactionLocal(s, t);
      }
    }
  }

  lemma TransactionReaderLawful()
    ensures Lawful(TransactionReader(), 1)
  {
    forall s, t: seq<byte>
      ensures LawsAt(TransactionReader(), 1, s, t)
    {
      TransactionLaws(s, t);
    }
  }

  function EntrySize(e: Entry): nat
  {
    ENTRY_HEADER_SIZE + SizeMany(TransactionSize, e.transactions)
  }

  /** Eight bytes of hash count, the hash, eight bytes of transaction count, the transactions. */
  function ParseEntry(s: seq<byte>): ReadResult<Entry>
  {
    TransactionReaderLawful();
    if |s| < ENTRY_HEADER_SIZE then Truncated
    else match ParseMany(TransactionReader(), 1, LeNat(s[40..48]), s[ENTRY_HEADER_SIZE..])
      case Truncated => Truncated
      case Malformed => Malformed
      case Parsed(txs) => Parsed(Entry(LeNat(s[..8]), s[8..40], txs))
  }

  function EntryReader(): Reader<Entry>
  {
    Reader(ParseEntry, EntrySize)
  }

  lemma SameHeader(s: seq<byte>, t: seq<byte>)
    requires |s| >= 48 && |t| >= 48 && s[..48] == t[..48]
    ensures s[..8] == t[..8] && s[8..40] == t[8..40] && s[40..48] == t[40..48]
  {
    assert s[..8] == s[..48][..8] && t[..8] == t[..48][..8];
    assert s[8..40] == s[..48][8..40] && t[8..40] == t[..48][8..40];
    assert s[40..48] == s[..48][40..48] && t[40..48] == t[..48][40..48];
  }

  lemma EntryLocal(s: seq<byte>, t: seq<byte>)
    ensures SizedAt(EntryReader(), ENTRY_HEADER_SIZE, s) && LocalAt(EntryReader(), s, t)
  {
    TransactionReaderLawful();
    var r, h := TransactionReader(), ENTRY_HEADER_SIZE;
    if ParseEntry(s).Parsed? {
      ManySized(r, 1, LeNat(s[40..48]), s[h..]);
      var n := EntrySize(ParseEntry(s).value);
      if n <= |t| && s[..n] == t[..n] {
        PrefixSplit(s, t, h, n - h);
        SameHeader(s, t);
        ManyLocal(r, 1, LeNat(s[40..48]), s[h..], t[h..]);
      }
    }
  }

  lemma EntryPrefixes(s: seq<byte>, t: seq<byte>)
    ensures IncrementalAt(EntryReader(), s, t) && PersistentAt(EntryReader(), s, t)
  {
    TransactionReaderLawful();
    var r, h := TransactionReader(), ENTRY_HEADER_SIZE;
    if |s| >= h && |t| >= h && (s <= t || t <= s) {
      assert s[..48] == t[..48];
      SameHeader(s, t);
      assert s <= t ==> s[h..] <= t[h..];
      assert t <= s ==> t[h..] <= s[h..];
      if ParseEntry(s).Parsed? && t <= s && |t| < EntrySize(ParseEntry(s).value) {
        ManyIncremental(r, 1, LeNat(s[40..48]), s[h..], t[h..]);
      }
      if ParseEntry(s).Malformed? && s <= t {
        ManyPersistent(r, 1, LeNat(s[40..48]), s[h..], t[h..]);
      }
    }
  }

  lemma EntryReaderLawful()
    ensures Lawful(EntryReader(), ENTRY_HEADER_SIZE)
  {
    forall s, t: seq<byte>
      ensures LawsAt(EntryReader(), ENTRY_HEADER_SIZE, s, t)
    {
      EntryLocal(s, t);
      EntryPrefixes(s, t);
    }
  }

  function LawfulEntryReader(): (r: Reader<Entry>)
    ensures Lawful(r, ENTRY_HEADER_SIZE)
  {
    EntryReaderLawful();
    EntryReader()
  }

  /** Every codec the decoder may be given; the witness shows the laws can be met. */
  type EntryCodec = r: Reader<Entry> | Lawful(r, ENTRY_HEADER_SIZE) witness LawfulEntryReader()
}
