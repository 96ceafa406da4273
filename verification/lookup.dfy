/**
 The sorted-vector lookup table of libs/core/include/tone/core/lookup.inl.

 A table is a vector of (key, value) pairs kept sorted by the pair order (key first, then
 value). Both orders are passed as comparison functions, which must be strict total orders.
 `find` is `std::lower_bound` on the key followed by an equality check; the `end()` iterator
 is the index |entries|.
 */
module Lookup {

  ghost predicate Irreflexive<T(!new)>(lt: (T, T) -> bool) {
    forall x :: !lt(x, x)
  }

  ghost predicate Transitive<T(!new)>(lt: (T, T) -> bool) {
    forall x, y, z :: lt(x, y) && lt(y, z) ==> lt(x, z)
  }

  ghost predicate Connected<T(!new)>(lt: (T, T) -> bool) {
    forall x, y :: x != y ==> lt(x, y) || lt(y, x)
  }

  ghost predicate StrictTotalOrder<T(!new)>(lt: (T, T) -> bool) {
    Irreflexive(lt) && Transitive(lt) && Connected(lt)
  }

  /** `std::pair`'s `operator<`: keys first, values break ties. */
  predicate PairLess<K(==), V>(ltK: (K, K) -> bool, ltV: (V, V) -> bool, a: (K, V), b: (K, V)) {
    ltK(a.0, b.0) || (a.0 == b.0 && ltV(a.1, b.1))
  }

  lemma PairLessIsStrictTotal<K(!new), V(!new)>(ltK: (K, K) -> bool, ltV: (V, V) -> bool)
    requires StrictTotalOrder(ltK) && StrictTotalOrder(ltV)
    ensures StrictTotalOrder((a: (K, V), b: (K, V)) => PairLess(ltK, ltV, a, b))
  {
  }

  /** Ascending order: no later entry is smaller than an earlier one. */
  ghost predicate SortedBy<T>(lt: (T, T) -> bool, s: seq<T>) {
    forall i, j :: 0 <= i < j < |s| ==> !lt(s[j], s[i])
  }

  // "a is at most b" is written !lt(b, a) below.

  lemma LeTrans<T(!new)>(lt: (T, T) -> bool, a: T, b: T, c: T)
    requires StrictTotalOrder(lt)
    requires !lt(b, a) && !lt(c, b)
    ensures !lt(c, a)
  {
  }

  lemma LeLtTrans<T(!new)>(lt: (T, T) -> bool, a: T, b: T, c: T)
    requires StrictTotalOrder(lt)
    requires !lt(b, a) && lt(b, c)
    ensures lt(a, c)
  {
  }

  lemma LtLeTrans<T(!new)>(lt: (T, T) -> bool, a: T, b: T, c: T)
    requires StrictTotalOrder(lt)
    requires lt(a, b) && !lt(c, b)
    ensures lt(a, c)
  {
  }

  lemma LeAntisymmetric<T(!new)>(lt: (T, T) -> bool, a: T, b: T)
    requires StrictTotalOrder(lt)
    requires !lt(a, b) && !lt(b, a)
    ensures a == b
  {
  }

  lemma LeAntisymmetricContra<T(!new)>(lt: (T, T) -> bool, a: T, b: T)
    requires StrictTotalOrder(lt)
    requires !lt(b, a) && a != b
    ensures lt(a, b)
  {
  }

  lemma LtAsymmetric<T(!new)>(lt: (T, T) -> bool, a: T, b: T)
    requires StrictTotalOrder(lt)
    requires lt(a, b)
    ensures !lt(b, a)
  {
  }

  lemma SortedCons<T>(lt: (T, T) -> bool, h: T, t: seq<T>)
    requires SortedBy(lt, t)
    requires forall k :: 0 <= k < |t| ==> !lt(t[k], h)
    ensures SortedBy(lt, [h] + t)
  {
    var r := [h] + t;
    forall i, j | 0 <= i < j < |r| ensures !lt(r[j], r[i]) {
      assert r[j] == t[j - 1];
      if i > 0 {
        assert r[i] == t[i - 1];
      }
    }
  }

  datatype Table<K, V> = Table(entries: seq<(K, V)>)

  /** The entries ascend in the pair order. */
  ghost predicate EntriesSorted<K(!new), V(!new)>(ltK: (K, K) -> bool, ltV: (V, V) -> bool, e: seq<(K, V)>) {
    forall i, j :: 0 <= i < j < |e| ==> !PairLess(ltK, ltV, e[j], e[i])
  }

  // ---------------------------------------------------------------------------------------
  // Construction: sorting
  // ---------------------------------------------------------------------------------------

  /** Inserts x before the first element that is not smaller than it. */
  function Insert<T>(lt: (T, T) -> bool, x: T, s: seq<T>): (r: seq<T>)
    ensures multiset(r) == multiset(s) + multiset{x}
    ensures |r| == |s| + 1
  {
    if s == [] then [x]
    else if lt(s[0], x) then
      assert s == [s[0]] + s[1..];
      [s[0]] + Insert(lt, x, s[1..])
    else [x] + s
  }

  lemma {:induction false} InsertSorted<T(!new)>(lt: (T, T) -> bool, x: T, s: seq<T>)
    requires StrictTotalOrder(lt)
    requires SortedBy(lt, s)
    ensures SortedBy(lt, Insert(lt, x, s))
  {
    if s == [] {
    } else if lt(s[0], x) {
      var t := Insert(lt, x, s[1..]);
      InsertSorted(lt, x, s[1..]);
      forall k | 0 <= k < |t| ensures !lt(t[k], s[0]) {
        assert t[k] in multiset(s[1..]) + multiset{x};
        if t[k] == x {
          LtAsymmetric(lt, s[0], x);
        } else {
          assert t[k] in s[1..];
          var m :| 0 <= m < |s[1..]| && s[1..][m] == t[k];
          assert s[m + 1] == t[k];
        }
      }
      SortedCons(lt, s[0], t);
    } else {
      forall k | 0 <= k < |s| ensures !lt(s[k], x) {
        if k > 0 {
          LeTrans(lt, x, s[0], s[k]);
        }
      }
      SortedCons(lt, x, s);
    }
  }

  /** Insertion sort by lt; the result is the unique sorted permutation (see SortedUnique). */
  function Sort<T>(lt: (T, T) -> bool, s: seq<T>): (r: seq<T>)
    ensures multiset(r) == multiset(s)
    ensures |r| == |s|
  {
    if s == [] then []
    else
      assert s == [s[0]] + s[1..];
      Insert(lt, s[0], Sort(lt, s[1..]))
  }

  lemma {:induction false} SortSorted<T(!new)>(lt: (T, T) -> bool, s: seq<T>)
    requires StrictTotalOrder(lt)
    ensures SortedBy(lt, Sort(lt, s))
  {
    if s != [] {
      SortSorted(lt, s[1..]);
      InsertSorted(lt, s[0], Sort(lt, s[1..]));
    }
  }

  /**
   A sorted arrangement of a multiset is unique under a strict total order, so any sorting
   algorithm (`std::ranges::sort` included) yields the same vector as Sort.
   */
  lemma {:induction false} SortedUnique<T(!new)>(lt: (T, T) -> bool, a: seq<T>, b: seq<T>)
    requires StrictTotalOrder(lt)
    requires SortedBy(lt, a) && SortedBy(lt, b)
    requires multiset(a) == multiset(b)
    ensures a == b
    decreases |a|
  {
    if a != [] {
      assert |b| == |multiset(b)| == |a|;
      SmallestFirst(lt, a, b);
      SmallestFirst(lt, b, a);
      LeAntisymmetric(lt, a[0], b[0]);
      TailMultiset(a, b);
      SortedTail(lt, a);
      SortedTail(lt, b);
      SortedUnique(lt, a[1..], b[1..]);
    }
  }

  /** The head of a sorted sequence is at most every element of the same multiset. */
  lemma SmallestFirst<T(!new)>(lt: (T, T) -> bool, a: seq<T>, b: seq<T>)
    requires Irreflexive(lt) && SortedBy(lt, a)
    requires multiset(a) == multiset(b)
    requires a != [] && b != []
    ensures !lt(b[0], a[0])
  {
    assert b[0] in multiset(b);
    assert b[0] in multiset(a);
    var i :| 0 <= i < |a| && a[i] == b[0];
    if i > 0 {
      assert !lt(a[i], a[0]);
    }
  }

  lemma TailMultiset<T>(a: seq<T>, b: seq<T>)
    requires a != [] && b != [] && a[0] == b[0]
    requires multiset(a) == multiset(b)
    ensures multiset(a[1..]) == multiset(b[1..])
  {
    assert a == [a[0]] + a[1..];
    assert b == [b[0]] + b[1..];
    assert multiset(a) == multiset{a[0]} + multiset(a[1..]);
    assert multiset(b) == multiset{a[0]} + multiset(b[1..]);
    assert multiset(a[1..]) == multiset(a) - multiset{a[0]};
    assert multiset(b[1..]) == multiset(b) - multiset{a[0]};
  }

  lemma SortedTail<T>(lt: (T, T) -> bool, a: seq<T>)
    requires SortedBy(lt, a) && a != []
    ensures SortedBy(lt, a[1..])
  {
  }

  /** Both constructors: the entries, sorted by the pair order. */
  function Make<K(!new,==), V(!new)>(c: seq<(K, V)>, ltK: (K, K) -> bool, ltV: (V, V) -> bool): (t: Table<K, V>)
    requires StrictTotalOrder(ltK) && StrictTotalOrder(ltV)
    ensures EntriesSorted(ltK, ltV, t.entries)
    ensures multiset(t.entries) == multiset(c)
    ensures forall x :: x in t.entries <==> x in c
    ensures Size(t) == |c|
  {
    var lt := (a: (K, V), b: (K, V)) => PairLess(ltK, ltV, a, b);
    PairLessIsStrictTotal(ltK, ltV);
    SortSorted(lt, c);
    var e := Sort(lt, c);
    assert forall i, j :: 0 <= i < j < |e| ==> !lt(e[j], e[i]);
    assert forall x :: x in e <==> x in multiset(e);
    Table(e)
  }

  /** Each entry below the next one in the pair order. */
  lemma {:induction false} AscendingChain<K(!new), V(!new)>(ltK: (K, K) -> bool, ltV: (V, V) -> bool, e: seq<(K, V)>, i: nat, j: nat)
    requires StrictTotalOrder(ltK) && StrictTotalOrder(ltV)
    requires forall k :: 0 <= k < |e| - 1 ==> PairLess(ltK, ltV, e[k], e[k + 1])
    requires i < j < |e|
    ensures PairLess(ltK, ltV, e[i], e[j])
    decreases j - i
  {
    if j > i + 1 {
      AscendingChain(ltK, ltV, e, i, j - 1);
      PairLessIsStrictTotal(ltK, ltV);
      var lt := (a: (K, V), b: (K, V)) => PairLess(ltK, ltV, a, b);
      assert lt(e[i], e[j - 1]) && lt(e[j - 1], e[j]);
    }
  }

  /** Entries that ascend strictly from each to the next are sorted. */
  lemma AscendingEntriesSorted<K(!new), V(!new)>(ltK: (K, K) -> bool, ltV: (V, V) -> bool, e: seq<(K, V)>)
    requires StrictTotalOrder(ltK) && StrictTotalOrder(ltV)
    requires forall k :: 0 <= k < |e| - 1 ==> PairLess(ltK, ltV, e[k], e[k + 1])
    ensures EntriesSorted(ltK, ltV, e)
  {
    PairLessIsStrictTotal(ltK, ltV);
    var lt := (a: (K, V), b: (K, V)) => PairLess(ltK, ltV, a, b);
    forall i, j | 0 <= i < j < |e| ensures !PairLess(ltK, ltV, e[j], e[i]) {
      AscendingChain(ltK, ltV, e, i, j);
    }
  }

  /** `size()`. */
  function Size<K, V>(t: Table<K, V>): nat {
    |t.entries|
  }

  // ---------------------------------------------------------------------------------------
  // Lookup
  // ---------------------------------------------------------------------------------------

  /** The keys are in ascending order (which the pair order implies). */
  ghost predicate KeysSorted<K(!new), V>(ltK: (K, K) -> bool, e: seq<(K, V)>) {
    forall i, j :: 0 <= i < j < |e| ==> !ltK(e[j].0, e[i].0)
  }

  lemma PairSortedKeysSorted<K(!new), V(!new)>(ltK: (K, K) -> bool, ltV: (V, V) -> bool, e: seq<(K, V)>)
    requires EntriesSorted(ltK, ltV, e)
    ensures KeysSorted(ltK, e)
  {
    forall i, j | 0 <= i < j < |e| ensures !ltK(e[j].0, e[i].0) {
      assert !PairLess(ltK, ltV, e[j], e[i]);
    }
  }

  /**
   `std::lower_bound` over [lo, hi) with the comparison `p.first < k`: the first position
   whose key is not below k, found by bisection.
   */
  function LowerBound<K(!new,==), V>(ltK: (K, K) -> bool, e: seq<(K, V)>, k: K, lo: nat, hi: nat): (r: nat)
    requires StrictTotalOrder(ltK) && KeysSorted(ltK, e)
    requires lo <= hi <= |e|
    requires forall i :: 0 <= i < lo ==> ltK(e[i].0, k)
    requires forall i :: hi <= i < |e| ==> !ltK(e[i].0, k)
    ensures lo <= r <= hi
    ensures forall i :: 0 <= i < r ==> ltK(e[i].0, k)
    ensures forall i :: r <= i < |e| ==> !ltK(e[i].0, k)
    decreases hi - lo
  {
    if lo == hi then lo
    else
      var mid := lo + (hi - lo) / 2;
      if ltK(e[mid].0, k) then
        assert forall i :: 0 <= i <= mid ==> ltK(e[i].0, k) by {
          forall i | 0 <= i < mid ensures ltK(e[i].0, k) {
            LeLtTrans(ltK, e[i].0, e[mid].0, k);
          }
        }
        LowerBound(ltK, e, k, mid + 1, hi)
      else
        assert forall i :: mid <= i < |e| ==> !ltK(e[i].0, k) by {
          forall i | mid < i < |e| ensures !ltK(e[i].0, k) {
            LeTrans(ltK, k, e[mid].0, e[i].0);
          }
        }
        LowerBound(ltK, e, k, lo, mid)
  }

  /**
   `find(k)`: the position of the first entry whose key is k, or |entries| (`end()`) when
   there is none.
   */
  function Find<K(!new,==), V(!new)>(t: Table<K, V>, ltK: (K, K) -> bool, ltV: (V, V) -> bool, k: K): (r: nat)
    requires StrictTotalOrder(ltK) && StrictTotalOrder(ltV)
    requires EntriesSorted(ltK, ltV, t.entries)
    ensures r <= |t.entries|
    ensures r < |t.entries| ==> t.entries[r].0 == k
    ensures r == |t.entries| <==> forall i :: 0 <= i < |t.entries| ==> t.entries[i].0 != k
    ensures forall i :: 0 <= i < r && i < |t.entries| ==> t.entries[i].0 != k
    ensures r < |t.entries| ==> forall i :: 0 <= i < |t.entries| && t.entries[i].0 == k ==> !ltV(t.entries[i].1, t.entries[r].1)
  {
    var e := t.entries;
    PairSortedKeysSorted(ltK, ltV, e);
    var i := LowerBound(ltK, e, k, 0, |e|);
    assert forall j :: 0 <= j < i ==> e[j].0 != k;
    if i < |e| && e[i].0 == k then
      assert forall j :: i < j < |e| && e[j].0 == k ==> !ltV(e[j].1, e[i].1) by {
        forall j | i < j < |e| && e[j].0 == k ensures !ltV(e[j].1, e[i].1) {
          assert !PairLess(ltK, ltV, e[j], e[i]);
        }
      }
      i
    else
      assert forall j :: i <= j < |e| ==> e[j].0 != k by {
        forall j | i <= j < |e| ensures e[j].0 != k {
          // k is at most e[i].0, which differs from k, and e[i].0 is at most e[j].0
          assert e[i].0 != k;
          LeAntisymmetricContra(ltK, k, e[i].0);
          if j > i {
            LtLeTrans(ltK, k, e[i].0, e[j].0);
          }
        }
      }
      |e|
  }

  /** Find returns an entry with key k exactly when the table holds one. */
  lemma FindFound<K(!new), V(!new)>(t: Table<K, V>, ltK: (K, K) -> bool, ltV: (V, V) -> bool, k: K, v: V)
    requires StrictTotalOrder(ltK) && StrictTotalOrder(ltV)
    requires EntriesSorted(ltK, ltV, t.entries)
    requires (k, v) in t.entries
    ensures Find(t, ltK, ltV, k) < |t.entries|
  {
  }
}
