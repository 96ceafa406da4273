/**
 Maximal munch over a sorted table of spellings, the algorithm of `get_operator` in
 libs/core/src/tone/core/tokens.cpp, stated for any table whose keys are strings.

 The table is sorted by `std::string_view`'s order on keys (values break ties). After idx
 characters have been read, the candidates are the entries whose key starts with them; the
 next character narrows them with `std::equal_range` under `maximal_munch_compare(idx)`,
 and whenever the first candidate left is exactly as long as what was read, it is remembered
 as the match. When no candidate is left, every character beyond the remembered match is
 pushed back.
 */
module Munch {
  import opened Wrappers
  import opened Lookup
  import opened PushBackStream

  type Entry<V> = (string, V)

  // ---------------------------------------------------------------------------------------
  // The order on keys
  // ---------------------------------------------------------------------------------------

  /**
   `std::string_view`'s `operator<`: lexicographic by character code (`char_traits<char>`
   compares as unsigned char), a proper prefix before its extensions.
   */
  predicate StringLess(a: string, b: string) {
    if |a| == 0 then |b| > 0
    else if |b| == 0 then false
    else if a[0] != b[0] then a[0] < b[0]
    else StringLess(a[1..], b[1..])
  }

  lemma {:induction false} StringLessIrreflexive(a: string)
    ensures !StringLess(a, a)
  {
    if |a| > 0 {
      StringLessIrreflexive(a[1..]);
    }
  }

  lemma {:induction false} StringLessTransitive(a: string, b: string, c: string)
    requires StringLess(a, b) && StringLess(b, c)
    ensures StringLess(a, c)
  {
    if |a| > 0 && |b| > 0 && |c| > 0 && a[0] == b[0] && b[0] == c[0] {
      StringLessTransitive(a[1..], b[1..], c[1..]);
    }
  }

  lemma {:induction false} StringLessConnected(a: string, b: string)
    requires a != b
    ensures StringLess(a, b) || StringLess(b, a)
  {
    if |a| > 0 && |b| > 0 && a[0] == b[0] {
      assert a == [a[0]] + a[1..];
      assert b == [b[0]] + b[1..];
      StringLessConnected(a[1..], b[1..]);
    }
  }

  lemma StringLessIsStrictTotal()
    ensures StrictTotalOrder(StringLess)
  {
    forall a: string ensures !StringLess(a, a) {
      StringLessIrreflexive(a);
    }
    forall a: string, b: string, c: string | StringLess(a, b) && StringLess(b, c)
      ensures StringLess(a, c)
    {
      StringLessTransitive(a, b, c);
    }
    forall a: string, b: string | a != b ensures StringLess(a, b) || StringLess(b, a) {
      StringLessConnected(a, b);
    }
  }

  predicate IsPrefix(p: string, w: string) {
    |p| <= |w| && w[..|p|] == p
  }

  /** Nothing that extends p comes before p. */
  lemma {:induction false} PrefixNotLess(p: string, w: string)
    requires IsPrefix(p, w) && !StringLess(p, w)
    ensures w == p
  {
    if |p| > 0 {
      assert w[0] == p[0];
      assert w[1..][..|p| - 1] == p[1..];
      PrefixNotLess(p[1..], w[1..]);
      assert w == [w[0]] + w[1..];
      assert p == [p[0]] + p[1..];
    }
  }

  // ---------------------------------------------------------------------------------------
  // Characters read from the stream
  // ---------------------------------------------------------------------------------------

  /** `char(c)`: the character code truncated to eight bits. */
  function CharOf(c: int): char {
    (c % 256) as char
  }

  function CharsOf(cs: seq<int>): (r: string)
    ensures |r| == |cs|
    ensures forall i :: 0 <= i < |cs| ==> r[i] == CharOf(cs[i])
  {
    seq(|cs|, i requires 0 <= i < |cs| => CharOf(cs[i]))
  }

  /** The next n characters of the stream, as `char`s. */
  function Chars(s: Stream, n: nat): (r: string)
    ensures |r| == n
    ensures forall i :: 0 <= i < n ==> r[i] == CharOf(Peek(s, i))
  {
    CharsOf(Upcoming(s, n))
  }

  // ---------------------------------------------------------------------------------------
  // Candidates
  // ---------------------------------------------------------------------------------------

  /** Some entry has key w. */
  ghost predicate IsKey<V>(t: seq<Entry<V>>, w: string) {
    exists i :: 0 <= i < |t| && t[i].0 == w
  }

  /** A key with an entry is a key. */
  lemma MemberIsKey<V>(t: seq<Entry<V>>, w: string, v: V)
    requires (w, v) in t
    ensures IsKey(t, w)
  {
    var i :| 0 <= i < |t| && t[i] == (w, v);
  }

  /**
   `lookup` on a sorted table keyed by strings: the value of the first entry with key w,
   if there is one.
   */
  function FindKey<V(!new)>(t: Table<string, V>, ltV: (V, V) -> bool, w: string): (r: Option<V>)
    requires EntriesSorted(StringLess, ltV, t.entries) && StrictTotalOrder(ltV)
    ensures r.Some? <==> IsKey(t.entries, w)
    ensures r.Some? ==> (w, r.value) in t.entries
  {
    StringLessIsStrictTotal();
    var i := Find(t, StringLess, ltV, w);
    if i < |t.entries| then Some(t.entries[i].1) else None
  }

  /**
   `std::equal_range(first, last, ch, maximal_munch_compare(idx))` over candidates that
   share their first idx characters: the candidates whose character at idx is ch. Keys
   no longer than idx compare below every character, so they drop out.
   */
  function Narrow<V>(cands: seq<Entry<V>>, ch: char, idx: nat): seq<Entry<V>> {
    if cands == [] then []
    else (if |cands[0].0| > idx && cands[0].0[idx] == ch then [cands[0]] else []) + Narrow(cands[1..], ch, idx)
  }

  /** Narrowing keeps only candidates that have ch at idx. */
  lemma {:induction false} NarrowMembers<V(!new)>(cands: seq<Entry<V>>, ch: char, idx: nat)
    ensures forall e :: e in Narrow(cands, ch, idx) ==> e in cands && |e.0| > idx && e.0[idx] == ch
  {
    if cands != [] {
      NarrowMembers(cands[1..], ch, idx);
      var h := if |cands[0].0| > idx && cands[0].0[idx] == ch then [cands[0]] else [];
      var n := Narrow(cands[1..], ch, idx);
      assert Narrow(cands, ch, idx) == h + n;
      forall e | e in h + n ensures e in cands && |e.0| > idx && e.0[idx] == ch {
        if e in n {
          assert e in cands[1..];
        }
      }
    }
  }

  /** The entries whose key starts with p, in table order. */
  function Matching<V>(t: seq<Entry<V>>, p: string): seq<Entry<V>> {
    if t == [] then []
    else (if IsPrefix(p, t[0].0) then [t[0]] else []) + Matching(t[1..], p)
  }

  /** The candidates for p are the entries whose key starts with p. */
  lemma {:induction false} MatchingMembers<V(!new)>(t: seq<Entry<V>>, p: string)
    ensures forall e :: e in Matching(t, p) <==> e in t && IsPrefix(p, e.0)
  {
    if t != [] {
      MatchingMembers(t[1..], p);
      var h := if IsPrefix(p, t[0].0) then [t[0]] else [];
      var m := Matching(t[1..], p);
      assert Matching(t, p) == h + m;
      assert t == [t[0]] + t[1..];
      forall e ensures e in h + m <==> e in t && IsPrefix(p, e.0) {
        assert e in t <==> e == t[0] || e in t[1..];
      }
    }
  }

  /** p + [ch] starts k exactly when p does and k has ch right after it. */
  lemma PrefixStep(p: string, ch: char, k: string)
    ensures IsPrefix(p + [ch], k) <==> IsPrefix(p, k) && |k| > |p| && k[|p|] == ch
  {
    if |k| > |p| {
      assert k[..|p| + 1] == k[..|p|] + [k[|p|]];
      if IsPrefix(p + [ch], k) {
        assert k[..|p|] == (p + [ch])[..|p|];
      }
    }
  }

  /** One narrowing step turns the candidates for p into the candidates for p + [ch]. */
  lemma {:induction false} NarrowMatching<V>(t: seq<Entry<V>>, p: string, ch: char)
    ensures Narrow(Matching(t, p), ch, |p|) == Matching(t, p + [ch])
  {
    if t != [] {
      NarrowMatching(t[1..], p, ch);
      PrefixStep(p, ch, t[0].0);
      var m := Matching(t[1..], p);
      if IsPrefix(p, t[0].0) {
        assert Matching(t, p) == [t[0]] + m;
        assert ([t[0]] + m)[1..] == m;
      } else {
        assert Matching(t, p) == m;
      }
    }
  }

  /** Before anything is read, every entry is a candidate. */
  lemma {:induction false} MatchingEverything<V>(t: seq<Entry<V>>)
    ensures Matching(t, []) == t
  {
    if t != [] {
      MatchingEverything(t[1..]);
      assert IsPrefix([], t[0].0);
      assert t == [t[0]] + t[1..];
    }
  }

  lemma EntriesSortedTail<V(!new)>(ltV: (V, V) -> bool, t: seq<Entry<V>>)
    requires t != [] && EntriesSorted(StringLess, ltV, t)
    ensures EntriesSorted(StringLess, ltV, t[1..])
  {
    var rest := t[1..];
    forall i, j | 0 <= i < j < |rest| ensures !PairLess(StringLess, ltV, rest[j], rest[i]) {
      assert rest[i] == t[i + 1] && rest[j] == t[j + 1];
    }
  }

  lemma EntriesSortedCons<V(!new)>(ltV: (V, V) -> bool, h: Entry<V>, m: seq<Entry<V>>)
    requires EntriesSorted(StringLess, ltV, m)
    requires forall k :: 0 <= k < |m| ==> !PairLess(StringLess, ltV, m[k], h)
    ensures EntriesSorted(StringLess, ltV, [h] + m)
  {
    var r := [h] + m;
    forall i, j | 0 <= i < j < |r| ensures !PairLess(StringLess, ltV, r[j], r[i]) {
      if i > 0 {
        assert r[i] == m[i - 1] && r[j] == m[j - 1];
      }
    }
  }

  /** The candidates stay in table order. */
  lemma {:induction false} MatchingSorted<V(!new)>(ltV: (V, V) -> bool, t: seq<Entry<V>>, p: string)
    requires EntriesSorted(StringLess, ltV, t)
    ensures EntriesSorted(StringLess, ltV, Matching(t, p))
  {
    if t != [] {
      var rest := t[1..];
      EntriesSortedTail(ltV, t);
      MatchingSorted(ltV, rest, p);
      var m := Matching(rest, p);
      if IsPrefix(p, t[0].0) {
        MatchingMembers(rest, p);
        forall k | 0 <= k < |m| ensures !PairLess(StringLess, ltV, m[k], t[0]) {
          assert m[k] in m;
          var i :| 0 <= i < |rest| && rest[i] == m[k];
          assert t[i + 1] == m[k];
        }
        EntriesSortedCons(ltV, t[0], m);
      }
    }
  }

  /** When the first candidate for q is as long as q, it is an entry with key q. */
  lemma FirstMatchIsKey<V(!new)>(t: seq<Entry<V>>, q: string)
    requires Matching(t, q) != [] && |Matching(t, q)[0].0| == |q|
    ensures Matching(t, q)[0].0 == q && Matching(t, q)[0] in t
  {
    var m := Matching(t, q);
    MatchingMembers(t, q);
    assert m[0] in m;
    assert m[0].0 == m[0].0[..|q|];
  }

  /** When q is a key, the sorted candidates for q start with it. */
  lemma KeyComesFirst<V(!new)>(ltV: (V, V) -> bool, t: seq<Entry<V>>, q: string)
    requires EntriesSorted(StringLess, ltV, t)
    requires IsKey(t, q)
    ensures Matching(t, q) != [] && Matching(t, q)[0].0 == q
  {
    var m := Matching(t, q);
    MatchingSorted(ltV, t, q);
    MatchingMembers(t, q);
    var i :| 0 <= i < |t| && t[i].0 == q;
    assert IsPrefix(q, t[i].0);
    assert t[i] in m;
    var j :| 0 <= j < |m| && m[j] == t[i];
    assert m[0] in m;
    if j > 0 {
      assert !PairLess(StringLess, ltV, m[j], m[0]);
    } else {
      StringLessIrreflexive(q);
    }
    PrefixNotLess(q, m[0].0);
  }

  /**
   The test `candidates.first->first.size() == idx + 1`: among sorted candidates for q, the
   first one is exactly as long as q exactly when q itself is a key, and then it is q.
   */
  lemma FirstMatchExact<V(!new)>(ltV: (V, V) -> bool, t: seq<Entry<V>>, q: string)
    requires EntriesSorted(StringLess, ltV, t)
    requires Matching(t, q) != []
    ensures |Matching(t, q)[0].0| == |q| <==> IsKey(t, q)
    ensures |Matching(t, q)[0].0| == |q| ==> Matching(t, q)[0].0 == q && Matching(t, q)[0] in t
  {
    if |Matching(t, q)[0].0| == |q| {
      FirstMatchIsKey(t, q);
      var m := Matching(t, q);
      var i :| 0 <= i < |t| && t[i] == m[0];
    }
    if IsKey(t, q) {
      KeyComesFirst(ltV, t, q);
    }
  }

  /** Once no key starts with p, no key extends p. */
  lemma NoMatchNoKey<V(!new)>(t: seq<Entry<V>>, p: string, w: string)
    requires Matching(t, p) == []
    requires IsPrefix(p, w)
    ensures !IsKey(t, w)
  {
    MatchingMembers(t, p);
    forall i | 0 <= i < |t| ensures t[i].0 != w {
      assert t[i] in t;
    }
  }

  function MaxKeyLength<V>(c: seq<Entry<V>>): (r: nat)
    ensures forall i :: 0 <= i < |c| ==> |c[i].0| <= r
    ensures c != [] ==> exists i :: 0 <= i < |c| && |c[i].0| == r
  {
    if c == [] then 0
    else
      var m := MaxKeyLength(c[1..]);
      if |c[0].0| >= m then
        |c[0].0|
      else
        assert forall i :: 1 <= i < |c| ==> c[i] == c[1..][i - 1];
        var k :| 0 <= k < |c[1..]| && |c[1..][k].0| == m;
        assert c[k + 1] == c[1..][k];
        m
  }

  /** How far the loop still has to go: the longest candidate's remaining characters. */
  function ProbeMeasure<V>(cands: seq<Entry<V>>, idx: nat): nat {
    if cands == [] || MaxKeyLength(cands) < idx then 0 else MaxKeyLength(cands) + 1 - idx
  }

  /** Each iteration brings the loop closer to its end. */
  lemma NarrowDecreases<V(!new)>(cands: seq<Entry<V>>, ch: char, idx: nat)
    requires cands != []
    requires forall i :: 0 <= i < |cands| ==> |cands[i].0| >= idx
    ensures forall i :: 0 <= i < |Narrow(cands, ch, idx)| ==> |Narrow(cands, ch, idx)[i].0| >= idx + 1
    ensures ProbeMeasure(Narrow(cands, ch, idx), idx + 1) < ProbeMeasure(cands, idx)
  {
    var next := Narrow(cands, ch, idx);
    NarrowMembers(cands, ch, idx);
    assert |cands[0].0| >= idx;
    forall i | 0 <= i < |next| ensures |next[i].0| >= idx + 1 {
      assert next[i] in next;
    }
    if next != [] {
      var k :| 0 <= k < |next| && |next[k].0| == MaxKeyLength(next);
      assert next[k] in next;
      assert next[k] in cands;
    }
  }

  // ---------------------------------------------------------------------------------------
  // The loop
  // ---------------------------------------------------------------------------------------

  /**
   The loop of `get_operator` from iteration |chars| on: read a character, narrow the
   candidates, remember the first candidate if it is an exact match; once no candidate is
   left, push back every character read beyond the remembered match. The result is the
   matched value, the match size and the stream.
   */
  function Probe<V(!new)>(s: Stream, cands: seq<Entry<V>>, chars: seq<int>, found: Option<V>, matchSize: nat)
    : (r: (Option<V>, nat, Stream))
    requires forall i :: 0 <= i < |cands| ==> |cands[i].0| >= |chars|
    requires matchSize <= |chars|
    decreases ProbeMeasure(cands, |chars|)
  {
    if cands == [] then
      (found, matchSize, PushBackAll(s, chars[matchSize..]))
    else
      var idx := |chars|;
      var (c, s1) := Read(s);
      var next := Narrow(cands, CharOf(c), idx);
      NarrowDecreases(cands, CharOf(c), idx);
      if next != [] && |next[0].0| == idx + 1 then
        Probe(s1, next, chars + [c], Some(next[0].1), idx + 1)
      else
        Probe(s1, next, chars + [c], found, matchSize)
  }

  /** What the loop has established after |chars| iterations, started from stream s0. */
  ghost predicate ProbeInvariant<V(!new)>(ltV: (V, V) -> bool, t: seq<Entry<V>>, s0: Stream, s: Stream,
                                         cands: seq<Entry<V>>, chars: seq<int>, found: Option<V>, ms: nat)
  {
    && EntriesSorted(StringLess, ltV, t)
    && (chars, s) == ReadN(s0, |chars|)
    && cands == Matching(t, CharsOf(chars))
    && ms <= |chars|
    && (ms == 0 ==> found == None)
    && (ms > 0 ==> found.Some? && (Chars(s0, ms), found.value) in t)
    && (forall m :: ms < m <= |chars| ==> !IsKey(t, Chars(s0, m)))
    && (forall i :: 0 <= i < |cands| ==> |cands[i].0| >= |chars|)
  }

  /** What the loop achieves: the longest key the input starts with, and only its characters consumed. */
  ghost predicate ProbeResult<V(!new)>(t: seq<Entry<V>>, s0: Stream, r: (Option<V>, nat, Stream)) {
    && (r.1 == 0 ==> r.0 == None)
    && (r.1 > 0 ==> r.0.Some? && (Chars(s0, r.1), r.0.value) in t)
    && (forall m :: m > r.1 ==> !IsKey(t, Chars(s0, m)))
    && Shifted(r.2, s0, r.1)
    && r.2.charIndex == AddSize(s0.charIndex, r.1)
    && r.2.lineNumber == AddSize(s0.lineNumber, Newlines(Upcoming(s0, r.1)))
    && r.2.input == s0.input
  }

  /** Once no candidate is left after n characters, no key is longer than n. */
  lemma NoKeyBeyond<V(!new)>(t: seq<Entry<V>>, s0: Stream, n: nat)
    requires Matching(t, Chars(s0, n)) == []
    ensures forall m :: m > n ==> !IsKey(t, Chars(s0, m))
  {
    forall m | m > n ensures !IsKey(t, Chars(s0, m)) {
      assert Chars(s0, m)[..n] == Chars(s0, n);
      NoMatchNoKey(t, Chars(s0, n), Chars(s0, m));
    }
  }

  /** The loop stops: no candidate left, so push back what was read past the match. */
  lemma ProbeStops<V(!new)>(ltV: (V, V) -> bool, t: seq<Entry<V>>, s0: Stream, s: Stream,
                           chars: seq<int>, found: Option<V>, ms: nat)
    requires ProbeInvariant(ltV, t, s0, s, [], chars, found, ms)
    ensures ProbeResult(t, s0, Probe(s, [], chars, found, ms))
  {
    var n := |chars|;
    ReadThenUnwind(s0, n, ms);
    assert chars[..ms] == Upcoming(s0, ms);
    assert CharsOf(chars) == Chars(s0, n);
    NoKeyBeyond(t, s0, n);
  }

  /** Reading one more character extends what was read, and its spelling, by that character. */
  lemma ReadOneMore(s0: Stream, s: Stream, chars: seq<int>, c: int, s1: Stream)
    requires (chars, s) == ReadN(s0, |chars|)
    requires (c, s1) == Read(s)
    ensures (chars + [c], s1) == ReadN(s0, |chars| + 1)
    ensures CharsOf(chars + [c]) == CharsOf(chars) + [CharOf(c)]
    ensures CharsOf(chars + [c]) == Chars(s0, |chars| + 1)
  {
    assert CharsOf(chars + [c]) == CharsOf(chars) + [CharOf(c)];
  }

  /** Reading c narrows the candidates for what was read to those for one more character. */
  lemma NarrowNext<V(!new)>(ltV: (V, V) -> bool, t: seq<Entry<V>>, s0: Stream, s: Stream,
                           cands: seq<Entry<V>>, chars: seq<int>, found: Option<V>, ms: nat, c: int, s1: Stream)
    requires ProbeInvariant(ltV, t, s0, s, cands, chars, found, ms)
    requires (c, s1) == Read(s)
    ensures (chars + [c], s1) == ReadN(s0, |chars| + 1)
    ensures CharsOf(chars + [c]) == Chars(s0, |chars| + 1)
    ensures Narrow(cands, CharOf(c), |chars|) == Matching(t, Chars(s0, |chars| + 1))
  {
    ReadOneMore(s0, s, chars, c, s1);
    NarrowMatching(t, CharsOf(chars), CharOf(c));
  }

  /** Without an exact first candidate, what was read is not a key. */
  lemma NotAKey<V(!new)>(ltV: (V, V) -> bool, t: seq<Entry<V>>, q: string)
    requires EntriesSorted(StringLess, ltV, t)
    requires !(Matching(t, q) != [] && |Matching(t, q)[0].0| == |q|)
    ensures !IsKey(t, q)
  {
    if Matching(t, q) != [] {
      FirstMatchExact(ltV, t, q);
    } else {
      NoMatchNoKey(t, q, q);
    }
  }

  /** The iteration that reads c and finds no exact match keeps the old match. */
  lemma ProbeKeeps<V(!new)>(ltV: (V, V) -> bool, t: seq<Entry<V>>, s0: Stream, s: Stream,
                           cands: seq<Entry<V>>, chars: seq<int>, found: Option<V>, ms: nat, c: int, s1: Stream)
    requires ProbeInvariant(ltV, t, s0, s, cands, chars, found, ms)
    requires (c, s1) == Read(s)
    requires cands != []
    requires var next := Narrow(cands, CharOf(c), |chars|);
             !(next != [] && |next[0].0| == |chars| + 1)
    ensures ProbeInvariant(ltV, t, s0, s1, Narrow(cands, CharOf(c), |chars|), chars + [c], found, ms)
  {
    var n := |chars|;
    NarrowNext(ltV, t, s0, s, cands, chars, found, ms, c, s1);
    NarrowDecreases(cands, CharOf(c), n);
    NotAKey(ltV, t, Chars(s0, n + 1));
    forall m | ms < m <= n + 1 ensures !IsKey(t, Chars(s0, m)) {
    }
  }

  /** The iteration that reads c and finds an exact match remembers it. */
  lemma ProbeMatches<V(!new)>(ltV: (V, V) -> bool, t: seq<Entry<V>>, s0: Stream, s: Stream,
                             cands: seq<Entry<V>>, chars: seq<int>, found: Option<V>, ms: nat, c: int, s1: Stream)
    requires ProbeInvariant(ltV, t, s0, s, cands, chars, found, ms)
    requires (c, s1) == Read(s)
    requires cands != []
    requires var next := Narrow(cands, CharOf(c), |chars|);
             next != [] && |next[0].0| == |chars| + 1
    ensures var next := Narrow(cands, CharOf(c), |chars|);
            ProbeInvariant(ltV, t, s0, s1, next, chars + [c], Some(next[0].1), |chars| + 1)
  {
    var n := |chars|;
    NarrowNext(ltV, t, s0, s, cands, chars, found, ms, c, s1);
    NarrowDecreases(cands, CharOf(c), n);
    FirstMatchIsKey(t, Chars(s0, n + 1));
  }

  /** Probe establishes ProbeResult from any state that satisfies the invariant. */
  lemma {:induction false} ProbeCorrect<V(!new)>(ltV: (V, V) -> bool, t: seq<Entry<V>>, s0: Stream, s: Stream,
                                                cands: seq<Entry<V>>, chars: seq<int>, found: Option<V>, ms: nat)
    requires ProbeInvariant(ltV, t, s0, s, cands, chars, found, ms)
    ensures ProbeResult(t, s0, Probe(s, cands, chars, found, ms))
    decreases ProbeMeasure(cands, |chars|)
  {
    if cands == [] {
      ProbeStops(ltV, t, s0, s, chars, found, ms);
    } else {
      var (c, s1) := Read(s);
      var next := Narrow(cands, CharOf(c), |chars|);
      NarrowDecreases(cands, CharOf(c), |chars|);
      if next != [] && |next[0].0| == |chars| + 1 {
        ProbeMatches(ltV, t, s0, s, cands, chars, found, ms, c, s1);
        ProbeCorrect(ltV, t, s0, s1, next, chars + [c], Some(next[0].1), |chars| + 1);
      } else {
        ProbeKeeps(ltV, t, s0, s, cands, chars, found, ms, c, s1);
        ProbeCorrect(ltV, t, s0, s1, next, chars + [c], found, ms);
      }
    }
  }

  /**
   The whole of `get_operator` over a table sorted by (key, value): the value of the longest
   key that the upcoming input starts with (none if no key is a prefix of it), its length,
   and the stream with exactly that many characters consumed.
   */
  function LongestMatch<V(!new)>(ltV: (V, V) -> bool, t: seq<Entry<V>>, s: Stream): (r: (Option<V>, nat, Stream))
    requires EntriesSorted(StringLess, ltV, t)
    ensures r.1 == 0 ==> r.0 == None
    ensures r.1 > 0 ==> r.0.Some? && (Chars(s, r.1), r.0.value) in t
    ensures forall m :: m > r.1 ==> !IsKey(t, Chars(s, m))
    ensures Shifted(r.2, s, r.1)
    ensures r.2.charIndex == AddSize(s.charIndex, r.1)
    ensures r.2.lineNumber == AddSize(s.lineNumber, Newlines(Upcoming(s, r.1)))
    ensures r.2.input == s.input
  {
    MatchingEverything(t);
    assert CharsOf([]) == [];
    assert ProbeInvariant(ltV, t, s, s, t, [], None, 0);
    ProbeCorrect(ltV, t, s, s, t, [], None, 0);
    Probe(s, t, [], None, 0)
  }
}
