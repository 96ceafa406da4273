/**
 The character stream with LIFO pushback of core/src/tone/core/push_back_stream.cpp.

 The `std::function` character source becomes a sequence of character codes: after the
 sequence is exhausted the source keeps yielding the end-of-input sentinel -1. The two
 `std::size_t` counters are modelled with their 64-bit wrap-around.
 */
module PushBackStream {

  /** `std::size_t` arithmetic is modulo 2^64. */
  const SIZE_T_MODULUS: nat := 0x1_0000_0000_0000_0000

  type SizeT = x: nat | x < SIZE_T_MODULUS

  /** `++x` on a `std::size_t`. */
  function Inc(x: SizeT): SizeT {
    (x + 1) % SIZE_T_MODULUS
  }

  /** `--x` on a `std::size_t`. */
  function Dec(x: SizeT): SizeT {
    (x - 1) % SIZE_T_MODULUS
  }

  /** `x + n` and `x - n` on a `std::size_t`. */
  function AddSize(x: SizeT, n: int): SizeT {
    (x + n) % SIZE_T_MODULUS
  }

  const NEWLINE: int := 10
  const END_OF_INPUT: int := -1

  /** The i-th value the character source yields. */
  function SourceAt(input: seq<int>, i: nat): int {
    if i < |input| then input[i] else END_OF_INPUT
  }

  /**
   The stream: the source, how many values were pulled from it, the pushback stack
   (top is the last element) and the line and character-index counters.
   */
  datatype Stream = Stream(input: seq<int>, pulled: nat, stack: seq<int>, lineNumber: SizeT, charIndex: SizeT)

  /** The k-th character the stream will yield from now on (0 is the next one). */
  function Peek(s: Stream, k: nat): int {
    if k < |s.stack| then s.stack[|s.stack| - 1 - k] else SourceAt(s.input, s.pulled + (k - |s.stack|))
  }

  /** The next n characters the stream will yield. */
  function Upcoming(s: Stream, n: nat): (r: seq<int>)
    ensures |r| == n
    ensures forall k :: 0 <= k < n ==> r[k] == Peek(s, k)
  {
    seq(n, k requires 0 <= k < n => Peek(s, k))
  }

  /** `after` yields exactly what `before` yields once its next n characters are dropped. */
  ghost predicate Shifted(after: Stream, before: Stream, n: nat) {
    forall k: nat {:trigger Peek(after, k)} :: Peek(after, k) == Peek(before, k + n)
  }

  /** The constructor: counters (0, 0), an empty pushback buffer. */
  function New(input: seq<int>): (s: Stream)
    ensures s.lineNumber == 0 && s.charIndex == 0 && s.stack == []
    ensures forall k: nat :: Peek(s, k) == SourceAt(input, k)
  {
    Stream(input, 0, [], 0, 0)
  }

  /** `operator()`: the next character, from the pushback stack if it is not empty. */
  function Read(s: Stream): (r: (int, Stream))
    ensures s.stack != [] ==> r.0 == s.stack[|s.stack| - 1] && r.1.stack == s.stack[..|s.stack| - 1] && r.1.pulled == s.pulled
    ensures s.stack == [] ==> r.0 == SourceAt(s.input, s.pulled) && r.1.stack == [] && r.1.pulled == s.pulled + 1
    ensures r.0 == Peek(s, 0)
    ensures r.1.charIndex == Inc(s.charIndex)
    ensures r.1.lineNumber == if r.0 == NEWLINE then Inc(s.lineNumber) else s.lineNumber
    ensures r.1.input == s.input
  {
    var c := if |s.stack| == 0 then SourceAt(s.input, s.pulled) else s.stack[|s.stack| - 1];
    var s1 := if |s.stack| == 0 then s.(pulled := s.pulled + 1) else s.(stack := s.stack[..|s.stack| - 1]);
    (c, s1.(lineNumber := if c == NEWLINE then Inc(s.lineNumber) else s.lineNumber,
            charIndex := Inc(s.charIndex)))
  }

  /** `push_back(c)`: c becomes the next character; both counters step back. */
  function PushBack(s: Stream, c: int): (r: Stream)
    ensures r.stack == s.stack + [c] && r.pulled == s.pulled && r.input == s.input
    ensures Peek(r, 0) == c
    ensures r.charIndex == Dec(s.charIndex)
    ensures r.lineNumber == if c == NEWLINE then Dec(s.lineNumber) else s.lineNumber
  {
    Stream(s.input, s.pulled, s.stack + [c],
           if c == NEWLINE then Dec(s.lineNumber) else s.lineNumber,
           Dec(s.charIndex))
  }

  /** After a read the stream yields what followed the character read. */
  lemma ReadShifts(s: Stream)
    ensures Shifted(Read(s).1, s, 1)
  {
  }

  /** After a pushback the stream yields the character and then what it yielded before. */
  lemma PushBackShifts(s: Stream, c: int)
    ensures Shifted(s, PushBack(s, c), 1)
  {
  }

  lemma IncDec(x: SizeT)
    ensures Inc(Dec(x)) == x
    ensures Dec(Inc(x)) == x
  {
    if x == 0 {
      assert Dec(x) == SIZE_T_MODULUS - 1;
    } else if x == SIZE_T_MODULUS - 1 {
      assert Inc(x) == 0;
    }
  }

  /** Pushing c back and reading again yields c and restores the whole stream state. */
  lemma PushBackThenRead(s: Stream, c: int)
    ensures Read(PushBack(s, c)) == (c, s)
  {
    IncDec(s.lineNumber);
    IncDec(s.charIndex);
    assert (s.stack + [c])[..|s.stack|] == s.stack;
  }

  /** Reading a character and pushing it back restores the counters and what the stream yields. */
  lemma ReadThenPushBack(s: Stream)
    ensures var (c, s1) := Read(s);
            var s2 := PushBack(s1, c);
            s2.lineNumber == s.lineNumber && s2.charIndex == s.charIndex && Shifted(s2, s, 0)
  {
    var (c, s1) := Read(s);
    IncDec(s.lineNumber);
    IncDec(s.charIndex);
    var s2 := PushBack(s1, c);
    forall k: nat ensures Peek(s2, k) == Peek(s, k) {
      if k > 0 {
        assert Peek(s2, (k - 1) + 1) == Peek(s1, k - 1);
      }
    }
  }

  // ---------------------------------------------------------------------------------------
  // Counter invariant over a sequence of operations
  // ---------------------------------------------------------------------------------------

  datatype Op = ReadOp | PushBackOp(c: int)

  /** One operation applied to the stream. */
  function Step(s: Stream, op: Op): Stream {
    match op
    case ReadOp => Read(s).1
    case PushBackOp(c) => PushBack(s, c)
  }

  /** The stream after applying ops in order. */
  function Run(s: Stream, ops: seq<Op>): Stream
    decreases |ops|
  {
    if ops == [] then s else Run(Step(s, ops[0]), ops[1..])
  }

  function Reads(ops: seq<Op>): nat {
    if ops == [] then 0 else (if ops[0].ReadOp? then 1 else 0) + Reads(ops[1..])
  }

  function PushBacks(ops: seq<Op>): nat {
    if ops == [] then 0 else (if ops[0].PushBackOp? then 1 else 0) + PushBacks(ops[1..])
  }

  lemma AddSizeCompose(x: SizeT, a: int, b: int)
    ensures AddSize(AddSize(x, a), b) == AddSize(x, a + b)
  {
    ModShift(x + a, b);
  }

  /** A read moves the character index forward by one and a pushback back by one. */
  lemma StepCharIndex(s: Stream, op: Op)
    ensures Step(s, op).charIndex == AddSize(s.charIndex, if op.ReadOp? then 1 else -1)
  {
  }

  lemma CountStep(ops: seq<Op>)
    requires ops != []
    ensures Reads(ops) - PushBacks(ops) == (if ops[0].ReadOp? then 1 else -1) + (Reads(ops[1..]) - PushBacks(ops[1..]))
  {
  }

  lemma RunStep(s: Stream, ops: seq<Op>)
    requires ops != []
    ensures Run(s, ops) == Run(Step(s, ops[0]), ops[1..])
  {
  }

  /** The character index is the number of reads minus the number of pushbacks, modulo 2^64. */
  lemma {:induction false} RunCharIndex(s: Stream, ops: seq<Op>)
    ensures Run(s, ops).charIndex == AddSize(s.charIndex, Reads(ops) - PushBacks(ops))
    decreases |ops|
  {
    if ops == [] {
      assert Run(s, ops) == s && Reads(ops) - PushBacks(ops) == 0;
      ModSmall(s.charIndex);
      assert AddSize(s.charIndex, 0) == s.charIndex;
    } else {
      var s1 := Step(s, ops[0]);
      var d := if ops[0].ReadOp? then 1 else -1;
      var rest := Reads(ops[1..]) - PushBacks(ops[1..]);
      assert s1.charIndex == AddSize(s.charIndex, d) by {
        StepCharIndex(s, ops[0]);
      }
      assert Run(s, ops).charIndex == AddSize(s1.charIndex, rest) by {
        RunCharIndex(s1, ops[1..]);
        RunStep(s, ops);
      }
      assert Reads(ops) - PushBacks(ops) == d + rest by {
        CountStep(ops);
      }
      CountersCompose(s.charIndex, s1.charIndex, Run(s, ops).charIndex, d, rest, Reads(ops) - PushBacks(ops));
    }
  }

  lemma ModShift(a: int, d: int)
    ensures ((a % SIZE_T_MODULUS) + d) % SIZE_T_MODULUS == (a + d) % SIZE_T_MODULUS
  {
    var q := a / SIZE_T_MODULUS;
    assert a == q * SIZE_T_MODULUS + a % SIZE_T_MODULUS;
    ModAddMultiple(a % SIZE_T_MODULUS + d, q);
  }

  lemma ModSmall(n: int)
    requires 0 <= n < SIZE_T_MODULUS
    ensures n % SIZE_T_MODULUS == n
  {
  }

  lemma ModAddMultiple(x: int, q: int)
    ensures (x + q * SIZE_T_MODULUS) % SIZE_T_MODULUS == x % SIZE_T_MODULUS
  {
    var m := SIZE_T_MODULUS;
    var r := x % m;
    var p := x / m;
    assert x == p * m + r;
    assert x + q * m == (p + q) * m + r;
  }

  /**
   Starting from a zero character index (as a fresh stream has), as long as pushbacks do
   not outnumber reads (and fewer than 2^64 reads happen) the character index is exactly
   reads minus pushbacks.
   */
  lemma {:induction false} CharIndexCountsConsumed(s: Stream, ops: seq<Op>)
    requires s.charIndex == 0
    requires Reads(ops) < SIZE_T_MODULUS
    requires PushBacks(ops) <= Reads(ops)
    ensures Run(s, ops).charIndex == Reads(ops) - PushBacks(ops)
  {
    RunCharIndex(s, ops);
    ModSmall(Reads(ops) - PushBacks(ops));
  }

  // ---------------------------------------------------------------------------------------
  // Distance to the end of input
  // ---------------------------------------------------------------------------------------

  /** Past this many characters the stream only yields the sentinel. */
  function EndBound(s: Stream): nat {
    |s.stack| + (if s.pulled < |s.input| then |s.input| - s.pulled else 0)
  }

  lemma PeekPastEnd(s: Stream, k: nat)
    requires k >= EndBound(s)
    ensures Peek(s, k) == END_OF_INPUT
  {
  }

  function FirstNegativeFrom(s: Stream, k: nat): (r: nat)
    requires k <= EndBound(s)
    ensures k <= r <= EndBound(s)
    ensures Peek(s, r) < 0
    ensures forall j :: k <= j < r ==> Peek(s, j) >= 0
    decreases EndBound(s) - k
  {
    if Peek(s, k) < 0 then k
    else if k == EndBound(s) then (PeekPastEnd(s, k); k)
    else FirstNegativeFrom(s, k + 1)
  }

  /** How many characters the stream yields before the first negative (end-of-file) one. */
  function EofDistance(s: Stream): (d: nat)
    ensures Peek(s, d) < 0
    ensures forall j :: 0 <= j < d ==> Peek(s, j) >= 0
  {
    FirstNegativeFrom(s, 0)
  }

  /** The first negative character is unique: any index meeting the characterisation is it. */
  lemma EofDistanceUnique(s: Stream, d: nat)
    requires Peek(s, d) < 0
    requires forall j :: 0 <= j < d ==> Peek(s, j) >= 0
    ensures EofDistance(s) == d
  {
    var e := EofDistance(s);
    assert Peek(s, e) < 0;
  }

  /** Dropping n non-negative characters brings the end n characters closer. */
  lemma EofDistanceShift(after: Stream, before: Stream, n: nat)
    requires Shifted(after, before, n)
    requires forall j :: 0 <= j < n ==> Peek(before, j) >= 0
    ensures n <= EofDistance(before)
    ensures EofDistance(after) == EofDistance(before) - n
  {
    var d := EofDistance(before);
    assert Peek(before, d) < 0;
    assert n <= d;
    assert Peek(after, d - n) == Peek(before, d - n + n);
    forall j | 0 <= j < d - n ensures Peek(after, j) >= 0 {
      assert Peek(after, j) == Peek(before, j + n);
    }
    EofDistanceUnique(after, d - n);
  }

  /** Composition of shifts. */
  lemma ShiftedTrans(a: Stream, b: Stream, c: Stream, m: nat, n: nat)
    requires Shifted(a, b, m)
    requires Shifted(b, c, n)
    ensures Shifted(a, c, m + n)
  {
    forall k: nat ensures Peek(a, k) == Peek(c, k + (m + n)) {
      assert Peek(a, k) == Peek(b, k + m);
      assert Peek(b, k + m) == Peek(c, k + m + n);
    }
  }

  // ---------------------------------------------------------------------------------------
  // Runs of reads and pushbacks
  // ---------------------------------------------------------------------------------------

  /** How many of cs are line feeds. */
  function Newlines(cs: seq<int>): nat {
    if cs == [] then 0 else Newlines(cs[..|cs| - 1]) + (if cs[|cs| - 1] == NEWLINE then 1 else 0)
  }

  lemma {:induction false} NewlinesAppend(a: seq<int>, b: seq<int>)
    ensures Newlines(a + b) == Newlines(a) + Newlines(b)
    decreases |b|
  {
    if b == [] {
      assert a + b == a;
    } else {
      assert (a + b)[..|a + b| - 1] == a + b[..|b| - 1];
      NewlinesAppend(a, b[..|b| - 1]);
    }
  }

  lemma UpcomingSnoc(s: Stream, n: nat)
    requires n > 0
    ensures Upcoming(s, n) == Upcoming(s, n - 1) + [Peek(s, n - 1)]
  {
  }

  /** n consecutive reads: the characters in reading order and the stream afterwards. */
  function ReadN(s: Stream, n: nat): (r: (seq<int>, Stream))
    ensures r.0 == Upcoming(s, n)
    ensures Shifted(r.1, s, n)
    ensures r.1.charIndex == AddSize(s.charIndex, n)
    ensures r.1.lineNumber == AddSize(s.lineNumber, Newlines(r.0))
    ensures r.1.input == s.input
  {
    if n == 0 then
      ModSmall(s.charIndex);
      ModSmall(s.lineNumber);
      ([], s)
    else
      var p := ReadN(s, n - 1);
      var q := Read(p.1);
      ReadNStep(s, n, p.0, p.1, q.0, q.1);
      (p.0 + [q.0], q.1)
  }

  lemma ReadNStep(s: Stream, n: nat, cs: seq<int>, s1: Stream, c: int, s2: Stream)
    requires n > 0
    requires cs == Upcoming(s, n - 1) && Shifted(s1, s, n - 1)
    requires s1.charIndex == AddSize(s.charIndex, n - 1)
    requires s1.lineNumber == AddSize(s.lineNumber, Newlines(cs))
    requires (c, s2) == Read(s1)
    ensures cs + [c] == Upcoming(s, n)
    ensures Shifted(s2, s, n)
    ensures s2.charIndex == AddSize(s.charIndex, n)
    ensures s2.lineNumber == AddSize(s.lineNumber, Newlines(cs + [c]))
  {
    assert Shifted(s2, s, n) by {
      ReadShifts(s1);
      ShiftedTrans(s2, s1, s, 1, n - 1);
      assert 1 + (n - 1) == n;
    }
    assert cs + [c] == Upcoming(s, n) by {
      assert Peek(s1, 0) == Peek(s, 0 + (n - 1));
      UpcomingSnoc(s, n);
    }
    assert s2.charIndex == AddSize(s.charIndex, n) by {
      CountersCompose(s.charIndex, s1.charIndex, s2.charIndex, n - 1, 1, n);
    }
    var d := if c == NEWLINE then 1 else 0;
    assert Newlines(cs + [c]) == Newlines(cs) + d by {
      assert (cs + [c])[..|cs + [c]| - 1] == cs;
    }
    assert s2.lineNumber == AddSize(s1.lineNumber, d) by {
      ModSmall(s1.lineNumber);
    }
    CountersCompose(s.lineNumber, s1.lineNumber, s2.lineNumber, Newlines(cs), d, Newlines(cs + [c]));
  }

  /**
   Pushes cs back starting with its last element, as a stack of read characters is
   unwound, so that the stream yields cs again in order.
   */
  function PushBackAll(s: Stream, cs: seq<int>): (r: Stream)
    ensures forall k :: 0 <= k < |cs| ==> Peek(r, k) == cs[k]
    ensures Shifted(s, r, |cs|)
    ensures r.charIndex == AddSize(s.charIndex, -|cs|)
    ensures r.lineNumber == AddSize(s.lineNumber, -(Newlines(cs) as int))
    ensures r.input == s.input
    decreases |cs|
  {
    if cs == [] then
      ModSmall(s.charIndex);
      ModSmall(s.lineNumber);
      s
    else
      var n := |cs| - 1;
      var s1 := PushBack(s, cs[n]);
      var r := PushBackAll(s1, cs[..n]);
      ShiftedTrans(s, s1, r, 1, n);
      assert Peek(r, n) == Peek(s1, 0);
      AddSizeCompose(s.charIndex, -1, -n);
      AddSizeCompose(s.lineNumber, -1, -(Newlines(cs[..n]) as int));
      assert cs[..|cs| - 1] == cs[..n];
      r
  }

  /**
   Reading n characters and then pushing back all but the first m of them leaves the
   stream m characters further on, with counters advanced over those m characters only.
   */
  lemma {:induction false} ReadThenUnwind(s: Stream, n: nat, m: nat)
    requires m <= n
    ensures var p := ReadN(s, n);
            var r := PushBackAll(p.1, p.0[m..]);
            Shifted(r, s, m)
            && r.charIndex == AddSize(s.charIndex, m)
            && r.lineNumber == AddSize(s.lineNumber, Newlines(p.0[..m]))
            && r.input == s.input
  {
    var p := ReadN(s, n);
    var r := PushBackAll(p.1, p.0[m..]);
    assert Shifted(r, s, m) by {
      UnwindShift(s, n, m, p.0, p.1, r);
    }
    assert r.charIndex == AddSize(s.charIndex, m) && r.lineNumber == AddSize(s.lineNumber, Newlines(p.0[..m])) by {
      UnwindCounters(s.charIndex, p.1.charIndex, r.charIndex, s.lineNumber, p.1.lineNumber, r.lineNumber, n, m, p.0);
    }
  }

  lemma {:induction false} UnwindShift(s: Stream, n: nat, m: nat, cs: seq<int>, s1: Stream, r: Stream)
    requires m <= n && |cs| == n
    requires Shifted(s1, s, n)
    requires forall k :: 0 <= k < n ==> cs[k] == Peek(s, k)
    requires forall k :: 0 <= k < n - m ==> Peek(r, k) == cs[m..][k]
    requires Shifted(s1, r, n - m)
    ensures Shifted(r, s, m)
  {
    forall k: nat ensures Peek(r, k) == Peek(s, k + m) {
      if k < n - m {
        assert Peek(r, k) == cs[m..][k];
      } else {
        var j := k - (n - m);
        assert Peek(s1, j) == Peek(r, j + (n - m));
        assert Peek(s1, j) == Peek(s, j + n);
      }
    }
  }

  lemma UnwindCounters(c0: SizeT, c1: SizeT, c2: SizeT, l0: SizeT, l1: SizeT, l2: SizeT, n: nat, m: nat, cs: seq<int>)
    requires m <= n && |cs| == n
    requires c1 == AddSize(c0, n) && l1 == AddSize(l0, Newlines(cs))
    requires c2 == AddSize(c1, -|cs[m..]|) && l2 == AddSize(l1, -(Newlines(cs[m..]) as int))
    ensures c2 == AddSize(c0, m)
    ensures l2 == AddSize(l0, Newlines(cs[..m]))
  {
    CountersCompose(c0, c1, c2, n, -|cs[m..]|, m);
    assert cs == cs[..m] + cs[m..];
    NewlinesAppend(cs[..m], cs[m..]);
    CountersCompose(l0, l1, l2, Newlines(cs), -(Newlines(cs[m..]) as int), Newlines(cs[..m]));
  }

  // ---------------------------------------------------------------------------------------
  // Moving forward over characters
  // ---------------------------------------------------------------------------------------

  /**
   `after` is `before` with its next n characters consumed: it yields what follows them,
   and both counters have moved over exactly those characters.
   */
  ghost predicate Advanced(after: Stream, before: Stream, n: nat) {
    Shifted(after, before, n)
    && after.charIndex == AddSize(before.charIndex, n)
    && after.lineNumber == AddSize(before.lineNumber, Newlines(Upcoming(before, n)))
    && after.input == before.input
  }

  /** The characters past the first m are the characters of the stream shifted by m. */
  lemma UpcomingSplit(after: Stream, before: Stream, m: nat, n: nat)
    requires Shifted(after, before, m)
    ensures Upcoming(before, m + n) == Upcoming(before, m) + Upcoming(after, n)
  {
    forall j | 0 <= j < n ensures Upcoming(before, m + n)[m + j] == Upcoming(after, n)[j] {
      assert Peek(after, j) == Peek(before, j + m);
    }
  }

  /** Consuming m and then n characters consumes m + n. */
  lemma AdvancedTrans(a: Stream, b: Stream, c: Stream, m: nat, n: nat)
    requires Advanced(b, a, m) && Advanced(c, b, n)
    ensures Advanced(c, a, m + n)
  {
    ShiftedTrans(c, b, a, n, m);
    CountersCompose(a.charIndex, b.charIndex, c.charIndex, m, n, m + n);
    LinesTrans(a, b, m, n);
    CountersCompose(a.lineNumber, b.lineNumber, c.lineNumber, Newlines(Upcoming(a, m)), Newlines(Upcoming(b, n)),
                    Newlines(Upcoming(a, m + n)));
  }

  /** Shifting by n a stream that yields what c yields is shifting c by n. */
  lemma ShiftedAfterNone(a: Stream, b: Stream, c: Stream, n: nat)
    requires Shifted(a, b, n) && Shifted(b, c, 0)
    ensures Shifted(a, c, n)
  {
    ShiftedTrans(a, b, c, n, 0);
    assert n + 0 == n;
  }

  /** A stream that consumed nothing of s may stand in for s. */
  lemma AdvancedAfterNone(s: Stream, p: Stream, r: Stream, n: nat)
    requires Advanced(p, s, 0) && Advanced(r, p, n)
    ensures Advanced(r, s, n)
  {
    AdvancedTrans(s, p, r, 0, n);
    assert 0 + n == n;
  }

  /** The newlines among m and then n consumed characters are those among the m + n. */
  lemma LinesTrans(a: Stream, b: Stream, m: nat, n: nat)
    requires Shifted(b, a, m)
    ensures Newlines(Upcoming(a, m + n)) == Newlines(Upcoming(a, m)) + Newlines(Upcoming(b, n))
  {
    UpcomingSplit(b, a, m, n);
    NewlinesAppend(Upcoming(a, m), Upcoming(b, n));
  }

  /** A counter moved by a and then by b has moved by a + b. */
  lemma CountersCompose(x0: SizeT, x1: SizeT, x2: SizeT, a: int, b: int, total: int)
    requires x1 == AddSize(x0, a) && x2 == AddSize(x1, b) && total == a + b
    ensures x2 == AddSize(x0, total)
  {
    AddSizeCompose(x0, a, b);
  }

  /** A read consumes one character. */
  lemma ReadAdvanced(s: Stream)
    ensures Advanced(Read(s).1, s, 1)
  {
    var u := Upcoming(s, 1);
    assert u[..|u| - 1] == [];
  }

  /** Reading a character and pushing it back consumes nothing. */
  lemma ReadPushBackAdvanced(s: Stream)
    ensures Advanced(PushBack(Read(s).1, Read(s).0), s, 0)
  {
    ReadThenPushBack(s);
    ModSmall(s.charIndex);
    ModSmall(s.lineNumber);
  }

  /** Nothing consumed: the same stream. */
  lemma AdvancedZero(s: Stream)
    ensures Advanced(s, s, 0)
  {
    ModSmall(s.charIndex);
    ModSmall(s.lineNumber);
  }

  /** Consuming characters that are not line feeds leaves the line number alone. */
  lemma AdvancedSameLine(after: Stream, before: Stream, n: nat)
    requires Advanced(after, before, n)
    requires forall k :: 0 <= k < n ==> Peek(before, k) != NEWLINE
    ensures after.lineNumber == before.lineNumber
  {
    NoNewlines(Upcoming(before, n));
    ModSmall(before.lineNumber);
  }

  /** A sequence without line feeds counts none. */
  lemma {:induction false} NoNewlines(cs: seq<int>)
    requires forall k :: 0 <= k < |cs| ==> cs[k] != NEWLINE
    ensures Newlines(cs) == 0
    decreases |cs|
  {
    if cs != [] {
      NoNewlines(cs[..|cs| - 1]);
    }
  }

  /** Every character the stream will yield is a byte or the end-of-input marker. */
  ghost predicate ByteStream(s: Stream) {
    forall k: nat {:trigger Peek(s, k)} :: END_OF_INPUT <= Peek(s, k) < 256
  }

  /** A stream over a byte source yields bytes. */
  lemma NewByteStream(input: seq<int>)
    requires forall i :: 0 <= i < |input| ==> 0 <= input[i] < 256
    ensures ByteStream(New(input))
  {
  }

  /** Dropping characters from a byte stream leaves a byte stream. */
  lemma ByteStreamShifted(after: Stream, before: Stream, n: nat)
    requires ByteStream(before) && Shifted(after, before, n)
    ensures ByteStream(after)
  {
    forall k: nat ensures END_OF_INPUT <= Peek(after, k) < 256 {
      assert Peek(after, k) == Peek(before, k + n);
    }
  }
}
