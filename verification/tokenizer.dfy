/**
 The token iterator of libs/core/src/tone/core/tokenizer.cpp: an input iterator that
 holds the current token and pulls the next one from the shared stream on increment.
 The stream the source shares by reference travels with the iterator as a value.
 */
module Tokenizer {
  import opened Wrappers
  import opened PushBackStream
  import opened Errors
  import opened Tokens
  import opened Lexer

  /** `tokenizer::iterator`: the current token and the stream after it. */
  datatype Iterator = Iterator(tok: Token, strm: Stream)

  /** `tokenizer::begin` (and `iterator(strm)`): an iterator at the stream's first token. */
  function Begin(strm: Stream): (r: Result<Iterator, Error>)
    ensures r.Success? <==> Tokenize(strm).Success?
    ensures r.Success? ==> r.value.tok == Tokenize(strm).value.0 && r.value.strm == Tokenize(strm).value.1
  {
    match Tokenize(strm)
    case Failure(e) => Failure(e)
    case Success((t, s1)) => Success(Iterator(t, s1))
  }

  /** `tokenizer::end` (and `iterator(strm, tok)`): the default end-of-file token; nothing is read. */
  function End(strm: Stream): (r: Iterator)
    ensures r.tok.value.Eof? && r.strm == strm
  {
    Iterator(DefaultToken(), strm)
  }

  /** Prefix `++`: the next token replaces the current one. */
  function Next(it: Iterator): (r: Result<Iterator, Error>)
    ensures r == Begin(it.strm)
  {
    Begin(it.strm)
  }

  /** Postfix `++`: the copy taken before advancing, and the advanced iterator. */
  function PostIncrement(it: Iterator): (r: Result<(Iterator, Iterator), Error>)
    ensures r.Success? <==> Next(it).Success?
    ensures r.Success? ==> r.value.0 == it && r.value.1 == Next(it).value
  {
    match Next(it)
    case Failure(e) => Failure(e)
    case Success(n) => Success((it, n))
  }

  /** `operator==`: the current tokens compare equal as tokens. */
  predicate Equal(a: Iterator, b: Iterator) {
    TokenEquals(a.tok, b.tok)
  }

  /** `operator bool`: not at end of file. */
  predicate AsBool(it: Iterator) {
    !it.tok.value.Eof?
  }

  /** `operator*`: the current token. */
  function Current(it: Iterator): (t: Token)
    ensures t == it.tok
  {
    it.tok
  }

  /**
   Comparing with `end()` is testing for end of file, whatever stream either iterator
   holds and wherever the end-of-file token was read; it agrees with `operator bool`.
   */
  lemma EqualEndIsEof(it: Iterator, strm: Stream)
    ensures Equal(it, End(strm)) <==> it.tok.value.Eof?
    ensures Equal(it, End(strm)) <==> !AsBool(it)
    ensures Equal(it, End(strm)) == Equal(End(strm), it)
  {
    TokenEqualsEquivalence(it.tok, End(strm).tok, it.tok);
  }

  // ---------------------------------------------------------------------------------------
  // Running the iterator to the end
  // ---------------------------------------------------------------------------------------

  /** The tokens of a list in front of the tokens of a result. */
  function Prepend(ts: seq<Token>, r: Result<seq<Token>, Error>): (p: Result<seq<Token>, Error>)
    ensures p.Success? <==> r.Success?
    ensures p.Success? ==> |p.value| == |ts| + |r.value| && p.value[..|ts|] == ts && p.value[|ts|..] == r.value
  {
    match r
    case Failure(e) => Failure(e)
    case Success(rest) => Success(ts + rest)
  }

  /** No end-of-file token and no integer token. */
  predicate Plain(ts: seq<Token>) {
    forall i :: 0 <= i < |ts| ==> !ts[i].value.Eof? && !ts[i].value.Int?
  }

  /**
   The tokens a loop from `begin()` to `end()` visits, or the first error a step throws.
   Every step consumes input (the stream yields bytes), so the loop ends.
   */
  function Collect(s: Stream): (r: Result<seq<Token>, Error>)
    requires ByteStream(s)
    ensures r.Success? ==> Plain(r.value)
    ensures r.Success? && r.value != [] ==> Tokenize(s).Success? && r.value[0] == Tokenize(s).value.0
    ensures Tokenize(s).Failure? ==> r.Failure?
    decreases EofDistance(s)
  {
    match Tokenize(s)
    case Failure(e) => Failure(e)
    case Success((t, s1)) =>
      if t.value.Eof? then Success([])
      else
        TokenizeProgress(s);
        Prepend([t], Collect(s1))
  }

  /** What the rest of the loop visits from an iterator. */
  function Remaining(it: Iterator): (r: Result<seq<Token>, Error>)
    requires AsBool(it) ==> ByteStream(it.strm)
    ensures !AsBool(it) ==> r == Success([])
    ensures AsBool(it) ==> r == Prepend([it.tok], Collect(it.strm))
  {
    if AsBool(it) then Prepend([it.tok], Collect(it.strm)) else Success([])
  }

  /** Associativity of prepending. */
  lemma PrependPrepend(a: seq<Token>, b: seq<Token>, r: Result<seq<Token>, Error>)
    ensures Prepend(a, Prepend(b, r)) == Prepend(a + b, r)
  {
    if r.Success? {
      assert a + (b + r.value) == (a + b) + r.value;
    }
  }

  /**
   One turn of the loop: from an iterator not at end of file, the rest is the current
   token followed by the rest from the next iterator, or the error the step throws; and
   the next iterator is closer to the end of the stream.
   */
  lemma NextRemaining(it: Iterator)
    requires AsBool(it) && ByteStream(it.strm)
    ensures Next(it).Failure? ==> Remaining(it).Failure? && Remaining(it).error == Next(it).error
    ensures Next(it).Success? ==> AsBool(Next(it).value) ==> ByteStream(Next(it).value.strm)
    ensures Next(it).Success? ==> AsBool(Next(it).value) ==> EofDistance(Next(it).value.strm) < EofDistance(it.strm)
    ensures Next(it).Success? ==> Remaining(it) == Prepend([it.tok], Remaining(Next(it).value))
  {
    if Next(it).Success? && AsBool(Next(it).value) {
      TokenizeProgress(it.strm);
    }
  }

  /** Before the loop: the rest from `begin()` is everything. */
  lemma BeginRemaining(strm: Stream)
    requires ByteStream(strm)
    ensures Begin(strm).Failure? ==> Collect(strm).Failure? && Collect(strm).error == Begin(strm).error
    ensures Begin(strm).Success? ==> AsBool(Begin(strm).value) ==> ByteStream(Begin(strm).value.strm)
    ensures Begin(strm).Success? ==> Collect(strm) == Remaining(Begin(strm).value)
  {
    if Begin(strm).Success? && AsBool(Begin(strm).value) {
      TokenizeProgress(strm);
    }
  }

  /**
   `for (auto it = t.begin(); it != t.end(); ++it)`: the loop collects each current token
   and stops at end of file or at the first error; it visits exactly what `Collect` says.
   */
  method RunToEnd(strm: Stream) returns (r: Result<seq<Token>, Error>)
    requires ByteStream(strm)
    ensures r == Collect(strm)
  {
    BeginRemaining(strm);
    var first := Begin(strm);
    if first.Failure? {
      return Failure(first.error);
    }
    var it := first.value;
    var acc: seq<Token> := [];
    while !Equal(it, End(strm))
      invariant AsBool(it) ==> ByteStream(it.strm)
      invariant Collect(strm) == Prepend(acc, Remaining(it))
      decreases if AsBool(it) then EofDistance(it.strm) + 1 else 0
    {
      EqualEndIsEof(it, strm);
      NextRemaining(it);
      var next := Next(it);
      if next.Failure? {
        return Failure(next.error);
      }
      PrependPrepend(acc, [it.tok], Remaining(next.value));
      acc := acc + [Current(it)];
      it := next.value;
    }
    EqualEndIsEof(it, strm);
    assert acc + [] == acc;
    r := Success(acc);
  }
}
