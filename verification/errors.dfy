/**
 The `error` value of libs/core/src/tone/core/errors.cpp and the functions that build
 the messages the front end reports.
 */
module Errors {
  import opened Wrappers
  import opened PushBackStream

  /** `error`: a message and the position it refers to. */
  datatype Error = Error(message: string, lineNumber: SizeT, charIndex: SizeT)

  const PARSING_PREFIX: string := "Parsing error: "
  const SYNTAX_PREFIX: string := "Syntax error: "
  const SEMANTIC_PREFIX: string := "Semantic error: "
  const UNEXPECTED_PREFIX: string := "Unexpected '"
  const UNDECLARED_PREFIX: string := "Undeclared identifier '"
  const QUOTE: string := "'"
  const NOT_LVALUE_SUFFIX: string := "' is not an lvalue"
  const CONVERT_PREFIX: string := "Can't convert '"
  const CONVERT_MIDDLE: string := "' to '"

  // ---------------------------------------------------------------------------------------
  // Reading a message back
  // ---------------------------------------------------------------------------------------

  /** What is left of s after the prefix p, if s starts with p. */
  function StripPrefix(p: string, s: string): (r: Option<string>)
    ensures r.Some? <==> |p| <= |s| && s[..|p|] == p
    ensures r.Some? ==> p + r.value == s
  {
    if |p| <= |s| && s[..|p|] == p then
      assert p + s[|p|..] == s;
      Some(s[|p|..])
    else None
  }

  /** What lies between the prefix p and the suffix q of s, if s is framed by them. */
  function Unwrap(p: string, q: string, s: string): (r: Option<string>)
    ensures r.Some? ==> p + r.value + q == s
  {
    if |p| + |q| <= |s| && s[..|p|] == p && s[|s| - |q|..] == q then
      assert p + s[|p|..|s| - |q|] + q == s;
      Some(s[|p|..|s| - |q|])
    else None
  }

  /** Stripping a prefix undoes prepending it. */
  lemma StripPrefixAppend(p: string, m: string)
    ensures StripPrefix(p, p + m) == Some(m)
  {
    assert (p + m)[..|p|] == p;
    assert (p + m)[|p|..] == m;
  }

  /** Unwrapping undoes framing, whatever the framed text holds. */
  lemma UnwrapFrame(p: string, m: string, q: string)
    ensures Unwrap(p, q, p + m + q) == Some(m)
  {
    var s := p + m + q;
    assert s[..|p|] == p;
    assert s[|s| - |q|..] == q;
    assert s[|p|..|s| - |q|] == m;
  }

  // ---------------------------------------------------------------------------------------
  // The message constructors
  // ---------------------------------------------------------------------------------------

  /** `error::error`: stores message and position as given. */
  function MakeError(message: string, lineNumber: SizeT, charIndex: SizeT): (e: Error)
    ensures e.message == message && e.lineNumber == lineNumber && e.charIndex == charIndex
  {
    Error(message, lineNumber, charIndex)
  }

  /** `parsing_error`: the message after "Parsing error: ". */
  function ParsingError(message: string, lineNumber: SizeT, charIndex: SizeT): (e: Error)
    ensures StripPrefix(PARSING_PREFIX, e.message) == Some(message)
    ensures e.lineNumber == lineNumber && e.charIndex == charIndex
  {
    StripPrefixAppend(PARSING_PREFIX, message);
    Error(PARSING_PREFIX + message, lineNumber, charIndex)
  }

  /** `syntax_error`: the message after "Syntax error: ". */
  function SyntaxError(message: string, lineNumber: SizeT, charIndex: SizeT): (e: Error)
    ensures StripPrefix(SYNTAX_PREFIX, e.message) == Some(message)
    ensures e.lineNumber == lineNumber && e.charIndex == charIndex
  {
    StripPrefixAppend(SYNTAX_PREFIX, message);
    Error(SYNTAX_PREFIX + message, lineNumber, charIndex)
  }

  /** `semantic_error`: the message after "Semantic error: ". */
  function SemanticError(message: string, lineNumber: SizeT, charIndex: SizeT): (e: Error)
    ensures StripPrefix(SEMANTIC_PREFIX, e.message) == Some(message)
    ensures e.lineNumber == lineNumber && e.charIndex == charIndex
  {
    StripPrefixAppend(SEMANTIC_PREFIX, message);
    Error(SEMANTIC_PREFIX + message, lineNumber, charIndex)
  }

  /** `unexpected_error`: the offending text in single quotes after "Unexpected ". */
  function UnexpectedError(unexpected: string, lineNumber: SizeT, charIndex: SizeT): (e: Error)
    ensures Unwrap(UNEXPECTED_PREFIX, QUOTE, e.message) == Some(unexpected)
    ensures e.lineNumber == lineNumber && e.charIndex == charIndex
  {
    UnwrapFrame(UNEXPECTED_PREFIX, unexpected, QUOTE);
    Error(UNEXPECTED_PREFIX + unexpected + QUOTE, lineNumber, charIndex)
  }

  /** `undeclared_error`: the name in single quotes after "Undeclared identifier ". */
  function UndeclaredError(undeclared: string, lineNumber: SizeT, charIndex: SizeT): (e: Error)
    ensures Unwrap(UNDECLARED_PREFIX, QUOTE, e.message) == Some(undeclared)
    ensures e.lineNumber == lineNumber && e.charIndex == charIndex
  {
    UnwrapFrame(UNDECLARED_PREFIX, undeclared, QUOTE);
    Error(UNDECLARED_PREFIX + undeclared + QUOTE, lineNumber, charIndex)
  }

  /**
   `wrong_type_error`: a semantic error saying that the source type is not an lvalue
   (when one was required; the destination is then not mentioned) or that it cannot be
   converted to the destination type. Type names are given as text.
   */
  function WrongTypeError(source: string, destination: string, lvalue: bool,
                          lineNumber: SizeT, charIndex: SizeT): (e: Error)
    ensures var body := StripPrefix(SEMANTIC_PREFIX, e.message);
            body.Some?
            && (lvalue ==> Unwrap(QUOTE, NOT_LVALUE_SUFFIX, body.value) == Some(source))
            && (!lvalue ==> Unwrap(CONVERT_PREFIX, QUOTE, body.value) == Some(source + CONVERT_MIDDLE + destination))
    ensures e.lineNumber == lineNumber && e.charIndex == charIndex
  {
    if lvalue then
      UnwrapFrame(QUOTE, source, NOT_LVALUE_SUFFIX);
      SemanticError(QUOTE + source + NOT_LVALUE_SUFFIX, lineNumber, charIndex)
    else
      UnwrapFrame(CONVERT_PREFIX, source + CONVERT_MIDDLE + destination, QUOTE);
      assert CONVERT_PREFIX + source + CONVERT_MIDDLE + destination + QUOTE
          == CONVERT_PREFIX + (source + CONVERT_MIDDLE + destination) + QUOTE;
      SemanticError(CONVERT_PREFIX + source + CONVERT_MIDDLE + destination + QUOTE, lineNumber, charIndex)
  }

  // ---------------------------------------------------------------------------------------
  // Properties of the constructors
  // ---------------------------------------------------------------------------------------

  /**
   Within one kind, the message text is recovered from the error: two errors of the same
   kind with the same message were built from the same text.
   */
  lemma SameKindInjective(a: string, b: string, l: SizeT, c: SizeT, l2: SizeT, c2: SizeT)
    ensures ParsingError(a, l, c).message == ParsingError(b, l2, c2).message ==> a == b
    ensures SyntaxError(a, l, c).message == SyntaxError(b, l2, c2).message ==> a == b
    ensures SemanticError(a, l, c).message == SemanticError(b, l2, c2).message ==> a == b
    ensures UnexpectedError(a, l, c).message == UnexpectedError(b, l2, c2).message ==> a == b
    ensures UndeclaredError(a, l, c).message == UndeclaredError(b, l2, c2).message ==> a == b
  {
  }

  /** Each kind of error keeps its message apart from the others: no prefix is another's. */
  lemma KindsDisjoint(a: string, b: string, l: SizeT, c: SizeT, l2: SizeT, c2: SizeT)
    ensures ParsingError(a, l, c).message != SyntaxError(b, l2, c2).message
    ensures ParsingError(a, l, c).message != SemanticError(b, l2, c2).message
    ensures SyntaxError(a, l, c).message != SemanticError(b, l2, c2).message
    ensures UnexpectedError(a, l, c).message != UndeclaredError(b, l2, c2).message
  {
    assert ParsingError(a, l, c).message[0] == 'P';
    assert SyntaxError(b, l2, c2).message[0] == 'S';
    assert SyntaxError(a, l, c).message[1] == 'y';
    assert SemanticError(b, l2, c2).message[0] == 'S';
    assert SemanticError(b, l2, c2).message[1] == 'e';
    assert UnexpectedError(a, l, c).message[2] == 'e';
    assert UndeclaredError(b, l2, c2).message[2] == 'd';
  }

  /** With an lvalue required, the destination type makes no difference to the error. */
  lemma LvalueIgnoresDestination(source: string, d1: string, d2: string, l: SizeT, c: SizeT)
    ensures WrongTypeError(source, d1, true, l, c) == WrongTypeError(source, d2, true, l, c)
  {
  }
}
