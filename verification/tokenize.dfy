/**
 The lexer of libs/core/src/tone/core/tokenize.cpp: character classes, words (keywords,
 constants, identifiers and numbers), operators, string literals and line comments, and
 `tokenize`, which produces the next token of a stream. A thrown `error` is a `Failure`.
 */
module Lexer {
  import opened Wrappers
  import opened PushBackStream
  import opened ReservedTokens
  import opened Munch
  import opened Tokens
  import opened Errors
  import opened Numbers

  // ---------------------------------------------------------------------------------------
  // Character classes
  // ---------------------------------------------------------------------------------------

  /** `character_category`. */
  datatype Category = EndOfFile | Space | AlphaNum | Punct

  /** `std::isspace` in the "C" locale: blank, tab, line feed, vertical tab, form feed, return. */
  predicate IsSpaceCode(c: int) {
    c == 32 || 9 <= c <= 13
  }

  /** `std::isalpha` in the "C" locale. */
  predicate IsAlphaCode(c: int) {
    65 <= c <= 90 || 97 <= c <= 122
  }

  /** `std::isdigit`. */
  predicate IsDigitCode(c: int) {
    48 <= c <= 57
  }

  /**
   `get_character_type`: negative codes end the input, white space is space, letters,
   digits and `_` make words, and everything else is punctuation.
   */
  function CharacterType(c: int): (k: Category)
    ensures k == EndOfFile <==> c < 0
    ensures k == AlphaNum ==> 0 <= c < 128 && CharOf(c) as int == c
    ensures k == AlphaNum ==> (IsDecDigit(CharOf(c)) <==> IsDigitCode(c))
    ensures k != EndOfFile && k != Punct ==> c != '"' as int && c != '#' as int
  {
    if c < 0 then EndOfFile
    else if IsSpaceCode(c) then Space
    else if IsAlphaCode(c) || IsDigitCode(c) || c == '_' as int then AlphaNum
    else Punct
  }

  // ---------------------------------------------------------------------------------------
  // Runs of characters of one class
  // ---------------------------------------------------------------------------------------

  /** P accepts no end-of-input code, so a run of P-characters stops before the end. */
  ghost predicate StopsAtEnd(P: int -> bool) {
    forall c :: P(c) ==> c >= 0
  }

  /** The stream's next n characters satisfy P and the one after does not. */
  ghost predicate SpanOf(s: Stream, P: int -> bool, n: nat) {
    (forall k :: 0 <= k < n ==> P(Peek(s, k))) && !P(Peek(s, n))
  }

  function SpanFrom(s: Stream, P: int -> bool, k: nat): (n: nat)
    requires StopsAtEnd(P)
    requires k <= EofDistance(s)
    requires forall j :: 0 <= j < k ==> P(Peek(s, j))
    ensures k <= n && SpanOf(s, P, n)
    decreases EofDistance(s) - k
  {
    if !P(Peek(s, k)) then k
    else
      assert k != EofDistance(s);
      SpanFrom(s, P, k + 1)
  }

  /** How many of the stream's next characters satisfy P before one does not. */
  function SpanLength(s: Stream, P: int -> bool): (n: nat)
    requires StopsAtEnd(P)
    ensures SpanOf(s, P, n)
  {
    SpanFrom(s, P, 0)
  }

  /** There is one span length. */
  lemma SpanUnique(s: Stream, P: int -> bool, n: nat)
    requires StopsAtEnd(P)
    requires SpanOf(s, P, n)
    ensures SpanLength(s, P) == n
  {
  }

  /** A span's characters are never the end of input, so consuming them brings the end closer. */
  lemma SpanBeforeEnd(s: Stream, P: int -> bool, n: nat)
    requires StopsAtEnd(P) && SpanOf(s, P, n)
    ensures n <= EofDistance(s)
    ensures forall j :: 0 <= j < n ==> Peek(s, j) >= 0
  {
  }

  /** A run that starts with a P-character is one longer than the run after it. */
  lemma SpanStep(s: Stream, s1: Stream, P: int -> bool)
    requires StopsAtEnd(P)
    requires Shifted(s1, s, 1) && P(Peek(s, 0))
    ensures SpanLength(s, P) == 1 + SpanLength(s1, P)
  {
    var n1 := SpanLength(s1, P);
    forall k | 0 <= k < 1 + n1 ensures P(Peek(s, k)) {
      if k > 0 {
        assert Peek(s1, k - 1) == Peek(s, k - 1 + 1);
      }
    }
    assert Peek(s1, n1) == Peek(s, n1 + 1);
    SpanUnique(s, P, 1 + n1);
  }

  /** The next 1 + n characters are the next one and then the n after it. */
  lemma CharsStep(s: Stream, s1: Stream, n: nat)
    requires Shifted(s1, s, 1)
    ensures Chars(s, 1 + n) == [CharOf(Peek(s, 0))] + Chars(s1, n)
  {
    UpcomingSplit(s1, s, 1, n);
    assert Upcoming(s, 1 + n) == Upcoming(s, 1) + Upcoming(s1, n);
  }

  /** Extending a run by the character read first: the characters collected. */
  lemma ReadWhileChars(s: Stream, s1: Stream, P: int -> bool, acc: string, w: string)
    requires StopsAtEnd(P)
    requires Shifted(s1, s, 1) && P(Peek(s, 0))
    requires w == acc + [CharOf(Peek(s, 0))] + Chars(s1, SpanLength(s1, P))
    ensures w == acc + Chars(s, SpanLength(s, P))
  {
    var n1 := SpanLength(s1, P);
    SpanStep(s, s1, P);
    CharsStep(s, s1, n1);
    AppendAssoc(acc, [CharOf(Peek(s, 0))], Chars(s1, n1));
  }

  lemma AppendAssoc<T>(a: seq<T>, b: seq<T>, c: seq<T>)
    ensures a + b + c == a + (b + c)
  {
  }

  /** Extending a run by the character read first: the stream afterwards. */
  lemma ReadWhileAdvanced(s: Stream, s1: Stream, P: int -> bool, r: Stream)
    requires StopsAtEnd(P)
    requires s1 == Read(s).1 && P(Peek(s, 0))
    requires Advanced(r, s1, SpanLength(s1, P))
    ensures Advanced(r, s, SpanLength(s, P))
  {
    SpanStep(s, s1, P);
    ReadAdvanced(s);
    AdvancedTrans(s, s1, r, 1, SpanLength(s1, P));
  }

  /**
   The loops of `fetch_word` and of `fetch_operator`'s error path: read characters while
   they satisfy P, appending each to acc, then push the first other character back.
   */
  function ReadWhile(s: Stream, P: int -> bool, acc: string): (r: (string, Stream))
    requires StopsAtEnd(P)
    ensures r.0 == acc + Chars(s, SpanLength(s, P))
    ensures Advanced(r.1, s, SpanLength(s, P))
    decreases EofDistance(s)
  {
    var (c, s1) := Read(s);
    if P(c) then
      ReadAdvanced(s);
      EofDistanceShift(s1, s, 1);
      var r := ReadWhile(s1, P, acc + [CharOf(c)]);
      ReadWhileChars(s, s1, P, acc, r.0);
      ReadWhileAdvanced(s, s1, P, r.1);
      r
    else
      ReadPushBackAdvanced(s);
      SpanUnique(s, P, 0);
      (acc, PushBack(s1, c))
  }

  // ---------------------------------------------------------------------------------------
  // Line comments
  // ---------------------------------------------------------------------------------------

  /** A character that continues a line comment. */
  predicate InComment(c: int) {
    c >= 0 && c != NEWLINE
  }

  /** How many characters a comment body takes: through the line feed, or up to the end of input. */
  function CommentLength(s: Stream): nat {
    var n := SpanLength(s, InComment);
    if Peek(s, n) == NEWLINE then n + 1 else n
  }

  /**
   `skip_line_comment`: reads through the next line feed; a negative character ends the
   comment too, but is pushed back.
   */
  function SkipLineComment(s: Stream): (r: Stream)
    ensures Advanced(r, s, CommentLength(s))
    ensures EofDistance(r) == EofDistance(s) - CommentLength(s)
    decreases EofDistance(s)
  {
    var (c, s1) := Read(s);
    ReadAdvanced(s);
    if c == NEWLINE then
      SpanUnique(s, InComment, 0);
      EofDistanceShift(s1, s, 1);
      s1
    else if c < 0 then
      ReadPushBackAdvanced(s);
      SpanUnique(s, InComment, 0);
      PushBack(s1, c)
    else
      EofDistanceShift(s1, s, 1);
      var r := SkipLineComment(s1);
      CommentStep(s, s1, r);
      r
  }

  lemma CommentStep(s: Stream, s1: Stream, r: Stream)
    requires s1 == Read(s).1 && InComment(Peek(s, 0))
    requires Advanced(r, s1, CommentLength(s1))
    requires EofDistance(r) == EofDistance(s1) - CommentLength(s1)
    requires Advanced(s1, s, 1) && EofDistance(s1) == EofDistance(s) - 1
    ensures Advanced(r, s, CommentLength(s))
    ensures EofDistance(r) == EofDistance(s) - CommentLength(s)
  {
    SpanStep(s, s1, InComment);
    assert Peek(s1, SpanLength(s1, InComment)) == Peek(s, SpanLength(s1, InComment) + 1);
    AdvancedTrans(s, s1, r, 1, CommentLength(s1));
  }

  /**
   What every lexing function promises: a token is never an integer (numbers are read as
   reals), and the stream left behind reads the same source.
   */
  ghost predicate Lexed(s: Stream, r: Result<(Token, Stream), Error>) {
    r.Success? ==> !r.value.0.value.Int? && r.value.1.input == s.input
  }

  // ---------------------------------------------------------------------------------------
  // Words
  // ---------------------------------------------------------------------------------------

  /** A character that continues a word: a word character, or `.` inside a number. */
  function WordPredicate(isNumber: bool): (P: int -> bool)
    ensures StopsAtEnd(P)
  {
    c => CharacterType(c) == AlphaNum || (isNumber && c == '.' as int)
  }

  /** How long the word at the front of the stream is. */
  function WordLength(s: Stream): nat {
    SpanLength(s, WordPredicate(IsDigitCode(Peek(s, 0))))
  }

  /** The value of a keyword's token: the constants `true`, `false` and `null` become values. */
  function KeywordValue(t: ReservedToken): (v: TokenValue)
    ensures v.Reserved? || v.Bool? || v.Null?
    ensures v.Reserved? <==> t != KwConstantTrue && t != KwConstantFalse && t != KwConstantNull
    ensures v.Reserved? ==> v.token == t
  {
    if t == KwConstantTrue then Bool(true)
    else if t == KwConstantFalse then Bool(false)
    else if t == KwConstantNull then Null
    else Reserved(t)
  }

  /**
   The number a digit-leading word denotes: read by `strtol` if it takes the whole word,
   else by `strtod` if that does, else a failure holding how many characters `strtod`
   accepted. Either way the value is a real.
   */
  function NumberValue(w: string): (r: Result<TokenValue, nat>)
    requires |w| > 0 && IsDecDigit(w[0])
    ensures r.Success? ==> r.value.Real?
    ensures r.Failure? <==> Strtol(w).length < |w| && Strtod(w).length < |w|
    ensures r.Failure? ==> r.error == Strtod(w).length
    ensures Strtol(w).length == |w| ==> r == Success(Real(Strtol(w).value as real))
  {
    var l := Strtol(w);
    if l.length == |w| then Success(Real(l.value as real))
    else
      var d := Strtod(w);
      if d.length == |w| then Success(Real(d.value)) else Failure(d.length)
  }

  /**
   What `fetch_word` makes of a word: the keyword's value if it is a keyword, else a
   number if it starts with a digit, else an identifier.
   */
  function ClassifyWord(w: string): (r: Result<TokenValue, nat>)
    requires |w| > 0
    ensures r.Success? ==> !r.value.Int?
    ensures r.Failure? ==> r.error < |w| && IsDecDigit(w[0]) && GetKeyword(w).None?
  {
    WordValue(w, GetKeyword(w))
  }

  /** The classification, given what the keyword table holds for the word. */
  function WordValue(w: string, keyword: Option<ReservedToken>): (r: Result<TokenValue, nat>)
    requires |w| > 0
    ensures r.Success? ==> !r.value.Int?
    ensures r.Failure? ==> r.error < |w| && IsDecDigit(w[0]) && keyword.None?
  {
    if keyword.Some? then Success(KeywordValue(keyword.value))
    else if IsDecDigit(w[0]) then NumberValue(w)
    else Success(Identifier(w))
  }

  /**
   `fetch_word`: reads the word at the front of the stream (the stream yields a word
   character next) and classifies it. The token is placed at the word's first character
   and the character after the word is left unread. A digit-leading word neither
   conversion reads completely is an error naming the first character `strtod` did not
   accept, placed at that character.
   */
  function FetchWord(s: Stream): (r: Result<(Token, Stream), Error>)
    requires CharacterType(Peek(s, 0)) == AlphaNum
    ensures Lexed(s, r)
    ensures WordLength(s) >= 1
    ensures r.Success? <==> ClassifyWord(WordAt(s)).Success?
    ensures r.Success? ==> r.value.0 == Token(ClassifyWord(WordAt(s)).value, s.lineNumber, s.charIndex)
    ensures r.Success? ==> Advanced(r.value.1, s, WordLength(s))
    ensures r.Failure? ==>
              var k := ClassifyWord(WordAt(s)).error;
              k < |WordAt(s)|
              && r.error == UnexpectedError([WordAt(s)[k]], s.lineNumber, AddSize(s.charIndex, k))
  {
    var (c, s1) := Read(s);
    var P := WordPredicate(IsDigitCode(c));
    var (w, s2) := ReadWhile(s1, P, [CharOf(c)]);
    FetchWordFacts(s, s1, w, s2);
    var cw := ClassifyWord(w);
    assert cw == ClassifyWord(WordAt(s));
    if cw.Success? then
      Success((Token(cw.value, s.lineNumber, s.charIndex), s2))
    else
      Failure(RejectedCharacter(w, cw.error, s2.lineNumber, s2.charIndex, s.charIndex))
  }

  /**
   The error for a number whose character k was not accepted: reported at the current
   position less the characters from k to the end of the word, which is the position of
   character k when the word started at `start`.
   */
  function RejectedCharacter(w: string, k: nat, line: SizeT, current: SizeT, start: SizeT): (e: Error)
    requires k < |w| && current == AddSize(start, |w|)
    ensures e == UnexpectedError([w[k]], line, AddSize(start, k))
  {
    StepBack(start, |w|, k);
    UnexpectedError([w[k]], line, AddSize(current, -(|w| - k)))
  }

  /** The word at the front of the stream. */
  function WordAt(s: Stream): (w: string)
    ensures |w| == WordLength(s)
  {
    Chars(s, WordLength(s))
  }

  /** The word `fetch_word` collects and where it leaves the stream. */
  lemma FetchWordFacts(s: Stream, s1: Stream, w: string, s2: Stream)
    requires CharacterType(Peek(s, 0)) == AlphaNum
    requires s1 == Read(s).1
    requires var P := WordPredicate(IsDigitCode(Peek(s, 0)));
             (w, s2) == ReadWhile(s1, P, [CharOf(Peek(s, 0))])
    ensures WordLength(s) >= 1 && w == WordAt(s)
    ensures s2.charIndex == AddSize(s.charIndex, |w|) && s2.lineNumber == s.lineNumber
    ensures Advanced(s2, s, WordLength(s))
  {
    WordConsumed(s, s1, w, s2);
    WordSameLine(s, s2);
  }

  /** Moving n forward and then n - k back is moving k forward. */
  lemma StepBack(x: SizeT, n: int, k: int)
    ensures AddSize(AddSize(x, n), -(n - k)) == AddSize(x, k)
  {
    AddSizeCompose(x, n, -(n - k));
  }

  /** The word read is the span of word characters, and the stream has moved past it. */
  lemma WordConsumed(s: Stream, s1: Stream, w: string, s2: Stream)
    requires CharacterType(Peek(s, 0)) == AlphaNum
    requires s1 == Read(s).1
    requires var P := WordPredicate(IsDigitCode(Peek(s, 0)));
             (w, s2) == ReadWhile(s1, P, [CharOf(Peek(s, 0))])
    ensures WordLength(s) >= 1 && w == Chars(s, WordLength(s)) && Advanced(s2, s, WordLength(s))
  {
    var P := WordPredicate(IsDigitCode(Peek(s, 0)));
    ReadAdvanced(s);
    SpanStep(s, s1, P);
    assert [] + [CharOf(Peek(s, 0))] == [CharOf(Peek(s, 0))];
    ReadWhileChars(s, s1, P, [], w);
    ReadWhileAdvanced(s, s1, P, s2);
  }

  /** A word holds no line feed, so reading it stays on the line. */
  lemma WordSameLine(s: Stream, s2: Stream)
    requires Advanced(s2, s, WordLength(s))
    ensures s2.lineNumber == s.lineNumber
  {
    var P := WordPredicate(IsDigitCode(Peek(s, 0)));
    forall k | 0 <= k < WordLength(s) ensures Peek(s, k) != NEWLINE {
      assert P(Peek(s, k));
    }
    AdvancedSameLine(s2, s, WordLength(s));
  }

  // ---------------------------------------------------------------------------------------
  // Strings
  // ---------------------------------------------------------------------------------------

  const UNCLOSED_STRING: string := "Unclosed string"

  /** The character an escape sequence `\c` stands for. */
  function Unescape(c: int): char {
    if c == 't' as int then '\t'
    else if c == 'n' as int then '\n'
    else if c == 'r' as int then '\r'
    else if c == '0' as int then '\0'
    else CharOf(c)
  }

  /** The error for a string the line or the input ends in, at the stream's position. */
  function Unclosed(s: Stream): (e: Error)
    ensures StripPrefix(PARSING_PREFIX, e.message) == Some(UNCLOSED_STRING)
    ensures e.lineNumber == s.lineNumber && e.charIndex == s.charIndex
  {
    ParsingError(UNCLOSED_STRING, s.lineNumber, s.charIndex)
  }

  /**
   The loop of `fetch_string`: collects the string's characters after acc until the
   closing quote, which is consumed. A backslash makes the next character an escape
   (a second backslash only keeps the escape pending, so no backslash ever reaches the
   string). An unescaped tab, line feed or carriage return, or the end of input, is
   pushed back and reported where the stream then stands.
   */
  function ReadString(s: Stream, escaped: bool, acc: string): (r: Result<(string, Stream), Error>)
    ensures r.Success? ==> acc <= r.value.0
    ensures r.Success? ==> r.value.1.input == s.input && EofDistance(r.value.1) < EofDistance(s)
    ensures r.Failure? ==> StripPrefix(PARSING_PREFIX, r.error.message) == Some(UNCLOSED_STRING)
    decreases EofDistance(s)
  {
    var (c, s1) := Read(s);
    if CharacterType(c) == EndOfFile then Failure(Unclosed(PushBack(s1, c)))
    else
      EofDistanceShift(s1, s, 1);
      if c == '\\' as int then ReadString(s1, true, acc)
      else if escaped then ReadString(s1, false, acc + [Unescape(c)])
      else if c == '\t' as int || c == '\n' as int || c == '\r' as int then Failure(Unclosed(PushBack(s1, c)))
      else if c == '"' as int then Success((acc, s1))
      else ReadString(s1, false, acc + [CharOf(c)])
  }

  /**
   `fetch_string`, called with the opening quote already consumed: the string token,
   placed where the stream stood after the quote.
   */
  function FetchString(s: Stream): (r: Result<(Token, Stream), Error>)
    ensures Lexed(s, r)
    ensures r.Success? <==> ReadString(s, false, []).Success?
    ensures r.Success? ==> r.value == (Token(Str(ReadString(s, false, []).value.0), s.lineNumber, s.charIndex),
                                       ReadString(s, false, []).value.1)
    ensures r.Failure? ==> r.error == ReadString(s, false, []).error
  {
    var q := ReadString(s, false, []);
    if q.Success? then Success((Token(Str(q.value.0), s.lineNumber, s.charIndex), q.value.1))
    else Failure(q.error)
  }

  /** The stream's next characters are those of t. */
  ghost predicate Yields(s: Stream, t: string) {
    forall k :: 0 <= k < |t| ==> Peek(s, k) == t[k] as int
  }

  /** Characters a string literal can carry: bytes other than the backslash. */
  predicate Plain(w: string) {
    forall i :: 0 <= i < |w| ==> w[i] != '\\' && w[i] as int < 256
  }

  /** How a character is written inside a string literal. */
  function EscapeChar(ch: char): (e: string)
    ensures 1 <= |e| <= 2
  {
    if ch == '"' then ['\\', '"']
    else if ch == '\t' then ['\\', 't']
    else if ch == '\n' then ['\\', 'n']
    else if ch == '\r' then ['\\', 'r']
    else [ch]
  }

  /** The body of a string literal that denotes w. */
  function Escape(w: string): string {
    if w == [] then [] else EscapeChar(w[0]) + Escape(w[1..])
  }

  /** Reading from a stream shifted by m: the rest of the text. */
  lemma YieldsShift(s: Stream, s1: Stream, t: string, m: nat)
    requires Yields(s, t) && Shifted(s1, s, m) && m <= |t|
    ensures Yields(s1, t[m..])
  {
    forall k | 0 <= k < |t| - m ensures Peek(s1, k) == t[m..][k] as int {
      assert Peek(s1, k) == Peek(s, k + m);
    }
  }

  /** The text of a literal for a non-empty string: the first character's spelling, then the rest. */
  lemma EscapeUnfold(w: string)
    requires w != []
    ensures Escape(w) + "\"" == EscapeChar(w[0]) + (Escape(w[1..]) + "\"")
  {
    AppendAssoc(EscapeChar(w[0]), Escape(w[1..]), "\"");
  }

  /** A plain character is appended as it is. */
  lemma ReadStringPlain(s: Stream, acc: string)
    requires var c := Peek(s, 0);
             c >= 0 && c != '\\' as int && c != '"' as int
             && c != '\t' as int && c != '\n' as int && c != '\r' as int
    ensures ReadString(s, false, acc) == ReadString(Read(s).1, false, acc + [CharOf(Peek(s, 0))])
  {
  }

  /** A backslash and the character after it append that character's unescaped value. */
  lemma ReadStringEscape(s: Stream, acc: string)
    requires Peek(s, 0) == '\\' as int && Peek(s, 1) >= 0 && Peek(s, 1) != '\\' as int
    ensures var s1 := Read(s).1;
            ReadString(s, false, acc) == ReadString(Read(s1).1, false, acc + [Unescape(Peek(s, 1))])
  {
    var s1 := Read(s).1;
    assert Peek(s1, 0) == Peek(s, 1);
    assert ReadString(s, false, acc) == ReadString(s1, true, acc);
  }

  /** The closing quote ends the string. */
  lemma ReadStringClose(s: Stream, acc: string)
    requires Peek(s, 0) == '"' as int
    ensures ReadString(s, false, acc) == Success((acc, Read(s).1))
  {
  }

  /** A byte's code maps back to the byte. */
  lemma CharOfByte(ch: char)
    requires ch as int < 256
    ensures CharOf(ch as int) == ch
  {
  }

  /** One character of a literal, written as EscapeChar gives it, is read back as itself. */
  lemma ReadEscapedChar(s: Stream, w: string, acc: string) returns (s2: Stream)
    requires w != [] && Plain(w)
    requires Yields(s, Escape(w) + "\"")
    ensures Yields(s2, Escape(w[1..]) + "\"")
    ensures ReadString(s, false, acc) == ReadString(s2, false, acc + [w[0]])
  {
    var ch := w[0];
    var e := EscapeChar(ch);
    var rest := Escape(w[1..]) + "\"";
    EscapeUnfold(w);
    var t := e + rest;
    assert Peek(s, 0) == t[0] as int;
    var s1 := Read(s).1;
    ReadShifts(s);
    if |e| == 1 {
      assert e == [ch];
      CharOfByte(ch);
      ReadStringPlain(s, acc);
      YieldsShift(s, s1, t, 1);
      assert t[1..] == rest;
      s2 := s1;
    } else {
      assert Peek(s, 1) == t[1] as int;
      CharOfByte('"');
      assert Unescape(t[1] as int) == ch;
      ReadStringEscape(s, acc);
      var s3 := Read(s1).1;
      ReadShifts(s1);
      ShiftedTrans(s3, s1, s, 1, 1);
      YieldsShift(s, s3, t, 2);
      assert t[2..] == rest;
      s2 := s3;
    }
  }

  /**
   A literal's body followed by the closing quote reads back as the string it denotes,
   for strings of bytes without a backslash.
   */
  lemma {:induction false} ReadStringEscaped(s: Stream, w: string, acc: string)
    requires Plain(w)
    requires Yields(s, Escape(w) + "\"")
    ensures ReadString(s, false, acc).Success?
    ensures ReadString(s, false, acc).value.0 == acc + w
    decreases |w|
  {
    if w == [] {
      assert Peek(s, 0) == "\""[0] as int;
      ReadStringClose(s, acc);
      assert acc + w == acc;
    } else {
      var s2 := ReadEscapedChar(s, w, acc);
      var r := ReadString(s2, false, acc + [w[0]]);
      assert Plain(w[1..]);
      ReadStringEscaped(s2, w[1..], acc + [w[0]]);
      AppendAssoc(acc, [w[0]], w[1..]);
      assert [w[0]] + w[1..] == w;
      assert r.Success? && r.value.0 == acc + w;
    }
  }

  /** The string token for a literal is the string it denotes, placed after the opening quote. */
  lemma FetchStringEscaped(s: Stream, w: string)
    requires Plain(w)
    requires Yields(s, Escape(w) + "\"")
    ensures FetchString(s).Success?
    ensures FetchString(s).value.0 == Token(Str(w), s.lineNumber, s.charIndex)
  {
    ReadStringEscaped(s, w, []);
    assert [] + w == w;
  }

  /** From a source of bytes, no string ever holds a backslash. */
  lemma {:induction false} ReadStringNoBackslash(s: Stream, escaped: bool, acc: string)
    requires forall k :: 0 <= k < EofDistance(s) ==> Peek(s, k) < 256
    requires '\\' !in acc
    ensures ReadString(s, escaped, acc).Success? ==> '\\' !in ReadString(s, escaped, acc).value.0
    decreases EofDistance(s)
  {
    var (c, s1) := Read(s);
    if c >= 0 {
      EofDistanceShift(s1, s, 1);
      forall k | 0 <= k < EofDistance(s1) ensures Peek(s1, k) < 256 {
        assert Peek(s1, k) == Peek(s, k + 1);
      }
      if c != '\\' as int {
        assert Unescape(c) != '\\' && CharOf(c) != '\\';
        ReadStringNoBackslash(s1, false, acc + [Unescape(c)]);
        ReadStringNoBackslash(s1, false, acc + [CharOf(c)]);
      } else {
        ReadStringNoBackslash(s1, true, acc);
      }
    }
  }

  // ---------------------------------------------------------------------------------------
  // Operators
  // ---------------------------------------------------------------------------------------

  /** A punctuation character. */
  function PunctPredicate(): (P: int -> bool)
    ensures StopsAtEnd(P)
  {
    c => CharacterType(c) == Punct
  }

  /** Consuming an operator (or nothing) moves over characters that are not line feeds. */
  lemma GetOperatorAdvanced(s: Stream)
    ensures Advanced(GetOperator(s).1, s, Consumed(GetOperator(s).0))
  {
    var (t, s1) := GetOperator(s);
    var n := Consumed(t);
    var u := Upcoming(s, n);
    if t.Some? {
      EveryTokenWellSpelled(t.value);
      forall i | 0 <= i < |u| ensures IsOperatorChar(CharOf(u[i])) {
        assert CharOf(u[i]) == Chars(s, n)[i];
      }
      NoNewlinesInOperator(u);
    } else {
      assert u == [];
    }
    ModSmall(s.lineNumber);
  }

  /**
   `fetch_operator`: the longest operator at the front of the stream. Its token carries the
   line number in both position fields. Without one, the run of punctuation characters
   there is reported as unexpected, at the position of its first character.
   */
  function FetchOperator(s: Stream): (r: Result<(Token, Stream), Error>)
    ensures Lexed(s, r)
    ensures r.Success? <==> GetOperator(s).0.Some?
    ensures r.Success? ==>
              var t := GetOperator(s).0.value;
              && t.IsOperator()
              && Chars(s, |Spelling(t)|) == Spelling(t)
              && r.value.0 == Token(Reserved(t), s.lineNumber, s.lineNumber)
              && Advanced(r.value.1, s, |Spelling(t)|)
    ensures r.Failure? ==>
              r.error == UnexpectedError(Chars(s, SpanLength(s, PunctPredicate())), s.lineNumber, s.charIndex)
  {
    var line := s.lineNumber;
    var (t, s1) := GetOperator(s);
    GetOperatorAdvanced(s);
    if t.Some? then
      Success((Token(Reserved(t.value), line, line), s1))
    else
      SameCharacters(s1, s, PunctPredicate());
      Failure(UnexpectedPunctuation(s1))
  }

  /** The run of punctuation at the front of the stream, reported where it starts. */
  function UnexpectedPunctuation(s: Stream): (e: Error)
    ensures e == UnexpectedError(Chars(s, SpanLength(s, PunctPredicate())), s.lineNumber, s.charIndex)
  {
    var (unexpected, _) := ReadWhile(s, PunctPredicate(), []);
    assert [] + Chars(s, SpanLength(s, PunctPredicate())) == Chars(s, SpanLength(s, PunctPredicate()));
    UnexpectedError(unexpected, s.lineNumber, s.charIndex)
  }

  /** Two streams that yield the same characters have the same spans. */
  lemma SameCharacters(a: Stream, b: Stream, P: int -> bool)
    requires StopsAtEnd(P) && Advanced(a, b, 0)
    ensures SpanLength(a, P) == SpanLength(b, P)
    ensures Chars(a, SpanLength(a, P)) == Chars(b, SpanLength(b, P))
    ensures a.lineNumber == b.lineNumber && a.charIndex == b.charIndex
  {
    var n := SpanLength(b, P);
    forall k | 0 <= k <= n ensures Peek(a, k) == Peek(b, k) {
      assert Peek(a, k) == Peek(b, k + 0);
    }
    SpanUnique(a, P, n);
    ModSmall(b.charIndex);
    ModSmall(b.lineNumber);
    assert Upcoming(b, 0) == [];
  }

  // ---------------------------------------------------------------------------------------
  // The tokenizer
  // ---------------------------------------------------------------------------------------

  /**
   `tokenize`: skips spaces and `#` comments and returns the next token with the stream
   after it. End of input gives the end-of-file token, placed where the end was read.
   Numbers always become real tokens: no integer token is ever produced.
   */
  function Tokenize(s: Stream): (r: Result<(Token, Stream), Error>)
    ensures r.Success? ==> !r.value.0.value.Int?
    decreases EofDistance(s)
  {
    var (c, s1) := Read(s);
    match CharacterType(c)
    case EndOfFile => Success((Token(Eof, s.lineNumber, s.charIndex), s1))
    case Space =>
      EofDistanceShift(s1, s, 1);
      Tokenize(s1)
    case AlphaNum => FetchWord(PushBack(s1, c))
    case Punct =>
      EofDistanceShift(s1, s, 1);
      if c == '"' as int then FetchString(s1)
      else if c == '#' as int then Tokenize(SkipLineComment(s1))
      else FetchOperator(PushBack(s1, c))
  }

  /** A stream that yields what another yields from the same position has the same word. */
  lemma SameWord(a: Stream, b: Stream)
    requires Advanced(a, b, 0)
    ensures WordLength(a) == WordLength(b) && WordAt(a) == WordAt(b)
    ensures a.lineNumber == b.lineNumber && a.charIndex == b.charIndex
  {
    assert Peek(a, 0) == Peek(b, 0 + 0);
    SameCharacters(a, b, WordPredicate(IsDigitCode(Peek(b, 0))));
  }

  /** At a word character, the next token is the word, classified as `fetch_word` does. */
  lemma TokenizeWord(s: Stream)
    requires CharacterType(Peek(s, 0)) == AlphaNum
    ensures WordLength(s) >= 1
    ensures Tokenize(s).Success? <==> ClassifyWord(WordAt(s)).Success?
    ensures Tokenize(s).Success? ==>
              Tokenize(s).value.0 == Token(ClassifyWord(WordAt(s)).value, s.lineNumber, s.charIndex)
  {
    var (c, s1) := Read(s);
    var p := PushBack(s1, c);
    ReadPushBackAdvanced(s);
    SameWord(p, s);
    assert Tokenize(s) == FetchWord(p);
  }

  /** A character that makes words. */
  predicate IsWordChar(ch: char) {
    CharacterType(ch as int) == AlphaNum
  }

  /** Where a word ends: neither a word character nor a `.` comes next. */
  predicate EndsWord(c: int) {
    CharacterType(c) != AlphaNum && c != '.' as int
  }

  /** A text of word characters followed by a word's end is the word at the front of the stream. */
  lemma WordOfText(s: Stream, w: string)
    requires |w| >= 1 && forall i :: 0 <= i < |w| ==> IsWordChar(w[i])
    requires Yields(s, w) && EndsWord(Peek(s, |w|))
    ensures CharacterType(Peek(s, 0)) == AlphaNum
    ensures WordAt(s) == w
  {
    var P := WordPredicate(IsDigitCode(Peek(s, 0)));
    forall k | 0 <= k < |w| ensures P(Peek(s, k)) {
      assert Peek(s, k) == w[k] as int;
    }
    SpanUnique(s, P, |w|);
    forall i | 0 <= i < |w| ensures Chars(s, |w|)[i] == w[i] {
      assert Peek(s, i) == w[i] as int;
    }
  }

  /** No keyword is spelled with a leading digit. */
  lemma DigitNotKeyword(w: string)
    requires |w| > 0 && IsDecDigit(w[0])
    ensures GetKeyword(w).None?
  {
    if GetKeyword(w).Some? {
      var t := GetKeyword(w).value;
      GetKeywordSpelling(w, t);
      EveryTokenWellSpelled(t);
    }
  }

  /** A keyword's spelling is read as the keyword (or, for `true`, `false`, `null`, its value). */
  lemma TokenizeKeyword(s: Stream, t: ReservedToken)
    requires !t.IsOperator()
    requires Yields(s, Spelling(t)) && EndsWord(Peek(s, |Spelling(t)|))
    ensures Tokenize(s).Success?
    ensures Tokenize(s).value.0 == Token(KeywordValue(t), s.lineNumber, s.charIndex)
  {
    var w := Spelling(t);
    EveryTokenWellSpelled(t);
    forall i | 0 <= i < |w| ensures IsWordChar(w[i]) {
      assert 'a' <= w[i] <= 'z';
    }
    WordOfText(s, w);
    KeywordRoundTrip(t);
    assert !IsDecDigit(w[0]);
    assert ClassifyWord(w) == Success(KeywordValue(t));
    TokenizeWord(s);
  }

  /** A name that is not a keyword and does not start with a digit is read as an identifier. */
  lemma TokenizeIdentifier(s: Stream, w: string)
    requires |w| >= 1 && forall i :: 0 <= i < |w| ==> IsWordChar(w[i])
    requires !IsDecDigit(w[0]) && GetKeyword(w).None?
    requires Yields(s, w) && EndsWord(Peek(s, |w|))
    ensures Tokenize(s).Success?
    ensures Tokenize(s).value.0 == Token(Identifier(w), s.lineNumber, s.charIndex)
  {
    WordOfText(s, w);
    assert ClassifyWord(w) == Success(Identifier(w));
    TokenizeWord(s);
  }

  /** The decimal text of a number up to `LONG_MAX` is read as that number, as a real. */
  lemma TokenizeNumber(s: Stream, n: nat)
    requires n <= LONG_MAX
    requires Yields(s, DecimalText(n)) && EndsWord(Peek(s, |DecimalText(n)|))
    ensures Tokenize(s).Success?
    ensures Tokenize(s).value.0 == Token(Real(n as real), s.lineNumber, s.charIndex)
  {
    var w := DecimalText(n);
    forall i | 0 <= i < |w| ensures IsWordChar(w[i]) {
      assert IsDecDigit(w[i]);
    }
    WordOfText(s, w);
    DigitNotKeyword(w);
    StrtolDecimalRoundTrip(n);
    assert ClassifyWord(w) == Success(Real(n as real));
    TokenizeWord(s);
  }

  // ---------------------------------------------------------------------------------------
  // Operators, strings, layout and the end of input, through `tokenize`
  // ---------------------------------------------------------------------------------------

  /** Operator characters are ASCII punctuation that opens neither a string nor a comment. */
  lemma OperatorCharCode(ch: char)
    requires IsOperatorChar(ch)
    ensures ch as int < 128 && CharOf(ch as int) == ch
    ensures CharacterType(ch as int) == Punct && ch != '"' && ch != '#'
  {
  }

  /** One more character read: the text so far and that character. */
  lemma CharsSnoc(s: Stream, n: nat)
    ensures Chars(s, n + 1) == Chars(s, n) + [CharOf(Peek(s, n))]
  {
    assert forall i :: 0 <= i < n + 1 ==> Chars(s, n + 1)[i] == (Chars(s, n) + [CharOf(Peek(s, n))])[i];
  }

  /** Two streams at the same characters read the same text. */
  lemma CharsAgree(a: Stream, b: Stream)
    requires Advanced(a, b, 0)
    ensures forall m :: Chars(a, m) == Chars(b, m)
  {
    forall m: nat ensures Chars(a, m) == Chars(b, m) {
      forall k | 0 <= k < m ensures Chars(a, m)[k] == Chars(b, m)[k] {
        assert Peek(a, k) == Peek(b, k + 0);
      }
    }
  }

  /** At punctuation other than `"` and `#`, the next token is what `fetch_operator` makes of it. */
  lemma TokenizePunct(s: Stream)
    requires CharacterType(Peek(s, 0)) == Punct && Peek(s, 0) != '"' as int && Peek(s, 0) != '#' as int
    ensures Advanced(PushBack(Read(s).1, Read(s).0), s, 0)
    ensures Tokenize(s) == FetchOperator(PushBack(Read(s).1, Read(s).0))
  {
    ReadPushBackAdvanced(s);
  }

  /** No longer prefix than an operator's spelling plus one character spells an operator. */
  lemma NoLongerThanTwo(s: Stream, m: nat)
    requires m > 2
    ensures !OperatorSpelled(Chars(s, m))
  {
    if OperatorSpelled(Chars(s, m)) {
      var u: ReservedToken :| u.IsOperator() && Spelling(u) == Chars(s, m);
      EveryTokenWellSpelled(u);
    }
  }

  /** The characters of a spelling made of operator characters read back as the spelling. */
  lemma OperatorCharsRead(s: Stream, t: ReservedToken)
    requires t.IsOperator() && Yields(s, Spelling(t))
    ensures |Spelling(t)| >= 1 && Chars(s, |Spelling(t)|) == Spelling(t)
    ensures CharacterType(Peek(s, 0)) == Punct && Peek(s, 0) != '"' as int && Peek(s, 0) != '#' as int
  {
    EveryTokenWellSpelled(t);
    OperatorWordRead(s, Spelling(t));
  }

  /** Operator characters at the front of the stream read back as themselves. */
  lemma OperatorWordRead(s: Stream, w: string)
    requires |w| >= 1 && Yields(s, w)
    requires forall i :: 0 <= i < |w| ==> IsOperatorChar(w[i])
    ensures Chars(s, |w|) == w
    ensures CharacterType(Peek(s, 0)) == Punct && Peek(s, 0) != '"' as int && Peek(s, 0) != '#' as int
  {
    forall i | 0 <= i < |w| ensures Chars(s, |w|)[i] == w[i] {
      OperatorCharCode(w[i]);
      assert Peek(s, i) == w[i] as int;
    }
    OperatorCharCode(w[0]);
    assert Peek(s, 0) == w[0] as int;
  }

  /** An operator's spelling at the front, not extended by the next character, is the longest one there. */
  lemma OperatorAtFront(s: Stream, t: ReservedToken)
    requires t.IsOperator() && Yields(s, Spelling(t))
    requires !OperatorSpelled(Spelling(t) + [CharOf(Peek(s, |Spelling(t)|))])
    ensures Chars(s, |Spelling(t)|) == Spelling(t)
    ensures forall m :: m > |Spelling(t)| ==> !OperatorSpelled(Chars(s, m))
    ensures CharacterType(Peek(s, 0)) == Punct && Peek(s, 0) != '"' as int && Peek(s, 0) != '#' as int
  {
    OperatorCharsRead(s, t);
    CharsSnoc(s, |Spelling(t)|);
    LongestAt(s, |Spelling(t)|);
  }

  /** Operators are at most two characters long, so one that no next character extends is longest. */
  lemma LongestAt(s: Stream, n: nat)
    requires n >= 1 && !OperatorSpelled(Chars(s, n + 1))
    ensures forall m :: m > n ==> !OperatorSpelled(Chars(s, m))
  {
    forall m | m > n + 1 ensures !OperatorSpelled(Chars(s, m)) {
      NoLongerThanTwo(s, m);
    }
  }

  /** `fetch_operator` on a stream at the same characters finds the longest operator there. */
  lemma FetchOperatorFinds(p: Stream, s: Stream, t: ReservedToken)
    requires Advanced(p, s, 0)
    requires t.IsOperator() && Chars(s, |Spelling(t)|) == Spelling(t)
    requires forall m :: m > |Spelling(t)| ==> !OperatorSpelled(Chars(s, m))
    ensures FetchOperator(p).Success?
    ensures FetchOperator(p).value.0 == Token(Reserved(t), s.lineNumber, s.lineNumber)
    ensures Advanced(FetchOperator(p).value.1, s, |Spelling(t)|)
  {
    assert GetOperator(p).0 == Some(t) by {
      CharsAgree(p, s);
      GetOperatorFinds(p, t);
    }
    assert p.lineNumber == s.lineNumber by {
      assert Upcoming(s, 0) == [];
      ModSmall(s.lineNumber);
    }
    FetchOperatorAt(p, t);
    AdvancedAfterNone(s, p, FetchOperator(p).value.1, |Spelling(t)|);
  }

  /** Where the longest operator is t, `fetch_operator` makes t's token and consumes its spelling. */
  lemma FetchOperatorAt(p: Stream, t: ReservedToken)
    requires GetOperator(p).0 == Some(t)
    ensures FetchOperator(p).Success?
    ensures FetchOperator(p).value.0 == Token(Reserved(t), p.lineNumber, p.lineNumber)
    ensures Advanced(FetchOperator(p).value.1, p, |Spelling(t)|)
  {
  }

  /**
   An operator's spelling, not followed by a character that would make a longer operator,
   is read as that operator. Its token carries the line number in both positions, as
   `fetch_operator` records it.
   */
  lemma TokenizeOperator(s: Stream, t: ReservedToken)
    requires t.IsOperator() && Yields(s, Spelling(t))
    requires !OperatorSpelled(Spelling(t) + [CharOf(Peek(s, |Spelling(t)|))])
    ensures Tokenize(s).Success?
    ensures Tokenize(s).value.0 == Token(Reserved(t), s.lineNumber, s.lineNumber)
    ensures Advanced(Tokenize(s).value.1, s, |Spelling(t)|)
  {
    OperatorAtFront(s, t);
    TokenizePunct(s);
    FetchOperatorFinds(PushBack(Read(s).1, Read(s).0), s, t);
  }

  /**
   A string literal, written with the escapes `Escape` produces, is read as the string;
   its token is placed just after the opening quote, where `fetch_string` starts.
   */
  lemma TokenizeString(s: Stream, w: string)
    requires Plain(w) && Yields(s, "\"" + Escape(w) + "\"")
    ensures Tokenize(s).Success?
    ensures Tokenize(s).value.0 == Token(Str(w), s.lineNumber, PushBackStream.Inc(s.charIndex))
  {
    var text := "\"" + Escape(w) + "\"";
    assert Peek(s, 0) == text[0] as int;
    var s1 := Read(s).1;
    ReadShifts(s);
    YieldsShift(s, s1, text, 1);
    assert text[1..] == Escape(w) + "\"";
    FetchStringEscaped(s1, w);
  }

  /** At the end of input the token is end of file, placed where the stream stands. */
  lemma TokenizeEof(s: Stream)
    requires Peek(s, 0) < 0
    ensures Tokenize(s) == Success((Token(Eof, s.lineNumber, s.charIndex), Read(s).1))
  {
  }

  /** One blank before a token is skipped. */
  lemma TokenizeSkipsBlank(p: Stream)
    requires IsSpaceCode(Peek(p, 0))
    ensures Tokenize(p) == Tokenize(Read(p).1)
  {
  }

  /** The stream after n + 1 reads is the stream after n reads, read once more. */
  lemma ReadNLast(s: Stream, n: nat)
    requires n > 0
    ensures ReadN(s, n).1 == Read(ReadN(s, n - 1).1).1
    ensures Peek(ReadN(s, n - 1).1, 0) == Peek(s, n - 1)
  {
  }

  /** Blanks before a token are skipped: reading them first makes no difference. */
  lemma {:induction false} TokenizeSkipsBlanks(s: Stream, n: nat)
    requires forall k :: 0 <= k < n ==> IsSpaceCode(Peek(s, k))
    ensures Tokenize(s) == Tokenize(ReadN(s, n).1)
  {
    if n > 0 {
      TokenizeSkipsBlanks(s, n - 1);
      ReadNLast(s, n);
      TokenizeSkipsBlank(ReadN(s, n - 1).1);
    }
  }

  // ---------------------------------------------------------------------------------------
  // Progress
  // ---------------------------------------------------------------------------------------

  /** Whether the string reader is inside an escape after reading c. */
  function EscapesNext(c: int): bool {
    c == '\\' as int
  }

  /** The text read so far after reading c, when c neither ends the string nor fails it. */
  function AppendRead(c: int, escaped: bool, acc: string): string {
    if c == '\\' as int then acc else if escaped then acc + [Unescape(c)] else acc + [CharOf(c)]
  }

  /** Whether the string reader, in the given escape state, reads on past the character c. */
  predicate ReadsOn(c: int, escaped: bool) {
    c >= 0 && (c == '\\' as int || escaped
               || (c != '"' as int && c != '\t' as int && c != '\n' as int && c != '\r' as int))
  }

  /** One step of the string reader past a character that neither ends the string nor fails it. */
  lemma ReadStringStep(s: Stream, escaped: bool, acc: string)
    requires ReadsOn(Peek(s, 0), escaped)
    ensures ReadString(s, escaped, acc)
            == ReadString(Read(s).1, EscapesNext(Peek(s, 0)), AppendRead(Peek(s, 0), escaped, acc))
  {
  }

  /** A successful read that stops at the next character stops just past it: the closing quote. */
  lemma ReadStringStop(s: Stream, escaped: bool, acc: string)
    requires !ReadsOn(Peek(s, 0), escaped) && ReadString(s, escaped, acc).Success?
    ensures Peek(s, 0) >= 0 && ReadString(s, escaped, acc).value.1 == Read(s).1
  {
  }

  /** r lies strictly nearer the end than s, and yields what s yields past the difference. */
  ghost predicate ConsumedFrom(r: Stream, s: Stream) {
    EofDistance(r) < EofDistance(s) && Shifted(r, s, EofDistance(s) - EofDistance(r))
  }

  /** The closing quote: the read ends one character on. */
  lemma ReadStringStopShifted(s: Stream, escaped: bool, acc: string)
    requires !ReadsOn(Peek(s, 0), escaped) && ReadString(s, escaped, acc).Success?
    ensures ConsumedFrom(ReadString(s, escaped, acc).value.1, s)
  {
    ReadStringStop(s, escaped, acc);
    ReadShifts(s);
    EofDistanceShift(Read(s).1, s, 1);
  }

  /** Reading one character and then what r is consumed from gives what r is consumed from s. */
  lemma OneMoreShifted(s: Stream, r: Stream)
    requires Peek(s, 0) >= 0 && ConsumedFrom(r, Read(s).1)
    ensures ConsumedFrom(r, s)
  {
    var s1 := Read(s).1;
    ReadShifts(s);
    EofDistanceShift(s1, s, 1);
    ShiftedTrans(r, s1, s, EofDistance(s1) - EofDistance(r), 1);
  }

  /** A successful string read consumes exactly the characters up to where it leaves the stream. */
  lemma {:induction false} ReadStringShifted(s: Stream, escaped: bool, acc: string)
    requires ReadString(s, escaped, acc).Success?
    ensures ConsumedFrom(ReadString(s, escaped, acc).value.1, s)
    decreases EofDistance(s)
  {
    var c := Peek(s, 0);
    if ReadsOn(c, escaped) {
      var s1 := Read(s).1;
      ReadShifts(s);
      EofDistanceShift(s1, s, 1);
      ReadStringStep(s, escaped, acc);
      ReadStringShifted(s1, EscapesNext(c), AppendRead(c, escaped, acc));
      OneMoreShifted(s, ReadString(s1, EscapesNext(c), AppendRead(c, escaped, acc)).value.1);
    } else {
      ReadStringStopShifted(s, escaped, acc);
    }
  }

  /** A word consumes at least one character of a byte stream, and leaves a byte stream. */
  lemma WordProgress(p: Stream, s: Stream)
    requires ByteStream(s) && Advanced(p, s, 0)
    requires CharacterType(Peek(p, 0)) == AlphaNum && FetchWord(p).Success?
    ensures EofDistance(FetchWord(p).value.1) < EofDistance(s)
    ensures ByteStream(FetchWord(p).value.1)
  {
    var r := FetchWord(p).value.1;
    var n := WordLength(p);
    EofDistanceShift(p, s, 0);
    EofDistanceShift(r, p, n);
    ShiftedAfterNone(r, p, s, n);
    ByteStreamShifted(r, s, n);
  }

  /** A string consumes at least its quotes, and leaves a byte stream. */
  lemma StringProgress(s1: Stream, s: Stream)
    requires ByteStream(s) && Shifted(s1, s, 1) && EofDistance(s1) < EofDistance(s)
    requires FetchString(s1).Success?
    ensures EofDistance(FetchString(s1).value.1) < EofDistance(s)
    ensures ByteStream(FetchString(s1).value.1)
  {
    ReadStringShifted(s1, false, []);
    var r := ReadString(s1, false, []).value.1;
    ByteStreamShifted(s1, s, 1);
    ByteStreamShifted(r, s1, EofDistance(s1) - EofDistance(r));
  }

  /** Past the end of a byte stream nothing reads as an operator character. */
  lemma EndIsNoOperatorChar(c: int)
    requires END_OF_INPUT <= c < 256 && IsOperatorChar(CharOf(c))
    ensures c >= 0
  {
  }

  /** An operator consumes at least one character of a byte stream, and leaves a byte stream. */
  lemma OperatorProgress(p: Stream, s: Stream)
    requires ByteStream(s) && Advanced(p, s, 0)
    requires FetchOperator(p).Success?
    ensures EofDistance(FetchOperator(p).value.1) < EofDistance(s)
    ensures ByteStream(FetchOperator(p).value.1)
  {
    var r := FetchOperator(p).value.1;
    var t := GetOperator(p).0.value;
    var n := |Spelling(t)|;
    EveryTokenWellSpelled(t);
    forall j | 0 <= j < n ensures Peek(p, j) >= 0 {
      assert Peek(p, j) == Peek(s, j + 0);
      assert CharOf(Peek(p, j)) == Spelling(t)[j];
      EndIsNoOperatorChar(Peek(p, j));
    }
    EofDistanceShift(p, s, 0);
    EofDistanceShift(r, p, n);
    ShiftedAfterNone(r, p, s, n);
    ByteStreamShifted(r, s, n);
  }

  /** The one-character step of a skipped blank or an opening `"` or `#`. */
  lemma SkipOneProgress(s: Stream)
    requires ByteStream(s) && CharacterType(Peek(s, 0)) != EndOfFile
    ensures EofDistance(Read(s).1) < EofDistance(s) && ByteStream(Read(s).1)
  {
    EofDistanceShift(Read(s).1, s, 1);
    ByteStreamShifted(Read(s).1, s, 1);
  }

  /** A skipped comment leaves a byte stream no farther from the end. */
  lemma CommentProgress(s1: Stream)
    requires ByteStream(s1)
    ensures EofDistance(SkipLineComment(s1)) <= EofDistance(s1) && ByteStream(SkipLineComment(s1))
  {
    ByteStreamShifted(SkipLineComment(s1), s1, CommentLength(s1));
  }

  /** A word character starts a word that makes progress, if it is a valid word. */
  lemma WordStepProgress(s: Stream)
    requires ByteStream(s) && CharacterType(Peek(s, 0)) == AlphaNum
    requires FetchWord(PushBack(Read(s).1, Read(s).0)).Success?
    ensures EofDistance(FetchWord(PushBack(Read(s).1, Read(s).0)).value.1) < EofDistance(s)
    ensures ByteStream(FetchWord(PushBack(Read(s).1, Read(s).0)).value.1)
  {
    ReadPushBackAdvanced(s);
    WordProgress(PushBack(Read(s).1, Read(s).0), s);
  }

  /** An operator character starts an operator that makes progress, if it is one. */
  lemma OperatorStepProgress(s: Stream)
    requires ByteStream(s)
    requires FetchOperator(PushBack(Read(s).1, Read(s).0)).Success?
    ensures EofDistance(FetchOperator(PushBack(Read(s).1, Read(s).0)).value.1) < EofDistance(s)
    ensures ByteStream(FetchOperator(PushBack(Read(s).1, Read(s).0)).value.1)
  {
    ReadPushBackAdvanced(s);
    OperatorProgress(PushBack(Read(s).1, Read(s).0), s);
  }

  /** A `"` starts a string that makes progress, if it is closed. */
  lemma StringStepProgress(s: Stream)
    requires ByteStream(s) && CharacterType(Peek(s, 0)) != EndOfFile
    requires FetchString(Read(s).1).Success?
    ensures EofDistance(FetchString(Read(s).1).value.1) < EofDistance(s)
    ensures ByteStream(FetchString(Read(s).1).value.1)
  {
    EofDistanceShift(Read(s).1, s, 1);
    StringProgress(Read(s).1, s);
  }

  /**
   On a byte stream, every token but end of file consumes input: what is left lies
   strictly closer to the end, so reading tokens until end of file terminates.
   */
  lemma {:induction false} TokenizeProgress(s: Stream)
    requires ByteStream(s)
    requires Tokenize(s).Success? && !Tokenize(s).value.0.value.Eof?
    ensures EofDistance(Tokenize(s).value.1) < EofDistance(s)
    ensures ByteStream(Tokenize(s).value.1)
    decreases EofDistance(s)
  {
    var c := Read(s).0;
    match CharacterType(c)
    case EndOfFile =>
    case Space =>
      SkipOneProgress(s);
      TokenizeProgress(Read(s).1);
    case AlphaNum =>
      WordStepProgress(s);
    case Punct =>
      if c == '"' as int {
        StringStepProgress(s);
      } else if c == '#' as int {
        SkipOneProgress(s);
        CommentProgress(Read(s).1);
        TokenizeProgress(SkipLineComment(Read(s).1));
      } else {
        OperatorStepProgress(s);
      }
  }
}
