/**
 The reserved tokens of the language: operators and brackets, then keywords, with the
 spelling of each and the two tables that map spellings to tokens
 (libs/core/include/tone/core/tokens.hpp, libs/core/src/tone/core/tokens.cpp).
 */
module ReservedTokens {
  import opened Wrappers

  /** `reserved_token`, in enumeration order: operators and brackets, then keywords. */
  datatype ReservedToken =
      Inc
    | Dec
    | Add
    | Sub
    | Mul
    | Div
    | Mod
    | BitwiseNot
    | BitwiseAnd
    | BitwiseOr
    | BitwiseXor
    | ShiftL
    | ShiftR
    | Assign
    | AddAssign
    | SubAssign
    | MulAssign
    | DivAssign
    | ModAssign
    | LogicalNot
    | LogicalAnd
    | LogicalOr
    | Equal
    | NotEqual
    | Less
    | Greater
    | LessEqual
    | GreaterEqual
    | Comma
    | Semicolon
    | Colon
    | Scope
    | OpenParen
    | CloseParen
    | OpenCurly
    | CloseCurly
    | OpenSquare
    | CloseSquare
    | KwIf
    | KwElse
    | KwElif
    | KwFor
    | KwWhile
    | KwVar
    | KwFn
    | KwBreak
    | KwContinue
    | KwReturn
    | KwVoid
    | KwReal
    | KwInt
    | KwBool
    | KwStr
    | KwConstantTrue
    | KwConstantFalse
    | KwConstantNull
  {
    /** Operators and brackets come first in the enumeration, keywords after them. */
    predicate IsOperator() {
      Ordinal(this) < 38
    }
  }

  /** Position in the enumeration, which is how `reserved_token` values compare. */
  function Ordinal(t: ReservedToken): (n: nat)
    ensures n < 56
  {
    match t
    case Inc => 0
    case Dec => 1
    case Add => 2
    case Sub => 3
    case Mul => 4
    case Div => 5
    case Mod => 6
    case BitwiseNot => 7
    case BitwiseAnd => 8
    case BitwiseOr => 9
    case BitwiseXor => 10
    case ShiftL => 11
    case ShiftR => 12
    case Assign => 13
    case AddAssign => 14
    case SubAssign => 15
    case MulAssign => 16
    case DivAssign => 17
    case ModAssign => 18
    case LogicalNot => 19
    case LogicalAnd => 20
    case LogicalOr => 21
    case Equal => 22
    case NotEqual => 23
    case Less => 24
    case Greater => 25
    case LessEqual => 26
    case GreaterEqual => 27
    case Comma => 28
    case Semicolon => 29
    case Colon => 30
    case Scope => 31
    case OpenParen => 32
    case CloseParen => 33
    case OpenCurly => 34
    case CloseCurly => 35
    case OpenSquare => 36
    case CloseSquare => 37
    case KwIf => 38
    case KwElse => 39
    case KwElif => 40
    case KwFor => 41
    case KwWhile => 42
    case KwVar => 43
    case KwFn => 44
    case KwBreak => 45
    case KwContinue => 46
    case KwReturn => 47
    case KwVoid => 48
    case KwReal => 49
    case KwInt => 50
    case KwBool => 51
    case KwStr => 52
    case KwConstantTrue => 53
    case KwConstantFalse => 54
    case KwConstantNull => 55
  }

  /** How each reserved token is written, one case per token. */
  function Spelling(t: ReservedToken): string {
    match t
    case Inc => "++"
    case Dec => "--"
    case Add => "+"
    case Sub => "-"
    case Mul => "*"
    case Div => "/"
    case Mod => "%"
    case BitwiseNot => "~"
    case BitwiseAnd => "&"
    case BitwiseOr => "|"
    case BitwiseXor => "^"
    case ShiftL => "<<"
    case ShiftR => ">>"
    case Assign => "="
    case AddAssign => "+="
    case SubAssign => "-="
    case MulAssign => "*="
    case DivAssign => "/="
    case ModAssign => "%="
    case LogicalNot => "!"
    case LogicalAnd => "&&"
    case LogicalOr => "||"
    case Equal => "=="
    case NotEqual => "!="
    case Less => "<"
    case Greater => ">"
    case LessEqual => "<="
    case GreaterEqual => ">="
    case Comma => ","
    case Semicolon => ";"
    case Colon => ":"
    case Scope => "."
    case OpenParen => "("
    case CloseParen => ")"
    case OpenCurly => "{"
    case CloseCurly => "}"
    case OpenSquare => "["
    case CloseSquare => "]"
    case KwIf => "if"
    case KwElse => "else"
    case KwElif => "elif"
    case KwFor => "for"
    case KwWhile => "while"
    case KwVar => "var"
    case KwFn => "fn"
    case KwBreak => "break"
    case KwContinue => "continue"
    case KwReturn => "return"
    case KwVoid => "void"
    case KwReal => "real"
    case KwInt => "int"
    case KwBool => "bool"
    case KwStr => "str"
    case KwConstantTrue => "true"
    case KwConstantFalse => "false"
    case KwConstantNull => "null"
  }

  /** `operator_token_map`'s initialiser, in source order. */
  const OperatorEntries: seq<(string, ReservedToken)> := [
    ("++", Inc),
    ("--", Dec),
    ("+", Add),
    ("-", Sub),
    ("*", Mul),
    ("/", Div),
    ("%", Mod),
    ("~", BitwiseNot)
  ] + [
    ("&", BitwiseAnd),
    ("|", BitwiseOr),
    ("^", BitwiseXor),
    ("<<", ShiftL),
    (">>", ShiftR),
    ("=", Assign),
    ("+=", AddAssign),
    ("-=", SubAssign)
  ] + [
    ("*=", MulAssign),
    ("/=", DivAssign),
    ("%=", ModAssign),
    ("!", LogicalNot),
    ("&&", LogicalAnd),
    ("||", LogicalOr),
    ("==", Equal),
    ("!=", NotEqual)
  ] + [
    ("<", Less),
    ("<=", LessEqual),
    (">", Greater),
    (">=", GreaterEqual),
    (",", Comma),
    (";", Semicolon),
    (":", Colon),
    (".", Scope)
  ] + [
    ("(", OpenParen),
    (")", CloseParen),
    ("{", OpenCurly),
    ("}", CloseCurly),
    ("[", OpenSquare),
    ("]", CloseSquare)
  ]

  /** `keyword_token_map`'s initialiser, in source order. */
  const KeywordEntries: seq<(string, ReservedToken)> := [
    ("if", KwIf),
    ("else", KwElse),
    ("elif", KwElif),
    ("for", KwFor),
    ("while", KwWhile),
    ("var", KwVar),
    ("fn", KwFn),
    ("break", KwBreak)
  ] + [
    ("continue", KwContinue),
    ("return", KwReturn),
    ("void", KwVoid),
    ("real", KwReal),
    ("int", KwInt),
    ("bool", KwBool),
    ("str", KwStr),
    ("true", KwConstantTrue)
  ] + [
    ("false", KwConstantFalse),
    ("null", KwConstantNull)
  ]

  /** Characters that occur in operator and bracket spellings. */
  predicate IsOperatorChar(c: char) {
    match c
    case '+' | '-' | '*' | '/' | '%' | '~' | '&' | '|' | '^' | '=' | '!' | '<' | '>' => true
    case ',' | ';' | ':' | '.' | '(' | ')' | '{' | '}' | '[' | ']' => true
    case _ => false
  }

  /** A word of lower-case ASCII letters. */
  predicate IsLowerWord(w: string) {
    forall i :: 0 <= i < |w| ==> 'a' <= w[i] <= 'z'
  }

  /** Where each token stands in its table. */
  ghost predicate Listed(t: ReservedToken) {
    if t.IsOperator() then (Spelling(t), t) in OperatorEntries else (Spelling(t), t) in KeywordEntries
  }

  /** The shape of each spelling: one or two operator characters, or a lower-case word. */
  predicate WellSpelled(t: ReservedToken) {
    if t.IsOperator() then
      && 1 <= |Spelling(t)| <= 2
      && forall i :: 0 <= i < |Spelling(t)| ==> IsOperatorChar(Spelling(t)[i])
    else
      2 <= |Spelling(t)| && IsLowerWord(Spelling(t))
  }

  lemma OrdinalDistinct0(t: ReservedToken)
    requires 0 <= Ordinal(t) < 4
    ensures forall u :: Ordinal(u) == Ordinal(t) ==> u == t
  {
    match t
    case Inc =>
    case Dec =>
    case Add =>
    case Sub =>
    case _ =>
  }

  lemma OrdinalDistinct4(t: ReservedToken)
    requires 4 <= Ordinal(t) < 8
    ensures forall u :: Ordinal(u) == Ordinal(t) ==> u == t
  {
    match t
    case Mul =>
    case Div =>
    case Mod =>
    case BitwiseNot =>
    case _ =>
  }

  lemma OrdinalDistinct8(t: ReservedToken)
    requires 8 <= Ordinal(t) < 12
    ensures forall u :: Ordinal(u) == Ordinal(t) ==> u == t
  {
    match t
    case BitwiseAnd =>
    case BitwiseOr =>
    case BitwiseXor =>
    case ShiftL =>
    case _ =>
  }

  lemma OrdinalDistinct12(t: ReservedToken)
    requires 12 <= Ordinal(t) < 16
    ensures forall u :: Ordinal(u) == Ordinal(t) ==> u == t
  {
    match t
    case ShiftR =>
    case Assign =>
    case AddAssign =>
    case SubAssign =>
    case _ =>
  }

  lemma OrdinalDistinct16(t: ReservedToken)
    requires 16 <= Ordinal(t) < 20
    ensures forall u :: Ordinal(u) == Ordinal(t) ==> u == t
  {
    match t
    case MulAssign =>
    case DivAssign =>
    case ModAssign =>
    case LogicalNot =>
    case _ =>
  }

  lemma OrdinalDistinct20(t: ReservedToken)
    requires 20 <= Ordinal(t) < 24
    ensures forall u :: Ordinal(u) == Ordinal(t) ==> u == t
  {
    match t
    case LogicalAnd =>
    case LogicalOr =>
    case Equal =>
    case NotEqual =>
    case _ =>
  }

  lemma OrdinalDistinct24(t: ReservedToken)
    requires 24 <= Ordinal(t) < 28
    ensures forall u :: Ordinal(u) == Ordinal(t) ==> u == t
  {
    match t
    case Less =>
    case Greater =>
    case LessEqual =>
    case GreaterEqual =>
    case _ =>
  }

  lemma OrdinalDistinct28(t: ReservedToken)
    requires 28 <= Ordinal(t) < 32
    ensures forall u :: Ordinal(u) == Ordinal(t) ==> u == t
  {
    match t
    case Comma =>
    case Semicolon =>
    case Colon =>
    case Scope =>
    case _ =>
  }

  lemma OrdinalDistinct32(t: ReservedToken)
    requires 32 <= Ordinal(t) < 36
    ensures forall u :: Ordinal(u) == Ordinal(t) ==> u == t
  {
    match t
    case OpenParen =>
    case CloseParen =>
    case OpenCurly =>
    case CloseCurly =>
    case _ =>
  }

  lemma OrdinalDistinct36(t: ReservedToken)
    requires 36 <= Ordinal(t) < 40
    ensures forall u :: Ordinal(u) == Ordinal(t) ==> u == t
  {
    match t
    case OpenSquare =>
    case CloseSquare =>
    case KwIf =>
    case KwElse =>
    case _ =>
  }

  lemma OrdinalDistinct40(t: ReservedToken)
    requires 40 <= Ordinal(t) < 44
    ensures forall u :: Ordinal(u) == Ordinal(t) ==> u == t
  {
    match t
    case KwElif =>
    case KwFor =>
    case KwWhile =>
    case KwVar =>
    case _ =>
  }

  lemma OrdinalDistinct44(t: ReservedToken)
    requires 44 <= Ordinal(t) < 48
    ensures forall u :: Ordinal(u) == Ordinal(t) ==> u == t
  {
    match t
    case KwFn =>
    case KwBreak =>
    case KwContinue =>
    case KwReturn =>
    case _ =>
  }

  lemma OrdinalDistinct48(t: ReservedToken)
    requires 48 <= Ordinal(t) < 52
    ensures forall u :: Ordinal(u) == Ordinal(t) ==> u == t
  {
    match t
    case KwVoid =>
    case KwReal =>
    case KwInt =>
    case KwBool =>
    case _ =>
  }

  lemma OrdinalDistinct52(t: ReservedToken)
    requires 52 <= Ordinal(t) < 56
    ensures forall u :: Ordinal(u) == Ordinal(t) ==> u == t
  {
    match t
    case KwStr =>
    case KwConstantTrue =>
    case KwConstantFalse =>
    case KwConstantNull =>
    case _ =>
  }

  lemma OrdinalDistinctLow(t: ReservedToken)
    requires Ordinal(t) < 28
    ensures forall u :: Ordinal(u) == Ordinal(t) ==> u == t
  {
    if Ordinal(t) < 4 {
      OrdinalDistinct0(t);
    }
    else if Ordinal(t) < 8 {
      OrdinalDistinct4(t);
    }
    else if Ordinal(t) < 12 {
      OrdinalDistinct8(t);
    }
    else if Ordinal(t) < 16 {
      OrdinalDistinct12(t);
    }
    else if Ordinal(t) < 20 {
      OrdinalDistinct16(t);
    }
    else if Ordinal(t) < 24 {
      OrdinalDistinct20(t);
    }
    else {
      OrdinalDistinct24(t);
    }
  }

  lemma OrdinalDistinctHigh(t: ReservedToken)
    requires 28 <= Ordinal(t)
    ensures forall u :: Ordinal(u) == Ordinal(t) ==> u == t
  {
    if Ordinal(t) < 32 {
      OrdinalDistinct28(t);
    }
    else if Ordinal(t) < 36 {
      OrdinalDistinct32(t);
    }
    else if Ordinal(t) < 40 {
      OrdinalDistinct36(t);
    }
    else if Ordinal(t) < 44 {
      OrdinalDistinct40(t);
    }
    else if Ordinal(t) < 48 {
      OrdinalDistinct44(t);
    }
    else if Ordinal(t) < 52 {
      OrdinalDistinct48(t);
    }
    else {
      OrdinalDistinct52(t);
    }
  }

  lemma SpellingDistinct0(t: ReservedToken)
    requires 0 <= Ordinal(t) < 4
    ensures forall u :: Spelling(u) == Spelling(t) ==> u == t
  {
    match t
    case Inc =>
    case Dec =>
    case Add =>
    case Sub =>
    case _ =>
  }

  lemma SpellingDistinct4(t: ReservedToken)
    requires 4 <= Ordinal(t) < 8
    ensures forall u :: Spelling(u) == Spelling(t) ==> u == t
  {
    match t
    case Mul =>
    case Div =>
    case Mod =>
    case BitwiseNot =>
    case _ =>
  }

  lemma SpellingDistinct8(t: ReservedToken)
    requires 8 <= Ordinal(t) < 12
    ensures forall u :: Spelling(u) == Spelling(t) ==> u == t
  {
    match t
    case BitwiseAnd =>
    case BitwiseOr =>
    case BitwiseXor =>
    case ShiftL =>
    case _ =>
  }

  lemma SpellingDistinct12(t: ReservedToken)
    requires 12 <= Ordinal(t) < 16
    ensures forall u :: Spelling(u) == Spelling(t) ==> u == t
  {
    match t
    case ShiftR =>
    case Assign =>
    case AddAssign =>
    case SubAssign =>
    case _ =>
  }

  lemma SpellingDistinct16(t: ReservedToken)
    requires 16 <= Ordinal(t) < 20
    ensures forall u :: Spelling(u) == Spelling(t) ==> u == t
  {
    match t
    case MulAssign =>
    case DivAssign =>
    case ModAssign =>
    case LogicalNot =>
    case _ =>
  }

  lemma SpellingDistinct20(t: ReservedToken)
    requires 20 <= Ordinal(t) < 24
    ensures forall u :: Spelling(u) == Spelling(t) ==> u == t
  {
    match t
    case LogicalAnd =>
    case LogicalOr =>
    case Equal =>
    case NotEqual =>
    case _ =>
  }

  lemma SpellingDistinct24(t: ReservedToken)
    requires 24 <= Ordinal(t) < 28
    ensures forall u :: Spelling(u) == Spelling(t) ==> u == t
  {
    match t
    case Less =>
    case Greater =>
    case LessEqual =>
    case GreaterEqual =>
    case _ =>
  }

  lemma SpellingDistinct28(t: ReservedToken)
    requires 28 <= Ordinal(t) < 32
    ensures forall u :: Spelling(u) == Spelling(t) ==> u == t
  {
    match t
    case Comma =>
    case Semicolon =>
    case Colon =>
    case Scope =>
    case _ =>
  }

  lemma SpellingDistinct32(t: ReservedToken)
    requires 32 <= Ordinal(t) < 36
    ensures forall u :: Spelling(u) == Spelling(t) ==> u == t
  {
    match t
    case OpenParen =>
    case CloseParen =>
    case OpenCurly =>
    case CloseCurly =>
    case _ =>
  }

  lemma SpellingDistinct36(t: ReservedToken)
    requires 36 <= Ordinal(t) < 40
    ensures forall u :: Spelling(u) == Spelling(t) ==> u == t
  {
    match t
    case OpenSquare =>
    case CloseSquare =>
    case KwIf =>
    case KwElse =>
    case _ =>
  }

  lemma SpellingDistinct40(t: ReservedToken)
    requires 40 <= Ordinal(t) < 44
    ensures forall u :: Spelling(u) == Spelling(t) ==> u == t
  {
    match t
    case KwElif =>
    case KwFor =>
    case KwWhile =>
    case KwVar =>
    case _ =>
  }

  lemma SpellingDistinct44(t: ReservedToken)
    requires 44 <= Ordinal(t) < 48
    ensures forall u :: Spelling(u) == Spelling(t) ==> u == t
  {
    match t
    case KwFn =>
    case KwBreak =>
    case KwContinue =>
    case KwReturn =>
    case _ =>
  }

  lemma SpellingDistinct48(t: ReservedToken)
    requires 48 <= Ordinal(t) < 52
    ensures forall u :: Spelling(u) == Spelling(t) ==> u == t
  {
    match t
    case KwVoid =>
    case KwReal =>
    case KwInt =>
    case KwBool =>
    case _ =>
  }

  lemma SpellingDistinct52(t: ReservedToken)
    requires 52 <= Ordinal(t) < 56
    ensures forall u :: Spelling(u) == Spelling(t) ==> u == t
  {
    match t
    case KwStr =>
    case KwConstantTrue =>
    case KwConstantFalse =>
    case KwConstantNull =>
    case _ =>
  }

  lemma SpellingDistinctLow(t: ReservedToken)
    requires Ordinal(t) < 28
    ensures forall u :: Spelling(u) == Spelling(t) ==> u == t
  {
    if Ordinal(t) < 4 {
      SpellingDistinct0(t);
    }
    else if Ordinal(t) < 8 {
      SpellingDistinct4(t);
    }
    else if Ordinal(t) < 12 {
      SpellingDistinct8(t);
    }
    else if Ordinal(t) < 16 {
      SpellingDistinct12(t);
    }
    else if Ordinal(t) < 20 {
      SpellingDistinct16(t);
    }
    else if Ordinal(t) < 24 {
      SpellingDistinct20(t);
    }
    else {
      SpellingDistinct24(t);
    }
  }

  lemma SpellingDistinctHigh(t: ReservedToken)
    requires 28 <= Ordinal(t)
    ensures forall u :: Spelling(u) == Spelling(t) ==> u == t
  {
    if Ordinal(t) < 32 {
      SpellingDistinct28(t);
    }
    else if Ordinal(t) < 36 {
      SpellingDistinct32(t);
    }
    else if Ordinal(t) < 40 {
      SpellingDistinct36(t);
    }
    else if Ordinal(t) < 44 {
      SpellingDistinct40(t);
    }
    else if Ordinal(t) < 48 {
      SpellingDistinct44(t);
    }
    else if Ordinal(t) < 52 {
      SpellingDistinct48(t);
    }
    else {
      SpellingDistinct52(t);
    }
  }

  lemma ListedCases0(t: ReservedToken)
    requires 0 <= Ordinal(t) < 4
    ensures Listed(t)
  {
    match t
    case Inc => assert OperatorEntries[0] == (Spelling(t), t);
    case Dec => assert OperatorEntries[1] == (Spelling(t), t);
    case Add => assert OperatorEntries[2] == (Spelling(t), t);
    case Sub => assert OperatorEntries[3] == (Spelling(t), t);
    case _ =>
  }

  lemma ListedCases4(t: ReservedToken)
    requires 4 <= Ordinal(t) < 8
    ensures Listed(t)
  {
    match t
    case Mul => assert OperatorEntries[4] == (Spelling(t), t);
    case Div => assert OperatorEntries[5] == (Spelling(t), t);
    case Mod => assert OperatorEntries[6] == (Spelling(t), t);
    case BitwiseNot => assert OperatorEntries[7] == (Spelling(t), t);
    case _ =>
  }

  lemma ListedCases8(t: ReservedToken)
    requires 8 <= Ordinal(t) < 12
    ensures Listed(t)
  {
    match t
    case BitwiseAnd => assert OperatorEntries[8] == (Spelling(t), t);
    case BitwiseOr => assert OperatorEntries[9] == (Spelling(t), t);
    case BitwiseXor => assert OperatorEntries[10] == (Spelling(t), t);
    case ShiftL => assert OperatorEntries[11] == (Spelling(t), t);
    case _ =>
  }

  lemma ListedCases12(t: ReservedToken)
    requires 12 <= Ordinal(t) < 16
    ensures Listed(t)
  {
    match t
    case ShiftR => assert OperatorEntries[12] == (Spelling(t), t);
    case Assign => assert OperatorEntries[13] == (Spelling(t), t);
    case AddAssign => assert OperatorEntries[14] == (Spelling(t), t);
    case SubAssign => assert OperatorEntries[15] == (Spelling(t), t);
    case _ =>
  }

  lemma ListedCases16(t: ReservedToken)
    requires 16 <= Ordinal(t) < 20
    ensures Listed(t)
  {
    match t
    case MulAssign => assert OperatorEntries[16] == (Spelling(t), t);
    case DivAssign => assert OperatorEntries[17] == (Spelling(t), t);
    case ModAssign => assert OperatorEntries[18] == (Spelling(t), t);
    case LogicalNot => assert OperatorEntries[19] == (Spelling(t), t);
    case _ =>
  }

  lemma ListedCases20(t: ReservedToken)
    requires 20 <= Ordinal(t) < 24
    ensures Listed(t)
  {
    match t
    case LogicalAnd => assert OperatorEntries[20] == (Spelling(t), t);
    case LogicalOr => assert OperatorEntries[21] == (Spelling(t), t);
    case Equal => assert OperatorEntries[22] == (Spelling(t), t);
    case NotEqual => assert OperatorEntries[23] == (Spelling(t), t);
    case _ =>
  }

  lemma ListedCases24(t: ReservedToken)
    requires 24 <= Ordinal(t) < 28
    ensures Listed(t)
  {
    match t
    case Less => assert OperatorEntries[24] == (Spelling(t), t);
    case Greater => assert OperatorEntries[26] == (Spelling(t), t);
    case LessEqual => assert OperatorEntries[25] == (Spelling(t), t);
    case GreaterEqual => assert OperatorEntries[27] == (Spelling(t), t);
    case _ =>
  }

  lemma ListedCases28(t: ReservedToken)
    requires 28 <= Ordinal(t) < 32
    ensures Listed(t)
  {
    match t
    case Comma => assert OperatorEntries[28] == (Spelling(t), t);
    case Semicolon => assert OperatorEntries[29] == (Spelling(t), t);
    case Colon => assert OperatorEntries[30] == (Spelling(t), t);
    case Scope => assert OperatorEntries[31] == (Spelling(t), t);
    case _ =>
  }

  lemma ListedCases32(t: ReservedToken)
    requires 32 <= Ordinal(t) < 36
    ensures Listed(t)
  {
    match t
    case OpenParen => assert OperatorEntries[32] == (Spelling(t), t);
    case CloseParen => assert OperatorEntries[33] == (Spelling(t), t);
    case OpenCurly => assert OperatorEntries[34] == (Spelling(t), t);
    case CloseCurly => assert OperatorEntries[35] == (Spelling(t), t);
    case _ =>
  }

  lemma ListedCases36(t: ReservedToken)
    requires 36 <= Ordinal(t) < 40
    ensures Listed(t)
  {
    match t
    case OpenSquare => assert OperatorEntries[36] == (Spelling(t), t);
    case CloseSquare => assert OperatorEntries[37] == (Spelling(t), t);
    case KwIf => assert KeywordEntries[0] == (Spelling(t), t);
    case KwElse => assert KeywordEntries[1] == (Spelling(t), t);
    case _ =>
  }

  lemma ListedCases40(t: ReservedToken)
    requires 40 <= Ordinal(t) < 44
    ensures Listed(t)
  {
    match t
    case KwElif => assert KeywordEntries[2] == (Spelling(t), t);
    case KwFor => assert KeywordEntries[3] == (Spelling(t), t);
    case KwWhile => assert KeywordEntries[4] == (Spelling(t), t);
    case KwVar => assert KeywordEntries[5] == (Spelling(t), t);
    case _ =>
  }

  lemma ListedCases44(t: ReservedToken)
    requires 44 <= Ordinal(t) < 48
    ensures Listed(t)
  {
    match t
    case KwFn => assert KeywordEntries[6] == (Spelling(t), t);
    case KwBreak => assert KeywordEntries[7] == (Spelling(t), t);
    case KwContinue => assert KeywordEntries[8] == (Spelling(t), t);
    case KwReturn => assert KeywordEntries[9] == (Spelling(t), t);
    case _ =>
  }

  lemma ListedCases48(t: ReservedToken)
    requires 48 <= Ordinal(t) < 52
    ensures Listed(t)
  {
    match t
    case KwVoid => assert KeywordEntries[10] == (Spelling(t), t);
    case KwReal => assert KeywordEntries[11] == (Spelling(t), t);
    case KwInt => assert KeywordEntries[12] == (Spelling(t), t);
    case KwBool => assert KeywordEntries[13] == (Spelling(t), t);
    case _ =>
  }

  lemma ListedCases52(t: ReservedToken)
    requires 52 <= Ordinal(t) < 56
    ensures Listed(t)
  {
    match t
    case KwStr => assert KeywordEntries[14] == (Spelling(t), t);
    case KwConstantTrue => assert KeywordEntries[15] == (Spelling(t), t);
    case KwConstantFalse => assert KeywordEntries[16] == (Spelling(t), t);
    case KwConstantNull => assert KeywordEntries[17] == (Spelling(t), t);
    case _ =>
  }

  lemma ListedCasesLow(t: ReservedToken)
    requires Ordinal(t) < 28
    ensures Listed(t)
  {
    if Ordinal(t) < 4 {
      ListedCases0(t);
    }
    else if Ordinal(t) < 8 {
      ListedCases4(t);
    }
    else if Ordinal(t) < 12 {
      ListedCases8(t);
    }
    else if Ordinal(t) < 16 {
      ListedCases12(t);
    }
    else if Ordinal(t) < 20 {
      ListedCases16(t);
    }
    else if Ordinal(t) < 24 {
      ListedCases20(t);
    }
    else {
      ListedCases24(t);
    }
  }

  lemma ListedCasesHigh(t: ReservedToken)
    requires 28 <= Ordinal(t)
    ensures Listed(t)
  {
    if Ordinal(t) < 32 {
      ListedCases28(t);
    }
    else if Ordinal(t) < 36 {
      ListedCases32(t);
    }
    else if Ordinal(t) < 40 {
      ListedCases36(t);
    }
    else if Ordinal(t) < 44 {
      ListedCases40(t);
    }
    else if Ordinal(t) < 48 {
      ListedCases44(t);
    }
    else if Ordinal(t) < 52 {
      ListedCases48(t);
    }
    else {
      ListedCases52(t);
    }
  }

  lemma WellSpelledCases0(t: ReservedToken)
    requires 0 <= Ordinal(t) < 4
    ensures WellSpelled(t)
  {
    match t
    case Inc =>
    case Dec =>
    case Add =>
    case Sub =>
    case _ =>
  }

  lemma WellSpelledCases4(t: ReservedToken)
    requires 4 <= Ordinal(t) < 8
    ensures WellSpelled(t)
  {
    match t
    case Mul =>
    case Div =>
    case Mod =>
    case BitwiseNot =>
    case _ =>
  }

  lemma WellSpelledCases8(t: ReservedToken)
    requires 8 <= Ordinal(t) < 12
    ensures WellSpelled(t)
  {
    match t
    case BitwiseAnd =>
    case BitwiseOr =>
    case BitwiseXor =>
    case ShiftL =>
    case _ =>
  }

  lemma WellSpelledCases12(t: ReservedToken)
    requires 12 <= Ordinal(t) < 16
    ensures WellSpelled(t)
  {
    match t
    case ShiftR =>
    case Assign =>
    case AddAssign =>
    case SubAssign =>
    case _ =>
  }

  lemma WellSpelledCases16(t: ReservedToken)
    requires 16 <= Ordinal(t) < 20
    ensures WellSpelled(t)
  {
    match t
    case MulAssign =>
    case DivAssign =>
    case ModAssign =>
    case LogicalNot =>
    case _ =>
  }

  lemma WellSpelledCases20(t: ReservedToken)
    requires 20 <= Ordinal(t) < 24
    ensures WellSpelled(t)
  {
    match t
    case LogicalAnd =>
    case LogicalOr =>
    case Equal =>
    case NotEqual =>
    case _ =>
  }

  lemma WellSpelledCases24(t: ReservedToken)
    requires 24 <= Ordinal(t) < 28
    ensures WellSpelled(t)
  {
    match t
    case Less =>
    case Greater =>
    case LessEqual =>
    case GreaterEqual =>
    case _ =>
  }

  lemma WellSpelledCases28(t: ReservedToken)
    requires 28 <= Ordinal(t) < 32
    ensures WellSpelled(t)
  {
    match t
    case Comma =>
    case Semicolon =>
    case Colon =>
    case Scope =>
    case _ =>
  }

  lemma WellSpelledCases32(t: ReservedToken)
    requires 32 <= Ordinal(t) < 36
    ensures WellSpelled(t)
  {
    match t
    case OpenParen =>
    case CloseParen =>
    case OpenCurly =>
    case CloseCurly =>
    case _ =>
  }

  lemma WellSpelledCases36(t: ReservedToken)
    requires 36 <= Ordinal(t) < 40
    ensures WellSpelled(t)
  {
    match t
    case OpenSquare =>
    case CloseSquare =>
    case KwIf =>
    case KwElse =>
    case _ =>
  }

  lemma WellSpelledCases40(t: ReservedToken)
    requires 40 <= Ordinal(t) < 44
    ensures WellSpelled(t)
  {
    match t
    case KwElif =>
    case KwFor =>
    case KwWhile =>
    case KwVar =>
    case _ =>
  }

  lemma WellSpelledCases44(t: ReservedToken)
    requires 44 <= Ordinal(t) < 48
    ensures WellSpelled(t)
  {
    match t
    case KwFn =>
    case KwBreak =>
    case KwContinue =>
    case KwReturn =>
    case _ =>
  }

  lemma WellSpelledCases48(t: ReservedToken)
    requires 48 <= Ordinal(t) < 52
    ensures WellSpelled(t)
  {
    match t
    case KwVoid =>
    case KwReal =>
    case KwInt =>
    case KwBool =>
    case _ =>
  }

  lemma WellSpelledCases52(t: ReservedToken)
    requires 52 <= Ordinal(t) < 56
    ensures WellSpelled(t)
  {
    match t
    case KwStr =>
    case KwConstantTrue =>
    case KwConstantFalse =>
    case KwConstantNull =>
    case _ =>
  }

  lemma WellSpelledCasesLow(t: ReservedToken)
    requires Ordinal(t) < 28
    ensures WellSpelled(t)
  {
    if Ordinal(t) < 4 {
      WellSpelledCases0(t);
    }
    else if Ordinal(t) < 8 {
      WellSpelledCases4(t);
    }
    else if Ordinal(t) < 12 {
      WellSpelledCases8(t);
    }
    else if Ordinal(t) < 16 {
      WellSpelledCases12(t);
    }
    else if Ordinal(t) < 20 {
      WellSpelledCases16(t);
    }
    else if Ordinal(t) < 24 {
      WellSpelledCases20(t);
    }
    else {
      WellSpelledCases24(t);
    }
  }

  lemma WellSpelledCasesHigh(t: ReservedToken)
    requires 28 <= Ordinal(t)
    ensures WellSpelled(t)
  {
    if Ordinal(t) < 32 {
      WellSpelledCases28(t);
    }
    else if Ordinal(t) < 36 {
      WellSpelledCases32(t);
    }
    else if Ordinal(t) < 40 {
      WellSpelledCases36(t);
    }
    else if Ordinal(t) < 44 {
      WellSpelledCases40(t);
    }
    else if Ordinal(t) < 48 {
      WellSpelledCases44(t);
    }
    else if Ordinal(t) < 52 {
      WellSpelledCases48(t);
    }
    else {
      WellSpelledCases52(t);
    }
  }

  /** Distinct tokens have distinct positions in the enumeration. */
  lemma OrdinalInjective(t: ReservedToken, u: ReservedToken)
    ensures Ordinal(u) == Ordinal(t) ==> u == t
  {
    if Ordinal(t) < 28 {
      OrdinalDistinctLow(t);
    } else {
      OrdinalDistinctHigh(t);
    }
  }

  /** No two tokens are spelled alike. */
  lemma SpellingInjective(t: ReservedToken, u: ReservedToken)
    ensures Spelling(u) == Spelling(t) ==> u == t
  {
    if Ordinal(t) < 28 {
      SpellingDistinctLow(t);
    } else {
      SpellingDistinctHigh(t);
    }
  }

  /** Every operator is in the operator table and every keyword in the keyword table. */
  lemma EveryTokenListed(t: ReservedToken)
    ensures Listed(t)
  {
    if Ordinal(t) < 28 {
      ListedCasesLow(t);
    } else {
      ListedCasesHigh(t);
    }
  }

  /** Every spelling has the shape of an operator or of a keyword, as the token is one or the other. */
  lemma EveryTokenWellSpelled(t: ReservedToken)
    ensures WellSpelled(t)
  {
    if Ordinal(t) < 28 {
      WellSpelledCasesLow(t);
    } else {
      WellSpelledCasesHigh(t);
    }
  }

  /** An entry pairs a token with its spelling, and the token is an operator or a keyword as given. */
  predicate SpelledEntry(e: (string, ReservedToken), operator: bool) {
    e.0 == Spelling(e.1) && e.1.IsOperator() == operator
  }

  lemma OperatorEntriesSpelled0(i: nat)
    requires 0 <= i < 4
    ensures SpelledEntry(OperatorEntries[i], true)
  {
    if i == 0 {
    } else if i == 1 {
    } else if i == 2 {
    } else {
    }
  }

  lemma OperatorEntriesSpelled4(i: nat)
    requires 4 <= i < 8
    ensures SpelledEntry(OperatorEntries[i], true)
  {
    if i == 4 {
    } else if i == 5 {
    } else if i == 6 {
    } else {
    }
  }

  lemma OperatorEntriesSpelled8(i: nat)
    requires 8 <= i < 12
    ensures SpelledEntry(OperatorEntries[i], true)
  {
    if i == 8 {
    } else if i == 9 {
    } else if i == 10 {
    } else {
    }
  }

  lemma OperatorEntriesSpelled12(i: nat)
    requires 12 <= i < 16
    ensures SpelledEntry(OperatorEntries[i], true)
  {
    if i == 12 {
    } else if i == 13 {
    } else if i == 14 {
    } else {
    }
  }

  lemma OperatorEntriesSpelled16(i: nat)
    requires 16 <= i < 20
    ensures SpelledEntry(OperatorEntries[i], true)
  {
    if i == 16 {
    } else if i == 17 {
    } else if i == 18 {
    } else {
    }
  }

  lemma OperatorEntriesSpelled20(i: nat)
    requires 20 <= i < 24
    ensures SpelledEntry(OperatorEntries[i], true)
  {
    if i == 20 {
    } else if i == 21 {
    } else if i == 22 {
    } else {
    }
  }

  lemma OperatorEntriesSpelled24(i: nat)
    requires 24 <= i < 28
    ensures SpelledEntry(OperatorEntries[i], true)
  {
    if i == 24 {
    } else if i == 25 {
    } else if i == 26 {
    } else {
    }
  }

  lemma OperatorEntriesSpelled28(i: nat)
    requires 28 <= i < 32
    ensures SpelledEntry(OperatorEntries[i], true)
  {
    if i == 28 {
    } else if i == 29 {
    } else if i == 30 {
    } else {
    }
  }

  lemma OperatorEntriesSpelled32(i: nat)
    requires 32 <= i < 36
    ensures SpelledEntry(OperatorEntries[i], true)
  {
    if i == 32 {
    } else if i == 33 {
    } else if i == 34 {
    } else {
    }
  }

  lemma OperatorEntriesSpelled36(i: nat)
    requires 36 <= i < 38
    ensures SpelledEntry(OperatorEntries[i], true)
  {
    if i == 36 {
    } else {
    }
  }

  lemma KeywordEntriesSpelled0(i: nat)
    requires 0 <= i < 2
    ensures SpelledEntry(KeywordEntries[i], false)
  {
    if i == 0 {
    } else {
    }
  }

  lemma KeywordEntriesSpelled2(i: nat)
    requires 2 <= i < 4
    ensures SpelledEntry(KeywordEntries[i], false)
  {
    if i == 2 {
    } else {
    }
  }

  lemma KeywordEntriesSpelled4(i: nat)
    requires 4 <= i < 6
    ensures SpelledEntry(KeywordEntries[i], false)
  {
    if i == 4 {
    } else {
    }
  }

  lemma KeywordEntriesSpelled6(i: nat)
    requires 6 <= i < 8
    ensures SpelledEntry(KeywordEntries[i], false)
  {
    if i == 6 {
    } else {
    }
  }

  lemma KeywordEntriesSpelled8(i: nat)
    requires 8 <= i < 10
    ensures SpelledEntry(KeywordEntries[i], false)
  {
    if i == 8 {
    } else {
    }
  }

  lemma KeywordEntriesSpelled10(i: nat)
    requires 10 <= i < 12
    ensures SpelledEntry(KeywordEntries[i], false)
  {
    if i == 10 {
    } else {
    }
  }

  lemma KeywordEntriesSpelled12(i: nat)
    requires 12 <= i < 14
    ensures SpelledEntry(KeywordEntries[i], false)
  {
    if i == 12 {
    } else {
    }
  }

  lemma KeywordEntriesSpelled14(i: nat)
    requires 14 <= i < 16
    ensures SpelledEntry(KeywordEntries[i], false)
  {
    if i == 14 {
    } else {
    }
  }

  lemma KeywordEntriesSpelled16(i: nat)
    requires 16 <= i < 18
    ensures SpelledEntry(KeywordEntries[i], false)
  {
    if i == 16 {
    } else {
    }
  }

  /** Every entry of the two tables pairs a token with its own spelling. */
  lemma EntriesSpelled()
    ensures forall i :: 0 <= i < |OperatorEntries| ==> SpelledEntry(OperatorEntries[i], true)
    ensures forall i :: 0 <= i < |KeywordEntries| ==> SpelledEntry(KeywordEntries[i], false)
  {
    forall i | 0 <= i < |OperatorEntries| ensures SpelledEntry(OperatorEntries[i], true) {
      if i < 4 {
        OperatorEntriesSpelled0(i);
      } else if i < 8 {
        OperatorEntriesSpelled4(i);
      } else if i < 12 {
        OperatorEntriesSpelled8(i);
      } else if i < 16 {
        OperatorEntriesSpelled12(i);
      } else if i < 20 {
        OperatorEntriesSpelled16(i);
      } else if i < 24 {
        OperatorEntriesSpelled20(i);
      } else if i < 28 {
        OperatorEntriesSpelled24(i);
      } else if i < 32 {
        OperatorEntriesSpelled28(i);
      } else if i < 36 {
        OperatorEntriesSpelled32(i);
      } else {
        OperatorEntriesSpelled36(i);
      }
    }
    forall i | 0 <= i < |KeywordEntries| ensures SpelledEntry(KeywordEntries[i], false) {
      if i < 2 {
        KeywordEntriesSpelled0(i);
      } else if i < 4 {
        KeywordEntriesSpelled2(i);
      } else if i < 6 {
        KeywordEntriesSpelled4(i);
      } else if i < 8 {
        KeywordEntriesSpelled6(i);
      } else if i < 10 {
        KeywordEntriesSpelled8(i);
      } else if i < 12 {
        KeywordEntriesSpelled10(i);
      } else if i < 14 {
        KeywordEntriesSpelled12(i);
      } else if i < 16 {
        KeywordEntriesSpelled14(i);
      } else {
        KeywordEntriesSpelled16(i);
      }
    }
  }

}