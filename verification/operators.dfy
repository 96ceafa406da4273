/**
 The operator tables of libs/core/src/tone/core/expression_parser.cpp: each operation's
 precedence level, associativity and operand count, the reading of a reserved token as an
 operator, where an expression ends, and which of two operators is evaluated first.
 */
module Operators {
  import opened Wrappers
  import opened PushBackStream
  import opened Errors
  import opened ExpressionTree
  import R = ReservedTokens
  import Tokens

  /** `operator_precedence`, tightest first. */
  datatype Precedence =
    | Postfix | Prefix | Multiplication | Addition | Shift | Comparison | Equality
    | BitwiseAndLevel | BitwiseXorLevel | BitwiseOrLevel | LogicalAndLevel | LogicalOrLevel
    | Assignment | CommaLevel

  /** The position of a level in the enumeration, which is how levels compare. */
  function Level(p: Precedence): (n: nat)
    ensures n < 14
  {
    match p
    case Postfix => 0
    case Prefix => 1
    case Multiplication => 2
    case Addition => 3
    case Shift => 4
    case Comparison => 5
    case Equality => 6
    case BitwiseAndLevel => 7
    case BitwiseXorLevel => 8
    case BitwiseOrLevel => 9
    case LogicalAndLevel => 10
    case LogicalOrLevel => 11
    case Assignment => 12
    case CommaLevel => 13
  }

  /** Distinct levels have distinct positions. */
  lemma LevelInjective(p: Precedence, q: Precedence)
    ensures Level(p) == Level(q) <==> p == q
  {
  }

  /** `operator_associativity`. */
  datatype Associativity = LeftToRight | RightToLeft

  /** `operator_info`. */
  datatype OperatorInfo = OperatorInfo(operation: NodeOperation, precedence: Precedence,
                                       associativity: Associativity, nOperands: nat,
                                       lineNumber: SizeT, charIndex: SizeT)

  /** The first switch of the `operator_info` constructor. */
  function PrecedenceOf(op: NodeOperation): Precedence {
    match op
    case Param | PostIncrement | PostDecrement | Index | Call => Postfix
    case PreIncrement | PreDecrement | UnaryPlus | UnaryMinus | BitwiseNot | LogicalNot => Prefix
    case Mul | Div | Mod => Multiplication
    case Add | Sub => Addition
    case ShiftL | ShiftR => Shift
    case Less | Greater | LessEqual | GreaterEqual => Comparison
    case Equal | NotEqual => Equality
    case BitwiseAnd => BitwiseAndLevel
    case BitwiseXor => BitwiseXorLevel
    case BitwiseOr => BitwiseOrLevel
    case LogicalAnd => LogicalAndLevel
    case LogicalOr => LogicalOrLevel
    case Assign | AddAssign | SubAssign | MulAssign | DivAssign | ModAssign => Assignment
    case Comma => CommaLevel
  }

  /** The second switch: prefix operators and assignments group from the right. */
  function AssociativityOf(p: Precedence): Associativity {
    if p == Prefix || p == Assignment then RightToLeft else LeftToRight
  }

  /** The third switch: unary operators and `call` start with one operand, the rest with two. */
  function OperandCount(op: NodeOperation): nat {
    match op
    case PostIncrement | PostDecrement | PreIncrement | PreDecrement
       | UnaryPlus | UnaryMinus | BitwiseNot | LogicalNot | Call => 1
    case _ => 2
  }

  /** The `operator_info` constructor. */
  function MakeInfo(op: NodeOperation, lineNumber: SizeT, charIndex: SizeT): (oi: OperatorInfo)
    ensures oi.operation == op && oi.lineNumber == lineNumber && oi.charIndex == charIndex
    ensures oi.nOperands >= MinChildren(op) && oi.nOperands >= 1
  {
    var p := PrecedenceOf(op);
    OperatorInfo(op, p, AssociativityOf(p), OperandCount(op), lineNumber, charIndex)
  }

  /** An operator on the stack has at least as many operands as its node needs. */
  predicate Fits(oi: OperatorInfo) {
    oi.nOperands >= MinChildren(oi.operation) && oi.nOperands >= 1
  }

  /** The operations `get_operator_info` can produce: all but `param`. */
  predicate IsParsedOperation(op: NodeOperation) {
    op != NodeOperation.Param
  }

  /**
   The table facts: the unary operators are exactly the prefix level and the postfix
   increments; only prefix operators and assignments group from the right; and an
   operation read from a token starts with two operands unless it is unary or a call.
   */
  lemma TableFacts(op: NodeOperation)
    ensures PrecedenceOf(op) == Prefix <==>
              op in {PreIncrement, PreDecrement, UnaryPlus, UnaryMinus, BitwiseNot, LogicalNot}
    ensures AssociativityOf(PrecedenceOf(op)) == RightToLeft <==>
              PrecedenceOf(op) == Prefix || op in {Assign, AddAssign, SubAssign, MulAssign, DivAssign, ModAssign}
    ensures OperandCount(op) == 1 <==> PrecedenceOf(op) == Prefix || op in {PostIncrement, PostDecrement, Call}
    ensures OperandCount(op) == 2 <==> OperandCount(op) != 1
  {
  }

  /** Postfix operators bind tightest and the comma loosest. */
  lemma PostfixTightestCommaLoosest(op: NodeOperation)
    ensures Level(PrecedenceOf(NodeOperation.Call)) <= Level(PrecedenceOf(op)) <= Level(PrecedenceOf(NodeOperation.Comma))
    ensures op != NodeOperation.Comma ==> Level(PrecedenceOf(op)) < Level(PrecedenceOf(NodeOperation.Comma))
  {
  }

  /**
   The error for a token that has no meaning where it stands. The function that builds it
   is not part of this model, so only its position is meaningful.
   */
  function UnexpectedSyntaxError(text: string, lineNumber: SizeT, charIndex: SizeT): (e: Error)
    ensures e.lineNumber == lineNumber && e.charIndex == charIndex
  {
    Error(text, lineNumber, charIndex)
  }

  /** The text naming a reserved token in an error. The function that builds it is not part of this model. */
  function DumpReservedToken(t: R.ReservedToken): string {
    ""
  }

  /** The operation an operator token stands for, with `prefix` telling which reading is wanted. */
  function OperationOf(tok: R.ReservedToken, prefix: bool): Option<NodeOperation> {
    match tok
    case Inc => Some(if prefix then PreIncrement else PostIncrement)
    case Dec => Some(if prefix then PreDecrement else PostDecrement)
    case Add => Some(if prefix then UnaryPlus else NodeOperation.Add)
    case Sub => Some(if prefix then UnaryMinus else NodeOperation.Sub)
    case Mul => Some(NodeOperation.Mul)
    case Div => Some(NodeOperation.Div)
    case Mod => Some(NodeOperation.Mod)
    case BitwiseNot => Some(NodeOperation.BitwiseNot)
    case BitwiseAnd => Some(NodeOperation.BitwiseAnd)
    case BitwiseOr => Some(NodeOperation.BitwiseOr)
    case BitwiseXor => Some(NodeOperation.BitwiseXor)
    case ShiftL => Some(NodeOperation.ShiftL)
    case ShiftR => Some(NodeOperation.ShiftR)
    case Assign => Some(NodeOperation.Assign)
    case AddAssign => Some(NodeOperation.AddAssign)
    case SubAssign => Some(NodeOperation.SubAssign)
    case MulAssign => Some(NodeOperation.MulAssign)
    case DivAssign => Some(NodeOperation.DivAssign)
    case ModAssign => Some(NodeOperation.ModAssign)
    case LogicalNot => Some(NodeOperation.LogicalNot)
    case LogicalAnd => Some(NodeOperation.LogicalAnd)
    case LogicalOr => Some(NodeOperation.LogicalOr)
    case Equal => Some(NodeOperation.Equal)
    case NotEqual => Some(NodeOperation.NotEqual)
    case Less => Some(NodeOperation.Less)
    case Greater => Some(NodeOperation.Greater)
    case LessEqual => Some(NodeOperation.LessEqual)
    case GreaterEqual => Some(NodeOperation.GreaterEqual)
    case Comma => Some(NodeOperation.Comma)
    case OpenParen => Some(NodeOperation.Call)
    case OpenSquare => Some(NodeOperation.Index)
    case _ => None
  }

  /**
   `get_operator_info`: the operator a reserved token stands for, or the unexpected-token
   error at the token's position.
   */
  function GetOperatorInfo(tok: R.ReservedToken, prefix: bool, lineNumber: SizeT, charIndex: SizeT): (r: Result<OperatorInfo, Error>)
    ensures r.Success? <==> OperationOf(tok, prefix).Some?
    ensures r.Success? ==> r.value == MakeInfo(OperationOf(tok, prefix).value, lineNumber, charIndex)
    ensures r.Failure? ==> r.error == UnexpectedSyntaxError(DumpReservedToken(tok), lineNumber, charIndex)
  {
    match OperationOf(tok, prefix)
    case Some(op) => Success(MakeInfo(op, lineNumber, charIndex))
    case None => Failure(UnexpectedSyntaxError(DumpReservedToken(tok), lineNumber, charIndex))
  }

  /**
   `++`, `--`, `+` and `-` read as their prefix forms exactly when an operand is expected;
   every other operator token reads the same either way, and the result is never `param`.
   */
  lemma PrefixResolution(tok: R.ReservedToken, prefix: bool)
    ensures tok in {R.Inc, R.Dec, R.Add, R.Sub} ==>
              OperationOf(tok, prefix).Some?
              && (PrecedenceOf(OperationOf(tok, prefix).value) == Prefix <==> prefix)
    ensures tok !in {R.Inc, R.Dec, R.Add, R.Sub} ==> OperationOf(tok, prefix) == OperationOf(tok, !prefix)
    ensures OperationOf(tok, prefix).Some? ==> IsParsedOperation(OperationOf(tok, prefix).value)
  {
  }

  /**
   Exactly the operator and bracket tokens other than `;`, `:`, `.`, `)`, `{`, `}` and `]`
   have an operator reading; keywords have none.
   */
  lemma OperatorTokens(tok: R.ReservedToken, prefix: bool)
    ensures OperationOf(tok, prefix).Some? <==>
              tok.IsOperator() && tok !in {R.Semicolon, R.Colon, R.Scope, R.CloseParen, R.OpenCurly, R.CloseCurly, R.CloseSquare}
  {
    match tok {
      case Inc => case Dec => case Add => case Sub =>
      case Mul => case Div => case Mod => case BitwiseNot =>
      case BitwiseAnd => case BitwiseOr => case BitwiseXor => case ShiftL =>
      case ShiftR => case Assign => case AddAssign => case SubAssign =>
      case MulAssign => case DivAssign => case ModAssign => case LogicalNot =>
      case LogicalAnd => case LogicalOr => case Equal => case NotEqual =>
      case Less => case Greater => case LessEqual => case GreaterEqual =>
      case Comma => case Semicolon => case Colon => case Scope =>
      case OpenParen => case CloseParen => case OpenCurly => case CloseCurly =>
      case OpenSquare => case CloseSquare => case KwIf => case KwElse =>
      case KwElif => case KwFor => case KwWhile => case KwVar =>
      case KwFn => case KwBreak => case KwContinue => case KwReturn =>
      case KwVoid => case KwReal => case KwInt => case KwBool =>
      case KwStr => case KwConstantTrue => case KwConstantFalse => case KwConstantNull =>
    }
  }

  /** `value_equals(r)`: the token is the reserved token r. */
  predicate IsReserved(t: Tokens.Token, r: R.ReservedToken) {
    t.value == Tokens.Reserved(r)
  }

  /**
   `is_end_of_expression`: end of file, `;`, `)`, `]`, `:`, and `,` when commas are not
   allowed.
   */
  predicate IsEndOfExpression(t: Tokens.Token, allowComma: bool) {
    t.value.Eof?
    || IsReserved(t, R.Semicolon) || IsReserved(t, R.CloseParen) || IsReserved(t, R.CloseSquare)
    || IsReserved(t, R.Colon) || (IsReserved(t, R.Comma) && !allowComma)
  }

  /** The tokens that end an expression, as a set. */
  lemma EndOfExpressionExactly(t: Tokens.Token, allowComma: bool)
    ensures IsEndOfExpression(t, allowComma) <==>
              t.value.Eof?
              || (t.value.Reserved? && t.value.token in {R.Semicolon, R.CloseParen, R.CloseSquare, R.Colon})
              || (!allowComma && IsReserved(t, R.Comma))
  {
  }

  /** Allowing commas ends fewer expressions, and differs only at a comma. */
  lemma AllowingCommaEndsLess(t: Tokens.Token)
    ensures IsEndOfExpression(t, true) ==> IsEndOfExpression(t, false)
    ensures IsEndOfExpression(t, false) && !IsEndOfExpression(t, true) <==> IsReserved(t, R.Comma)
  {
  }

  /**
   `is_evaluated_before(l, r)`: the operator `l` on the stack is applied before `r` is
   pushed when it binds tighter, or as tight and groups from the left.
   */
  predicate IsEvaluatedBefore(l: OperatorInfo, r: OperatorInfo) {
    if l.associativity == LeftToRight then Level(l.precedence) <= Level(r.precedence)
    else Level(l.precedence) < Level(r.precedence)
  }

  /**
   For operators read from tokens: a tighter level goes first, a looser one never; at the
   same level the left one goes first unless the level groups from the right.
   */
  lemma EvaluatedBeforeByLevel(a: NodeOperation, b: NodeOperation, l1: SizeT, c1: SizeT, l2: SizeT, c2: SizeT)
    ensures var x, y := MakeInfo(a, l1, c1), MakeInfo(b, l2, c2);
            (Level(x.precedence) < Level(y.precedence) ==> IsEvaluatedBefore(x, y))
            && (Level(x.precedence) > Level(y.precedence) ==> !IsEvaluatedBefore(x, y))
            && (x.precedence == y.precedence ==>
                  (IsEvaluatedBefore(x, y) <==> x.precedence != Prefix && x.precedence != Assignment))
  {
  }

  /** Examples at one position: `a - b - c` groups from the left, `a = b = c` from the right. */
  lemma GroupingExamples(l: SizeT, c: SizeT)
    ensures IsEvaluatedBefore(MakeInfo(NodeOperation.Sub, l, c), MakeInfo(NodeOperation.Sub, l, c))
    ensures !IsEvaluatedBefore(MakeInfo(NodeOperation.Assign, l, c), MakeInfo(NodeOperation.Assign, l, c))
    ensures !IsEvaluatedBefore(MakeInfo(NodeOperation.Sub, l, c), MakeInfo(NodeOperation.Mul, l, c))
    ensures IsEvaluatedBefore(MakeInfo(NodeOperation.Mul, l, c), MakeInfo(NodeOperation.Sub, l, c))
  {
  }
}
