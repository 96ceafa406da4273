/**
 The two-stack operator-precedence parser of libs/core/src/tone/core/expression_parser.cpp.

 The token iterator the parser advances is modelled as the sequence of what successive
 steps of the lexer give (a token, or the error the step throws) and a cursor into it:
 advancing onto an error raises that error, as `++it` would. The operand and operator
 stacks are sequences whose last element is the top.

 The source reduces at most one pending operator before pushing an incoming one. The
 model carries that choice as a `Reduction` mode: `OnePerOperator` is the code as written,
 `AllPending` the usual reduce-while loop (see the findings in the README).
 */
module ExpressionParser {
  import opened Wrappers
  import opened PushBackStream
  import opened Errors
  import opened Types
  import opened CompileContext
  import opened Conversion
  import opened ExpressionTree
  import opened Operators
  import R = ReservedTokens
  import Tokens

  // ---------------------------------------------------------------------------------------
  // The token sequence
  // ---------------------------------------------------------------------------------------

  /** What successive lexer steps give: tokens, up to end of file or the first error. */
  type Lexed = seq<Result<Tokens.Token, Error>>

  /**
   Every step before the last gives a token other than end of file; the last gives end of
   file or an error.
   */
  predicate WellLexed(l: Lexed) {
    |l| > 0
    && (forall i :: 0 <= i < |l| - 1 ==> l[i].Success? && !l[i].value.value.Eof?)
    && (l[|l| - 1].Success? ==> l[|l| - 1].value.value.Eof?)
  }

  /** No null literal: the operand branch has no case for one. */
  predicate NullFree(l: Lexed) {
    forall i :: 0 <= i < |l| ==> l[i].Success? ==> !l[i].value.value.Null?
  }

  /** How pending operators are reduced before an incoming one is pushed. */
  datatype Reduction = OnePerOperator | AllPending

  /** What stays fixed during a parse: the context, the tokens and the reduction mode. */
  datatype Env = Env(ctx: Context, l: Lexed, mode: Reduction)

  predicate ValidEnv(e: Env) {
    WellLexed(e.l) && NullFree(e.l)
  }

  /** The cursor stands on a token that was read without error. */
  predicate At(e: Env, pos: nat) {
    ValidEnv(e) && pos < |e.l| && e.l[pos].Success?
  }

  /** `*it`. */
  function Tok(e: Env, pos: nat): (t: Tokens.Token)
    requires At(e, pos)
    ensures !t.value.Null?
    ensures !t.value.Eof? ==> pos < |e.l| - 1
  {
    e.l[pos].value
  }

  /** `++it`: the next token, or the error the lexer throws reading it. */
  function Advance(e: Env, pos: nat): (r: Result<nat, Error>)
    requires At(e, pos) && !Tok(e, pos).value.Eof?
    ensures r.Success? <==> e.l[pos + 1].Success?
    ensures r.Success? ==> r.value == pos + 1 && At(e, pos + 1)
    ensures r.Failure? ==> r.error == e.l[pos + 1].error
  {
    if e.l[pos + 1].Success? then Success(pos + 1) else Failure(e.l[pos + 1].error)
  }

  /** The text naming a token in an error. `token::dump` is not part of this model. */
  function DumpToken(t: Tokens.Token): string {
    ""
  }

  /**
   The error for a parse that went wrong inside the parser. The function that builds it is
   not part of this model, so only its position is meaningful.
   */
  function CompilerError(message: string, lineNumber: SizeT, charIndex: SizeT): (e: Error)
    ensures e.lineNumber == lineNumber && e.charIndex == charIndex
  {
    Error(message, lineNumber, charIndex)
  }

  // ---------------------------------------------------------------------------------------
  // The stacks
  // ---------------------------------------------------------------------------------------

  /** The parser's state between tokens. */
  datatype State = State(operands: seq<Node>, operators: seq<OperatorInfo>, expectedOperand: bool)

  /** Every operator on the stack has the operands its node needs. */
  predicate StackFits(ops: seq<OperatorInfo>) {
    forall i :: 0 <= i < |ops| ==> Fits(ops[i])
  }

  /** The top of a non-empty stack. */
  function Top<T>(s: seq<T>): T
    requires s != []
  {
    s[|s| - 1]
  }

  /** A stack without its top. */
  function Pop<T>(s: seq<T>): (r: seq<T>)
    requires s != []
    ensures |r| == |s| - 1 && r + [Top(s)] == s
  {
    s[..|s| - 1]
  }

  /** The position a reduced operator's node gets: the top operand's unless it is prefix. */
  function ReducedPosition(top: OperatorInfo, operands: seq<Node>): (SizeT, SizeT)
    requires operands != []
  {
    if top.precedence != Prefix then (Top(operands).lineNumber, Top(operands).charIndex)
    else (top.lineNumber, top.charIndex)
  }

  /**
   `pop_one_operator`: the top operator takes its operands off the operand stack, in
   order, and its node goes on in their place; too few operands is an error at the given
   position.
   */
  function PopOneOperator(ctx: Context, ops: seq<OperatorInfo>, operands: seq<Node>,
                          lineNumber: SizeT, charIndex: SizeT): (r: Result<(seq<OperatorInfo>, seq<Node>), Error>)
    requires ops != [] && Fits(Top(ops))
    ensures |operands| < Top(ops).nOperands ==> r == Failure(CompilerError("Failed to parse expression", lineNumber, charIndex))
    ensures |operands| >= Top(ops).nOperands ==>
              (r.Success? <==> ReducedNode(ctx, Top(ops), operands).Success?)
              && (r.Failure? ==> r.error == ReducedNode(ctx, Top(ops), operands).error)
    ensures r.Success? ==> PoppedOne(ctx, ops, operands, r.value.0, r.value.1)
  {
    var top := Top(ops);
    if |operands| < top.nOperands then Failure(CompilerError("Failed to parse expression", lineNumber, charIndex))
    else
      match ReducedNode(ctx, top, operands)
      case Failure(err) => Failure(err)
      case Success(n) =>
        var rest := operands[..|operands| - top.nOperands];
        assert (rest + [n])[..|rest|] == rest;
        Success((Pop(ops), rest + [n]))
  }

  /**
   The node an operator makes of the top `nOperands` operands, in stack order, at the
   reduced position.
   */
  function ReducedNode(ctx: Context, top: OperatorInfo, operands: seq<Node>): (r: Result<Node, Error>)
    requires Fits(top) && |operands| >= top.nOperands
    ensures r.Success? ==> r.value.value == Operation(top.operation)
                           && r.value.children == operands[|operands| - top.nOperands..]
                           && (r.value.lineNumber, r.value.charIndex) == ReducedPosition(top, operands)
  {
    var pos := ReducedPosition(top, operands);
    MakeNode(ctx, Operation(top.operation), operands[|operands| - top.nOperands..], pos.0, pos.1)
  }

  /**
   The stacks after one reduction: the top operator is gone, and its operands were
   replaced by the node the constructor built from them.
   */
  predicate PoppedOne(ctx: Context, ops: seq<OperatorInfo>, operands: seq<Node>,
                      ops2: seq<OperatorInfo>, operands2: seq<Node>)
    requires ops != [] && Fits(Top(ops))
  {
    var top := Top(ops);
    |operands| >= top.nOperands && ops2 == Pop(ops)
    && |operands2| == |operands| - top.nOperands + 1
    && operands2[..|operands2| - 1] == operands[..|operands| - top.nOperands]
    && ReducedNode(ctx, top, operands) == Success(Top(operands2))
  }

  /**
   The reductions made before an operator is pushed: with `OnePerOperator`, the top
   operator is reduced once if it is evaluated before the incoming one; with `AllPending`,
   as long as that holds.
   */
  function Reduce(ctx: Context, mode: Reduction, ops: seq<OperatorInfo>, operands: seq<Node>,
                  incoming: OperatorInfo, lineNumber: SizeT, charIndex: SizeT): (r: Result<(seq<OperatorInfo>, seq<Node>), Error>)
    requires StackFits(ops)
    ensures r.Success? ==> |r.value.0| <= |ops| && r.value.0 == ops[..|r.value.0|]
    decreases |ops|
  {
    if ops != [] && IsEvaluatedBefore(Top(ops), incoming) then
      match PopOneOperator(ctx, ops, operands, lineNumber, charIndex)
      case Failure(err) => Failure(err)
      case Success(st) =>
        if mode == OnePerOperator then Success(st)
        else
          var r := Reduce(ctx, mode, st.0, st.1, incoming, lineNumber, charIndex);
          assert r.Success? ==> r.value.0 == ops[..|r.value.0|] by {
            if r.Success? {
              assert st.0 == ops[..|ops| - 1];
            }
          }
          r
    else Success((ops, operands))
  }

  /** `while (!operator_stack.empty()) pop_one_operator(...)`. */
  function Drain(ctx: Context, ops: seq<OperatorInfo>, operands: seq<Node>,
                 lineNumber: SizeT, charIndex: SizeT): (r: Result<seq<Node>, Error>)
    requires StackFits(ops)
    ensures ops == [] ==> r == Success(operands)
    decreases |ops|
  {
    if ops == [] then Success(operands)
    else
      match PopOneOperator(ctx, ops, operands, lineNumber, charIndex)
      case Failure(err) => Failure(err)
      case Success(st) => Drain(ctx, st.0, st.1, lineNumber, charIndex)
  }

  // ---------------------------------------------------------------------------------------
  // The parse
  // ---------------------------------------------------------------------------------------

  /** A parse's outcome: the tree (none for an allowed empty expression) and where it stopped. */
  datatype Parsed = Parsed(node: Option<Node>, pos: nat)

  /**
   What every successful parse from `start` promises: it stops at or after `start`, on a
   token that ends the expression, and yields a tree unless empty expressions are allowed.
   */
  predicate Good(e: Env, start: nat, allowComma: bool, allowEmpty: bool, r: Result<Parsed, Error>) {
    r.Success? ==>
      start <= r.value.pos && At(e, r.value.pos)
      && IsEndOfExpression(Tok(e, r.value.pos), allowComma)
      && (!allowEmpty ==> r.value.node.Some?)
  }

  /** The operand a literal or identifier token stands for. */
  function OperandValue(t: Tokens.Token): NodeValue
    requires !t.value.Reserved? && !t.value.Eof? && !t.value.Null?
  {
    match t.value
    case Bool(b) => BoolValue(b)
    case Real(x) => RealValue(x)
    case Int(i) => IntValue(i)
    case Str(s) => StrValue(s)
    case Identifier(name) => IdentValue(name)
    case _ => IdentValue([])
  }

  /** `parse_expression_tree_impl`: both stacks empty, an operand expected. */
  function ParseImpl(e: Env, pos: nat, allowComma: bool, allowEmpty: bool): (r: Result<Parsed, Error>)
    requires At(e, pos)
    ensures Good(e, pos, allowComma, allowEmpty, r)
    decreases |e.l| - pos, 5
  {
    Loop(e, pos, allowComma, allowEmpty, State([], [], true))
  }

  /** The `for` loop over the tokens, from the token at `pos`. */
  function Loop(e: Env, pos: nat, allowComma: bool, allowEmpty: bool, st: State): (r: Result<Parsed, Error>)
    requires At(e, pos) && StackFits(st.operators)
    ensures Good(e, pos, allowComma, allowEmpty, r)
    decreases |e.l| - pos, 4
  {
    var t := Tok(e, pos);
    if IsEndOfExpression(t, allowComma) then Finish(e, pos, allowComma, allowEmpty, st)
    else if t.value.Reserved? then OperatorStep(e, pos, allowComma, allowEmpty, st)
    else OperandStep(e, pos, allowComma, allowEmpty, st)
  }

  /** `++it` at the end of the loop body, and the next turn of the loop. */
  function Continue(e: Env, pos: nat, allowComma: bool, allowEmpty: bool, st: State): (r: Result<Parsed, Error>)
    requires At(e, pos) && !Tok(e, pos).value.Eof? && StackFits(st.operators)
    ensures Good(e, pos + 1, allowComma, allowEmpty, r)
    decreases |e.l| - pos, 0
  {
    match Advance(e, pos)
    case Failure(err) => Failure(err)
    case Success(next) => Loop(e, next, allowComma, allowEmpty, st)
  }

  /** A literal or identifier: an error unless an operand is expected; else its node is pushed. */
  function OperandStep(e: Env, pos: nat, allowComma: bool, allowEmpty: bool, st: State): (r: Result<Parsed, Error>)
    requires At(e, pos) && StackFits(st.operators)
    requires !Tok(e, pos).value.Reserved? && !IsEndOfExpression(Tok(e, pos), allowComma)
    ensures Good(e, pos + 1, allowComma, allowEmpty, r)
    decreases |e.l| - pos, 3
  {
    var t := Tok(e, pos);
    if !st.expectedOperand then Failure(UnexpectedSyntaxError(DumpToken(t), t.lineNumber, t.charIndex))
    else
      match MakeNode(e.ctx, OperandValue(t), [], t.lineNumber, t.charIndex)
      case Failure(err) => Failure(err)
      case Success(n) => Continue(e, pos, allowComma, allowEmpty, State(st.operands + [n], st.operators, false))
  }

  /**
   A reserved token: `(` where an operand is expected opens a parenthesised expression;
   otherwise the token must be a prefix operator exactly when an operand is expected, the
   pending operators are reduced, and the operator is pushed.
   */
  function OperatorStep(e: Env, pos: nat, allowComma: bool, allowEmpty: bool, st: State): (r: Result<Parsed, Error>)
    requires At(e, pos) && StackFits(st.operators)
    requires Tok(e, pos).value.Reserved? && !IsEndOfExpression(Tok(e, pos), allowComma)
    ensures Good(e, pos + 1, allowComma, allowEmpty, r)
    decreases |e.l| - pos, 3
  {
    var t := Tok(e, pos);
    match GetOperatorInfo(t.value.token, st.expectedOperand, t.lineNumber, t.charIndex)
    case Failure(err) => Failure(err)
    case Success(oi) =>
      if oi.operation == Call && st.expectedOperand then ParenStep(e, pos, allowComma, allowEmpty, st)
      else if (oi.precedence == Prefix) != st.expectedOperand then
        Failure(UnexpectedSyntaxError(DumpToken(t), t.lineNumber, t.charIndex))
      else ReduceStep(e, pos, allowComma, allowEmpty, st, oi)
  }

  /** The pending operators are reduced against the incoming one, which is then pushed. */
  function ReduceStep(e: Env, pos: nat, allowComma: bool, allowEmpty: bool, st: State, oi: OperatorInfo): (r: Result<Parsed, Error>)
    requires At(e, pos) && !Tok(e, pos).value.Eof? && StackFits(st.operators) && Fits(oi)
    ensures Good(e, pos + 1, allowComma, allowEmpty, r)
    decreases |e.l| - pos, 2
  {
    var t := Tok(e, pos);
    match Reduce(e.ctx, e.mode, st.operators, st.operands, oi, t.lineNumber, t.charIndex)
    case Failure(err) => Failure(err)
    case Success(stacks) => PushOperator(e, pos, allowComma, allowEmpty, stacks.0, stacks.1, oi)
  }

  /** A parenthesised expression: parsed with commas allowed, and it must end at `)`. */
  function ParenStep(e: Env, pos: nat, allowComma: bool, allowEmpty: bool, st: State): (r: Result<Parsed, Error>)
    requires At(e, pos) && StackFits(st.operators) && IsReserved(Tok(e, pos), R.OpenParen)
    ensures Good(e, pos + 1, allowComma, allowEmpty, r)
    decreases |e.l| - pos, 1
  {
    match Advance(e, pos)
    case Failure(err) => Failure(err)
    case Success(p) =>
      match ParseImpl(e, p, true, false)
      case Failure(err) => Failure(err)
      case Success(inner) =>
        var close := Tok(e, inner.pos);
        if IsReserved(close, R.CloseParen) then
          Continue(e, inner.pos, allowComma, allowEmpty, State(st.operands + [inner.node.value], st.operators, false))
        else Failure(SyntaxError("Expected closing ')'", close.lineNumber, close.charIndex))
  }

  /**
   Pushing an operator: a call first reads its arguments, an index its subscript. After a
   postfix operator an operator is expected, after any other an operand.
   */
  function PushOperator(e: Env, pos: nat, allowComma: bool, allowEmpty: bool,
                        ops: seq<OperatorInfo>, operands: seq<Node>, oi: OperatorInfo): (r: Result<Parsed, Error>)
    requires At(e, pos) && !Tok(e, pos).value.Eof? && StackFits(ops) && Fits(oi)
    ensures Good(e, pos + 1, allowComma, allowEmpty, r)
    decreases |e.l| - pos, 1
  {
    if oi.operation == Call then CallStep(e, pos, allowComma, allowEmpty, ops, operands, oi)
    else if oi.operation == Index then IndexStep(e, pos, allowComma, allowEmpty, ops, operands, oi)
    else Continue(e, pos, allowComma, allowEmpty, State(operands, ops + [oi], oi.precedence != Postfix))
  }

  /**
   A call: `()` adds no operand; otherwise the arguments go on the operand stack and raise
   the call's operand count by their number.
   */
  function CallStep(e: Env, pos: nat, allowComma: bool, allowEmpty: bool,
                    ops: seq<OperatorInfo>, operands: seq<Node>, oi: OperatorInfo): (r: Result<Parsed, Error>)
    requires At(e, pos) && !Tok(e, pos).value.Eof? && StackFits(ops) && Fits(oi)
    ensures Good(e, pos + 1, allowComma, allowEmpty, r)
    decreases |e.l| - pos, 0
  {
    match Advance(e, pos)
    case Failure(err) => Failure(err)
    case Success(p) =>
      if IsReserved(Tok(e, p), R.CloseParen) then
        Continue(e, p, allowComma, allowEmpty, State(operands, ops + [oi], false))
      else
        match CallArgs(e, p, operands, 0)
        case Failure(err) => Failure(err)
        case Success(args) =>
          Continue(e, args.pos, allowComma, allowEmpty,
                   State(args.operands, ops + [oi.(nOperands := oi.nOperands + args.count)], false))
  }

  /** An index: the subscript is parsed with commas allowed, and it must end at `]`. */
  function IndexStep(e: Env, pos: nat, allowComma: bool, allowEmpty: bool,
                     ops: seq<OperatorInfo>, operands: seq<Node>, oi: OperatorInfo): (r: Result<Parsed, Error>)
    requires At(e, pos) && !Tok(e, pos).value.Eof? && StackFits(ops) && Fits(oi)
    ensures Good(e, pos + 1, allowComma, allowEmpty, r)
    decreases |e.l| - pos, 0
  {
    match Advance(e, pos)
    case Failure(err) => Failure(err)
    case Success(p) =>
      match ParseImpl(e, p, true, false)
      case Failure(err) => Failure(err)
      case Success(inner) =>
        var close := Tok(e, inner.pos);
        if !IsReserved(close, R.CloseSquare) then
          Failure(SyntaxError("Expected closing ']'", close.lineNumber, close.charIndex))
        else Continue(e, inner.pos, allowComma, allowEmpty, State(operands + [inner.node.value], ops + [oi], false))
  }

  /** What the argument loop leaves: the operand stack, how many arguments it pushed, and the `)`. */
  datatype Arguments = Arguments(operands: seq<Node>, count: nat, pos: nat)

  /** The `param` node around an argument: the argument's type, not an lvalue, at its position. */
  function ParamNode(n: Node): Node {
    Node(Operation(NodeOperation.Param), [n], n.typeId, false, n.lineNumber, n.charIndex)
  }

  /** The `param` node is what the node constructor builds around the argument, whatever the context. */
  lemma ParamNodeConstructed(ctx: Context, n: Node)
    ensures MakeNode(ctx, Operation(NodeOperation.Param), [n], n.lineNumber, n.charIndex) == Success(ParamNode(n))
  {
  }

  /**
   An argument: without `&` it is wrapped in a `param` node; with `&` it must be an
   lvalue and is passed as it is.
   */
  function Argument(n: Node, byRef: bool): (r: Result<Node, Error>)
    ensures !byRef ==> r == Success(ParamNode(n))
    ensures byRef ==> (r.Success? <==> n.lvalue)
    ensures byRef && r.Success? ==> r.value == n
    ensures byRef && r.Failure? ==> r.error == WrongTypeError(DumpTypeHandle(n.typeId), DumpTypeHandle(n.typeId), true, n.lineNumber, n.charIndex)
  {
    if !byRef then Success(ParamNode(n))
    else if !n.lvalue then Failure(WrongTypeError(DumpTypeHandle(n.typeId), DumpTypeHandle(n.typeId), true, n.lineNumber, n.charIndex))
    else Success(n)
  }

  /** What a successful argument loop from `pos` promises. */
  predicate GoodArguments(e: Env, pos: nat, operands: seq<Node>, count: nat, r: Result<Arguments, Error>) {
    r.Success? ==>
      pos <= r.value.pos && At(e, r.value.pos) && IsReserved(Tok(e, r.value.pos), R.CloseParen)
      && r.value.count > count && |r.value.operands| == |operands| + r.value.count - count
      && r.value.operands[..|operands|] == operands
  }

  /** The argument loop of a call: an argument, parsed without commas, then what follows it. */
  function CallArgs(e: Env, pos: nat, operands: seq<Node>, count: nat): (r: Result<Arguments, Error>)
    requires At(e, pos)
    ensures GoodArguments(e, pos, operands, count, r)
    decreases |e.l| - pos, 6
  {
    var byRef := IsReserved(Tok(e, pos), R.BitwiseAnd);
    var start := if byRef then Advance(e, pos) else Success(pos);
    match start
    case Failure(err) => Failure(err)
    case Success(p) =>
      match ParseImpl(e, p, false, false)
      case Failure(err) => Failure(err)
      case Success(parsed) =>
        match Argument(parsed.node.value, byRef)
        case Failure(err) => Failure(err)
        case Success(arg) => AfterArgument(e, parsed.pos, operands + [arg], count + 1)
  }

  /** After an argument: `)` ends the loop, `,` leads to another argument, anything else is an error. */
  function AfterArgument(e: Env, pos: nat, operands: seq<Node>, count: nat): (r: Result<Arguments, Error>)
    requires At(e, pos) && count > 0 && operands != []
    ensures GoodArguments(e, pos, operands[..|operands| - 1], count - 1, r)
    decreases |e.l| - pos, 4
  {
    var sep := Tok(e, pos);
    if IsReserved(sep, R.CloseParen) then Success(Arguments(operands, count, pos))
    else if IsReserved(sep, R.Comma) then
      match Advance(e, pos)
      case Failure(err) => Failure(err)
      case Success(next) =>
        var r := CallArgs(e, next, operands, count);
        assert r.Success? ==> r.value.operands[..|operands| - 1] == operands[..|operands| - 1] by {
          if r.Success? {
            assert r.value.operands[..|operands|][..|operands| - 1] == operands[..|operands| - 1];
          }
        }
        r
    else Failure(SyntaxError("Expected ',' or closing ')'", sep.lineNumber, sep.charIndex))
  }

  /**
   The end of the expression: an error if an operand is still expected (unless the
   expression may be empty and is), else the operators are drained and exactly one
   operand must remain.
   */
  function Finish(e: Env, pos: nat, allowComma: bool, allowEmpty: bool, st: State): (r: Result<Parsed, Error>)
    requires At(e, pos) && StackFits(st.operators) && IsEndOfExpression(Tok(e, pos), allowComma)
    ensures Good(e, pos, allowComma, allowEmpty, r)
    ensures r.Success? ==> r.value.pos == pos
  {
    var t := Tok(e, pos);
    if st.expectedOperand then
      if allowEmpty && st.operands == [] && st.operators == [] then Success(Parsed(None, pos))
      else Failure(SyntaxError("Operand expected", t.lineNumber, t.charIndex))
    else
      match Drain(e.ctx, st.operators, st.operands, t.lineNumber, t.charIndex)
      case Failure(err) => Failure(err)
      case Success(rest) =>
        if |rest| != 1 then Failure(CompilerError("Failed to parse expression", t.lineNumber, t.charIndex))
        else Success(Parsed(Some(rest[0]), pos))
  }

  /**
   `parse_expression_tree`: parse, then check the tree converts to the wanted type. An
   empty expression would leave nothing to check, so it is not allowed here. The source
   reduces as `OnePerOperator` does; `AllPending` gives the corrected grouping.
   */
  function ParseExpressionTree(ctx: Context, mode: Reduction, l: Lexed, pos: nat, typeId: Handle, lvalue: bool,
                               allowComma: bool, allowEmpty: bool): (r: Result<(Node, nat), Error>)
    requires At(Env(ctx, l, mode), pos) && !allowEmpty
    ensures var p := ParseImpl(Env(ctx, l, mode), pos, allowComma, allowEmpty);
            (p.Failure? ==> r == Failure(p.error))
            && (p.Success? ==> (r.Success? <==> IsConvertable(p.value.node.value.typeId, p.value.node.value.lvalue, typeId, lvalue))
                               && (r.Success? ==> r.value == (p.value.node.value, p.value.pos)))
    ensures r.Success? ==> IsConvertable(r.value.0.typeId, r.value.0.lvalue, typeId, lvalue)
    ensures r.Success? ==> pos <= r.value.1 < |l| && l[r.value.1].Success?
                           && IsEndOfExpression(l[r.value.1].value, allowComma)
  {
    match ParseImpl(Env(ctx, l, mode), pos, allowComma, allowEmpty)
    case Failure(err) => Failure(err)
    case Success(p) =>
      match CheckConversion(p.node.value, typeId, lvalue)
      case Some(err) => Failure(err)
      case None => Success((p.node.value, p.pos))
  }

  // ---------------------------------------------------------------------------------------
  // Properties of the steps
  // ---------------------------------------------------------------------------------------

  /** Nothing on the stack is evaluated before the incoming operator. */
  predicate NothingPendingBefore(ops: seq<OperatorInfo>, incoming: OperatorInfo) {
    ops == [] || !IsEvaluatedBefore(Top(ops), incoming)
  }

  /**
   The operator stack is ordered: no operator is evaluated before the one pushed above it,
   so reducing from the top applies operators in precedence order.
   */
  predicate Ordered(ops: seq<OperatorInfo>) {
    forall i :: 0 < i < |ops| ==> !IsEvaluatedBefore(ops[i - 1], ops[i])
  }

  /**
   As written, an incoming operator reduces at most one pending operator: the top one, if
   it is evaluated first; otherwise the stacks are left as they are.
   */
  lemma ReducesAtMostOne(ctx: Context, ops: seq<OperatorInfo>, operands: seq<Node>,
                         incoming: OperatorInfo, l: SizeT, c: SizeT)
    requires StackFits(ops)
    ensures !(ops != [] && IsEvaluatedBefore(Top(ops), incoming)) ==>
              Reduce(ctx, OnePerOperator, ops, operands, incoming, l, c) == Success((ops, operands))
    ensures ops != [] && IsEvaluatedBefore(Top(ops), incoming) ==>
              Reduce(ctx, OnePerOperator, ops, operands, incoming, l, c) == PopOneOperator(ctx, ops, operands, l, c)
  {
  }

  /** Reducing every pending operator leaves none that should go before the incoming one. */
  lemma {:induction false} ReduceAllLeavesNothingPending(ctx: Context, ops: seq<OperatorInfo>, operands: seq<Node>,
                                                       incoming: OperatorInfo, l: SizeT, c: SizeT)
    requires StackFits(ops)
    ensures Reduce(ctx, AllPending, ops, operands, incoming, l, c).Success? ==>
              NothingPendingBefore(Reduce(ctx, AllPending, ops, operands, incoming, l, c).value.0, incoming)
    decreases |ops|
  {
    if ops != [] && IsEvaluatedBefore(Top(ops), incoming) {
      var p := PopOneOperator(ctx, ops, operands, l, c);
      if p.Success? {
        assert p.value.0 == ops[..|ops| - 1];
        ReduceAllLeavesNothingPending(ctx, p.value.0, p.value.1, incoming, l, c);
      }
    }
  }

  /** A prefix of an ordered stack is ordered. */
  lemma OrderedPrefix(ops: seq<OperatorInfo>, n: nat)
    requires Ordered(ops) && n <= |ops|
    ensures Ordered(ops[..n])
  {
    forall i | 0 < i < n
      ensures !IsEvaluatedBefore(ops[..n][i - 1], ops[..n][i])
    {
      assert ops[..n][i - 1] == ops[i - 1] && ops[..n][i] == ops[i];
    }
  }

  /**
   With every pending operator reduced first, pushing the incoming operator keeps the
   operator stack ordered.
   */
  lemma ReduceAllKeepsOrder(ctx: Context, ops: seq<OperatorInfo>, operands: seq<Node>,
                            incoming: OperatorInfo, l: SizeT, c: SizeT)
    requires StackFits(ops) && Ordered(ops)
    ensures Reduce(ctx, AllPending, ops, operands, incoming, l, c).Success? ==>
              Ordered(Reduce(ctx, AllPending, ops, operands, incoming, l, c).value.0 + [incoming])
  {
    var r := Reduce(ctx, AllPending, ops, operands, incoming, l, c);
    if r.Success? {
      var rest := r.value.0;
      ReduceAllLeavesNothingPending(ctx, ops, operands, incoming, l, c);
      OrderedPrefix(ops, |rest|);
      forall i | 0 < i < |rest|
        ensures !IsEvaluatedBefore((rest + [incoming])[i - 1], (rest + [incoming])[i])
      {
        assert (rest + [incoming])[i - 1] == rest[i - 1] && (rest + [incoming])[i] == rest[i];
      }
    }
  }

  /**
   As written, when the two topmost pending operators should both go before the incoming
   one, only the first is reduced: the second stays pending under the incoming operator,
   and the stack is no longer ordered.
   */
  lemma OneReductionLeavesPending(ctx: Context, ops: seq<OperatorInfo>, operands: seq<Node>,
                                  incoming: OperatorInfo, l: SizeT, c: SizeT)
    requires StackFits(ops) && |ops| >= 2
    requires IsEvaluatedBefore(ops[|ops| - 2], incoming) && IsEvaluatedBefore(Top(ops), incoming)
    ensures var r := Reduce(ctx, OnePerOperator, ops, operands, incoming, l, c);
            r.Success? ==> !NothingPendingBefore(r.value.0, incoming) && !Ordered(r.value.0 + [incoming])
  {
    var r := Reduce(ctx, OnePerOperator, ops, operands, incoming, l, c);
    if r.Success? {
      assert r.value.0 == Pop(ops);
      assert (r.value.0 + [incoming])[|ops| - 2] == ops[|ops| - 2];
      assert (r.value.0 + [incoming])[|ops| - 1] == incoming;
    }
  }

  /** A real literal operand at the start of the line. */
  function RealOperand(x: real): (n: Node)
    ensures n.typeId == REAL_HANDLE
  {
    Node(RealValue(x), [], REAL_HANDLE, false, 0, 0)
  }

  /**
   A binary arithmetic operator over two number operands reduces, and its node has the
   type of its left operand.
   */
  lemma ArithmeticReduces(ctx: Context, ops: seq<OperatorInfo>, operands: seq<Node>, l: SizeT, c: SizeT)
    requires ops != [] && Fits(Top(ops)) && IsArithmetic(Top(ops).operation) && Top(ops).nOperands == 2
    requires |operands| >= 2 && IsNumberType(operands[|operands| - 2].typeId)
    requires IsNumberType(operands[|operands| - 1].typeId)
    ensures var r := PopOneOperator(ctx, ops, operands, l, c);
            r.Success? && r.value.0 == Pop(ops) && Top(r.value.1).typeId == operands[|operands| - 2].typeId
            && |r.value.1| == |operands| - 1
  {
    var children := operands[|operands| - 2..];
    ArithmeticRule(ctx, Top(ops).operation, children, ReducedPosition(Top(ops), operands).0,
                   ReducedPosition(Top(ops), operands).1);
    assert ReducedNode(ctx, Top(ops), operands).Success?;
  }

  /** One turn of the reduce-while loop: the top operator is reduced and the loop goes on. */
  lemma ReduceAllStep(ctx: Context, ops: seq<OperatorInfo>, operands: seq<Node>,
                      incoming: OperatorInfo, l: SizeT, c: SizeT)
    requires StackFits(ops) && ops != [] && IsEvaluatedBefore(Top(ops), incoming)
    requires PopOneOperator(ctx, ops, operands, l, c).Success?
    ensures var p := PopOneOperator(ctx, ops, operands, l, c).value;
            StackFits(p.0)
            && Reduce(ctx, AllPending, ops, operands, incoming, l, c) == Reduce(ctx, AllPending, p.0, p.1, incoming, l, c)
  {
  }

  /** The operator stack of `1 - 2 * 3` just before the second `-` is handled. */
  function SubThenMul(): (ops: seq<OperatorInfo>)
    ensures |ops| == 2 && StackFits(ops)
    ensures ops[0].operation == NodeOperation.Sub && ops[1].operation == NodeOperation.Mul
  {
    [MakeInfo(NodeOperation.Sub, 0, 0), MakeInfo(NodeOperation.Mul, 0, 0)]
  }

  /** The operand stack of `1 - 2 * 3` at that point. */
  function OneTwoThree(): (operands: seq<Node>)
    ensures |operands| == 3 && forall i :: 0 <= i < 3 ==> operands[i].typeId == REAL_HANDLE
  {
    [RealOperand(1.0), RealOperand(2.0), RealOperand(3.0)]
  }

  /** The second `-`. */
  function SecondSub(): (oi: OperatorInfo)
    ensures oi.operation == NodeOperation.Sub
  {
    MakeInfo(NodeOperation.Sub, 0, 0)
  }

  /**
   In `1 - 2 * 3 - 4`, when the second `-` arrives the stacks hold `-`, `*` and the
   operands 1, 2, 3. As written only `*` is reduced, the first `-` stays below the second,
   and the expression is grouped `1 - ((2 * 3) - 4)`.
   */
  lemma OneReductionGroupsRight(ctx: Context)
    ensures var r := Reduce(ctx, OnePerOperator, SubThenMul(), OneTwoThree(), SecondSub(), 0, 0);
            r.Success? && r.value.0 == [SubThenMul()[0]] && !Ordered(r.value.0 + [SecondSub()])
  {
    var ops := SubThenMul();
    var operands := OneTwoThree();
    assert IsEvaluatedBefore(ops[0], SecondSub()) && IsEvaluatedBefore(ops[1], SecondSub());
    assert PopOneOperator(ctx, ops, operands, 0, 0).Success? by {
      ArithmeticReduces(ctx, ops, operands, 0, 0);
    }
    OneReductionLeavesPending(ctx, ops, operands, SecondSub(), 0, 0);
  }

  /** With every pending operator reduced, the same input leaves only the incoming `-`. */
  lemma AllPendingGroupsLeft(ctx: Context)
    ensures var r := Reduce(ctx, AllPending, SubThenMul(), OneTwoThree(), SecondSub(), 0, 0);
            r.Success? && r.value.0 == [] && |r.value.1| == 1
  {
    var ops := SubThenMul();
    var operands := OneTwoThree();
    var incoming := SecondSub();
    assert IsEvaluatedBefore(ops[0], incoming) && IsEvaluatedBefore(ops[1], incoming);
    ArithmeticReduces(ctx, ops, operands, 0, 0);
    var p := PopOneOperator(ctx, ops, operands, 0, 0).value;
    ReduceAllStep(ctx, ops, operands, incoming, 0, 0);
    ArithmeticReduces(ctx, p.0, p.1, 0, 0);
    var q := PopOneOperator(ctx, p.0, p.1, 0, 0).value;
    ReduceAllStep(ctx, p.0, p.1, incoming, 0, 0);
    assert q.0 == [];
  }

  // ---------------------------------------------------------------------------------------
  // Properties of the parse
  // ---------------------------------------------------------------------------------------

  /** How many operands a stack of operators consumes beyond the one node it leaves. */
  function Consumed(ops: seq<OperatorInfo>): nat
    requires StackFits(ops)
  {
    if ops == [] then 0 else Consumed(Pop(ops)) + Top(ops).nOperands - 1
  }

  /**
   Draining the operator stack leaves as many operands as there were, less what the
   operators consume, and it fails when the operands run short.
   */
  lemma {:induction false} DrainCount(ctx: Context, ops: seq<OperatorInfo>, operands: seq<Node>, l: SizeT, c: SizeT)
    requires StackFits(ops)
    ensures var r := Drain(ctx, ops, operands, l, c);
            r.Success? ==> |operands| >= Consumed(ops) + (if ops == [] then 0 else 1)
                           && |r.value| == |operands| - Consumed(ops)
    decreases |ops|
  {
    if ops != [] {
      var p := PopOneOperator(ctx, ops, operands, l, c);
      if p.Success? {
        assert StackFits(p.value.0);
        DrainCount(ctx, p.value.0, p.value.1, l, c);
      }
    }
  }

  /** A literal or identifier where an operator is expected is an unexpected token. */
  lemma OperandAfterOperand(e: Env, pos: nat, allowComma: bool, allowEmpty: bool, st: State)
    requires At(e, pos) && StackFits(st.operators) && !st.expectedOperand
    requires !Tok(e, pos).value.Reserved? && !IsEndOfExpression(Tok(e, pos), allowComma)
    ensures var t := Tok(e, pos);
            Loop(e, pos, allowComma, allowEmpty, st) == Failure(UnexpectedSyntaxError(DumpToken(t), t.lineNumber, t.charIndex))
  {
  }

  /**
   An operator token is rejected at its position when it reads as a prefix operator where
   an operator is expected, or as a non-prefix one where an operand is expected, `(` in
   operand position excepted.
   */
  lemma PrefixMismatch(e: Env, pos: nat, allowComma: bool, allowEmpty: bool, st: State, oi: OperatorInfo)
    requires At(e, pos) && StackFits(st.operators)
    requires Tok(e, pos).value.Reserved? && !IsEndOfExpression(Tok(e, pos), allowComma)
    requires GetOperatorInfo(Tok(e, pos).value.token, st.expectedOperand, Tok(e, pos).lineNumber, Tok(e, pos).charIndex) == Success(oi)
    requires !(oi.operation == Call && st.expectedOperand) && (oi.precedence == Prefix) != st.expectedOperand
    ensures var t := Tok(e, pos);
            Loop(e, pos, allowComma, allowEmpty, st) == Failure(UnexpectedSyntaxError(DumpToken(t), t.lineNumber, t.charIndex))
  {
  }

  /**
   Reaching the end of the expression while an operand is expected is an error at the
   ending token, unless nothing was read and the expression may be empty.
   */
  lemma EndWhileExpectingOperand(e: Env, pos: nat, allowComma: bool, allowEmpty: bool, st: State)
    requires At(e, pos) && StackFits(st.operators) && st.expectedOperand
    requires IsEndOfExpression(Tok(e, pos), allowComma)
    ensures var t := Tok(e, pos);
            Loop(e, pos, allowComma, allowEmpty, st)
              == if allowEmpty && st.operands == [] && st.operators == [] then Success(Parsed(None, pos))
                 else Failure(SyntaxError("Operand expected", t.lineNumber, t.charIndex))
  {
  }

  /** An expression that ends at once is empty when that is allowed and an error otherwise. */
  lemma EmptyExpression(e: Env, pos: nat, allowComma: bool, allowEmpty: bool)
    requires At(e, pos) && IsEndOfExpression(Tok(e, pos), allowComma)
    ensures var t := Tok(e, pos);
            ParseImpl(e, pos, allowComma, allowEmpty)
              == if allowEmpty then Success(Parsed(None, pos))
                 else Failure(SyntaxError("Operand expected", t.lineNumber, t.charIndex))
  {
  }

  /**
   At the end of the expression, once an operand has been read, the operators are drained
   and the parse succeeds exactly when one operand is left, which is then the tree.
   */
  lemma FinishLeavesOneOperand(e: Env, pos: nat, allowComma: bool, allowEmpty: bool, st: State)
    requires At(e, pos) && StackFits(st.operators) && !st.expectedOperand
    requires IsEndOfExpression(Tok(e, pos), allowComma)
    ensures var r := Loop(e, pos, allowComma, allowEmpty, st);
            var t := Tok(e, pos);
            var d := Drain(e.ctx, st.operators, st.operands, t.lineNumber, t.charIndex);
            (r.Success? <==> d.Success? && |d.value| == 1)
            && (r.Success? ==> r.value == Parsed(Some(d.value[0]), pos))
            && (r.Success? ==> |st.operands| == Consumed(st.operators) + 1)
  {
    var t := Tok(e, pos);
    DrainCount(e.ctx, st.operators, st.operands, t.lineNumber, t.charIndex);
  }

  /**
   `(` where an operand is expected: a failure reading the next token or inside the
   parenthesised expression is passed on; an inner expression closed by `)` becomes one
   operand, after which an operator is expected; any other closing token is a syntax error
   at that token.
   */
  lemma ParenOutcome(e: Env, pos: nat, allowComma: bool, allowEmpty: bool, st: State)
    requires At(e, pos) && StackFits(st.operators) && IsReserved(Tok(e, pos), R.OpenParen)
    ensures e.l[pos + 1].Failure? ==> ParenStep(e, pos, allowComma, allowEmpty, st) == Failure(e.l[pos + 1].error)
    ensures e.l[pos + 1].Success? ==>
              var p := ParseImpl(e, pos + 1, true, false);
              (p.Failure? ==> ParenStep(e, pos, allowComma, allowEmpty, st) == Failure(p.error))
              && (p.Success? && IsReserved(Tok(e, p.value.pos), R.CloseParen) ==>
                    ParenStep(e, pos, allowComma, allowEmpty, st)
                      == Continue(e, p.value.pos, allowComma, allowEmpty,
                                  State(st.operands + [p.value.node.value], st.operators, false)))
              && (p.Success? && !IsReserved(Tok(e, p.value.pos), R.CloseParen) ==>
                    ParenStep(e, pos, allowComma, allowEmpty, st)
                      == Failure(SyntaxError("Expected closing ')'", Tok(e, p.value.pos).lineNumber, Tok(e, p.value.pos).charIndex)))
  {
  }

  /**
   An index: a failure reading the next token or inside the subscript is passed on; a
   subscript closed by `]` is pushed as an operand and the index operator goes on the
   stack, after which an operator is expected; any other closing token is a syntax error at
   that token.
   */
  lemma IndexOutcome(e: Env, pos: nat, allowComma: bool, allowEmpty: bool,
                     ops: seq<OperatorInfo>, operands: seq<Node>, oi: OperatorInfo)
    requires At(e, pos) && !Tok(e, pos).value.Eof? && StackFits(ops) && Fits(oi)
    ensures e.l[pos + 1].Failure? ==> IndexStep(e, pos, allowComma, allowEmpty, ops, operands, oi) == Failure(e.l[pos + 1].error)
    ensures e.l[pos + 1].Success? ==>
              var p := ParseImpl(e, pos + 1, true, false);
              (p.Failure? ==> IndexStep(e, pos, allowComma, allowEmpty, ops, operands, oi) == Failure(p.error))
              && (p.Success? && IsReserved(Tok(e, p.value.pos), R.CloseSquare) ==>
                    IndexStep(e, pos, allowComma, allowEmpty, ops, operands, oi)
                      == Continue(e, p.value.pos, allowComma, allowEmpty,
                                  State(operands + [p.value.node.value], ops + [oi], false)))
              && (p.Success? && !IsReserved(Tok(e, p.value.pos), R.CloseSquare) ==>
                    IndexStep(e, pos, allowComma, allowEmpty, ops, operands, oi)
                      == Failure(SyntaxError("Expected closing ']'", Tok(e, p.value.pos).lineNumber, Tok(e, p.value.pos).charIndex)))
  {
  }

  /** `(` read as an operator is a call whose one operand, before any argument, is the callee. */
  lemma CallCountsCallee(l: SizeT, c: SizeT)
    ensures GetOperatorInfo(R.OpenParen, false, l, c) == Success(MakeInfo(NodeOperation.Call, l, c))
    ensures MakeInfo(NodeOperation.Call, l, c).nOperands == 1
  {
  }

  /**
   A call: `()` pushes the call operator as it is; otherwise every argument is pushed after
   the operands already there, and the call operator is pushed with its operand count
   raised by the number of arguments, at least one. Failures are passed on.
   */
  lemma CallOutcome(e: Env, pos: nat, allowComma: bool, allowEmpty: bool,
                    ops: seq<OperatorInfo>, operands: seq<Node>, oi: OperatorInfo)
    requires At(e, pos) && !Tok(e, pos).value.Eof? && StackFits(ops) && Fits(oi)
    ensures e.l[pos + 1].Failure? ==> CallStep(e, pos, allowComma, allowEmpty, ops, operands, oi) == Failure(e.l[pos + 1].error)
    ensures e.l[pos + 1].Success? && IsReserved(Tok(e, pos + 1), R.CloseParen) ==>
              CallStep(e, pos, allowComma, allowEmpty, ops, operands, oi)
                == Continue(e, pos + 1, allowComma, allowEmpty, State(operands, ops + [oi], false))
    ensures e.l[pos + 1].Success? && !IsReserved(Tok(e, pos + 1), R.CloseParen) ==>
              var a := CallArgs(e, pos + 1, operands, 0);
              (a.Failure? ==> CallStep(e, pos, allowComma, allowEmpty, ops, operands, oi) == Failure(a.error))
              && (a.Success? ==>
                    a.value.count >= 1 && |a.value.operands| == |operands| + a.value.count
                    && a.value.operands[..|operands|] == operands
                    && CallStep(e, pos, allowComma, allowEmpty, ops, operands, oi)
                         == Continue(e, a.value.pos, allowComma, allowEmpty,
                                     State(a.value.operands, ops + [oi.(nOperands := oi.nOperands + a.value.count)], false)))
  {
  }

  /** An operand where one is expected: its node is pushed and an operator is expected next. */
  lemma OperandPushed(e: Env, pos: nat, allowComma: bool, allowEmpty: bool, st: State, n: Node)
    requires At(e, pos) && StackFits(st.operators) && st.expectedOperand
    requires !Tok(e, pos).value.Reserved? && !IsEndOfExpression(Tok(e, pos), allowComma)
    requires MakeNode(e.ctx, OperandValue(Tok(e, pos)), [], Tok(e, pos).lineNumber, Tok(e, pos).charIndex) == Success(n)
    ensures Loop(e, pos, allowComma, allowEmpty, st)
              == Continue(e, pos, allowComma, allowEmpty, State(st.operands + [n], st.operators, false))
  {
  }

  /**
   A binary operator where an operator is expected: the pending operators are reduced,
   the operator is pushed, and an operand is expected next.
   */
  lemma BinaryPushed(e: Env, pos: nat, allowComma: bool, allowEmpty: bool, st: State, oi: OperatorInfo)
    requires At(e, pos) && StackFits(st.operators) && !st.expectedOperand
    requires Tok(e, pos).value.Reserved? && !IsEndOfExpression(Tok(e, pos), allowComma)
    requires GetOperatorInfo(Tok(e, pos).value.token, false, Tok(e, pos).lineNumber, Tok(e, pos).charIndex) == Success(oi)
    requires oi.precedence != Prefix && oi.precedence != Postfix
    ensures Fits(oi) && oi.nOperands == 2 && MinChildren(oi.operation) <= 2
    ensures var t := Tok(e, pos);
            var red := Reduce(e.ctx, e.mode, st.operators, st.operands, oi, t.lineNumber, t.charIndex);
            (red.Failure? ==> Loop(e, pos, allowComma, allowEmpty, st) == Failure(red.error))
            && (red.Success? ==> StackFits(red.value.0 + [oi])
                                 && Loop(e, pos, allowComma, allowEmpty, st)
                                      == Continue(e, pos, allowComma, allowEmpty, State(red.value.1, red.value.0 + [oi], true)))
  {
    var t := Tok(e, pos);
    assert oi == MakeInfo(oi.operation, t.lineNumber, t.charIndex);
    BinaryOperands(oi.operation);
    assert Loop(e, pos, allowComma, allowEmpty, st) == OperatorStep(e, pos, allowComma, allowEmpty, st);
    assert OperatorStep(e, pos, allowComma, allowEmpty, st) == ReduceStep(e, pos, allowComma, allowEmpty, st, oi);
    ReduceThenPush(e, pos, allowComma, allowEmpty, st, oi);
  }

  /** An operator other than a call or an index is pushed once the pending ones are reduced. */
  lemma ReduceThenPush(e: Env, pos: nat, allowComma: bool, allowEmpty: bool, st: State, oi: OperatorInfo)
    requires At(e, pos) && !Tok(e, pos).value.Eof? && StackFits(st.operators) && Fits(oi)
    requires oi.operation != Call && oi.operation != Index
    ensures var t := Tok(e, pos);
            var red := Reduce(e.ctx, e.mode, st.operators, st.operands, oi, t.lineNumber, t.charIndex);
            (red.Failure? ==> ReduceStep(e, pos, allowComma, allowEmpty, st, oi) == Failure(red.error))
            && (red.Success? ==> StackFits(red.value.0 + [oi])
                                 && ReduceStep(e, pos, allowComma, allowEmpty, st, oi)
                                      == Continue(e, pos, allowComma, allowEmpty,
                                                  State(red.value.1, red.value.0 + [oi], oi.precedence != Postfix)))
  {
  }

  /** An operator that is neither prefix nor postfix takes two operands. */
  lemma BinaryOperands(op: NodeOperation)
    requires PrecedenceOf(op) != Prefix && PrecedenceOf(op) != Postfix
    ensures OperandCount(op) == 2 && MinChildren(op) <= 2
  {
  }

  /** `++it` onto a token read without error: the loop goes on from there. */
  lemma ContinueNext(e: Env, pos: nat, allowComma: bool, allowEmpty: bool, st: State)
    requires At(e, pos) && !Tok(e, pos).value.Eof? && StackFits(st.operators) && At(e, pos + 1)
    ensures Continue(e, pos, allowComma, allowEmpty, st) == Loop(e, pos + 1, allowComma, allowEmpty, st)
  {
  }

  /**
   The end of the expression with one binary operator pending over two operands: the
   result is the operator's node over them, or the error building it gives.
   */
  lemma EndReducesBinary(e: Env, pos: nat, allowComma: bool, allowEmpty: bool, x: Node, y: Node, oi: OperatorInfo)
    requires At(e, pos) && IsEndOfExpression(Tok(e, pos), allowComma)
    requires Fits(oi) && oi.nOperands == 2
    ensures var n := ReducedNode(e.ctx, oi, [x, y]);
            (n.Failure? ==> Loop(e, pos, allowComma, allowEmpty, State([x, y], [oi], false)) == Failure(n.error))
            && (n.Success? ==> Loop(e, pos, allowComma, allowEmpty, State([x, y], [oi], false)) == Success(Parsed(Some(n.value), pos)))
  {
    var n := ReducedNode(e.ctx, oi, [x, y]);
    var t := Tok(e, pos);
    if n.Success? {
      assert [x, y][..0] + [n.value] == [n.value];
      assert Drain(e.ctx, [oi], [x, y], t.lineNumber, t.charIndex) == Success([n.value]);
    }
  }

  /** An operand then a binary operator, from the start: one operand and the operator pending. */
  lemma OperandThenOperator(e: Env, oi: OperatorInfo, na: Node)
    requires At(e, 0) && At(e, 1) && At(e, 2)
    requires !Tok(e, 0).value.Reserved? && !IsEndOfExpression(Tok(e, 0), false)
    requires MakeNode(e.ctx, OperandValue(Tok(e, 0)), [], Tok(e, 0).lineNumber, Tok(e, 0).charIndex) == Success(na)
    requires Tok(e, 1).value.Reserved? && !IsEndOfExpression(Tok(e, 1), false)
    requires GetOperatorInfo(Tok(e, 1).value.token, false, Tok(e, 1).lineNumber, Tok(e, 1).charIndex) == Success(oi)
    requires oi.precedence != Prefix && oi.precedence != Postfix
    ensures Fits(oi) && oi.nOperands == 2
    ensures ParseImpl(e, 0, false, false) == Loop(e, 2, false, false, State([na], [oi], true))
  {
    var s1 := State([na], [], false);
    assert [] + [na] == [na];
    OperandPushed(e, 0, false, false, State([], [], true), na);
    ContinueNext(e, 0, false, false, s1);
    BinaryPushed(e, 1, false, false, s1, oi);
    assert Reduce(e.ctx, e.mode, [], [na], oi, Tok(e, 1).lineNumber, Tok(e, 1).charIndex) == Success(([], [na]));
    assert [] + [oi] == [oi];
    ContinueNext(e, 1, false, false, State([na], [oi], true));
  }

  /** The second operand of a binary operator, then the end: the operator's node over both. */
  lemma OperandThenEnd(e: Env, oi: OperatorInfo, na: Node, nb: Node)
    requires At(e, 2) && At(e, 3) && Fits(oi) && oi.nOperands == 2
    requires !Tok(e, 2).value.Reserved? && !IsEndOfExpression(Tok(e, 2), false)
    requires MakeNode(e.ctx, OperandValue(Tok(e, 2)), [], Tok(e, 2).lineNumber, Tok(e, 2).charIndex) == Success(nb)
    requires IsEndOfExpression(Tok(e, 3), false)
    ensures var n := ReducedNode(e.ctx, oi, [na, nb]);
            var r := Loop(e, 2, false, false, State([na], [oi], true));
            (n.Failure? ==> r == Failure(n.error)) && (n.Success? ==> r == Success(Parsed(Some(n.value), 3)))
  {
    var s3 := State([na, nb], [oi], false);
    assert [na] + [nb] == [na, nb];
    OperandPushed(e, 2, false, false, State([na], [oi], true), nb);
    ContinueNext(e, 2, false, false, s3);
    EndReducesBinary(e, 3, false, false, na, nb, oi);
  }

  /**
   The lexed text `a op b` then end of file: `a` and `b` are literals or identifiers whose
   nodes build as `na` and `nb`, and `op` reads as the binary operator `oi` where an
   operator is expected.
   */
  predicate BinaryInput(ctx: Context, l: Lexed, oi: OperatorInfo, na: Node, nb: Node) {
    |l| == 4 && l[0].Success? && l[1].Success? && l[2].Success? && l[3].Success?
    && (var a := l[0].value;
        !a.value.Reserved? && !a.value.Eof? && !a.value.Null?
        && MakeNode(ctx, OperandValue(a), [], a.lineNumber, a.charIndex) == Success(na))
    && (var op := l[1].value;
        op.value.Reserved? && !IsEndOfExpression(op, false)
        && GetOperatorInfo(op.value.token, false, op.lineNumber, op.charIndex) == Success(oi)
        && oi.precedence != Prefix && oi.precedence != Postfix)
    && (var b := l[2].value;
        !b.value.Reserved? && !b.value.Eof? && !b.value.Null?
        && MakeNode(ctx, OperandValue(b), [], b.lineNumber, b.charIndex) == Success(nb))
    && l[3].value.value.Eof?
  }

  /** What the parse of `a op b` reads at each position. */
  lemma BinaryInputRead(ctx: Context, mode: Reduction, l: Lexed, oi: OperatorInfo, na: Node, nb: Node)
    requires BinaryInput(ctx, l, oi, na, nb)
    ensures var e := Env(ctx, l, mode);
            At(e, 0) && At(e, 1) && At(e, 2) && At(e, 3)
            && !Tok(e, 0).value.Reserved? && !IsEndOfExpression(Tok(e, 0), false)
            && MakeNode(e.ctx, OperandValue(Tok(e, 0)), [], Tok(e, 0).lineNumber, Tok(e, 0).charIndex) == Success(na)
            && Tok(e, 1).value.Reserved? && !IsEndOfExpression(Tok(e, 1), false)
            && GetOperatorInfo(Tok(e, 1).value.token, false, Tok(e, 1).lineNumber, Tok(e, 1).charIndex) == Success(oi)
            && !Tok(e, 2).value.Reserved? && !IsEndOfExpression(Tok(e, 2), false)
            && MakeNode(e.ctx, OperandValue(Tok(e, 2)), [], Tok(e, 2).lineNumber, Tok(e, 2).charIndex) == Success(nb)
            && IsEndOfExpression(Tok(e, 3), false)
  {
    assert ValidEnv(Env(ctx, l, mode));
  }

  /**
   Two operands around a binary operator, then end of file: both operands are pushed, the
   operator is reduced when the expression ends, and the tree is the operator's node over
   the two operands in order, at the second operand's position, or the error the node
   constructor gives for them. This holds in either reduction mode.
   */
  lemma BinaryExpression(ctx: Context, mode: Reduction, l: Lexed, oi: OperatorInfo, na: Node, nb: Node)
    requires BinaryInput(ctx, l, oi, na, nb)
    ensures MinChildren(oi.operation) <= 2
    ensures var r := ParseImpl(Env(ctx, l, mode), 0, false, false);
            var n := MakeNode(ctx, Operation(oi.operation), [na, nb], l[2].value.lineNumber, l[2].value.charIndex);
            (r.Success? <==> n.Success?)
            && (r.Success? ==> r.value == Parsed(Some(n.value), 3) && n.value.children == [na, nb])
            && (r.Failure? ==> r.error == n.error)
  {
    var e := Env(ctx, l, mode);
    BinaryInputRead(ctx, mode, l, oi, na, nb);
    OperandThenOperator(e, oi, na);
    OperandThenEnd(e, oi, na, nb);
    assert ReducedNode(ctx, oi, [na, nb]) == MakeNode(ctx, Operation(oi.operation), [na, nb], l[2].value.lineNumber, l[2].value.charIndex);
  }

  /** An operand where one is expected, and the loop goes on at the next token. */
  lemma OperandNext(e: Env, pos: nat, st: State, n: Node)
    requires At(e, pos) && At(e, pos + 1) && StackFits(st.operators) && st.expectedOperand
    requires !Tok(e, pos).value.Reserved? && !IsEndOfExpression(Tok(e, pos), false)
    requires MakeNode(e.ctx, OperandValue(Tok(e, pos)), [], Tok(e, pos).lineNumber, Tok(e, pos).charIndex) == Success(n)
    ensures Loop(e, pos, false, false, st) == Loop(e, pos + 1, false, false, State(st.operands + [n], st.operators, false))
  {
    OperandPushed(e, pos, false, false, st, n);
    ContinueNext(e, pos, false, false, State(st.operands + [n], st.operators, false));
  }

  /** A binary operator where one is expected, reduced and pushed, and the loop goes on. */
  lemma BinaryNext(e: Env, pos: nat, st: State, oi: OperatorInfo, ops: seq<OperatorInfo>, operands: seq<Node>)
    requires At(e, pos) && At(e, pos + 1) && StackFits(st.operators) && !st.expectedOperand
    requires Tok(e, pos).value.Reserved? && !IsEndOfExpression(Tok(e, pos), false)
    requires GetOperatorInfo(Tok(e, pos).value.token, false, Tok(e, pos).lineNumber, Tok(e, pos).charIndex) == Success(oi)
    requires oi.precedence != Prefix && oi.precedence != Postfix
    requires Reduce(e.ctx, e.mode, st.operators, st.operands, oi, Tok(e, pos).lineNumber, Tok(e, pos).charIndex)
               == Success((ops, operands))
    ensures StackFits(ops + [oi])
    ensures Loop(e, pos, false, false, st) == Loop(e, pos + 1, false, false, State(operands, ops + [oi], true))
  {
    BinaryPushed(e, pos, false, false, st, oi);
    ContinueNext(e, pos, false, false, State(operands, ops + [oi], true));
  }

  /**
   Two arithmetic operators over three numbers: the upper operator takes the last two, and
   the lower one takes the first and that node.
   */
  lemma DrainTwo(ctx: Context, x: Node, y: Node, z: Node, o1: OperatorInfo, o2: OperatorInfo, l: SizeT, c: SizeT)
    requires Fits(o1) && Fits(o2) && o1.nOperands == 2 && o2.nOperands == 2
    requires IsArithmetic(o1.operation) && IsArithmetic(o2.operation) && o1.precedence != Prefix && o2.precedence != Prefix
    requires IsNumberType(x.typeId) && IsNumberType(y.typeId) && IsNumberType(z.typeId)
    ensures var d := Drain(ctx, [o1, o2], [x, y, z], l, c);
            d.Success? && |d.value| == 1
            && ShapeOf(d.value[0]) == Bin(o1.operation, ShapeOf(x), Bin(o2.operation, ShapeOf(y), ShapeOf(z)))
  {
    ArithmeticReduces(ctx, [o1, o2], [x, y, z], l, c);
    var p := PopOneOperator(ctx, [o1, o2], [x, y, z], l, c).value;
    var inner := Top(p.1);
    assert p.0 == [o1] && p.1 == [x, inner];
    assert inner.value == Operation(o2.operation) && inner.children == [y, z];
    assert ShapeOf(inner) == Bin(o2.operation, ShapeOf(y), ShapeOf(z));
    DrainPopsTop(ctx, [o1, o2], [x, y, z], l, c);
    DrainOne(ctx, x, inner, o1, l, c);
  }

  /** Draining starts with the top operator. */
  lemma DrainPopsTop(ctx: Context, ops: seq<OperatorInfo>, operands: seq<Node>, l: SizeT, c: SizeT)
    requires StackFits(ops) && ops != [] && PopOneOperator(ctx, ops, operands, l, c).Success?
    ensures var p := PopOneOperator(ctx, ops, operands, l, c).value;
            StackFits(p.0) && Drain(ctx, ops, operands, l, c) == Drain(ctx, p.0, p.1, l, c)
  {
  }

  /** One arithmetic operator over two numbers drains to its node. */
  lemma DrainOne(ctx: Context, x: Node, y: Node, o: OperatorInfo, l: SizeT, c: SizeT)
    requires Fits(o) && o.nOperands == 2 && IsArithmetic(o.operation) && o.precedence != Prefix
    requires IsNumberType(x.typeId) && IsNumberType(y.typeId)
    ensures var d := Drain(ctx, [o], [x, y], l, c);
            d.Success? && |d.value| == 1 && ShapeOf(d.value[0]) == Bin(o.operation, ShapeOf(x), ShapeOf(y))
  {
    ArithmeticReduces(ctx, [o], [x, y], l, c);
    var q := PopOneOperator(ctx, [o], [x, y], l, c).value;
    assert q.0 == [] && |q.1| == 1;
    assert q.1[0].children == [x, y];
  }

  /** At the end of the expression, operators that drain to one node give that node as the tree. */
  lemma EndDrains(e: Env, pos: nat, st: State)
    requires At(e, pos) && IsEndOfExpression(Tok(e, pos), false) && StackFits(st.operators) && !st.expectedOperand
    requires var t := Tok(e, pos);
             var d := Drain(e.ctx, st.operators, st.operands, t.lineNumber, t.charIndex);
             d.Success? && |d.value| == 1
    ensures var t := Tok(e, pos);
            var d := Drain(e.ctx, st.operators, st.operands, t.lineNumber, t.charIndex);
            Loop(e, pos, false, false, st) == Success(Parsed(Some(d.value[0]), pos))
  {
  }

  /** The outline of a tree: number leaves and binary operations, anything else left opaque. */
  datatype Shape = Num(x: real) | Bin(op: NodeOperation, left: Shape, right: Shape) | OtherShape

  function ShapeOf(n: Node): Shape {
    if n.value.RealValue? && n.children == [] then Num(n.value.r)
    else if n.value.Operation? && |n.children| == 2 then Bin(n.value.op, ShapeOf(n.children[0]), ShapeOf(n.children[1]))
    else OtherShape
  }

  /** A real literal token and its node, one line, at the given column. */
  function RealToken(x: real, c: SizeT): Tokens.Token {
    Tokens.Token(Tokens.Real(x), 0, c)
  }

  function RealAt(x: real, c: SizeT): (n: Node)
    ensures n.typeId == REAL_HANDLE && ShapeOf(n) == Num(x)
  {
    Node(RealValue(x), [], REAL_HANDLE, false, 0, c)
  }

  /** A reserved token on the same line. */
  function OperatorToken(r: R.ReservedToken, c: SizeT): Tokens.Token {
    Tokens.Token(Tokens.Reserved(r), 0, c)
  }

  /** The lexed text `1 - 2 * 3 - 4`, one column per character. */
  predicate IsGroupingInput(l: Lexed) {
    l == [Success(RealToken(1.0, 0)), Success(OperatorToken(R.Sub, 2)), Success(RealToken(2.0, 4)),
          Success(OperatorToken(R.Mul, 6)), Success(RealToken(3.0, 8)), Success(OperatorToken(R.Sub, 10)),
          Success(RealToken(4.0, 12)), Success(Tokens.Token(Tokens.Eof, 0, 13))]
  }

  /** A number token where an operand is expected: its literal node is pushed, and the loop goes on. */
  lemma RealNext(e: Env, pos: nat, st: State, x: real, c: SizeT, next: State)
    requires At(e, pos + 1) && e.l[pos] == Success(RealToken(x, c)) && StackFits(st.operators) && st.expectedOperand
    requires next == State(st.operands + [RealAt(x, c)], st.operators, false)
    ensures Loop(e, pos, false, false, st) == Loop(e, pos + 1, false, false, next)
  {
    assert At(e, pos);
    assert MakeNode(e.ctx, OperandValue(RealToken(x, c)), [], 0, c) == Success(RealAt(x, c));
    OperandNext(e, pos, st, RealAt(x, c));
  }

  /**
   A binary operator token where an operator is expected: once the pending operators are
   reduced, it is pushed, and the loop goes on.
   */
  lemma OperatorNext(e: Env, pos: nat, st: State, r: R.ReservedToken, c: SizeT, oi: OperatorInfo,
                     ops: seq<OperatorInfo>, operands: seq<Node>, next: State)
    requires At(e, pos + 1) && e.l[pos] == Success(OperatorToken(r, c)) && StackFits(st.operators) && !st.expectedOperand
    requires r != R.Comma && OperationOf(r, false).Some? && oi == MakeInfo(OperationOf(r, false).value, 0, c)
    requires oi.precedence != Prefix && oi.precedence != Postfix
    requires Reduce(e.ctx, e.mode, st.operators, st.operands, oi, 0, c) == Success((ops, operands))
    requires next == State(operands, ops + [oi], true)
    ensures StackFits(next.operators)
    ensures Loop(e, pos, false, false, st) == Loop(e, pos + 1, false, false, next)
  {
    assert At(e, pos);
    OperatorTokens(r, false);
    BinaryNext(e, pos, st, oi, ops, operands);
  }

  // The steps of `1 - 2 * 3 - 4`, one token each. The stacks are written bottom first.

  /** `2 * 3`, reduced. */
  function MulNode(): (n: Node)
    ensures ShapeOf(n) == Bin(NodeOperation.Mul, Num(2.0), Num(3.0))
  {
    Node(Operation(NodeOperation.Mul), [RealAt(2.0, 4), RealAt(3.0, 8)], REAL_HANDLE, false, 0, 8)
  }

  /** `1 - 2 * 3`, reduced. */
  function LeftNode(): (n: Node)
    ensures ShapeOf(n) == Bin(NodeOperation.Sub, Num(1.0), Bin(NodeOperation.Mul, Num(2.0), Num(3.0)))
  {
    Node(Operation(NodeOperation.Sub), [RealAt(1.0, 0), MulNode()], REAL_HANDLE, false, 0, 8)
  }

  function FirstSub(): OperatorInfo { MakeInfo(NodeOperation.Sub, 0, 2) }
  function TheMul(): OperatorInfo { MakeInfo(NodeOperation.Mul, 0, 6) }
  function SecondSubAt(): OperatorInfo { MakeInfo(NodeOperation.Sub, 0, 10) }

  /** The tokens of `1 - 2 * 3 - 4`, position by position. */
  lemma GroupingRead(e: Env)
    requires IsGroupingInput(e.l)
    ensures ValidEnv(e) && |e.l| == 8
    ensures At(e, 0) && At(e, 1) && At(e, 2) && At(e, 3) && At(e, 4) && At(e, 5) && At(e, 6) && At(e, 7)
    ensures e.l[0] == Success(RealToken(1.0, 0)) && e.l[1] == Success(OperatorToken(R.Sub, 2))
    ensures e.l[2] == Success(RealToken(2.0, 4)) && e.l[3] == Success(OperatorToken(R.Mul, 6))
    ensures e.l[4] == Success(RealToken(3.0, 8)) && e.l[5] == Success(OperatorToken(R.Sub, 10))
    ensures e.l[6] == Success(RealToken(4.0, 12)) && IsEndOfExpression(Tok(e, 7), false)
  {
    assert ValidEnv(e);
  }

  lemma ReadOne(e: Env)
    requires IsGroupingInput(e.l)
    ensures Loop(e, 0, false, false, State([], [], true)) == Loop(e, 1, false, false, State([RealAt(1.0, 0)], [], false))
  {
    GroupingRead(e);
    RealNext(e, 0, State([], [], true), 1.0, 0, State([RealAt(1.0, 0)], [], false));
  }

  lemma ReadFirstSub(e: Env)
    requires IsGroupingInput(e.l)
    ensures Loop(e, 1, false, false, State([RealAt(1.0, 0)], [], false))
         == Loop(e, 2, false, false, State([RealAt(1.0, 0)], [FirstSub()], true))
  {
    GroupingRead(e);
    OperatorNext(e, 1, State([RealAt(1.0, 0)], [], false), R.Sub, 2, FirstSub(), [], [RealAt(1.0, 0)],
                 State([RealAt(1.0, 0)], [FirstSub()], true));
  }

  lemma ReadTwo(e: Env)
    requires IsGroupingInput(e.l)
    ensures Loop(e, 2, false, false, State([RealAt(1.0, 0)], [FirstSub()], true))
         == Loop(e, 3, false, false, State([RealAt(1.0, 0), RealAt(2.0, 4)], [FirstSub()], false))
  {
    GroupingRead(e);
    RealNext(e, 2, State([RealAt(1.0, 0)], [FirstSub()], true), 2.0, 4,
             State([RealAt(1.0, 0), RealAt(2.0, 4)], [FirstSub()], false));
  }

  /** The `*` is a binary multiplication, read at column 6. */
  lemma MulRead(e: Env)
    requires IsGroupingInput(e.l)
    ensures At(e, 4) && e.l[3] == Success(OperatorToken(R.Mul, 6))
    ensures OperationOf(R.Mul, false) == Some(NodeOperation.Mul) && TheMul() == MakeInfo(NodeOperation.Mul, 0, 6)
    ensures TheMul().precedence == Multiplication && StackFits([FirstSub()])
  {
    assert ValidEnv(e);
  }

  /** `*` binds tighter than the `-` below it, which therefore stays pending. */
  lemma MulDoesNotReduce(ctx: Context, mode: Reduction)
    ensures Reduce(ctx, mode, [FirstSub()], [RealAt(1.0, 0), RealAt(2.0, 4)], TheMul(), 0, 6)
         == Success(([FirstSub()], [RealAt(1.0, 0), RealAt(2.0, 4)]))
  {
    EvaluatedBeforeByLevel(NodeOperation.Sub, NodeOperation.Mul, 0, 2, 0, 6);
  }

  /** `*` does not reduce the `-` below it. */
  lemma ReadMul(e: Env)
    requires IsGroupingInput(e.l)
    ensures Loop(e, 3, false, false, State([RealAt(1.0, 0), RealAt(2.0, 4)], [FirstSub()], false))
         == Loop(e, 4, false, false, State([RealAt(1.0, 0), RealAt(2.0, 4)], [FirstSub(), TheMul()], true))
  {
    MulRead(e);
    MulDoesNotReduce(e.ctx, e.mode);
    OperatorNext(e, 3, State([RealAt(1.0, 0), RealAt(2.0, 4)], [FirstSub()], false), R.Mul, 6, TheMul(),
                 [FirstSub()], [RealAt(1.0, 0), RealAt(2.0, 4)],
                 State([RealAt(1.0, 0), RealAt(2.0, 4)], [FirstSub(), TheMul()], true));
  }

  lemma ReadThree(e: Env)
    requires IsGroupingInput(e.l)
    ensures Loop(e, 4, false, false, State([RealAt(1.0, 0), RealAt(2.0, 4)], [FirstSub(), TheMul()], true))
         == Loop(e, 5, false, false, State([RealAt(1.0, 0), RealAt(2.0, 4), RealAt(3.0, 8)], [FirstSub(), TheMul()], false))
  {
    GroupingRead(e);
    RealNext(e, 4, State([RealAt(1.0, 0), RealAt(2.0, 4)], [FirstSub(), TheMul()], true), 3.0, 8,
             State([RealAt(1.0, 0), RealAt(2.0, 4), RealAt(3.0, 8)], [FirstSub(), TheMul()], false));
  }

  /** Up to the second `-`, in either mode. */
  lemma GroupingPrefix(e: Env)
    requires IsGroupingInput(e.l)
    ensures ParseImpl(e, 0, false, false)
         == Loop(e, 5, false, false, State([RealAt(1.0, 0), RealAt(2.0, 4), RealAt(3.0, 8)], [FirstSub(), TheMul()], false))
  {
    GroupingRead(e);
    assert ParseImpl(e, 0, false, false) == Loop(e, 0, false, false, State([], [], true));
    ReadOne(e);
    ReadFirstSub(e);
    ReadTwo(e);
    ReadMul(e);
    ReadThree(e);
  }

  /** As written, the second `-` reduces `2 * 3` only. */
  lemma MulReducedOnce(ctx: Context)
    ensures Reduce(ctx, OnePerOperator, [FirstSub(), TheMul()], [RealAt(1.0, 0), RealAt(2.0, 4), RealAt(3.0, 8)],
                   SecondSubAt(), 0, 10)
         == Success(([FirstSub()], [RealAt(1.0, 0), MulNode()]))
  {
    var ops, operands := [FirstSub(), TheMul()], [RealAt(1.0, 0), RealAt(2.0, 4), RealAt(3.0, 8)];
    EvaluatedBeforeByLevel(NodeOperation.Mul, NodeOperation.Sub, 0, 6, 0, 10);
    ArithmeticRule(ctx, NodeOperation.Mul, [RealAt(2.0, 4), RealAt(3.0, 8)], 0, 8);
    assert operands[|operands| - 2..] == [RealAt(2.0, 4), RealAt(3.0, 8)];
    assert ReducedNode(ctx, TheMul(), operands) == Success(MulNode());
    assert operands[..1] + [MulNode()] == [RealAt(1.0, 0), MulNode()];
    assert Pop(ops) == [FirstSub()];
    assert PopOneOperator(ctx, ops, operands, 0, 10) == Success(([FirstSub()], [RealAt(1.0, 0), MulNode()]));
  }

  /** With the reduce-while loop, the second `-` reduces `2 * 3` and then `1 - 6`. */
  lemma MulAndSubReduced(ctx: Context)
    ensures Reduce(ctx, AllPending, [FirstSub(), TheMul()], [RealAt(1.0, 0), RealAt(2.0, 4), RealAt(3.0, 8)],
                   SecondSubAt(), 0, 10)
         == Success(([], [LeftNode()]))
  {
    var ops, operands := [FirstSub(), TheMul()], [RealAt(1.0, 0), RealAt(2.0, 4), RealAt(3.0, 8)];
    EvaluatedBeforeByLevel(NodeOperation.Mul, NodeOperation.Sub, 0, 6, 0, 10);
    EvaluatedBeforeByLevel(NodeOperation.Sub, NodeOperation.Sub, 0, 2, 0, 10);
    ArithmeticRule(ctx, NodeOperation.Mul, [RealAt(2.0, 4), RealAt(3.0, 8)], 0, 8);
    assert operands[|operands| - 2..] == [RealAt(2.0, 4), RealAt(3.0, 8)];
    assert ReducedNode(ctx, TheMul(), operands) == Success(MulNode());
    var mid := [RealAt(1.0, 0), MulNode()];
    assert operands[..1] + [MulNode()] == mid;
    assert Pop(ops) == [FirstSub()];
    assert PopOneOperator(ctx, ops, operands, 0, 10) == Success(([FirstSub()], mid));
    ReduceAllStep(ctx, ops, operands, SecondSubAt(), 0, 10);
    ArithmeticRule(ctx, NodeOperation.Sub, mid, 0, 8);
    assert mid[|mid| - 2..] == mid;
    assert ReducedNode(ctx, FirstSub(), mid) == Success(LeftNode());
    assert mid[..0] + [LeftNode()] == [LeftNode()];
    assert PopOneOperator(ctx, [FirstSub()], mid, 0, 10) == Success(([], [LeftNode()]));
    ReduceAllStep(ctx, [FirstSub()], mid, SecondSubAt(), 0, 10);
  }

  /** The second `-` is a binary subtraction, read at column 10. */
  lemma SecondSubRead(e: Env)
    requires IsGroupingInput(e.l)
    ensures At(e, 6) && e.l[5] == Success(OperatorToken(R.Sub, 10))
    ensures OperationOf(R.Sub, false) == Some(NodeOperation.Sub) && SecondSubAt() == MakeInfo(NodeOperation.Sub, 0, 10)
    ensures SecondSubAt().precedence == Addition && StackFits([FirstSub(), TheMul()])
  {
    assert ValidEnv(e);
  }

  lemma ReadSecondSubAsWritten(e: Env)
    requires IsGroupingInput(e.l) && e.mode == OnePerOperator
    ensures Loop(e, 5, false, false, State([RealAt(1.0, 0), RealAt(2.0, 4), RealAt(3.0, 8)], [FirstSub(), TheMul()], false))
         == Loop(e, 6, false, false, State([RealAt(1.0, 0), MulNode()], [FirstSub(), SecondSubAt()], true))
  {
    SecondSubRead(e);
    MulReducedOnce(e.ctx);
    OperatorNext(e, 5, State([RealAt(1.0, 0), RealAt(2.0, 4), RealAt(3.0, 8)], [FirstSub(), TheMul()], false),
                 R.Sub, 10, SecondSubAt(), [FirstSub()], [RealAt(1.0, 0), MulNode()],
                 State([RealAt(1.0, 0), MulNode()], [FirstSub(), SecondSubAt()], true));
  }

  lemma ReadSecondSubReduced(e: Env)
    requires IsGroupingInput(e.l) && e.mode == AllPending
    ensures Loop(e, 5, false, false, State([RealAt(1.0, 0), RealAt(2.0, 4), RealAt(3.0, 8)], [FirstSub(), TheMul()], false))
         == Loop(e, 6, false, false, State([LeftNode()], [SecondSubAt()], true))
  {
    SecondSubRead(e);
    MulAndSubReduced(e.ctx);
    OperatorNext(e, 5, State([RealAt(1.0, 0), RealAt(2.0, 4), RealAt(3.0, 8)], [FirstSub(), TheMul()], false),
                 R.Sub, 10, SecondSubAt(), [], [LeftNode()], State([LeftNode()], [SecondSubAt()], true));
  }

  lemma ReadFourAsWritten(e: Env)
    requires IsGroupingInput(e.l)
    ensures Loop(e, 6, false, false, State([RealAt(1.0, 0), MulNode()], [FirstSub(), SecondSubAt()], true))
         == Loop(e, 7, false, false, State([RealAt(1.0, 0), MulNode(), RealAt(4.0, 12)], [FirstSub(), SecondSubAt()], false))
  {
    GroupingRead(e);
    RealNext(e, 6, State([RealAt(1.0, 0), MulNode()], [FirstSub(), SecondSubAt()], true), 4.0, 12,
             State([RealAt(1.0, 0), MulNode(), RealAt(4.0, 12)], [FirstSub(), SecondSubAt()], false));
  }

  lemma ReadFourReduced(e: Env)
    requires IsGroupingInput(e.l)
    ensures Loop(e, 6, false, false, State([LeftNode()], [SecondSubAt()], true))
         == Loop(e, 7, false, false, State([LeftNode(), RealAt(4.0, 12)], [SecondSubAt()], false))
  {
    GroupingRead(e);
    RealNext(e, 6, State([LeftNode()], [SecondSubAt()], true), 4.0, 12,
             State([LeftNode(), RealAt(4.0, 12)], [SecondSubAt()], false));
  }

  lemma EndAsWritten(e: Env)
    requires IsGroupingInput(e.l)
    ensures var r := Loop(e, 7, false, false, State([RealAt(1.0, 0), MulNode(), RealAt(4.0, 12)], [FirstSub(), SecondSubAt()], false));
            r.Success? && r.value.pos == 7
            && ShapeOf(r.value.node.value)
               == Bin(NodeOperation.Sub, Num(1.0), Bin(NodeOperation.Sub, Bin(NodeOperation.Mul, Num(2.0), Num(3.0)), Num(4.0)))
  {
    GroupingRead(e);
    DrainTwo(e.ctx, RealAt(1.0, 0), MulNode(), RealAt(4.0, 12), FirstSub(), SecondSubAt(), Tok(e, 7).lineNumber, Tok(e, 7).charIndex);
    EndDrains(e, 7, State([RealAt(1.0, 0), MulNode(), RealAt(4.0, 12)], [FirstSub(), SecondSubAt()], false));
  }

  lemma EndReduced(e: Env)
    requires IsGroupingInput(e.l)
    ensures var r := Loop(e, 7, false, false, State([LeftNode(), RealAt(4.0, 12)], [SecondSubAt()], false));
            r.Success? && r.value.pos == 7
            && ShapeOf(r.value.node.value)
               == Bin(NodeOperation.Sub, Bin(NodeOperation.Sub, Num(1.0), Bin(NodeOperation.Mul, Num(2.0), Num(3.0))), Num(4.0))
  {
    GroupingRead(e);
    DrainOne(e.ctx, LeftNode(), RealAt(4.0, 12), SecondSubAt(), Tok(e, 7).lineNumber, Tok(e, 7).charIndex);
    EndDrains(e, 7, State([LeftNode(), RealAt(4.0, 12)], [SecondSubAt()], false));
  }

  /**
   As written, `1 - 2 * 3 - 4` parses as `1 - ((2 * 3) - 4)`: the second `-` reduces only
   `2 * 3`, is pushed over the first `-`, and so takes the `4` first.
   */
  lemma OneReductionParsesRight(e: Env)
    requires IsGroupingInput(e.l) && e.mode == OnePerOperator
    ensures var r := ParseImpl(e, 0, false, false);
            r.Success? && r.value.pos == 7
            && ShapeOf(r.value.node.value)
               == Bin(NodeOperation.Sub, Num(1.0), Bin(NodeOperation.Sub, Bin(NodeOperation.Mul, Num(2.0), Num(3.0)), Num(4.0)))
  {
    GroupingPrefix(e);
    ReadSecondSubAsWritten(e);
    ReadFourAsWritten(e);
    EndAsWritten(e);
  }

  /** With every pending operator reduced, `1 - 2 * 3 - 4` parses as `(1 - (2 * 3)) - 4`. */
  lemma AllPendingParsesLeft(e: Env)
    requires IsGroupingInput(e.l) && e.mode == AllPending
    ensures var r := ParseImpl(e, 0, false, false);
            r.Success? && r.value.pos == 7
            && ShapeOf(r.value.node.value)
               == Bin(NodeOperation.Sub, Bin(NodeOperation.Sub, Num(1.0), Bin(NodeOperation.Mul, Num(2.0), Num(3.0))), Num(4.0))
  {
    GroupingPrefix(e);
    ReadSecondSubReduced(e);
    ReadFourReduced(e);
    EndReduced(e);
  }

  /** An example: a lone number parses to its literal node and stops at end of file. */
  lemma LoneNumber(ctx: Context, mode: Reduction, x: real)
    ensures var l := [Success(Tokens.Token(Tokens.Real(x), 0, 0)), Success(Tokens.Token(Tokens.Eof, 0, 1))];
            ParseImpl(Env(ctx, l, mode), 0, false, false) == Success(Parsed(Some(RealOperand(x)), 1))
  {
    var l := [Success(Tokens.Token(Tokens.Real(x), 0, 0)), Success(Tokens.Token(Tokens.Eof, 0, 1))];
    var e := Env(ctx, l, mode);
    assert At(e, 0) && At(e, 1);
    assert OperandValue(Tok(e, 0)) == RealValue(x);
    LiteralNode(ctx, RealValue(x), [], 0, 0);
    assert MakeNode(ctx, RealValue(x), [], 0, 0) == Success(RealOperand(x));
    assert Advance(e, 0) == Success(1);
    var st := State([RealOperand(x)], [], false);
    assert [] + [RealOperand(x)] == st.operands;
    assert OperandStep(e, 0, false, false, State([], [], true)) == Continue(e, 0, false, false, st);
    assert Continue(e, 0, false, false, st) == Loop(e, 1, false, false, st);
  }
}
