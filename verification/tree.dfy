/**
 The expression tree of libs/core/src/tone/core/expression_tree.cpp: a node's value and
 children, and the type and lvalue flag its constructor computes, or the error it throws.

 `dump_type_handle` is not part of this model: where a message names a type, the model
 writes the text `DumpTypeHandle` gives, which is empty.
 */
module ExpressionTree {
  import opened Wrappers
  import opened PushBackStream
  import opened Errors
  import opened Types
  import opened Identifiers
  import opened CompileContext
  import opened Conversion
  import Tokens
  import Numbers

  /** `node_operation`. */
  datatype NodeOperation =
    | Param
    | PreIncrement | PreDecrement | PostIncrement | PostDecrement
    | UnaryMinus | UnaryPlus
    | Add | Sub | Mul | Div | Mod
    | BitwiseNot | BitwiseAnd | BitwiseOr | BitwiseXor | ShiftL | ShiftR
    | Assign | AddAssign | SubAssign | MulAssign | DivAssign | ModAssign
    | Equal | NotEqual | Less | Greater | LessEqual | GreaterEqual
    | Comma | Index
    | LogicalNot | LogicalAnd | LogicalOr
    | Call

  /** `node_value`: an operation, a string, integer, real or boolean literal, or an identifier. */
  datatype NodeValue =
    | Operation(op: NodeOperation)
    | StrValue(s: string)
    | IntValue(i: Tokens.Int64)
    | RealValue(r: real)
    | BoolValue(b: bool)
    | IdentValue(name: string)

  /** `node`: value, children, computed type and lvalue flag, position. */
  datatype Node = Node(value: NodeValue, children: seq<Node>, typeId: Handle, lvalue: bool,
                       lineNumber: SizeT, charIndex: SizeT)

  /** `dump_type_handle` stands outside this model; its text is left empty. */
  function DumpTypeHandle(h: Handle): string {
    ""
  }

  // ---------------------------------------------------------------------------------------
  // Tags
  // ---------------------------------------------------------------------------------------

  predicate IsNodeOperation(n: Node) { n.value.Operation? }
  predicate IsIdentifier(n: Node) { n.value.IdentValue? }
  predicate IsBool(n: Node) { n.value.BoolValue? }
  predicate IsReal(n: Node) { n.value.RealValue? }
  predicate IsInt(n: Node) { n.value.IntValue? }
  predicate IsStr(n: Node) { n.value.StrValue? }

  /** `is_numeric`: a real or integer literal, whatever the node's type. */
  predicate IsNumeric(n: Node) {
    IsReal(n) || IsInt(n)
  }

  /** A literal node: the value is known without looking anything up. */
  predicate IsLiteral(n: Node) {
    n.value.StrValue? || n.value.IntValue? || n.value.RealValue? || n.value.BoolValue?
  }

  /** The tags are exclusive: a node is exactly one of operation, identifier or literal. */
  lemma TagsExclusive(n: Node)
    ensures IsNodeOperation(n) || IsIdentifier(n) || IsLiteral(n)
    ensures IsNodeOperation(n) ==> !IsIdentifier(n) && !IsLiteral(n)
    ensures IsIdentifier(n) ==> !IsLiteral(n)
    ensures IsNumeric(n) ==> IsLiteral(n) && !IsStr(n) && !IsBool(n)
  {
  }

  // ---------------------------------------------------------------------------------------
  // Conversion checks
  // ---------------------------------------------------------------------------------------

  /** `check_conversion`: nothing, or the wrong-type error at the node. */
  function CheckConversion(n: Node, typeId: Handle, lvalue: bool): (r: Option<Error>)
    ensures r.None? <==> IsConvertable(n.typeId, n.lvalue, typeId, lvalue)
    ensures r.Some? ==> r.value.lineNumber == n.lineNumber && r.value.charIndex == n.charIndex
  {
    if IsConvertable(n.typeId, n.lvalue, typeId, lvalue) then None
    else Some(WrongTypeError(DumpTypeHandle(n.typeId), DumpTypeHandle(typeId), lvalue, n.lineNumber, n.charIndex))
  }

  /**
   The loop of `check_any_conversion` from some point on: the names of the types tried so
   far are collected, separated by `||`, for the message.
   */
  function AnyConversionFrom(n: Node, typeIds: seq<Handle>, lvalue: bool, errorType: string, sep: string): (r: Option<Error>)
    ensures r.None? <==> exists i :: 0 <= i < |typeIds| && IsConvertable(n.typeId, n.lvalue, typeIds[i], lvalue)
    ensures r.Some? ==> r.value.lineNumber == n.lineNumber && r.value.charIndex == n.charIndex
    decreases |typeIds|
  {
    if typeIds == [] then
      Some(WrongTypeError(DumpTypeHandle(n.typeId), errorType, lvalue, n.lineNumber, n.charIndex))
    else if IsConvertable(n.typeId, n.lvalue, typeIds[0], lvalue) then None
    else
      var r := AnyConversionFrom(n, typeIds[1..], lvalue, errorType + sep + DumpTypeHandle(typeIds[0]), "||");
      assert forall i :: 1 <= i < |typeIds| ==> typeIds[1..][i - 1] == typeIds[i];
      r
  }

  /** `check_any_conversion`: nothing if one of the types is reachable, else the error at the node. */
  function CheckAnyConversion(n: Node, typeIds: seq<Handle>, lvalue: bool): (r: Option<Error>)
    ensures r.None? <==> exists i :: 0 <= i < |typeIds| && IsConvertable(n.typeId, n.lvalue, typeIds[i], lvalue)
    ensures r.Some? ==> r.value.lineNumber == n.lineNumber && r.value.charIndex == n.charIndex
  {
    AnyConversionFrom(n, typeIds, lvalue, "", "")
  }

  /** The number types that arithmetic accepts. */
  const NUMBER_TYPES: seq<Handle> := [REAL_HANDLE, INT_HANDLE]

  /** Whether a node passes the number check, with or without an lvalue required. */
  lemma NumberCheck(n: Node, lvalue: bool)
    ensures CheckAnyConversion(n, NUMBER_TYPES, lvalue).None? <==>
              (lvalue ==> n.lvalue) && (n.typeId == REAL_HANDLE || n.typeId == INT_HANDLE)
  {
    ConvertsTo(n.typeId, n.lvalue);
    assert NUMBER_TYPES[0] == REAL_HANDLE && NUMBER_TYPES[1] == INT_HANDLE;
  }

  /** A real or an integer type. */
  predicate IsNumberType(h: Handle) {
    h == REAL_HANDLE || h == INT_HANDLE
  }

  /** The number check the operators make: a real or an integer, and an lvalue if one is required. */
  function CheckNumber(n: Node, lvalue: bool): (r: Option<Error>)
    ensures r.None? <==> (lvalue ==> n.lvalue) && IsNumberType(n.typeId)
    ensures r.Some? ==> r.value.lineNumber == n.lineNumber && r.value.charIndex == n.charIndex
  {
    NumberCheck(n, lvalue);
    CheckAnyConversion(n, NUMBER_TYPES, lvalue)
  }

  // ---------------------------------------------------------------------------------------
  // The node constructor
  // ---------------------------------------------------------------------------------------

  /** The type and lvalue flag a node gets. */
  datatype Typing = Typing(typeId: Handle, lvalue: bool)

  /** The first error of two checks made one after the other. */
  function Then(a: Option<Error>, b: Option<Error>): (r: Option<Error>)
    ensures r.None? <==> a.None? && b.None?
    ensures a.Some? ==> r == a
  {
    if a.Some? then a else b
  }

  /** A typing that holds unless a check failed. */
  function Checked(t: Typing, check: Option<Error>): (r: Result<Typing, Error>)
    ensures r.Success? <==> check.None?
    ensures r.Success? ==> r.value == t
    ensures r.Failure? ==> r.error == check.value
  {
    if check.Some? then Failure(check.value) else Success(t)
  }

  /** The children an operation reads: one for unary ones, `comma` and `call`, else two. */
  function MinChildren(op: NodeOperation): nat {
    match op
    case Param | PreIncrement | PreDecrement | PostIncrement | PostDecrement
       | UnaryMinus | UnaryPlus | BitwiseNot | LogicalNot | Comma | Call => 1
    case _ => 2
  }

  predicate IsIncDec(op: NodeOperation) {
    op == PreIncrement || op == PreDecrement || op == PostIncrement || op == PostDecrement
  }
  predicate IsArithmetic(op: NodeOperation) {
    op == Sub || op == Mul || op == Div || op == Mod
  }
  predicate IsBitwise(op: NodeOperation) {
    op == BitwiseAnd || op == BitwiseOr || op == BitwiseXor || op == ShiftL || op == ShiftR
  }
  predicate IsLogical(op: NodeOperation) {
    op == LogicalAnd || op == LogicalOr
  }
  predicate IsComparison(op: NodeOperation) {
    match op
    case Equal | NotEqual | Less | Greater | LessEqual | GreaterEqual => true
    case _ => false
  }
  predicate IsCompoundAssign(op: NodeOperation) {
    op == AddAssign || op == SubAssign || op == MulAssign || op == DivAssign || op == ModAssign
  }

  /**
   An argument fits its parameter when it is not an lvalue passed to a parameter taken by
   value, and converts to the parameter's type, as an lvalue exactly when the parameter is
   taken by reference.
   */
  predicate ArgumentFits(arg: Node, p: Types.Param) {
    !(arg.lvalue && !p.byRef) && IsConvertable(arg.typeId, arg.lvalue, p.typeId, p.byRef)
  }

  predicate ArgumentsFit(args: seq<Node>, ps: seq<Types.Param>)
    requires |args| == |ps|
  {
    forall i :: 0 <= i < |args| ==> ArgumentFits(args[i], ps[i])
  }

  /**
   The arguments of a call against the parameters, in order: the first argument that does
   not fit gives the error, at the argument.
   */
  function CheckArguments(args: seq<Node>, ps: seq<Types.Param>): (r: Option<Error>)
    requires |args| == |ps|
    ensures r.None? <==> ArgumentsFit(args, ps)
    ensures r.Some? ==> exists i :: 0 <= i < |args| && !ArgumentFits(args[i], ps[i])
                                    && r.value.lineNumber == args[i].lineNumber && r.value.charIndex == args[i].charIndex
    decreases |args|
  {
    if args == [] then None
    else if args[0].lvalue && !ps[0].byRef then
      Some(SemanticError("Function doesn't recieve the argument by reference", args[0].lineNumber, args[0].charIndex))
    else if !IsConvertable(args[0].typeId, args[0].lvalue, ps[0].typeId, ps[0].byRef) then
      CheckConversion(args[0], ps[0].typeId, ps[0].byRef)
    else
      var r := CheckArguments(args[1..], ps[1..]);
      assert forall i :: 1 <= i < |args| ==> args[1..][i - 1] == args[i] && ps[1..][i - 1] == ps[i];
      r
  }

  /** The `call` case: the callee's type must be a function type taking one parameter per argument. */
  function CallTyping(ctx: Context, children: seq<Node>, lineNumber: SizeT, charIndex: SizeT): (r: Result<Typing, Error>)
    requires |children| >= 1
  {
    match TypeOf(ctx.types, children[0].typeId)
    case Some(Function(ret, ps)) =>
      if |ps| + 1 != |children| then
        Failure(SemanticError("Incorrect number of arguments. Expected " + Numbers.DecimalText(|ps|)
                              + ", given " + Numbers.DecimalText(|children| - 1), lineNumber, charIndex))
      else Checked(Typing(ret, false), CheckArguments(children[1..], ps))
    case _ => Failure(SemanticError(DumpTypeHandle(children[0].typeId) + " is not callable", lineNumber, charIndex))
  }

  /** The `index` case: the base's type must be an array type. */
  function IndexTyping(ctx: Context, base: Node, lineNumber: SizeT, charIndex: SizeT): (r: Result<Typing, Error>) {
    match TypeOf(ctx.types, base.typeId)
    case Some(Array(inner)) => Success(Typing(inner, base.lvalue))
    case _ => Failure(SemanticError(DumpTypeHandle(base.typeId) + " is not indexable", lineNumber, charIndex))
  }

  /** The `add` case: decided by the children's literal tags, not by their types. */
  function AddTyping(c0: Node, c1: Node, lineNumber: SizeT, charIndex: SizeT): (r: Result<Typing, Error>) {
    if IsNumeric(c0) && IsNumeric(c1) then
      Checked(Typing(c0.typeId, false),
              Then(CheckNumber(c0, false), CheckNumber(c1, false)))
    else if IsStr(c0) || IsStr(c1) then
      Checked(Typing(c0.typeId, false),
              Then(CheckConversion(c0, STR_HANDLE, false), CheckConversion(c1, STR_HANDLE, false)))
    else Failure(SyntaxError("Invalid operands for +", lineNumber, charIndex))
  }

  /** The operation cases of the constructor's visitor. */
  function OperationTyping(ctx: Context, op: NodeOperation, children: seq<Node>,
                           lineNumber: SizeT, charIndex: SizeT): (r: Result<Typing, Error>)
    requires |children| >= MinChildren(op)
  {
    var c0 := children[0];
    match op
    case Param => Success(Typing(c0.typeId, false))
    case PreIncrement | PreDecrement =>
      Checked(Typing(c0.typeId, true), CheckNumber(c0, true))
    case PostIncrement | PostDecrement =>
      Checked(Typing(c0.typeId, false), CheckNumber(c0, true))
    case UnaryPlus | UnaryMinus =>
      Checked(Typing(c0.typeId, false), CheckNumber(c0, false))
    case LogicalNot => Checked(Typing(BOOL_HANDLE, false), CheckConversion(c0, BOOL_HANDLE, false))
    case BitwiseNot => Checked(Typing(INT_HANDLE, false), CheckConversion(c0, INT_HANDLE, false))
    case Add => AddTyping(c0, children[1], lineNumber, charIndex)
    case Sub | Mul | Div | Mod =>
      Checked(Typing(c0.typeId, false),
              Then(CheckNumber(c0, false), CheckNumber(children[1], false)))
    case BitwiseAnd | BitwiseOr | BitwiseXor | ShiftL | ShiftR =>
      Checked(Typing(INT_HANDLE, false),
              Then(CheckConversion(c0, INT_HANDLE, false), CheckConversion(children[1], INT_HANDLE, false)))
    case LogicalAnd | LogicalOr =>
      Checked(Typing(BOOL_HANDLE, false),
              Then(CheckConversion(c0, BOOL_HANDLE, false), CheckConversion(children[1], BOOL_HANDLE, false)))
    case Equal | NotEqual | Less | Greater | LessEqual | GreaterEqual =>
      Checked(Typing(BOOL_HANDLE, false),
              Then(CheckNumber(c0, false), CheckNumber(children[1], false)))
    case Assign =>
      Checked(Typing(c0.typeId, true),
              Then(CheckConversion(c0, c0.typeId, true), CheckConversion(children[1], c0.typeId, false)))
    case AddAssign | SubAssign | MulAssign | DivAssign | ModAssign =>
      Checked(Typing(c0.typeId, true),
              Then(CheckNumber(c0, true), CheckNumber(children[1], false)))
    case Comma =>
      // The source's checking loop runs over the moved-from (empty) argument vector, so no
      // child is checked; only the last child's type and lvalue flag are taken.
      var last := children[|children| - 1];
      Success(Typing(last.typeId, last.lvalue))
    case Index => IndexTyping(ctx, c0, lineNumber, charIndex)
    case Call => CallTyping(ctx, children, lineNumber, charIndex)
  }

  /** What a node's value demands of its children: an operation reads the ones it needs. */
  predicate ChildrenFit(value: NodeValue, children: seq<Node>) {
    value.Operation? ==> |children| >= MinChildren(value.op)
  }

  /**
   `node::node`: literals and identifiers get their type without checks (an undeclared
   identifier is an error); operations get theirs from their children.
   */
  function MakeNode(ctx: Context, value: NodeValue, children: seq<Node>, lineNumber: SizeT, charIndex: SizeT): (r: Result<Node, Error>)
    requires ChildrenFit(value, children)
    ensures r.Success? ==> r.value.value == value && r.value.children == children
                           && r.value.lineNumber == lineNumber && r.value.charIndex == charIndex
    ensures value.Operation? ==>
              var t := OperationTyping(ctx, value.op, children, lineNumber, charIndex);
              (r.Success? <==> t.Success?)
              && (r.Success? ==> t.value == Typing(r.value.typeId, r.value.lvalue))
              && (r.Failure? ==> r.error == t.error)
  {
    match value
    case StrValue(_) => Success(Node(value, children, STR_HANDLE, false, lineNumber, charIndex))
    case RealValue(_) => Success(Node(value, children, REAL_HANDLE, false, lineNumber, charIndex))
    case IntValue(_) => Success(Node(value, children, INT_HANDLE, false, lineNumber, charIndex))
    case BoolValue(_) => Success(Node(value, children, BOOL_HANDLE, false, lineNumber, charIndex))
    case IdentValue(name) =>
      (match Find(ctx, name)
       case Some(info) => Success(Node(value, children, info.typeId, !info.isConstant, lineNumber, charIndex))
       case None => Failure(UndeclaredError(name, lineNumber, charIndex)))
    case Operation(op) =>
      match OperationTyping(ctx, op, children, lineNumber, charIndex)
      case Success(t) => Success(Node(value, children, t.typeId, t.lvalue, lineNumber, charIndex))
      case Failure(e) => Failure(e)
  }

  // ---------------------------------------------------------------------------------------
  // The typing rules
  // ---------------------------------------------------------------------------------------

  /** The type a literal has. */
  function LiteralType(v: NodeValue): Handle
    requires !v.Operation? && !v.IdentValue?
  {
    match v
    case StrValue(_) => STR_HANDLE
    case RealValue(_) => REAL_HANDLE
    case IntValue(_) => INT_HANDLE
    case BoolValue(_) => BOOL_HANDLE
  }

  /** A literal always makes a node, of its own type, and never an lvalue. */
  lemma LiteralNode(ctx: Context, v: NodeValue, children: seq<Node>, line: SizeT, ci: SizeT)
    requires !v.Operation? && !v.IdentValue?
    ensures MakeNode(ctx, v, children, line, ci).Success?
    ensures MakeNode(ctx, v, children, line, ci).value.typeId == LiteralType(v)
    ensures !MakeNode(ctx, v, children, line, ci).value.lvalue
  {
  }

  /**
   An identifier node takes the type of the binding the context finds, and is an lvalue
   unless the binding is constant; an undeclared name is an error at the node.
   */
  lemma IdentifierNode(ctx: Context, name: string, children: seq<Node>, line: SizeT, ci: SizeT)
    ensures var r := MakeNode(ctx, IdentValue(name), children, line, ci);
            (r.Success? <==> Find(ctx, name).Some?)
            && (r.Success? ==> r.value.typeId == Find(ctx, name).value.typeId
                               && r.value.lvalue == !Find(ctx, name).value.isConstant)
            && (r.Failure? ==> r.error == UndeclaredError(name, line, ci))
  {
  }

  /** `param` passes its child's type through and is never an lvalue. */
  lemma ParamRule(ctx: Context, children: seq<Node>, line: SizeT, ci: SizeT)
    requires |children| >= 1
    ensures OperationTyping(ctx, NodeOperation.Param, children, line, ci) == Success(Typing(children[0].typeId, false))
  {
  }

  /**
   Increment and decrement need an lvalue of type real or int and keep its type; the
   prefix forms are lvalues, the postfix forms are not.
   */
  lemma IncDecRule(ctx: Context, op: NodeOperation, children: seq<Node>, line: SizeT, ci: SizeT)
    requires IsIncDec(op) && |children| >= 1
    ensures var r := OperationTyping(ctx, op, children, line, ci);
            (r.Success? <==> children[0].lvalue && IsNumberType(children[0].typeId))
            && (r.Success? ==> r.value == Typing(children[0].typeId, op == PreIncrement || op == PreDecrement))
  {
  }

  /**
   `+` on two numeric literals needs both to be numbers; otherwise, with a string literal on
   either side, both must convert to a string; otherwise it is an error. The result has the
   left child's type and is not an lvalue.
   */
  lemma AddRule(ctx: Context, children: seq<Node>, line: SizeT, ci: SizeT)
    requires |children| >= 2
    ensures var r := OperationTyping(ctx, Add, children, line, ci);
            var c0, c1 := children[0], children[1];
            (r.Success? <==>
               (IsNumeric(c0) && IsNumeric(c1)
                && IsNumberType(c0.typeId)
                && IsNumberType(c1.typeId))
               || (!(IsNumeric(c0) && IsNumeric(c1)) && (IsStr(c0) || IsStr(c1))
                   && IsConvertable(c0.typeId, c0.lvalue, STR_HANDLE, false)
                   && IsConvertable(c1.typeId, c1.lvalue, STR_HANDLE, false)))
            && (r.Success? ==> r.value == Typing(c0.typeId, false))
  {
  }

  /**
   `+` of two operands that are not literals is an error even when both are real or int:
   an identifier `x` of type real added to itself is rejected.
   */
  lemma AddRejectsNonLiterals(ctx: Context, c0: Node, c1: Node, line: SizeT, ci: SizeT)
    requires !IsLiteral(c0) && !IsLiteral(c1)
    ensures OperationTyping(ctx, Add, [c0, c1], line, ci) == Failure(SyntaxError("Invalid operands for +", line, ci))
  {
  }

  /** `-`, `*`, `/` and `%` need numbers and keep the left child's type. */
  lemma ArithmeticRule(ctx: Context, op: NodeOperation, children: seq<Node>, line: SizeT, ci: SizeT)
    requires IsArithmetic(op) && |children| >= 2
    ensures var r := OperationTyping(ctx, op, children, line, ci);
            (r.Success? <==> IsNumberType(children[0].typeId)
                             && IsNumberType(children[1].typeId))
            && (r.Success? ==> r.value == Typing(children[0].typeId, false))
  {
  }

  /** Bitwise operators and shifts give an int and need operands that convert to int. */
  lemma BitwiseRule(ctx: Context, op: NodeOperation, children: seq<Node>, line: SizeT, ci: SizeT)
    requires IsBitwise(op) && |children| >= 2
    ensures var r := OperationTyping(ctx, op, children, line, ci);
            (r.Success? <==> IsNumberType(children[0].typeId)
                             && IsNumberType(children[1].typeId))
            && (r.Success? ==> r.value == Typing(INT_HANDLE, false))
  {
    ConvertsTo(children[0].typeId, children[0].lvalue);
    ConvertsTo(children[1].typeId, children[1].lvalue);
  }

  /** `&&` and `||` give a bool and need operands that convert to bool. */
  lemma LogicalRule(ctx: Context, op: NodeOperation, children: seq<Node>, line: SizeT, ci: SizeT)
    requires IsLogical(op) && |children| >= 2
    ensures var r := OperationTyping(ctx, op, children, line, ci);
            (r.Success? <==> IsConvertable(children[0].typeId, children[0].lvalue, BOOL_HANDLE, false)
                             && IsConvertable(children[1].typeId, children[1].lvalue, BOOL_HANDLE, false))
            && (r.Success? ==> r.value == Typing(BOOL_HANDLE, false))
  {
  }

  /** All six comparisons share one typing rule. */
  lemma ComparisonTyping(ctx: Context, op: NodeOperation, children: seq<Node>, line: SizeT, ci: SizeT)
    requires IsComparison(op) && |children| >= 2
    ensures OperationTyping(ctx, op, children, line, ci)
            == Checked(Typing(BOOL_HANDLE, false), Then(CheckNumber(children[0], false), CheckNumber(children[1], false)))
  {
  }

  /** Comparisons give a bool and need numbers on both sides. */
  lemma ComparisonRule(ctx: Context, op: NodeOperation, children: seq<Node>, line: SizeT, ci: SizeT)
    requires IsComparison(op) && |children| >= 2
    ensures var r := OperationTyping(ctx, op, children, line, ci);
            (r.Success? <==> IsNumberType(children[0].typeId)
                             && IsNumberType(children[1].typeId))
            && (r.Success? ==> r.value == Typing(BOOL_HANDLE, false))
  {
    ComparisonTyping(ctx, op, children, line, ci);
  }

  /**
   `=` needs the left child to be an lvalue (a void left side passes, since anything
   converts to void) and the right child to convert to its type; the result is the left
   child's type, as an lvalue.
   */
  lemma AssignRule(ctx: Context, children: seq<Node>, line: SizeT, ci: SizeT)
    requires |children| >= 2
    ensures var r := OperationTyping(ctx, Assign, children, line, ci);
            var c0, c1 := children[0], children[1];
            (r.Success? <==> (c0.lvalue || c0.typeId == VOID_HANDLE) && IsConvertable(c1.typeId, c1.lvalue, c0.typeId, false))
            && (r.Success? ==> r.value == Typing(c0.typeId, true))
  {
  }

  /** Compound assignment needs a number lvalue on the left and a number on the right. */
  lemma CompoundAssignRule(ctx: Context, op: NodeOperation, children: seq<Node>, line: SizeT, ci: SizeT)
    requires IsCompoundAssign(op) && |children| >= 2
    ensures var r := OperationTyping(ctx, op, children, line, ci);
            (r.Success? <==> children[0].lvalue
                             && IsNumberType(children[0].typeId)
                             && IsNumberType(children[1].typeId))
            && (r.Success? ==> r.value == Typing(children[0].typeId, true))
  {
  }

  /** The comma takes the last child's type and lvalue flag and checks nothing. */
  lemma CommaRule(ctx: Context, children: seq<Node>, line: SizeT, ci: SizeT)
    requires |children| >= 1
    ensures OperationTyping(ctx, Comma, children, line, ci)
            == Success(Typing(children[|children| - 1].typeId, children[|children| - 1].lvalue))
  {
  }

  /** The checks the comma skips would all pass: everything converts to void. */
  lemma CommaChecksWouldPass(n: Node)
    ensures CheckConversion(n, VOID_HANDLE, false).None?
  {
  }

  /**
   Indexing needs a base of array type and gives its element type, an lvalue when the
   base is; any other base is not indexable.
   */
  lemma IndexRule(ctx: Context, children: seq<Node>, line: SizeT, ci: SizeT)
    requires |children| >= 2
    ensures var r := OperationTyping(ctx, Index, children, line, ci);
            var t := TypeOf(ctx.types, children[0].typeId);
            (r.Success? <==> t.Some? && t.value.Array?)
            && (r.Success? ==> r.value == Typing(t.value.innerTypeId, children[0].lvalue))
            && (r.Failure? ==> r.error.lineNumber == line && r.error.charIndex == ci)
  {
  }

  /**
   A call needs a callee of function type, exactly one argument per parameter, and every
   argument fitting its parameter; it gives the return type, not as an lvalue.
   */
  lemma CallTypingRule(ctx: Context, children: seq<Node>, line: SizeT, ci: SizeT)
    requires |children| >= 1
    ensures var r := CallTyping(ctx, children, line, ci);
            var t := TypeOf(ctx.types, children[0].typeId);
            (r.Success? <==> t.Some? && t.value.Function? && |t.value.paramTypeId| + 1 == |children|
                             && ArgumentsFit(children[1..], t.value.paramTypeId))
            && (r.Success? ==> r.value == Typing(t.value.returnTypeId, false))
  {
  }

  /** The call rule, as the node constructor applies it. */
  lemma CallRule(ctx: Context, children: seq<Node>, line: SizeT, ci: SizeT)
    requires |children| >= 1
    ensures var r := OperationTyping(ctx, Call, children, line, ci);
            var t := TypeOf(ctx.types, children[0].typeId);
            (r.Success? <==> t.Some? && t.value.Function? && |t.value.paramTypeId| + 1 == |children|
                             && ArgumentsFit(children[1..], t.value.paramTypeId))
            && (r.Success? ==> r.value == Typing(t.value.returnTypeId, false))
  {
    CallTypingRule(ctx, children, line, ci);
  }

  /** Unary `+` and `-` need a number and keep its type; `!` gives a bool and `~` an int. */
  lemma UnaryRule(ctx: Context, children: seq<Node>, line: SizeT, ci: SizeT)
    requires |children| >= 1
    ensures var c0 := children[0];
            (OperationTyping(ctx, UnaryPlus, children, line, ci).Success? <==> IsNumberType(c0.typeId))
            && (OperationTyping(ctx, UnaryMinus, children, line, ci).Success? <==> IsNumberType(c0.typeId))
            && (OperationTyping(ctx, LogicalNot, children, line, ci).Success? <==> IsConvertable(c0.typeId, c0.lvalue, BOOL_HANDLE, false))
            && (OperationTyping(ctx, BitwiseNot, children, line, ci).Success? <==> IsNumberType(c0.typeId))
  {
    ConvertsTo(children[0].typeId, children[0].lvalue);
  }

  /** Only `=`, compound assignment, prefix increments and decrements, indexing and the comma can yield an lvalue. */
  lemma LvalueOperations(ctx: Context, op: NodeOperation, children: seq<Node>, line: SizeT, ci: SizeT)
    requires |children| >= MinChildren(op)
    requires OperationTyping(ctx, op, children, line, ci).Success? && OperationTyping(ctx, op, children, line, ci).value.lvalue
    ensures op in {Assign, AddAssign, SubAssign, MulAssign, DivAssign, ModAssign, PreIncrement, PreDecrement, Index, Comma}
  {
  }
}
