/**
 The compile context of libs/core/src/tone/core/compile_context.cpp: the global scope, the
 chain of local scopes, the parameter scope of the function being compiled, and the type
 registry.

 `_params` points to the function scope, which `enter_function` makes the only (outermost)
 local scope; it is reset when that scope is left. So `_params` is set exactly when the
 outermost local scope is a function scope, and the model derives it from the chain.
 */
module CompileContext {
  import opened Wrappers
  import opened Types
  import opened Identifiers

  /** `compile_context`. */
  datatype Context = Context(globals: GlobalScope, locals: Chain, types: Registry)

  /** Only the outermost local scope may be a function scope. */
  ghost predicate Valid(c: Context) {
    forall i :: 0 < i < |c.locals| ==> c.locals[i].nextParamIdx.None?
  }

  /** `_params != nullptr`. */
  predicate HasParams(c: Context) {
    c.locals != [] && c.locals[0].nextParamIdx.Some?
  }

  /** The constructor: no names, no local scopes, no parameter scope, no interned types. */
  function NewContext(): (c: Context)
    ensures Valid(c) && !HasParams(c) && c.locals == [] && c.globals.idents == map[]
  {
    Context(GlobalScope(map[]), [], NewRegistry())
  }

  /** `get_type_handle`: interning in the context's registry. */
  function GetTypeHandle(c: Context, t: Type): (r: (Context, Handle))
    ensures r.0.globals == c.globals && r.0.locals == c.locals
    ensures (r.0.types, r.1) == GetHandle(c.types, t)
  {
    var (reg, h) := GetHandle(c.types, t);
    (c.(types := reg), h)
  }

  /** `find`: the local chain, innermost first, and then the globals. */
  function Find(c: Context, name: string): (r: Option<IdentifierInfo>)
    ensures ChainFind(c.locals, name).Some? ==> r == ChainFind(c.locals, name)
    ensures ChainFind(c.locals, name).None? ==> r == GlobalFind(c.globals, name)
  {
    match ChainFind(c.locals, name)
    case Some(info) => Some(info)
    case None => GlobalFind(c.globals, name)
  }

  /** `create_identifier`: into the innermost local scope if there is one, else the globals. */
  function CreateIdentifier(c: Context, name: string, typeId: Handle, isConstant: bool): (r: (Context, IdentifierInfo))
    ensures c.locals != [] ==> r.0.globals == c.globals && (r.0.locals, r.1) == LocalCreate(c.locals, name, typeId, isConstant)
    ensures c.locals == [] ==> r.0.locals == [] && (r.0.globals, r.1) == GlobalCreate(c.globals, name, typeId, isConstant)
    ensures r.0.types == c.types
    ensures Find(r.0, name) == Some(r.1)
  {
    if c.locals != [] then
      var (chain, info) := LocalCreate(c.locals, name, typeId, isConstant);
      (c.(locals := chain), info)
    else
      var (g, info) := GlobalCreate(c.globals, name, typeId, isConstant);
      (c.(globals := g), info)
  }

  /** `create_param`: into the function scope, which must exist (`_params` is dereferenced). */
  function CreateParameter(c: Context, name: string, typeId: Handle): (r: (Context, IdentifierInfo))
    requires HasParams(c)
    ensures r.0.globals == c.globals && r.0.types == c.types
    ensures |r.0.locals| == |c.locals| && r.0.locals[1..] == c.locals[1..]
    ensures r.0.locals[0] == Identifiers.CreateParam(c.locals[0], name, typeId).0
    ensures r.1 == Identifiers.CreateParam(c.locals[0], name, typeId).1
    ensures HasParams(r.0) && (Valid(c) ==> Valid(r.0))
  {
    var (f, info) := Identifiers.CreateParam(c.locals[0], name, typeId);
    (c.(locals := [f] + c.locals[1..]), info)
  }

  /** `enter_scope`: a new local scope inside the current chain. */
  function EnterScope(c: Context): (r: Context)
    ensures r.locals == c.locals + [NewLocal(c.locals)]
    ensures r.globals == c.globals && r.types == c.types
    ensures (Valid(c) ==> Valid(r)) && (HasParams(r) <==> HasParams(c))
  {
    c.(locals := c.locals + [NewLocal(c.locals)])
  }

  /**
   `leave_scope`: false with nothing changed when there is no local scope; otherwise the
   innermost scope is dropped (and with it `_params` when it was the function scope).
   */
  function LeaveScope(c: Context): (r: (bool, Context))
    ensures !r.0 <==> c.locals == []
    ensures !r.0 ==> r.1 == c
    ensures r.0 ==> r.1.locals == DetachParent(c.locals) && r.1.globals == c.globals && r.1.types == c.types
    ensures Valid(c) ==> Valid(r.1)
    ensures Valid(c) && r.0 ==> (HasParams(r.1) <==> HasParams(c) && |c.locals| > 1)
  {
    if c.locals == [] then (false, c)
    else (true, c.(locals := DetachParent(c.locals)))
  }

  /** `enter_function`: a function scope replaces the whole local chain. */
  function EnterFunction(c: Context): (r: Context)
    ensures r.locals == [NewFunction()] && r.globals == c.globals && r.types == c.types
    ensures Valid(r) && HasParams(r)
  {
    c.(locals := [NewFunction()])
  }

  // ---------------------------------------------------------------------------------------
  // Properties
  // ---------------------------------------------------------------------------------------

  /** A scope entered and left again leaves the context exactly as it was. */
  lemma EnterLeaveRestores(c: Context)
    ensures LeaveScope(EnterScope(c)) == (true, c)
  {
    assert DetachParent(c.locals + [NewLocal(c.locals)]) == c.locals;
  }

  /** So every name resolves as before. */
  lemma EnterLeaveSameBindings(c: Context, name: string)
    ensures Find(LeaveScope(EnterScope(c)).1, name) == Find(c, name)
  {
    EnterLeaveRestores(c);
  }

  /**
   After entering a function and leaving its scope, only the globals are visible, whatever
   local scopes were open before, and no parameter scope is left.
   */
  lemma FunctionDiscardsLocals(c: Context, name: string)
    ensures var r := LeaveScope(EnterFunction(c)).1;
            Find(r, name) == GlobalFind(c.globals, name) && r.locals == [] && !HasParams(r)
  {
    var r := LeaveScope(EnterFunction(c)).1;
    assert r.locals == [];
  }

  /** Blocks nested in a function still accept parameters. */
  lemma NestedBlockKeepsParams(c: Context)
    ensures HasParams(EnterScope(EnterFunction(c)))
  {
  }

  /** A parameter, once created, is found, and it is neither global nor constant. */
  lemma ParameterFound(c: Context, name: string, typeId: Handle)
    requires Valid(c) && HasParams(c)
    requires forall i :: 0 <= i < |c.locals| ==> name !in c.locals[i].idents
    ensures var (r, info) := CreateParameter(c, name, typeId);
            Find(r, name) == Some(info) && !info.isGlobal && !info.isConstant
  {
    var (r, info) := CreateParameter(c, name, typeId);
    assert name in r.locals[0].idents;
    assert forall j :: 0 < j < |r.locals| ==> r.locals[j] == c.locals[j];
  }

  /** A declaration in a local scope is invisible once that scope is left. */
  lemma LeavingForgetsLocals(c: Context, name: string, typeId: Handle, isConstant: bool)
    ensures var inner := CreateIdentifier(EnterScope(c), name, typeId, isConstant).0;
            Find(LeaveScope(inner).1, name) == Find(c, name)
  {
    var e := EnterScope(c);
    var inner := CreateIdentifier(e, name, typeId, isConstant).0;
    assert inner.locals[..|c.locals|] == e.locals[..|c.locals|];
    assert e.locals[..|c.locals|] == c.locals;
    assert LeaveScope(inner).1 == c.(locals := c.locals);
  }
}
