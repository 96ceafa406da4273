/**
 The identifier scopes of libs/core/src/tone/core/identifier.cpp.

 A scope maps names to `identifier_info` records. The global scope numbers its names by
 how many it already holds. A local scope numbers them from a counter that starts where
 its parent's counter stood when it was opened; a function scope is a local scope without
 a parent that also numbers parameters downwards from -1. A local scope owns its parent;
 here the chain of local scopes is a sequence, outermost first, innermost last.
 */
module Identifiers {
  import opened Wrappers
  import opened Types

  /** `identifier_info`. The index is signed, so parameters can take negative slots. */
  datatype IdentifierInfo = IdentifierInfo(typeId: Handle, index: int, isGlobal: bool, isConstant: bool)

  /** `identifier_lookup::_idents`. */
  type Bindings = map<string, IdentifierInfo>

  /**
   `identifier_lookup::insert_ident`: `emplace`, which keeps an existing binding and returns
   it, and otherwise binds the name to the new record.
   */
  function InsertIdent(idents: Bindings, name: string, info: IdentifierInfo): (r: (Bindings, IdentifierInfo))
    ensures name in idents ==> r == (idents, idents[name])
    ensures name !in idents ==> r == (idents[name := info], info)
  {
    if name in idents then (idents, idents[name]) else (idents[name := info], info)
  }

  /** After insertion the name is bound to the record returned; no other name changes. */
  lemma InsertIdentBinds(idents: Bindings, name: string, info: IdentifierInfo, other: string)
    ensures var (m, i) := InsertIdent(idents, name, info);
            name in m && m[name] == i
            && (other != name ==> (other in m <==> other in idents))
            && (other != name && other in idents ==> m[other] == idents[other])
  {
  }

  // ---------------------------------------------------------------------------------------
  // The global scope
  // ---------------------------------------------------------------------------------------

  /** `global_identifier_lookup`. */
  datatype GlobalScope = GlobalScope(idents: Bindings)

  /** `identifier_lookup::find` on the global scope. */
  function GlobalFind(g: GlobalScope, name: string): (r: Option<IdentifierInfo>)
    ensures r.Some? <==> name in g.idents
    ensures r.Some? ==> r.value == g.idents[name]
  {
    if name in g.idents then Some(g.idents[name]) else None
  }

  /**
   `global_identifier_lookup::create_identifier`: a new name gets as index the number of
   names bound before it and is global; a name already bound keeps its first record.
   */
  function GlobalCreate(g: GlobalScope, name: string, typeId: Handle, isConstant: bool): (r: (GlobalScope, IdentifierInfo))
    ensures name !in g.idents ==> r.1 == IdentifierInfo(typeId, |g.idents|, true, isConstant)
    ensures name !in g.idents ==> |r.0.idents| == |g.idents| + 1
    ensures name in g.idents ==> r == (g, g.idents[name])
    ensures GlobalFind(r.0, name) == Some(r.1)
  {
    var (m, info) := InsertIdent(g.idents, name, IdentifierInfo(typeId, |g.idents|, true, isConstant));
    (GlobalScope(m), info)
  }

  /** Global indices are 0, 1, 2, ... in order of first declaration: each is below the count. */
  lemma GlobalIndicesBelowCount(g: GlobalScope, name: string, typeId: Handle, isConstant: bool)
    requires forall n :: n in g.idents ==> 0 <= g.idents[n].index < |g.idents|
    ensures var (g2, _) := GlobalCreate(g, name, typeId, isConstant);
            forall n :: n in g2.idents ==> 0 <= g2.idents[n].index < |g2.idents|
  {
  }

  // ---------------------------------------------------------------------------------------
  // Local and function scopes
  // ---------------------------------------------------------------------------------------

  /**
   `local_identifier_lookup` without its parent, and `function_identifier_lookup` when
   `nextParamIdx` is present.
   */
  datatype LocalScope = LocalScope(idents: Bindings, nextIdentIdx: int, nextParamIdx: Option<int>)

  /** A chain of local scopes, outermost first; the innermost scope is the last. */
  type Chain = seq<LocalScope>

  /** The constructor: a scope opened inside the chain counts on from its innermost scope. */
  function NewLocal(parent: Chain): (s: LocalScope)
    ensures s.idents == map[] && s.nextParamIdx.None?
    ensures s.nextIdentIdx == if parent == [] then 1 else parent[|parent| - 1].nextIdentIdx
  {
    LocalScope(map[], if parent == [] then 1 else parent[|parent| - 1].nextIdentIdx, None)
  }

  /** `function_identifier_lookup`'s constructor: no parent, locals from 1, parameters from -1. */
  function NewFunction(): (s: LocalScope)
    ensures s.idents == map[] && s.nextIdentIdx == 1 && s.nextParamIdx == Some(-1)
  {
    LocalScope(map[], 1, Some(-1))
  }

  /**
   `local_identifier_lookup::find`: the innermost scope binding the name decides.
   */
  function ChainFind(chain: Chain, name: string): (r: Option<IdentifierInfo>)
    ensures r.Some? <==> exists i :: 0 <= i < |chain| && name in chain[i].idents
    ensures r.Some? ==> exists i :: 0 <= i < |chain| && name in chain[i].idents && r.value == chain[i].idents[name]
                          && forall j :: i < j < |chain| ==> name !in chain[j].idents
  {
    if chain == [] then None
    else
      var inner := chain[|chain| - 1];
      if name in inner.idents then Some(inner.idents[name])
      else
        var r := ChainFind(chain[..|chain| - 1], name);
        assert forall i :: 0 <= i < |chain| - 1 ==> chain[..|chain| - 1][i] == chain[i];
        r
  }

  /**
   `local_identifier_lookup::create_identifier` on the innermost scope: the name takes the
   scope's counter unless it is already bound there, and the counter advances either way.
   Outer scopes are untouched.
   */
  function LocalCreate(chain: Chain, name: string, typeId: Handle, isConstant: bool): (r: (Chain, IdentifierInfo))
    requires chain != []
    ensures |r.0| == |chain| && r.0[..|chain| - 1] == chain[..|chain| - 1]
    ensures var inner := chain[|chain| - 1];
            r.0[|chain| - 1].nextIdentIdx == inner.nextIdentIdx + 1
            && r.0[|chain| - 1].nextParamIdx == inner.nextParamIdx
            && (name !in inner.idents ==> r.1 == IdentifierInfo(typeId, inner.nextIdentIdx, false, isConstant))
            && (name in inner.idents ==> r.1 == inner.idents[name] && r.0[|chain| - 1].idents == inner.idents)
    ensures ChainFind(r.0, name) == Some(r.1)
  {
    var inner := chain[|chain| - 1];
    var (m, info) := InsertIdent(inner.idents, name, IdentifierInfo(typeId, inner.nextIdentIdx, false, isConstant));
    var c := chain[..|chain| - 1] + [LocalScope(m, inner.nextIdentIdx + 1, inner.nextParamIdx)];
    assert c[..|chain| - 1] == chain[..|chain| - 1];
    (c, info)
  }

  /**
   `function_identifier_lookup::create_param`: the name takes the next negative slot
   (unless already bound), is neither global nor constant, and the slot counter moves down.
   */
  function CreateParam(f: LocalScope, name: string, typeId: Handle): (r: (LocalScope, IdentifierInfo))
    requires f.nextParamIdx.Some?
    ensures r.0.nextParamIdx == Some(f.nextParamIdx.value - 1) && r.0.nextIdentIdx == f.nextIdentIdx
    ensures name !in f.idents ==> r.1 == IdentifierInfo(typeId, f.nextParamIdx.value, false, false)
    ensures name in f.idents ==> r.1 == f.idents[name] && r.0.idents == f.idents
    ensures name in r.0.idents && r.0.idents[name] == r.1
  {
    var (m, info) := InsertIdent(f.idents, name, IdentifierInfo(typeId, f.nextParamIdx.value, false, false));
    (LocalScope(m, f.nextIdentIdx, Some(f.nextParamIdx.value - 1)), info)
  }

  /** `local_identifier_lookup::detach_parent`: the chain the innermost scope was opened in. */
  function DetachParent(chain: Chain): (r: Chain)
    requires chain != []
    ensures |r| == |chain| - 1 && forall i :: 0 <= i < |r| ==> r[i] == chain[i]
  {
    chain[..|chain| - 1]
  }

  // ---------------------------------------------------------------------------------------
  // Properties
  // ---------------------------------------------------------------------------------------

  /** A scope opened and closed again leaves its parent chain exactly as it was. */
  lemma OpenCloseRestores(chain: Chain)
    ensures DetachParent(chain + [NewLocal(chain)]) == chain
  {
  }

  /**
   Scopes opened one after the other in the same parent reuse the same slots: a name
   declared first in each gets the same index.
   */
  lemma SiblingsReuseSlots(chain: Chain, a: string, b: string, ta: Handle, tb: Handle, ca: bool, cb: bool)
    ensures var (c1, ia) := LocalCreate(chain + [NewLocal(chain)], a, ta, ca);
            var (c2, ib) := LocalCreate(DetachParent(c1) + [NewLocal(DetachParent(c1))], b, tb, cb);
            ia.index == ib.index
  {
    var (c1, ia) := LocalCreate(chain + [NewLocal(chain)], a, ta, ca);
    assert DetachParent(c1) == chain;
  }

  /**
   Redeclaring a name in the same scope returns the first record again, while the slot
   counter still advances past a slot that nobody gets.
   */
  lemma RedeclarationKeepsFirst(chain: Chain, name: string, t1: Handle, t2: Handle, c1: bool, c2: bool)
    requires chain != []
    ensures var (ch1, i1) := LocalCreate(chain, name, t1, c1);
            var (ch2, i2) := LocalCreate(ch1, name, t2, c2);
            i2 == i1 && ch2[|chain| - 1].nextIdentIdx == chain[|chain| - 1].nextIdentIdx + 2
  {
  }

  /** The innermost binding shadows outer ones. */
  lemma InnermostShadows(chain: Chain, name: string)
    requires chain != [] && name in chain[|chain| - 1].idents
    ensures ChainFind(chain, name) == Some(chain[|chain| - 1].idents[name])
  {
  }
}
