/**
 The type system of libs/core/src/tone/core/type.cpp: primitive, array and function types,
 the structural order `type_less`, and the registry that interns composite types.

 A `type_handle` is a pointer to a type object. Here it is a natural number: the five
 static primitive types have the handles 0 to 4, and the i-th composite type the registry
 interned has the handle 5 + i. The order of handles is therefore fixed by this choice; in
 the source it is the order of the addresses.
 */
module Types {
  import opened Wrappers

  /** `type_handle`. */
  type Handle = nat

  /** `primitive_type`, in declaration order. */
  datatype PrimitiveType = Nothing | Real | Integer | Boolean | Str

  /** `function_type::param`. */
  datatype Param = Param(typeId: Handle, byRef: bool)

  /** `type`: the variant of a primitive, an array and a function type. */
  datatype Type =
    | Primitive(primitive: PrimitiveType)
    | Array(innerTypeId: Handle)
    | Function(returnTypeId: Handle, paramTypeId: seq<Param>)

  /** The handles of the static primitive types. */
  const VOID_HANDLE: Handle := 0
  const BOOL_HANDLE: Handle := 1
  const REAL_HANDLE: Handle := 2
  const INT_HANDLE: Handle := 3
  const STR_HANDLE: Handle := 4

  /** The first handle the registry gives out. */
  const FIRST_INTERNED: Handle := 5

  /** The enumerator's value. */
  function PrimitiveIndex(p: PrimitiveType): nat {
    match p
    case Nothing => 0
    case Real => 1
    case Integer => 2
    case Boolean => 3
    case Str => 4
  }

  /** `type::index()`. */
  function KindIndex(t: Type): nat {
    match t
    case Primitive(_) => 0
    case Array(_) => 1
    case Function(_, _) => 2
  }

  // ---------------------------------------------------------------------------------------
  // type_less
  // ---------------------------------------------------------------------------------------

  /**
   The loop over parameters of equally long lists: the first parameter that differs decides,
   by handle and then by `by_ref` (false before true). Equal lists are not less.
   */
  predicate ParamsLess(a: seq<Param>, b: seq<Param>)
    requires |a| == |b|
  {
    if a == [] then false
    else if a[0].typeId != b[0].typeId then a[0].typeId < b[0].typeId
    else if a[0].byRef != b[0].byRef then b[0].byRef
    else ParamsLess(a[1..], b[1..])
  }

  /** `type_registry::type_less`. */
  predicate TypeLess(l: Type, r: Type) {
    if KindIndex(l) != KindIndex(r) then KindIndex(l) < KindIndex(r)
    else match l
      case Primitive(p) => PrimitiveIndex(p) < PrimitiveIndex(r.primitive)
      case Array(inner) => inner < r.innerTypeId
      case Function(ret, ps) =>
        if ret != r.returnTypeId then ret < r.returnTypeId
        else if |ps| != |r.paramTypeId| then |ps| < |r.paramTypeId|
        else ParamsLess(ps, r.paramTypeId)
  }

  /** `std::set`'s notion of the same element: neither is less than the other. */
  predicate Equivalent(a: Type, b: Type) {
    !TypeLess(a, b) && !TypeLess(b, a)
  }

  lemma {:induction false} ParamsLessIrreflexive(a: seq<Param>)
    ensures !ParamsLess(a, a)
    decreases |a|
  {
    if a != [] {
      ParamsLessIrreflexive(a[1..]);
    }
  }

  lemma {:induction false} ParamsLessTransitive(a: seq<Param>, b: seq<Param>, c: seq<Param>)
    requires |a| == |b| == |c|
    requires ParamsLess(a, b) && ParamsLess(b, c)
    ensures ParamsLess(a, c)
    decreases |a|
  {
    if a[0] == b[0] && b[0] == c[0] {
      ParamsLessTransitive(a[1..], b[1..], c[1..]);
    }
  }

  /** Two equally long parameter lists that differ are ordered one way or the other. */
  lemma {:induction false} ParamsLessConnected(a: seq<Param>, b: seq<Param>)
    requires |a| == |b| && a != b
    ensures ParamsLess(a, b) || ParamsLess(b, a)
    decreases |a|
  {
    if a[0] == b[0] {
      assert a == [a[0]] + a[1..] && b == [b[0]] + b[1..];
      ParamsLessConnected(a[1..], b[1..]);
    }
  }

  /** `type_less` never holds both ways: it is asymmetric, hence irreflexive. */
  lemma {:induction false} ParamsLessAsymmetric(a: seq<Param>, b: seq<Param>)
    requires |a| == |b| && ParamsLess(a, b)
    ensures !ParamsLess(b, a)
    decreases |a|
  {
    if a[0] == b[0] {
      ParamsLessAsymmetric(a[1..], b[1..]);
    }
  }

  /** `type_less` is irreflexive. */
  lemma TypeLessIrreflexive(a: Type)
    ensures !TypeLess(a, a)
  {
    if a.Function? {
      ParamsLessIrreflexive(a.paramTypeId);
    }
  }

  /** `type_less` is transitive. */
  lemma TypeLessTransitive(a: Type, b: Type, c: Type)
    requires TypeLess(a, b) && TypeLess(b, c)
    ensures TypeLess(a, c)
  {
    if a.Function? && b.Function? && c.Function?
       && a.returnTypeId == b.returnTypeId == c.returnTypeId
       && |a.paramTypeId| == |b.paramTypeId| == |c.paramTypeId| {
      ParamsLessTransitive(a.paramTypeId, b.paramTypeId, c.paramTypeId);
    }
  }

  /** `type_less` is false both ways exactly for structurally equal types. */
  lemma EquivalentIsEqual(a: Type, b: Type)
    ensures Equivalent(a, b) <==> a == b
  {
    if a == b {
      TypeLessIrreflexive(a);
    } else if a.Function? && b.Function? && a.returnTypeId == b.returnTypeId
              && |a.paramTypeId| == |b.paramTypeId| {
      ParamsLessConnected(a.paramTypeId, b.paramTypeId);
    }
  }

  /** `type_less` is a strict total order on types. */
  lemma TypeLessStrictTotal(a: Type, b: Type, c: Type)
    ensures !TypeLess(a, a)
    ensures TypeLess(a, b) ==> !TypeLess(b, a)
    ensures TypeLess(a, b) && TypeLess(b, c) ==> TypeLess(a, c)
    ensures a != b ==> TypeLess(a, b) || TypeLess(b, a)
  {
    TypeLessIrreflexive(a);
    EquivalentIsEqual(a, b);
    if TypeLess(a, b) && TypeLess(b, c) {
      TypeLessTransitive(a, b, c);
    }
    if TypeLess(a, b) && a.Function? && b.Function? && a.returnTypeId == b.returnTypeId
       && |a.paramTypeId| == |b.paramTypeId| {
      ParamsLessAsymmetric(a.paramTypeId, b.paramTypeId);
    }
  }

  /** The kinds come in the order primitive, array, function, whatever their contents. */
  lemma KindsOrdered(p: PrimitiveType, inner: Handle, ret: Handle, ps: seq<Param>)
    ensures TypeLess(Primitive(p), Array(inner))
    ensures TypeLess(Array(inner), Function(ret, ps))
    ensures TypeLess(Primitive(p), Function(ret, ps))
  {
  }

  // ---------------------------------------------------------------------------------------
  // The registry
  // ---------------------------------------------------------------------------------------

  /** `type_registry`: the interned composite types, in the order they were first seen. */
  datatype Registry = Registry(types: seq<Type>)

  /** A new, empty registry. */
  function NewRegistry(): (r: Registry)
    ensures Valid(r)
  {
    Registry([])
  }

  /**
   What the set may hold: composite types only (primitives never reach it), no two of
   them equivalent.
   */
  ghost predicate Valid(r: Registry) {
    (forall i :: 0 <= i < |r.types| ==> !r.types[i].Primitive?)
    && (forall i, j :: 0 <= i < j < |r.types| ==> !Equivalent(r.types[i], r.types[j]))
  }

  /** The static handle of a primitive type. */
  function StaticHandle(p: PrimitiveType): (h: Handle)
    ensures h < FIRST_INTERNED
  {
    match p
    case Nothing => VOID_HANDLE
    case Boolean => BOOL_HANDLE
    case Real => REAL_HANDLE
    case Integer => INT_HANDLE
    case Str => STR_HANDLE
  }

  /** The primitive a static handle points to. */
  function StaticType(h: Handle): PrimitiveType
    requires h < FIRST_INTERNED
  {
    if h == VOID_HANDLE then Nothing
    else if h == BOOL_HANDLE then Boolean
    else if h == REAL_HANDLE then Real
    else if h == INT_HANDLE then Integer
    else Str
  }

  /** The five static handles are pairwise distinct, and each points to its own primitive. */
  lemma StaticHandlesDistinct(p: PrimitiveType, q: PrimitiveType)
    ensures StaticHandle(p) == StaticHandle(q) <==> p == q
    ensures StaticType(StaticHandle(p)) == p
  {
  }

  /** Dereferencing a handle: the type it points to, if it points to one. */
  function TypeOf(r: Registry, h: Handle): (t: Option<Type>)
    ensures h < FIRST_INTERNED ==> t == Some(Primitive(StaticType(h)))
    ensures FIRST_INTERNED <= h < FIRST_INTERNED + |r.types| ==> t == Some(r.types[h - FIRST_INTERNED])
    ensures h >= FIRST_INTERNED + |r.types| ==> t.None?
  {
    if h < FIRST_INTERNED then Some(Primitive(StaticType(h)))
    else if h - FIRST_INTERNED < |r.types| then Some(r.types[h - FIRST_INTERNED])
    else None
  }

  /** The position of the element of the set equivalent to t, if there is one. */
  function FindEquivalent(ts: seq<Type>, t: Type): (r: Option<nat>)
    ensures r.Some? ==> r.value < |ts| && Equivalent(ts[r.value], t)
    ensures r.None? ==> forall i :: 0 <= i < |ts| ==> !Equivalent(ts[i], t)
  {
    if ts == [] then None
    else if Equivalent(ts[|ts| - 1], t) then Some(|ts| - 1)
    else FindEquivalent(ts[..|ts| - 1], t)
  }

  /**
   `type_registry::get_handle`: a primitive gets its static handle; a composite type is
   inserted into the set unless an equivalent one is there, and the handle of the element
   in the set is returned.
   */
  function GetHandle(r: Registry, t: Type): (res: (Registry, Handle))
    ensures t.Primitive? ==> res == (r, StaticHandle(t.primitive))
    ensures !t.Primitive? ==> res.1 >= FIRST_INTERNED
    ensures |r.types| <= |res.0.types| <= |r.types| + 1
    ensures res.0.types[..|r.types|] == r.types
  {
    match t
    case Primitive(p) => (r, StaticHandle(p))
    case _ =>
      match FindEquivalent(r.types, t)
      case Some(i) => (r, FIRST_INTERNED + i)
      case None => (Registry(r.types + [t]), FIRST_INTERNED + |r.types|)
  }

  /** What a handle points to stays put when the registry grows. */
  lemma GrowthKeepsHandles(r: Registry, t: Type, h: Handle)
    requires TypeOf(r, h).Some?
    ensures TypeOf(GetHandle(r, t).0, h) == TypeOf(r, h)
  {
    var r2 := GetHandle(r, t).0;
    if h >= FIRST_INTERNED {
      assert r2.types[h - FIRST_INTERNED] == r2.types[..|r.types|][h - FIRST_INTERNED];
    }
  }

  /**
   The handle `get_handle` returns points to the type asked for (structurally), and the
   registry stays valid.
   */
  lemma GetHandleRoundTrip(r: Registry, t: Type)
    requires Valid(r)
    ensures Valid(GetHandle(r, t).0)
    ensures TypeOf(GetHandle(r, t).0, GetHandle(r, t).1) == Some(t)
  {
    if t.Primitive? {
      StaticHandlesDistinct(t.primitive, t.primitive);
    } else {
      match FindEquivalent(r.types, t)
      case Some(i) =>
        EquivalentIsEqual(r.types[i], t);
      case None =>
        var ts := r.types + [t];
        forall i, j | 0 <= i < j < |ts| ensures !Equivalent(ts[i], ts[j]) {
          if j == |r.types| {
            EquivalentIsEqual(ts[i], t);
            EquivalentIsEqual(t, ts[i]);
          }
        }
    }
  }

  /** Interning the same type again changes nothing and gives the same handle. */
  lemma GetHandleIdempotent(r: Registry, t: Type)
    requires Valid(r)
    ensures GetHandle(GetHandle(r, t).0, t) == (GetHandle(r, t).0, GetHandle(r, t).1)
  {
    var (r2, h) := GetHandle(r, t);
    GetHandleRoundTrip(r, t);
    if !t.Primitive? {
      var i := h - FIRST_INTERNED;
      assert r2.types[i] == t;
      TypeLessIrreflexive(t);
      match FindEquivalent(r2.types, t)
      case Some(k) =>
        EquivalentIsEqual(r2.types[k], t);
      case None =>
        assert Equivalent(r2.types[i], t);
    }
  }

  /** Structurally different types interned one after the other get different handles. */
  lemma DifferentTypesDifferentHandles(r: Registry, a: Type, b: Type)
    requires Valid(r) && a != b
    ensures GetHandle(GetHandle(r, a).0, b).1 != GetHandle(r, a).1
  {
    var (r1, ha) := GetHandle(r, a);
    GetHandleRoundTrip(r, a);
    GetHandleRoundTrip(r1, b);
    GrowthKeepsHandles(r1, b, ha);
  }
}
