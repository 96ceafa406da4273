/**
 The implicit conversions of libs/core/src/tone/core/conversion_rules.cpp.
 */
module Conversion {
  import opened Types

  /**
   `is_convertable`: whether a value of type `from` (an lvalue or not) may stand where a
   value of type `to` is wanted, `lvalueTo` saying whether an lvalue is required.
   */
  predicate IsConvertable(from: Handle, lvalueFrom: bool, to: Handle, lvalueTo: bool) {
    if to == VOID_HANDLE then true
    else if lvalueTo then lvalueFrom && from == to
    else if from == to then true
    else if from == INT_HANDLE && to == STR_HANDLE then true
    else if from == REAL_HANDLE && to == STR_HANDLE then true
    else if from == INT_HANDLE && to == REAL_HANDLE then true
    else if from == REAL_HANDLE && to == INT_HANDLE then true
    else if from == INT_HANDLE && to == BOOL_HANDLE then true
    else if from == REAL_HANDLE && to == BOOL_HANDLE then true
    else false
  }

  /** The conversions between different types, as a table. */
  const IMPLICIT_PAIRS: set<(Handle, Handle)> := {
    (INT_HANDLE, STR_HANDLE), (REAL_HANDLE, STR_HANDLE),
    (INT_HANDLE, REAL_HANDLE), (REAL_HANDLE, INT_HANDLE),
    (INT_HANDLE, BOOL_HANDLE), (REAL_HANDLE, BOOL_HANDLE)
  }

  /**
   The whole relation: anything converts to void; with an lvalue required, only an lvalue of
   the very same type converts; otherwise the same type or one of the six listed pairs.
   */
  lemma ConvertableExactly(from: Handle, lvalueFrom: bool, to: Handle, lvalueTo: bool)
    ensures IsConvertable(from, lvalueFrom, to, lvalueTo) <==>
              to == VOID_HANDLE
              || (lvalueTo && lvalueFrom && from == to)
              || (!lvalueTo && (from == to || (from, to) in IMPLICIT_PAIRS))
  {
  }

  /** Requiring an lvalue never admits more conversions. */
  lemma LvalueNarrows(from: Handle, lvalueFrom: bool, to: Handle)
    ensures IsConvertable(from, lvalueFrom, to, true) ==> IsConvertable(from, lvalueFrom, to, false)
  {
  }

  /** An example that the relation is not symmetric: an integer converts to a string but not back. */
  lemma NotSymmetric()
    ensures IsConvertable(INT_HANDLE, false, STR_HANDLE, false)
    ensures !IsConvertable(STR_HANDLE, false, INT_HANDLE, false)
  {
  }

  /**
   Booleans, strings and every composite type convert only to themselves and to void.
   */
  lemma OnlyNumbersConvert(from: Handle, lvalueFrom: bool, to: Handle, lvalueTo: bool)
    requires from != INT_HANDLE && from != REAL_HANDLE
    ensures IsConvertable(from, lvalueFrom, to, lvalueTo) ==> to == VOID_HANDLE || to == from
  {
  }

  /** Which types convert, without an lvalue, to a number, a boolean or a string. */
  lemma ConvertsTo(from: Handle, lvalueFrom: bool)
    ensures IsConvertable(from, lvalueFrom, REAL_HANDLE, false) <==> from == REAL_HANDLE || from == INT_HANDLE
    ensures IsConvertable(from, lvalueFrom, INT_HANDLE, false) <==> from == REAL_HANDLE || from == INT_HANDLE
    ensures IsConvertable(from, lvalueFrom, BOOL_HANDLE, false) <==>
              from == BOOL_HANDLE || from == REAL_HANDLE || from == INT_HANDLE
    ensures IsConvertable(from, lvalueFrom, STR_HANDLE, false) <==>
              from == STR_HANDLE || from == REAL_HANDLE || from == INT_HANDLE
  {
  }
}
