/**
 The lookup tables of libs/core/src/tone/core/tokens.cpp, the keyword and operator
 recognisers built on them, and the `token` value the tokenizer produces.
 */
module Tokens {
  import opened Wrappers
  import opened Lookup
  import opened PushBackStream
  import opened ReservedTokens
  import opened Munch
  import opened TokenTables

  // ---------------------------------------------------------------------------------------
  // The three tables
  // ---------------------------------------------------------------------------------------

  /** `operator_token_map`: the operator entries sorted by (spelling, token). */
  function OperatorTable(): (t: Table<string, ReservedToken>)
    ensures EntriesSorted(StringLess, TokenLess, t.entries)
    ensures forall e :: e in t.entries <==> e in OperatorEntries
  {
    OperatorSortedFacts();
    Table(SortedOperatorEntries)
  }

  /** `keyword_token_map`: the keyword entries sorted by (spelling, token). */
  function KeywordTable(): (t: Table<string, ReservedToken>)
    ensures EntriesSorted(StringLess, TokenLess, t.entries)
    ensures forall e :: e in t.entries <==> e in KeywordEntries
  {
    KeywordSortedFacts();
    Table(SortedKeywordEntries)
  }

  /** Each (spelling, token) entry turned round. */
  function Swapped(e: seq<(string, ReservedToken)>): (r: seq<(ReservedToken, string)>)
    ensures |r| == |e|
    ensures forall i :: 0 <= i < |e| ==> r[i] == (e[i].1, e[i].0)
  {
    seq(|e|, i requires 0 <= i < |e| => (e[i].1, e[i].0))
  }

  /**
   `token_string_map`: the entries of the operator table and then of the keyword table,
   turned round, sorted by (token, spelling).
   */
  function TokenStringTable(): (t: Table<ReservedToken, string>)
    ensures EntriesSorted(TokenLess, StringLess, t.entries)
    ensures forall e :: e in t.entries <==> e in Swapped(OperatorTable().entries) + Swapped(KeywordTable().entries)
  {
    OrdersAreStrictTotal();
    Make(Swapped(OperatorTable().entries) + Swapped(KeywordTable().entries), TokenLess, StringLess)
  }

  /** The operator table pairs every operator with its spelling, and holds nothing else. */
  lemma OperatorTableContents(e: (string, ReservedToken))
    ensures e in OperatorTable().entries <==> e.1.IsOperator() && e.0 == Spelling(e.1)
  {
    EntriesSpelled();
    EveryTokenListed(e.1);
    if e in OperatorEntries {
      var i :| 0 <= i < |OperatorEntries| && OperatorEntries[i] == e;
    }
  }

  /** The keyword table pairs every keyword with its spelling, and holds nothing else. */
  lemma KeywordTableContents(e: (string, ReservedToken))
    ensures e in KeywordTable().entries <==> !e.1.IsOperator() && e.0 == Spelling(e.1)
  {
    EntriesSpelled();
    EveryTokenListed(e.1);
    if e in KeywordEntries {
      var i :| 0 <= i < |KeywordEntries| && KeywordEntries[i] == e;
    }
  }

  /** (t, w) is in a swapped table exactly when (w, t) is in the table. */
  lemma SwappedMembers(e: seq<(string, ReservedToken)>, t: ReservedToken, w: string)
    ensures (t, w) in Swapped(e) <==> (w, t) in e
  {
    if (t, w) in Swapped(e) {
      var i :| 0 <= i < |e| && Swapped(e)[i] == (t, w);
    }
    if (w, t) in e {
      var i :| 0 <= i < |e| && e[i] == (w, t);
      assert Swapped(e)[i] == (t, w);
    }
  }

  /** The token-to-string table pairs every token with its spelling, and holds nothing else. */
  lemma TokenStringTableContents(e: (ReservedToken, string))
    ensures e in TokenStringTable().entries <==> e.1 == Spelling(e.0)
  {
    SwappedMembers(OperatorTable().entries, e.0, e.1);
    SwappedMembers(KeywordTable().entries, e.0, e.1);
    OperatorTableContents((e.1, e.0));
    KeywordTableContents((e.1, e.0));
  }

  // ---------------------------------------------------------------------------------------
  // get_keyword and reserved_token_to_string
  // ---------------------------------------------------------------------------------------

  /** `get_keyword`: the token the keyword table holds for w, if any. */
  function GetKeyword(w: string): (r: Option<ReservedToken>)
    ensures r.Some? <==> IsKey(KeywordTable().entries, w)
    ensures r.Some? ==> (w, r.value) in KeywordTable().entries
  {
    OrdersAreStrictTotal();
    FindKey(KeywordTable(), TokenLess, w)
  }

  /** `get_keyword(w)` is t exactly when t is a keyword spelled w. */
  lemma GetKeywordSpelling(w: string, t: ReservedToken)
    ensures GetKeyword(w) == Some(t) <==> !t.IsOperator() && Spelling(t) == w
  {
    KeywordTableContents((w, t));
    var e := KeywordTable().entries;
    if GetKeyword(w).Some? {
      KeywordTableContents((w, GetKeyword(w).value));
      SpellingInjective(t, GetKeyword(w).value);
    }
    if !t.IsOperator() && Spelling(t) == w {
      MemberIsKey(e, w, t);
    }
  }

  /** `get_keyword(w)` finds nothing exactly when no keyword is spelled w. */
  lemma GetKeywordMisses(w: string)
    ensures GetKeyword(w) == None <==> forall t: ReservedToken :: !t.IsOperator() ==> Spelling(t) != w
  {
    if GetKeyword(w).Some? {
      GetKeywordSpelling(w, GetKeyword(w).value);
    } else {
      forall t: ReservedToken | !t.IsOperator() ensures Spelling(t) != w {
        GetKeywordSpelling(w, t);
      }
    }
  }

  /** Looking a token up in the token-to-string table finds its spelling. */
  lemma TokenStringFound(t: ReservedToken)
    ensures StrictTotalOrder(TokenLess) && StrictTotalOrder(StringLess)
    ensures var table := TokenStringTable();
            var i := Find(table, TokenLess, StringLess, t);
            i < |table.entries| && table.entries[i] == (t, Spelling(t))
  {
    OrdersAreStrictTotal();
    var table := TokenStringTable();
    TokenStringTableContents((t, Spelling(t)));
    FindFound(table, TokenLess, StringLess, t, Spelling(t));
    var i := Find(table, TokenLess, StringLess, t);
    TokenStringTableContents(table.entries[i]);
  }

  /** `reserved_token_to_string`: the spelling the token-to-string table holds for t. */
  function ReservedTokenToString(t: ReservedToken): (r: string)
    ensures r == Spelling(t)
  {
    TokenStringFound(t);
    var table := TokenStringTable();
    var i := Find(table, TokenLess, StringLess, t);
    if i < |table.entries| then table.entries[i].1 else "!!INVALID!!"
  }

  /** Every keyword's string looks up to the keyword again. */
  lemma KeywordRoundTrip(t: ReservedToken)
    requires !t.IsOperator()
    ensures GetKeyword(ReservedTokenToString(t)) == Some(t)
  {
    GetKeywordSpelling(Spelling(t), t);
  }

  // ---------------------------------------------------------------------------------------
  // get_operator
  // ---------------------------------------------------------------------------------------

  /** w is the spelling of an operator or bracket. */
  ghost predicate OperatorSpelled(w: string) {
    exists t: ReservedToken :: t.IsOperator() && Spelling(t) == w
  }

  /** How many characters a `get_operator` result stands for. */
  function Consumed(tok: Option<ReservedToken>): nat {
    if tok.Some? then |Spelling(tok.value)| else 0
  }

  /** Every key of the operator table spells an operator. */
  lemma OperatorKeySpelled(w: string)
    requires IsKey(OperatorTable().entries, w)
    ensures OperatorSpelled(w)
  {
    var e := OperatorTable().entries;
    var i :| 0 <= i < |e| && e[i].0 == w;
    OperatorTableContents(e[i]);
    var t := e[i].1;
    assert t.IsOperator() && Spelling(t) == w;
  }

  /** Every operator spelling is a key of the operator table. */
  lemma OperatorSpelledKey(w: string, t: ReservedToken)
    requires t.IsOperator() && Spelling(t) == w
    ensures IsKey(OperatorTable().entries, w)
  {
    OperatorTableContents((w, t));
    MemberIsKey(OperatorTable().entries, w, t);
  }

  /** A string that is no key of the operator table spells no operator. */
  lemma NotKeyNotSpelled(w: string)
    requires !IsKey(OperatorTable().entries, w)
    ensures !OperatorSpelled(w)
  {
    if OperatorSpelled(w) {
      var t: ReservedToken :| t.IsOperator() && Spelling(t) == w;
      OperatorSpelledKey(w, t);
    }
  }

  /** The keys of the operator table are exactly the operator spellings. */
  lemma OperatorKeys(w: string)
    ensures IsKey(OperatorTable().entries, w) <==> OperatorSpelled(w)
  {
    if IsKey(OperatorTable().entries, w) {
      OperatorKeySpelled(w);
    }
    if OperatorSpelled(w) {
      var t: ReservedToken :| t.IsOperator() && Spelling(t) == w;
      OperatorSpelledKey(w, t);
    }
  }

  /** No operator character is a line feed, whatever the code it came from. */
  lemma {:induction false} NoNewlinesInOperator(cs: seq<int>)
    requires forall i :: 0 <= i < |cs| ==> IsOperatorChar(CharOf(cs[i]))
    ensures Newlines(cs) == 0
    decreases |cs|
  {
    if cs != [] {
      assert IsOperatorChar(CharOf(cs[|cs| - 1]));
      NoNewlinesInOperator(cs[..|cs| - 1]);
    }
  }

  /** A match in the operator table is an operator whose spelling has no line feed. */
  lemma OperatorMatch(s: Stream, n: nat, t: ReservedToken)
    requires (Chars(s, n), t) in OperatorTable().entries
    ensures t.IsOperator() && Spelling(t) == Chars(s, n) && n == |Spelling(t)|
    ensures Newlines(Upcoming(s, n)) == 0
  {
    OperatorTableContents((Chars(s, n), t));
    EveryTokenWellSpelled(t);
    var u := Upcoming(s, n);
    forall i | 0 <= i < |u| ensures IsOperatorChar(CharOf(u[i])) {
      assert CharOf(u[i]) == Spelling(t)[i];
    }
    NoNewlinesInOperator(u);
  }

  /**
   `get_operator`: the operator or bracket with the longest spelling that the upcoming
   input starts with, or none. Exactly its characters stay consumed; every other character
   probed is pushed back.
   */
  function GetOperator(s: Stream): (r: (Option<ReservedToken>, Stream))
    ensures r.0.Some? ==> r.0.value.IsOperator() && Chars(s, Consumed(r.0)) == Spelling(r.0.value)
    ensures forall m :: m > Consumed(r.0) ==> !OperatorSpelled(Chars(s, m))
    ensures Shifted(r.1, s, Consumed(r.0))
    ensures r.1.charIndex == AddSize(s.charIndex, Consumed(r.0))
    ensures r.1.lineNumber == s.lineNumber
    ensures r.1.input == s.input
  {
    var p := LongestMatch(TokenLess, OperatorTable().entries, s);
    GetOperatorResult(s, p);
    (p.0, p.2)
  }

  /** Past the longest key, no longer prefix of the input spells an operator. */
  lemma NoLongerOperator(s: Stream, n: nat)
    requires forall m :: m > n ==> !IsKey(OperatorTable().entries, Chars(s, m))
    ensures forall m :: m > n ==> !OperatorSpelled(Chars(s, m))
  {
    forall m | m > n ensures !OperatorSpelled(Chars(s, m)) {
      NotKeyNotSpelled(Chars(s, m));
    }
  }

  /** The longest match, if any, is an operator spelled by exactly the consumed characters. */
  lemma MatchConsumed(s: Stream, n: nat, tok: Option<ReservedToken>)
    requires n == 0 ==> tok == None
    requires n > 0 ==> tok.Some? && (Chars(s, n), tok.value) in OperatorTable().entries
    ensures n == Consumed(tok)
    ensures tok.Some? ==> tok.value.IsOperator() && Chars(s, n) == Spelling(tok.value)
    ensures Newlines(Upcoming(s, n)) == 0
  {
    if n > 0 {
      OperatorMatch(s, n, tok.value);
    }
  }

  lemma GetOperatorResult(s: Stream, p: (Option<ReservedToken>, nat, Stream))
    requires p.1 == 0 ==> p.0 == None
    requires p.1 > 0 ==> p.0.Some? && (Chars(s, p.1), p.0.value) in OperatorTable().entries
    requires forall m :: m > p.1 ==> !IsKey(OperatorTable().entries, Chars(s, m))
    requires p.2.lineNumber == AddSize(s.lineNumber, Newlines(Upcoming(s, p.1)))
    ensures p.1 == Consumed(p.0)
    ensures p.0.Some? ==> p.0.value.IsOperator() && Chars(s, p.1) == Spelling(p.0.value)
    ensures forall m :: m > p.1 ==> !OperatorSpelled(Chars(s, m))
    ensures p.2.lineNumber == s.lineNumber
  {
    MatchConsumed(s, p.1, p.0);
    ModSmall(s.lineNumber);
    NoLongerOperator(s, p.1);
  }

  /** An operator spelled at the front, with no longer one there, is what `get_operator` finds. */
  lemma GetOperatorFinds(s: Stream, t: ReservedToken)
    requires t.IsOperator() && Chars(s, |Spelling(t)|) == Spelling(t)
    requires forall m :: m > |Spelling(t)| ==> !OperatorSpelled(Chars(s, m))
    ensures GetOperator(s).0 == Some(t)
  {
    var n := |Spelling(t)|;
    assert n >= 1 by {
      EveryTokenWellSpelled(t);
    }
    var o := GetOperator(s).0;
    assert OperatorSpelled(Chars(s, n)) by {
      assert t.IsOperator() && Spelling(t) == Chars(s, n);
    }
    assert n <= Consumed(o);
    var u := o.value;
    assert OperatorSpelled(Chars(s, Consumed(o))) by {
      assert u.IsOperator() && Spelling(u) == Chars(s, Consumed(o));
    }
    assert Consumed(o) == n;
    SpellingInjective(t, u);
  }

  /**
   `get_operator` returns t exactly when t is spelled by the upcoming characters and no
   longer prefix of them spells an operator: the longest match, which is unique.
   */
  lemma GetOperatorLongest(s: Stream, t: ReservedToken)
    ensures GetOperator(s).0 == Some(t) <==>
              && t.IsOperator()
              && Chars(s, |Spelling(t)|) == Spelling(t)
              && forall m :: m > |Spelling(t)| ==> !OperatorSpelled(Chars(s, m))
  {
    if t.IsOperator() && Chars(s, |Spelling(t)|) == Spelling(t)
       && forall m :: m > |Spelling(t)| ==> !OperatorSpelled(Chars(s, m))
    {
      GetOperatorFinds(s, t);
    }
  }

  // ---------------------------------------------------------------------------------------
  // Tokens
  // ---------------------------------------------------------------------------------------

  /** `std::int64_t`. */
  type Int64 = x: int | -0x8000_0000_0000_0000 <= x < 0x8000_0000_0000_0000

  /**
   The alternatives of `token::value_type`, in order. The `double` payload is an exact
   `real`; the `std::u16string` payload is a string of characters.
   */
  datatype TokenValue =
    | Reserved(token: ReservedToken)
    | Identifier(name: string)
    | Bool(b: bool)
    | Real(r: real)
    | Int(i: Int64)
    | Str(s: string)
    | Null
    | Eof

  /** `token`: a value and where it was read. */
  datatype Token = Token(value: TokenValue, lineNumber: SizeT, charIndex: SizeT)

  /** The default constructor: end of file at line 0, character 0. */
  function DefaultToken(): (t: Token)
    ensures t.value.Eof? && t.lineNumber == 0 && t.charIndex == 0
  {
    Token(Eof, 0, 0)
  }

  /** `value_type::index()`. */
  function VariantIndex(v: TokenValue): nat {
    match v
    case Reserved(_) => 0
    case Identifier(_) => 1
    case Bool(_) => 2
    case Real(_) => 3
    case Int(_) => 4
    case Str(_) => 5
    case Null => 6
    case Eof => 7
  }

  /**
   `token::operator==`: the same alternative, and the same payload for reserved tokens,
   identifiers, booleans, reals and integers. Any two strings compare equal whatever
   their contents, as do any two nulls and any two end-of-file tokens. Positions are not
   compared.
   */
  predicate TokenEquals(a: Token, b: Token) {
    if VariantIndex(a.value) != VariantIndex(b.value) then false
    else if a.value.Reserved? then a.value.token == b.value.token
    else if a.value.Identifier? then a.value.name == b.value.name
    else if a.value.Bool? then a.value.b == b.value.b
    else if a.value.Real? then a.value.r == b.value.r
    else if a.value.Int? then a.value.i == b.value.i
    else true
  }

  /** The value with what the comparison ignores wiped out. */
  function Erased(v: TokenValue): TokenValue {
    if v.Str? then Str([]) else v
  }

  /** Token equality is equality of values once string contents are wiped out. */
  lemma TokenEqualsIsErasedEquality(a: Token, b: Token)
    ensures TokenEquals(a, b) <==> Erased(a.value) == Erased(b.value)
  {
  }

  /** Token equality is an equivalence, and it ignores positions. */
  lemma TokenEqualsEquivalence(a: Token, b: Token, c: Token)
    ensures TokenEquals(a, a)
    ensures TokenEquals(a, b) ==> TokenEquals(b, a)
    ensures TokenEquals(a, b) && TokenEquals(b, c) ==> TokenEquals(a, c)
    ensures TokenEquals(a, a.(lineNumber := b.lineNumber, charIndex := b.charIndex))
  {
    TokenEqualsIsErasedEquality(a, b);
    TokenEqualsIsErasedEquality(b, c);
    TokenEqualsIsErasedEquality(a, c);
  }
}
