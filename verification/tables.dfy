/**
 The two spelling tables of libs/core/src/tone/core/tokens.cpp written out in the order
 their constructor sorts them into: by spelling (character codes, a prefix first) and then
 by token.
 */
module TokenTables {
  import opened Lookup
  import opened Munch
  import opened ReservedTokens

  /** `reserved_token`'s built-in `<`: enumeration order. */
  predicate TokenLess(a: ReservedToken, b: ReservedToken) {
    Ordinal(a) < Ordinal(b)
  }

  lemma TokenLessIsStrictTotal()
    ensures StrictTotalOrder(TokenLess)
  {
    forall a: ReservedToken, b: ReservedToken | a != b ensures TokenLess(a, b) || TokenLess(b, a) {
      OrdinalInjective(a, b);
    }
  }

  /** Both orders the tables are sorted by are strict total orders. */
  lemma OrdersAreStrictTotal()
    ensures StrictTotalOrder(StringLess) && StrictTotalOrder(TokenLess)
  {
    StringLessIsStrictTotal();
    TokenLessIsStrictTotal();
  }

  /** The operator entries in ascending (spelling, token) order. */
  const SortedOperatorEntries: seq<(string, ReservedToken)> := [
    ("!", LogicalNot), ("!=", NotEqual), ("%", Mod), ("%=", ModAssign),
    ("&", BitwiseAnd), ("&&", LogicalAnd), ("(", OpenParen), (")", CloseParen),
    ("*", Mul), ("*=", MulAssign), ("+", Add), ("++", Inc),
    ("+=", AddAssign), (",", Comma), ("-", Sub), ("--", Dec),
    ("-=", SubAssign), (".", Scope), ("/", Div), ("/=", DivAssign),
    (":", Colon), (";", Semicolon), ("<", Less), ("<<", ShiftL),
    ("<=", LessEqual), ("=", Assign), ("==", Equal), (">", Greater),
    (">=", GreaterEqual), (">>", ShiftR), ("[", OpenSquare), ("]", CloseSquare),
    ("^", BitwiseXor), ("{", OpenCurly), ("|", BitwiseOr), ("||", LogicalOr),
    ("}", CloseCurly), ("~", BitwiseNot)
  ]

  lemma OperatorAscend0(i: nat)
    requires 0 <= i < 6
    ensures PairLess(StringLess, TokenLess, SortedOperatorEntries[i], SortedOperatorEntries[i + 1])
  {
    if i == 0 {
    } else if i == 1 {
    } else if i == 2 {
    } else if i == 3 {
    } else if i == 4 {
    } else {
    }
  }

  lemma OperatorAscend6(i: nat)
    requires 6 <= i < 12
    ensures PairLess(StringLess, TokenLess, SortedOperatorEntries[i], SortedOperatorEntries[i + 1])
  {
    if i == 6 {
    } else if i == 7 {
    } else if i == 8 {
    } else if i == 9 {
    } else if i == 10 {
    } else {
    }
  }

  lemma OperatorAscend12(i: nat)
    requires 12 <= i < 18
    ensures PairLess(StringLess, TokenLess, SortedOperatorEntries[i], SortedOperatorEntries[i + 1])
  {
    if i == 12 {
    } else if i == 13 {
    } else if i == 14 {
    } else if i == 15 {
    } else if i == 16 {
    } else {
    }
  }

  lemma OperatorAscend18(i: nat)
    requires 18 <= i < 24
    ensures PairLess(StringLess, TokenLess, SortedOperatorEntries[i], SortedOperatorEntries[i + 1])
  {
    if i == 18 {
    } else if i == 19 {
    } else if i == 20 {
    } else if i == 21 {
    } else if i == 22 {
    } else {
    }
  }

  lemma OperatorAscend24(i: nat)
    requires 24 <= i < 30
    ensures PairLess(StringLess, TokenLess, SortedOperatorEntries[i], SortedOperatorEntries[i + 1])
  {
    if i == 24 {
    } else if i == 25 {
    } else if i == 26 {
    } else if i == 27 {
    } else if i == 28 {
    } else {
    }
  }

  lemma OperatorAscend30(i: nat)
    requires 30 <= i < 36
    ensures PairLess(StringLess, TokenLess, SortedOperatorEntries[i], SortedOperatorEntries[i + 1])
  {
    if i == 30 {
    } else if i == 31 {
    } else if i == 32 {
    } else if i == 33 {
    } else if i == 34 {
    } else {
    }
  }

  lemma OperatorAscend36(i: nat)
    requires 36 <= i < 37
    ensures PairLess(StringLess, TokenLess, SortedOperatorEntries[i], SortedOperatorEntries[i + 1])
  {
    {
    }
  }

  lemma SortedOperatorListed0(i: nat)
    requires 0 <= i < 3
    ensures SortedOperatorEntries[i] in OperatorEntries
  {
    if i == 0 {
      assert SortedOperatorEntries[0] == OperatorEntries[19];
    } else if i == 1 {
      assert SortedOperatorEntries[1] == OperatorEntries[23];
    } else {
      assert SortedOperatorEntries[2] == OperatorEntries[6];
    }
  }

  lemma WrittenOperatorListed0(i: nat)
    requires 0 <= i < 3
    ensures OperatorEntries[i] in SortedOperatorEntries
  {
    if i == 0 {
      assert OperatorEntries[0] == SortedOperatorEntries[11];
    } else if i == 1 {
      assert OperatorEntries[1] == SortedOperatorEntries[15];
    } else {
      assert OperatorEntries[2] == SortedOperatorEntries[10];
    }
  }

  lemma SortedOperatorListed3(i: nat)
    requires 3 <= i < 6
    ensures SortedOperatorEntries[i] in OperatorEntries
  {
    if i == 3 {
      assert SortedOperatorEntries[3] == OperatorEntries[18];
    } else if i == 4 {
      assert SortedOperatorEntries[4] == OperatorEntries[8];
    } else {
      assert SortedOperatorEntries[5] == OperatorEntries[20];
    }
  }

  lemma WrittenOperatorListed3(i: nat)
    requires 3 <= i < 6
    ensures OperatorEntries[i] in SortedOperatorEntries
  {
    if i == 3 {
      assert OperatorEntries[3] == SortedOperatorEntries[14];
    } else if i == 4 {
      assert OperatorEntries[4] == SortedOperatorEntries[8];
    } else {
      assert OperatorEntries[5] == SortedOperatorEntries[18];
    }
  }

  lemma SortedOperatorListed6(i: nat)
    requires 6 <= i < 9
    ensures SortedOperatorEntries[i] in OperatorEntries
  {
    if i == 6 {
      assert SortedOperatorEntries[6] == OperatorEntries[32];
    } else if i == 7 {
      assert SortedOperatorEntries[7] == OperatorEntries[33];
    } else {
      assert SortedOperatorEntries[8] == OperatorEntries[4];
    }
  }

  lemma WrittenOperatorListed6(i: nat)
    requires 6 <= i < 9
    ensures OperatorEntries[i] in SortedOperatorEntries
  {
    if i == 6 {
      assert OperatorEntries[6] == SortedOperatorEntries[2];
    } else if i == 7 {
      assert OperatorEntries[7] == SortedOperatorEntries[37];
    } else {
      assert OperatorEntries[8] == SortedOperatorEntries[4];
    }
  }

  lemma SortedOperatorListed9(i: nat)
    requires 9 <= i < 12
    ensures SortedOperatorEntries[i] in OperatorEntries
  {
    if i == 9 {
      assert SortedOperatorEntries[9] == OperatorEntries[16];
    } else if i == 10 {
      assert SortedOperatorEntries[10] == OperatorEntries[2];
    } else {
      assert SortedOperatorEntries[11] == OperatorEntries[0];
    }
  }

  lemma WrittenOperatorListed9(i: nat)
    requires 9 <= i < 12
    ensures OperatorEntries[i] in SortedOperatorEntries
  {
    if i == 9 {
      assert OperatorEntries[9] == SortedOperatorEntries[34];
    } else if i == 10 {
      assert OperatorEntries[10] == SortedOperatorEntries[32];
    } else {
      assert OperatorEntries[11] == SortedOperatorEntries[23];
    }
  }

  lemma SortedOperatorListed12(i: nat)
    requires 12 <= i < 15
    ensures SortedOperatorEntries[i] in OperatorEntries
  {
    if i == 12 {
      assert SortedOperatorEntries[12] == OperatorEntries[14];
    } else if i == 13 {
      assert SortedOperatorEntries[13] == OperatorEntries[28];
    } else {
      assert SortedOperatorEntries[14] == OperatorEntries[3];
    }
  }

  lemma WrittenOperatorListed12(i: nat)
    requires 12 <= i < 15
    ensures OperatorEntries[i] in SortedOperatorEntries
  {
    if i == 12 {
      assert OperatorEntries[12] == SortedOperatorEntries[29];
    } else if i == 13 {
      assert OperatorEntries[13] == SortedOperatorEntries[25];
    } else {
      assert OperatorEntries[14] == SortedOperatorEntries[12];
    }
  }

  lemma SortedOperatorListed15(i: nat)
    requires 15 <= i < 18
    ensures SortedOperatorEntries[i] in OperatorEntries
  {
    if i == 15 {
      assert SortedOperatorEntries[15] == OperatorEntries[1];
    } else if i == 16 {
      assert SortedOperatorEntries[16] == OperatorEntries[15];
    } else {
      assert SortedOperatorEntries[17] == OperatorEntries[31];
    }
  }

  lemma WrittenOperatorListed15(i: nat)
    requires 15 <= i < 18
    ensures OperatorEntries[i] in SortedOperatorEntries
  {
    if i == 15 {
      assert OperatorEntries[15] == SortedOperatorEntries[16];
    } else if i == 16 {
      assert OperatorEntries[16] == SortedOperatorEntries[9];
    } else {
      assert OperatorEntries[17] == SortedOperatorEntries[19];
    }
  }

  lemma SortedOperatorListed18(i: nat)
    requires 18 <= i < 21
    ensures SortedOperatorEntries[i] in OperatorEntries
  {
    if i == 18 {
      assert SortedOperatorEntries[18] == OperatorEntries[5];
    } else if i == 19 {
      assert SortedOperatorEntries[19] == OperatorEntries[17];
    } else {
      assert SortedOperatorEntries[20] == OperatorEntries[30];
    }
  }

  lemma WrittenOperatorListed18(i: nat)
    requires 18 <= i < 21
    ensures OperatorEntries[i] in SortedOperatorEntries
  {
    if i == 18 {
      assert OperatorEntries[18] == SortedOperatorEntries[3];
    } else if i == 19 {
      assert OperatorEntries[19] == SortedOperatorEntries[0];
    } else {
      assert OperatorEntries[20] == SortedOperatorEntries[5];
    }
  }

  lemma SortedOperatorListed21(i: nat)
    requires 21 <= i < 24
    ensures SortedOperatorEntries[i] in OperatorEntries
  {
    if i == 21 {
      assert SortedOperatorEntries[21] == OperatorEntries[29];
    } else if i == 22 {
      assert SortedOperatorEntries[22] == OperatorEntries[24];
    } else {
      assert SortedOperatorEntries[23] == OperatorEntries[11];
    }
  }

  lemma WrittenOperatorListed21(i: nat)
    requires 21 <= i < 24
    ensures OperatorEntries[i] in SortedOperatorEntries
  {
    if i == 21 {
      assert OperatorEntries[21] == SortedOperatorEntries[35];
    } else if i == 22 {
      assert OperatorEntries[22] == SortedOperatorEntries[26];
    } else {
      assert OperatorEntries[23] == SortedOperatorEntries[1];
    }
  }

  lemma SortedOperatorListed24(i: nat)
    requires 24 <= i < 27
    ensures SortedOperatorEntries[i] in OperatorEntries
  {
    if i == 24 {
      assert SortedOperatorEntries[24] == OperatorEntries[25];
    } else if i == 25 {
      assert SortedOperatorEntries[25] == OperatorEntries[13];
    } else {
      assert SortedOperatorEntries[26] == OperatorEntries[22];
    }
  }

  lemma WrittenOperatorListed24(i: nat)
    requires 24 <= i < 27
    ensures OperatorEntries[i] in SortedOperatorEntries
  {
    if i == 24 {
      assert OperatorEntries[24] == SortedOperatorEntries[22];
    } else if i == 25 {
      assert OperatorEntries[25] == SortedOperatorEntries[24];
    } else {
      assert OperatorEntries[26] == SortedOperatorEntries[27];
    }
  }

  lemma SortedOperatorListed27(i: nat)
    requires 27 <= i < 30
    ensures SortedOperatorEntries[i] in OperatorEntries
  {
    if i == 27 {
      assert SortedOperatorEntries[27] == OperatorEntries[26];
    } else if i == 28 {
      assert SortedOperatorEntries[28] == OperatorEntries[27];
    } else {
      assert SortedOperatorEntries[29] == OperatorEntries[12];
    }
  }

  lemma WrittenOperatorListed27(i: nat)
    requires 27 <= i < 30
    ensures OperatorEntries[i] in SortedOperatorEntries
  {
    if i == 27 {
      assert OperatorEntries[27] == SortedOperatorEntries[28];
    } else if i == 28 {
      assert OperatorEntries[28] == SortedOperatorEntries[13];
    } else {
      assert OperatorEntries[29] == SortedOperatorEntries[21];
    }
  }

  lemma SortedOperatorListed30(i: nat)
    requires 30 <= i < 33
    ensures SortedOperatorEntries[i] in OperatorEntries
  {
    if i == 30 {
      assert SortedOperatorEntries[30] == OperatorEntries[36];
    } else if i == 31 {
      assert SortedOperatorEntries[31] == OperatorEntries[37];
    } else {
      assert SortedOperatorEntries[32] == OperatorEntries[10];
    }
  }

  lemma WrittenOperatorListed30(i: nat)
    requires 30 <= i < 33
    ensures OperatorEntries[i] in SortedOperatorEntries
  {
    if i == 30 {
      assert OperatorEntries[30] == SortedOperatorEntries[20];
    } else if i == 31 {
      assert OperatorEntries[31] == SortedOperatorEntries[17];
    } else {
      assert OperatorEntries[32] == SortedOperatorEntries[6];
    }
  }

  lemma SortedOperatorListed33(i: nat)
    requires 33 <= i < 36
    ensures SortedOperatorEntries[i] in OperatorEntries
  {
    if i == 33 {
      assert SortedOperatorEntries[33] == OperatorEntries[34];
    } else if i == 34 {
      assert SortedOperatorEntries[34] == OperatorEntries[9];
    } else {
      assert SortedOperatorEntries[35] == OperatorEntries[21];
    }
  }

  lemma WrittenOperatorListed33(i: nat)
    requires 33 <= i < 36
    ensures OperatorEntries[i] in SortedOperatorEntries
  {
    if i == 33 {
      assert OperatorEntries[33] == SortedOperatorEntries[7];
    } else if i == 34 {
      assert OperatorEntries[34] == SortedOperatorEntries[33];
    } else {
      assert OperatorEntries[35] == SortedOperatorEntries[36];
    }
  }

  lemma SortedOperatorListed36(i: nat)
    requires 36 <= i < 38
    ensures SortedOperatorEntries[i] in OperatorEntries
  {
    if i == 36 {
      assert SortedOperatorEntries[36] == OperatorEntries[35];
    } else {
      assert SortedOperatorEntries[37] == OperatorEntries[7];
    }
  }

  lemma WrittenOperatorListed36(i: nat)
    requires 36 <= i < 38
    ensures OperatorEntries[i] in SortedOperatorEntries
  {
    if i == 36 {
      assert OperatorEntries[36] == SortedOperatorEntries[30];
    } else {
      assert OperatorEntries[37] == SortedOperatorEntries[31];
    }
  }

  /** The sorted operator entries ascend strictly and hold exactly the entries as written. */
  lemma OperatorSortedFacts()
    ensures EntriesSorted(StringLess, TokenLess, SortedOperatorEntries)
    ensures |SortedOperatorEntries| == |OperatorEntries|
    ensures forall e :: e in SortedOperatorEntries <==> e in OperatorEntries
  {
    forall i | 0 <= i < |SortedOperatorEntries| - 1 ensures PairLess(StringLess, TokenLess, SortedOperatorEntries[i], SortedOperatorEntries[i + 1]) {
      if i < 6 {
        OperatorAscend0(i);
      } else if i < 12 {
        OperatorAscend6(i);
      } else if i < 18 {
        OperatorAscend12(i);
      } else if i < 24 {
        OperatorAscend18(i);
      } else if i < 30 {
        OperatorAscend24(i);
      } else if i < 36 {
        OperatorAscend30(i);
      } else {
        OperatorAscend36(i);
      }
    }
    OrdersAreStrictTotal();
    AscendingEntriesSorted(StringLess, TokenLess, SortedOperatorEntries);
    forall i | 0 <= i < |SortedOperatorEntries| ensures SortedOperatorEntries[i] in OperatorEntries && OperatorEntries[i] in SortedOperatorEntries {
      if i < 3 {
        SortedOperatorListed0(i);
        WrittenOperatorListed0(i);
      } else if i < 6 {
        SortedOperatorListed3(i);
        WrittenOperatorListed3(i);
      } else if i < 9 {
        SortedOperatorListed6(i);
        WrittenOperatorListed6(i);
      } else if i < 12 {
        SortedOperatorListed9(i);
        WrittenOperatorListed9(i);
      } else if i < 15 {
        SortedOperatorListed12(i);
        WrittenOperatorListed12(i);
      } else if i < 18 {
        SortedOperatorListed15(i);
        WrittenOperatorListed15(i);
      } else if i < 21 {
        SortedOperatorListed18(i);
        WrittenOperatorListed18(i);
      } else if i < 24 {
        SortedOperatorListed21(i);
        WrittenOperatorListed21(i);
      } else if i < 27 {
        SortedOperatorListed24(i);
        WrittenOperatorListed24(i);
      } else if i < 30 {
        SortedOperatorListed27(i);
        WrittenOperatorListed27(i);
      } else if i < 33 {
        SortedOperatorListed30(i);
        WrittenOperatorListed30(i);
      } else if i < 36 {
        SortedOperatorListed33(i);
        WrittenOperatorListed33(i);
      } else {
        SortedOperatorListed36(i);
        WrittenOperatorListed36(i);
      }
    }
  }

  /** The keyword entries in ascending (spelling, token) order. */
  const SortedKeywordEntries: seq<(string, ReservedToken)> := [
    ("bool", KwBool), ("break", KwBreak), ("continue", KwContinue), ("elif", KwElif),
    ("else", KwElse), ("false", KwConstantFalse), ("fn", KwFn), ("for", KwFor),
    ("if", KwIf), ("int", KwInt), ("null", KwConstantNull), ("real", KwReal),
    ("return", KwReturn), ("str", KwStr), ("true", KwConstantTrue), ("var", KwVar),
    ("void", KwVoid), ("while", KwWhile)
  ]

  lemma KeywordAscend0(i: nat)
    requires 0 <= i < 6
    ensures PairLess(StringLess, TokenLess, SortedKeywordEntries[i], SortedKeywordEntries[i + 1])
  {
    if i == 0 {
    } else if i == 1 {
    } else if i == 2 {
    } else if i == 3 {
    } else if i == 4 {
    } else {
    }
  }

  lemma KeywordAscend6(i: nat)
    requires 6 <= i < 12
    ensures PairLess(StringLess, TokenLess, SortedKeywordEntries[i], SortedKeywordEntries[i + 1])
  {
    if i == 6 {
    } else if i == 7 {
    } else if i == 8 {
    } else if i == 9 {
    } else if i == 10 {
    } else {
    }
  }

  lemma KeywordAscend12(i: nat)
    requires 12 <= i < 17
    ensures PairLess(StringLess, TokenLess, SortedKeywordEntries[i], SortedKeywordEntries[i + 1])
  {
    if i == 12 {
    } else if i == 13 {
    } else if i == 14 {
    } else if i == 15 {
    } else {
    }
  }

  lemma SortedKeywordListed0(i: nat)
    requires 0 <= i < 3
    ensures SortedKeywordEntries[i] in KeywordEntries
  {
    if i == 0 {
      assert SortedKeywordEntries[0] == KeywordEntries[13];
    } else if i == 1 {
      assert SortedKeywordEntries[1] == KeywordEntries[7];
    } else {
      assert SortedKeywordEntries[2] == KeywordEntries[8];
    }
  }

  lemma WrittenKeywordListed0(i: nat)
    requires 0 <= i < 3
    ensures KeywordEntries[i] in SortedKeywordEntries
  {
    if i == 0 {
      assert KeywordEntries[0] == SortedKeywordEntries[8];
    } else if i == 1 {
      assert KeywordEntries[1] == SortedKeywordEntries[4];
    } else {
      assert KeywordEntries[2] == SortedKeywordEntries[3];
    }
  }

  lemma SortedKeywordListed3(i: nat)
    requires 3 <= i < 6
    ensures SortedKeywordEntries[i] in KeywordEntries
  {
    if i == 3 {
      assert SortedKeywordEntries[3] == KeywordEntries[2];
    } else if i == 4 {
      assert SortedKeywordEntries[4] == KeywordEntries[1];
    } else {
      assert SortedKeywordEntries[5] == KeywordEntries[16];
    }
  }

  lemma WrittenKeywordListed3(i: nat)
    requires 3 <= i < 6
    ensures KeywordEntries[i] in SortedKeywordEntries
  {
    if i == 3 {
      assert KeywordEntries[3] == SortedKeywordEntries[7];
    } else if i == 4 {
      assert KeywordEntries[4] == SortedKeywordEntries[17];
    } else {
      assert KeywordEntries[5] == SortedKeywordEntries[15];
    }
  }

  lemma SortedKeywordListed6(i: nat)
    requires 6 <= i < 9
    ensures SortedKeywordEntries[i] in KeywordEntries
  {
    if i == 6 {
      assert SortedKeywordEntries[6] == KeywordEntries[6];
    } else if i == 7 {
      assert SortedKeywordEntries[7] == KeywordEntries[3];
    } else {
      assert SortedKeywordEntries[8] == KeywordEntries[0];
    }
  }

  lemma WrittenKeywordListed6(i: nat)
    requires 6 <= i < 9
    ensures KeywordEntries[i] in SortedKeywordEntries
  {
    if i == 6 {
      assert KeywordEntries[6] == SortedKeywordEntries[6];
    } else if i == 7 {
      assert KeywordEntries[7] == SortedKeywordEntries[1];
    } else {
      assert KeywordEntries[8] == SortedKeywordEntries[2];
    }
  }

  lemma SortedKeywordListed9(i: nat)
    requires 9 <= i < 12
    ensures SortedKeywordEntries[i] in KeywordEntries
  {
    if i == 9 {
      assert SortedKeywordEntries[9] == KeywordEntries[12];
    } else if i == 10 {
      assert SortedKeywordEntries[10] == KeywordEntries[17];
    } else {
      assert SortedKeywordEntries[11] == KeywordEntries[11];
    }
  }

  lemma WrittenKeywordListed9(i: nat)
    requires 9 <= i < 12
    ensures KeywordEntries[i] in SortedKeywordEntries
  {
    if i == 9 {
      assert KeywordEntries[9] == SortedKeywordEntries[12];
    } else if i == 10 {
      assert KeywordEntries[10] == SortedKeywordEntries[16];
    } else {
      assert KeywordEntries[11] == SortedKeywordEntries[11];
    }
  }

  lemma SortedKeywordListed12(i: nat)
    requires 12 <= i < 15
    ensures SortedKeywordEntries[i] in KeywordEntries
  {
    if i == 12 {
      assert SortedKeywordEntries[12] == KeywordEntries[9];
    } else if i == 13 {
      assert SortedKeywordEntries[13] == KeywordEntries[14];
    } else {
      assert SortedKeywordEntries[14] == KeywordEntries[15];
    }
  }

  lemma WrittenKeywordListed12(i: nat)
    requires 12 <= i < 15
    ensures KeywordEntries[i] in SortedKeywordEntries
  {
    if i == 12 {
      assert KeywordEntries[12] == SortedKeywordEntries[9];
    } else if i == 13 {
      assert KeywordEntries[13] == SortedKeywordEntries[0];
    } else {
      assert KeywordEntries[14] == SortedKeywordEntries[13];
    }
  }

  lemma SortedKeywordListed15(i: nat)
    requires 15 <= i < 18
    ensures SortedKeywordEntries[i] in KeywordEntries
  {
    if i == 15 {
      assert SortedKeywordEntries[15] == KeywordEntries[5];
    } else if i == 16 {
      assert SortedKeywordEntries[16] == KeywordEntries[10];
    } else {
      assert SortedKeywordEntries[17] == KeywordEntries[4];
    }
  }

  lemma WrittenKeywordListed15(i: nat)
    requires 15 <= i < 18
    ensures KeywordEntries[i] in SortedKeywordEntries
  {
    if i == 15 {
      assert KeywordEntries[15] == SortedKeywordEntries[14];
    } else if i == 16 {
      assert KeywordEntries[16] == SortedKeywordEntries[5];
    } else {
      assert KeywordEntries[17] == SortedKeywordEntries[10];
    }
  }

  /** The sorted keyword entries ascend strictly and hold exactly the entries as written. */
  lemma KeywordSortedFacts()
    ensures EntriesSorted(StringLess, TokenLess, SortedKeywordEntries)
    ensures |SortedKeywordEntries| == |KeywordEntries|
    ensures forall e :: e in SortedKeywordEntries <==> e in KeywordEntries
  {
    forall i | 0 <= i < |SortedKeywordEntries| - 1 ensures PairLess(StringLess, TokenLess, SortedKeywordEntries[i], SortedKeywordEntries[i + 1]) {
      if i < 6 {
        KeywordAscend0(i);
      } else if i < 12 {
        KeywordAscend6(i);
      } else {
        KeywordAscend12(i);
      }
    }
    OrdersAreStrictTotal();
    AscendingEntriesSorted(StringLess, TokenLess, SortedKeywordEntries);
    forall i | 0 <= i < |SortedKeywordEntries| ensures SortedKeywordEntries[i] in KeywordEntries && KeywordEntries[i] in SortedKeywordEntries {
      if i < 3 {
        SortedKeywordListed0(i);
        WrittenKeywordListed0(i);
      } else if i < 6 {
        SortedKeywordListed3(i);
        WrittenKeywordListed3(i);
      } else if i < 9 {
        SortedKeywordListed6(i);
        WrittenKeywordListed6(i);
      } else if i < 12 {
        SortedKeywordListed9(i);
        WrittenKeywordListed9(i);
      } else if i < 15 {
        SortedKeywordListed12(i);
        WrittenKeywordListed12(i);
      } else {
        SortedKeywordListed15(i);
        WrittenKeywordListed15(i);
      }
    }
  }
}
