# Tone core in Dafny

A model of the front end of the Tone language (zfzackfrost/tone-lang). The model covers:

- the character stream with push-back;
- the sorted lookup tables;
- the reserved tokens and their tables;
- the lexer (`tokenize`) and the token iterator;
- the type registry and the implicit conversion rules;
- identifier scopes and the compile context;
- the typing rules of expression tree nodes;
- the operator-precedence expression parser and its error messages.

Each source unit has its own module:

| module | file | models |
|---|---|---|
| `PushBackStream` | stream.dfy | `push_back_stream` |
| `Lookup` | lookup.dfy | `lookup<K, V>` |
| `ReservedTokens` | reserved.dfy | `reserved_token` |
| `TokenTables` | tables.dfy | the three token tables, kept presorted |
| `Munch` | munch.dfy | the longest-match loop of `get_operator`, for any sorted string table |
| `Tokens` | tokens.dfy | `get_keyword`, `get_operator`, `reserved_token_to_string`, `token` |
| `Numbers` | numbers.dfy | the parts of `strtol` and `strtod` the lexer relies on |
| `Lexer` | tokenize.dfy | `tokenize` and its helpers |
| `Tokenizer` | tokenizer.dfy | the token iterator |
| `Errors` | errors.dfy | the error constructors |
| `Types` | types.dfy | `type_registry` |
| `Conversion` | conversion.dfy | `is_convertable` |
| `Identifiers` | identifier.dfy | the identifier scopes |
| `CompileContext` | context.dfy | `compile_context` |
| `ExpressionTree` | tree.dfy | `node`'s typing rules |
| `Operators` | operators.dfy | the operator tables of the parser |
| `ExpressionParser` | parser.dfy | `parse_expression_tree` |

`Wrappers` holds `Option` and `Result`.

How the model represents the source:

- **Counters.** The stream's `size_t` counters wrap modulo 2^64. Characters are `int` codes, and a negative code means end of input.
- **Handles.** Type handles are natural numbers:
  - 0 to 4 are the static void, bool, real, int and str types;
  - interned types follow from 5 in order of first request.
- **Errors.** Every throwing operation returns a `Result` that carries an `Error` with a message and a position.
- **Lexer output.** The lexer behaves as written:
  - every number literal becomes a real token;
  - `true`, `false` and `null` become bool and null tokens;
  - a backslash in a string always starts an escape;
  - an operator token carries the line number in both of its position fields, since `fetch_operator` reads the line number twice.
- **Parser.** The parser's token iterator is the sequence of what successive lexer steps give, with a cursor into it.

## Model

| member | source | states |
|---|---|---|
| PushBackStream.New | core/src/tone/core/push_back_stream.cpp:5-9 | a new stream starts at line 0, character 0, with nothing pushed back, and yields its input in order |
| PushBackStream.Read | core/src/tone/core/push_back_stream.cpp:11-26 | the character read is the most recently pushed-back one if there is one, else the next input character; it is what the stream showed next; the character index steps up by one (mod 2^64); the line number steps up exactly when a line feed is read |
| PushBackStream.PushBack | core/src/tone/core/push_back_stream.cpp:28-34 | the pushed character is the next one read; the character index steps down by one; the line number steps down exactly when the character is a line feed |
| PushBackStream.ReadShifts | core/src/tone/core/push_back_stream.cpp:11-26 | after a read the stream yields what followed the character read |
| PushBackStream.PushBackShifts | core/src/tone/core/push_back_stream.cpp:28-34 | after a push-back the stream yields that character and then everything it yielded before |
| PushBackStream.IncDec | core/src/tone/core/push_back_stream.cpp:22-33 | the wrapping `++` and `--` on the counters undo each other |
| PushBackStream.PushBackThenRead | core/src/tone/core/push_back_stream.cpp:11-34 | pushing a character back and reading it gives that character and the stream exactly as it was |
| PushBackStream.ReadThenPushBack | core/src/tone/core/push_back_stream.cpp:11-34 | reading a character and pushing it back restores both counters and what the stream yields |
| PushBackStream.RunCharIndex | core/src/tone/core/push_back_stream.cpp:24-33 | after any sequence of reads and push-backs the character index is the start plus reads minus push-backs, modulo 2^64 |
| PushBackStream.CharIndexCountsConsumed | core/src/tone/core/push_back_stream.cpp:5-33 | from a new stream, with no more push-backs than reads, the character index is exactly the number of characters consumed |
| PushBackStream.EofDistance | core/src/tone/core/push_back_stream.cpp:11-26 | the number of characters before the end of input: all of them are non-negative and the next is negative |
| PushBackStream.EofDistanceShift | core/src/tone/core/push_back_stream.cpp:11-26 | consuming n ordinary characters brings the end of input exactly n closer |
| PushBackStream.ReadN | core/src/tone/core/push_back_stream.cpp:11-26 | n reads give the next n characters in order; the character index advances by n and the line number by the line feeds among them |
| PushBackStream.PushBackAll | core/src/tone/core/push_back_stream.cpp:28-34 | pushing a sequence back last-first makes the stream yield it again; the counters step back by its length and by its line feeds |
| PushBackStream.ReadThenUnwind | core/src/tone/core/push_back_stream.cpp:11-34 | reading n characters and pushing back all but the first m leaves the stream m characters on, with both counters advanced over those m characters only |
| PushBackStream.AdvancedTrans | core/src/tone/core/push_back_stream.cpp:11-34 | consuming m characters and then n more is consuming m + n |
| PushBackStream.ReadPushBackAdvanced | core/src/tone/core/push_back_stream.cpp:11-34 | a read followed by pushing the character back consumes nothing |
| PushBackStream.AdvancedSameLine | core/src/tone/core/push_back_stream.cpp:21-22 | consuming characters none of which is a line feed keeps the line number |
| Lookup.PairLessIsStrictTotal | libs/core/include/tone/core/lookup.inl:11 | comparing pairs key first, then value, is a strict total order when both component orders are |
| Lookup.Insert | libs/core/include/tone/core/lookup.inl:11 | inserting into a sequence adds exactly that element to its multiset of elements |
| Lookup.InsertSorted | libs/core/include/tone/core/lookup.inl:11 | inserting into a sorted sequence keeps it sorted |
| Lookup.SortSorted | libs/core/include/tone/core/lookup.inl:11-18 | sorting gives a sorted sequence |
| Lookup.SortedUnique | libs/core/include/tone/core/lookup.inl:11-18 | two sorted arrangements of the same elements are equal, so a table is fixed by its contents |
| Lookup.Make | libs/core/include/tone/core/lookup.inl:8-19 | a table holds exactly the given entries, sorted by key and then by value |
| Lookup.LowerBound | libs/core/include/tone/core/lookup.inl:36-37 | the first index whose key is not below k: every key before it is below k, none from it on is |
| Lookup.Find | libs/core/include/tone/core/lookup.inl:32-39 | `find` returns the end exactly when no entry has key k; otherwise it returns the first entry with key k, which holds the least value stored under k |
| Lookup.FindFound | libs/core/include/tone/core/lookup.inl:32-39 | a key present in the table is found |
| Munch.StringLessIsStrictTotal | libs/core/include/tone/core/lookup.inl:11 | lexicographic character order on strings is a strict total order |
| Munch.FindKey | libs/core/include/tone/core/lookup.inl:32-39 | a string-keyed lookup succeeds exactly when the key is present, and returns the value of one of its entries |
| Munch.NarrowMatching | libs/core/src/tone/core/tokens.cpp:111-138 | the `equal_range` step with `maximal_munch_compare(idx)` narrows the entries that start with a prefix p to exactly those that start with p followed by the next character |
| Munch.ProbeCorrect | libs/core/src/tone/core/tokens.cpp:154-166 | the probing loop ends with the longest key that is a prefix of the input, or with no key |
| Munch.LongestMatch | libs/core/src/tone/core/tokens.cpp:146-175 | the result is either no match with nothing consumed, or an entry whose key is spelled by the next n characters, with no longer key spelled there; exactly those n characters are consumed, with the counters advanced over them |
| ReservedTokens.OrdinalInjective | libs/core/include/tone/core/tokens.hpp:12-97 | distinct reserved tokens have distinct positions in the enumeration |
| ReservedTokens.SpellingInjective | libs/core/src/tone/core/tokens.cpp:12-99 | no two reserved tokens share a spelling |
| ReservedTokens.EveryTokenListed | libs/core/src/tone/core/tokens.cpp:12-99 | every operator appears with its spelling in the operator table, and every keyword appears in the keyword table |
| ReservedTokens.EveryTokenWellSpelled | libs/core/src/tone/core/tokens.cpp:12-99 | operators are spelled with one or two operator characters, and keywords are lower-case words of at least two letters |
| TokenTables.TokenLessIsStrictTotal | libs/core/include/tone/core/tokens.hpp:12 | the enumeration order on reserved tokens is a strict total order |
| TokenTables.OperatorSortedFacts | libs/core/src/tone/core/tokens.cpp:12-66 | the presorted operator table is sorted, has the same length and has the same entries as the table written in the source |
| TokenTables.KeywordSortedFacts | libs/core/src/tone/core/tokens.cpp:69-99 | the presorted keyword table is sorted, has the same length and has the same entries as the table written in the source |
| Tokens.OperatorTable | libs/core/src/tone/core/tokens.cpp:12-66 | the operator table is sorted and holds exactly the written entries |
| Tokens.KeywordTable | libs/core/src/tone/core/tokens.cpp:69-99 | the keyword table is sorted and holds exactly the written entries |
| Tokens.TokenStringTable | libs/core/src/tone/core/tokens.cpp:101-109 | the token-to-string table is sorted by token and holds the swapped entries of both tables |
| Tokens.OperatorTableContents | libs/core/src/tone/core/tokens.cpp:12-66 | an entry is in the operator table exactly when its token is an operator and its key is that token's spelling |
| Tokens.KeywordTableContents | libs/core/src/tone/core/tokens.cpp:69-99 | an entry is in the keyword table exactly when its token is a keyword and its key is that token's spelling |
| Tokens.TokenStringTableContents | libs/core/src/tone/core/tokens.cpp:101-109 | an entry is in the token-to-string table exactly when its string is its token's spelling |
| Tokens.GetKeyword | libs/core/src/tone/core/tokens.cpp:140-144 | a token is found exactly when the word is a key of the keyword table, and it is stored under that word |
| Tokens.GetKeywordSpelling | libs/core/src/tone/core/tokens.cpp:140-144 | `get_keyword(w)` is t exactly when t is a keyword spelled w |
| Tokens.GetKeywordMisses | libs/core/src/tone/core/tokens.cpp:140-144 | `get_keyword(w)` is empty exactly when no keyword is spelled w |
| Tokens.ReservedTokenToString | libs/core/src/tone/core/tokens.cpp:176-183 | every reserved token maps to its spelling, so the `"!!INVALID!!"` branch is never taken |
| Tokens.KeywordRoundTrip | libs/core/src/tone/core/tokens.cpp:140-183 | looking up a keyword's string gives the keyword back |
| Tokens.GetOperator | libs/core/src/tone/core/tokens.cpp:146-175 | a token found is an operator spelled by the next characters, and no longer operator is spelled there; exactly its spelling is consumed and the line number is unchanged; nothing is consumed when no token is found |
| Tokens.GetOperatorLongest | libs/core/src/tone/core/tokens.cpp:146-175 | `get_operator` returns t exactly when t is the longest operator spelled at the front of the stream |
| Tokens.GetOperatorFinds | libs/core/src/tone/core/tokens.cpp:146-175 | the longest operator spelled at the front is found |
| Tokens.DefaultToken | libs/core/src/tone/core/tokens.cpp:188-192 | the default token is end of file at line 0, character 0 |
| Tokens.TokenEqualsIsErasedEquality | libs/core/src/tone/core/tokens.cpp:200-218 | two tokens are equal exactly when their values are equal once string contents are erased: positions are ignored and any two string tokens compare equal |
| Tokens.TokenEqualsEquivalence | libs/core/src/tone/core/tokens.cpp:200-218 | token equality is reflexive, symmetric and transitive, and ignores positions |
| Numbers.Clamp | libs/core/src/tone/core/tokenize.cpp:66 | `strtol` saturates at LONG_MAX and keeps smaller values |
| Numbers.Strtol | libs/core/src/tone/core/tokenize.cpp:66 | on a word starting with a digit, `strtol` consumes at least one character and gives a value of at most LONG_MAX |
| Numbers.StrtolDecimalRoundTrip | libs/core/src/tone/core/tokenize.cpp:66 | the decimal text of any n up to LONG_MAX parses back to n, consuming the whole text |
| Numbers.StrtolFull | libs/core/src/tone/core/tokenize.cpp:66-67 | `strtol` consumes the whole word exactly when the word is decimal, octal or hexadecimal integer text |
| Numbers.Strtod | libs/core/src/tone/core/tokenize.cpp:69 | on a word starting with a digit, `strtod` consumes at least one character and gives a non-negative value |
| Numbers.StrtodDecimalPoint | libs/core/src/tone/core/tokenize.cpp:69-70 | `a.b` is consumed whole and denotes the digits of `ab` scaled by 10 to the minus the length of b |
| Numbers.WholeMantissa | libs/core/src/tone/core/tokenize.cpp:69-70 | a word that is all mantissa parses whole to its digits scaled by its fraction length |
| Numbers.DecimalValue | libs/core/src/tone/core/tokenize.cpp:66 | the decimal text of n has value n |
| Lexer.CharacterType | libs/core/src/tone/core/tokenize.cpp:14-23 | a character is end of file exactly when its code is negative; word characters are ASCII letters, digits or `_`; quotes and `#` are punctuation |
| Lexer.ReadWhile | libs/core/src/tone/core/tokenize.cpp:36-42 | the loop appends the maximal run of characters that satisfy the condition, and consumes exactly that run |
| Lexer.SkipLineComment | libs/core/src/tone/core/tokenize.cpp:164-175 | a comment is consumed up to and including its line feed, and the end of input is never consumed |
| Lexer.KeywordValue | libs/core/src/tone/core/tokenize.cpp:44-60 | `true`, `false` and `null` become bool and null values; every other keyword stays a reserved token |
| Lexer.NumberValue | libs/core/src/tone/core/tokenize.cpp:63-79 | a numeric word fails exactly when neither `strtol` nor `strtod` consumes all of it, and then the error index is where `strtod` stopped; a word that `strtol` consumes is a real token, never an int |
| Lexer.ClassifyWord | libs/core/src/tone/core/tokenize.cpp:44-84 | a word never becomes an int token; it fails only when it starts with a digit and is no keyword, at an index inside the word |
| Lexer.FetchWord | libs/core/src/tone/core/tokenize.cpp:25-85 | the word at the front is read whole; on success its token is placed where the word starts and exactly the word is consumed; a failure reports the offending character at its own position |
| Lexer.Unclosed | libs/core/src/tone/core/tokenize.cpp:160-161 | an unclosed string raises a parsing error at the current position |
| Lexer.ReadString | libs/core/src/tone/core/tokenize.cpp:113-161 | a successful read extends what was read so far and consumes at least one character; every failure is the unclosed-string error |
| Lexer.FetchString | libs/core/src/tone/core/tokenize.cpp:108-162 | a string token is placed where `fetch_string` was entered, just after the opening quote, and holds the characters read up to the closing quote |
| Lexer.ReadStringEscaped | libs/core/src/tone/core/tokenize.cpp:113-152 | any byte string without a backslash, written with its tab, line feed, carriage return and quote escaped, reads back as the string itself |
| Lexer.FetchStringEscaped | libs/core/src/tone/core/tokenize.cpp:108-152 | a string literal written with escapes lexes to a token holding the original string |
| Lexer.ReadStringNoBackslash | libs/core/src/tone/core/tokenize.cpp:121-152 | a lexed string never contains a backslash, because a backslash always starts an escape |
| Lexer.FetchOperator | libs/core/src/tone/core/tokenize.cpp:87-106 | it succeeds exactly when `get_operator` finds a token; the token carries the line number in both position fields and exactly its spelling is consumed; on failure the run of punctuation at the front is reported at the entry position |
| Lexer.Tokenize | libs/core/src/tone/core/tokenize.cpp:178-210 | no token the lexer produces is an int |
| Lexer.TokenizeWord | libs/core/src/tone/core/tokenize.cpp:193-195 | at a word character the lexer gives the word's classification at the word's position, or fails exactly when the classification does |
| Lexer.TokenizeKeyword | libs/core/src/tone/core/tokenize.cpp:44-60 | a keyword followed by a non-word character lexes to its keyword value at the stream's position |
| Lexer.TokenizeIdentifier | libs/core/src/tone/core/tokenize.cpp:80-83 | a non-keyword word not starting with a digit lexes to an identifier token |
| Lexer.TokenizeNumber | libs/core/src/tone/core/tokenize.cpp:63-79 | the decimal text of any n up to LONG_MAX lexes to the real token n |
| Lexer.TokenizeOperator | libs/core/src/tone/core/tokenize.cpp:196-206 | an operator at the front, not continued into a longer operator, lexes to that operator and consumes exactly its spelling |
| Lexer.FetchOperatorFinds | libs/core/src/tone/core/tokenize.cpp:87-95 | the longest operator at the front is fetched and consumed |
| Lexer.TokenizeString | libs/core/src/tone/core/tokenize.cpp:199-200 | a quoted, escaped string lexes to a string token holding the original string, placed just after the opening quote |
| Lexer.TokenizeEof | libs/core/src/tone/core/tokenize.cpp:189-190 | at end of input the lexer gives an end-of-file token at the current position |
| Lexer.TokenizeSkipsBlank | libs/core/src/tone/core/tokenize.cpp:191-192 | a leading blank does not change the next token |
| Lexer.TokenizeSkipsBlanks | libs/core/src/tone/core/tokenize.cpp:178-192 | any run of leading blanks does not change the next token |
| Lexer.TokenizePunct | libs/core/src/tone/core/tokenize.cpp:196-206 | at other punctuation the character is pushed back and the lexer continues as `fetch_operator` |
| Lexer.TokenizeProgress | libs/core/src/tone/core/tokenize.cpp:178-210 | on a byte stream every token other than end of file consumes input, so lexing ends |
| Lexer.ReadStringShifted | libs/core/src/tone/core/tokenize.cpp:113-161 | reading a string consumes characters from the front of the stream and nothing else |
| Tokenizer.Begin | libs/core/src/tone/core/tokenizer.cpp:12-16 | `begin()` lexes the first token, or raises that step's error |
| Tokenizer.End | libs/core/src/tone/core/tokenizer.cpp:17-21 | `end()` holds an end-of-file token and leaves the stream untouched |
| Tokenizer.Next | libs/core/src/tone/core/tokenizer.cpp:23-27 | `++it` lexes the next token from the rest of the stream |
| Tokenizer.PostIncrement | libs/core/src/tone/core/tokenizer.cpp:29-34 | `it++` returns the old iterator and advances as `++it` does |
| Tokenizer.EqualEndIsEof | libs/core/src/tone/core/tokenizer.cpp:35-50 | an iterator equals `end()` exactly when its token is end of file, which is exactly when it converts to false; the comparison is symmetric |
| Tokenizer.Collect | libs/core/src/tone/core/tokenizer.cpp:23-27 | the tokens a stream yields before end of file hold no end-of-file and no int token, and the first is what the lexer gives first |
| Tokenizer.NextRemaining | libs/core/src/tone/core/tokenizer.cpp:23-27 | one loop turn emits the current token and moves strictly closer to the end of the stream; an error in the step is the loop's error |
| Tokenizer.BeginRemaining | libs/core/src/tone/core/tokenizer.cpp:12-16 | what the loop visits from `begin()` is everything the stream yields |
| Tokenizer.RunToEnd | libs/core/src/tone/core/tokenizer.cpp:12-50 | iterating from `begin()` until the iterator equals `end()` visits exactly the stream's tokens, or stops at the first error |
| Errors.ParsingError | libs/core/src/tone/core/errors.cpp:29-34 | the message is the parsing prefix followed by the text, at the given position |
| Errors.SyntaxError | libs/core/src/tone/core/errors.cpp:35-40 | the message is the syntax prefix followed by the text, at the given position |
| Errors.SemanticError | libs/core/src/tone/core/errors.cpp:50-55 | the message is the semantic prefix followed by the text, at the given position |
| Errors.UnexpectedError | libs/core/src/tone/core/errors.cpp:41-48 | the message quotes the unexpected text, at the given position |
| Errors.UndeclaredError | libs/core/src/tone/core/errors.cpp:57-63 | the message quotes the undeclared name, at the given position |
| Errors.WrongTypeError | libs/core/src/tone/core/errors.cpp:65-84 | a semantic error that names the source type as not an lvalue, or as not convertible to the destination type |
| Errors.SameKindInjective | libs/core/src/tone/core/errors.cpp:29-63 | two errors of the same kind carry the same message only when they were built from the same text |
| Errors.KindsDisjoint | libs/core/src/tone/core/errors.cpp:29-63 | parsing, syntax and semantic errors never share a message, and neither do unexpected and undeclared errors |
| Errors.LvalueIgnoresDestination | libs/core/src/tone/core/errors.cpp:65-84 | the lvalue form of the wrong-type error does not depend on the destination type |
| Conversion.ConvertableExactly | libs/core/src/tone/core/conversion_rules.cpp:5-37 | anything converts to void; an lvalue target needs an lvalue of the same type; otherwise the same type or one of the six implicit number conversions |
| Conversion.LvalueNarrows | libs/core/src/tone/core/conversion_rules.cpp:8-13 | whatever converts to an lvalue target also converts to the plain value of that type |
| Conversion.NotSymmetric | libs/core/src/tone/core/conversion_rules.cpp:17-19 | int converts to str but str does not convert to int |
| Conversion.OnlyNumbersConvert | libs/core/src/tone/core/conversion_rules.cpp:5-37 | a type other than int or real converts only to itself or to void |
| Conversion.ConvertsTo | libs/core/src/tone/core/conversion_rules.cpp:15-36 | for each of real, int, bool and str, the exact set of types that convert to it |
| Types.TypeLessStrictTotal | libs/core/src/tone/core/type.cpp:13-48 | the registry's type order is irreflexive, asymmetric, transitive and total |
| Types.KindsOrdered | libs/core/src/tone/core/type.cpp:19-20 | primitives come before arrays, which come before functions |
| Types.EquivalentIsEqual | libs/core/src/tone/core/type.cpp:13-48 | two types are equivalent under the order exactly when they are equal, so the set keeps one entry per type |
| Types.StaticHandlesDistinct | libs/core/src/tone/core/type.cpp:72-91 | the five static handles are distinct and each names its own primitive type |
| Types.GetHandle | libs/core/src/tone/core/type.cpp:50-70 | primitives get their static handle and leave the registry alone; other types get an interned handle; the registry grows by at most one type and keeps the ones it had |
| Types.GetHandleRoundTrip | libs/core/src/tone/core/type.cpp:50-70 | the handle returned for t names t |
| Types.GetHandleIdempotent | libs/core/src/tone/core/type.cpp:50-70 | asking twice for the same type gives the same handle and no new entry |
| Types.GrowthKeepsHandles | libs/core/src/tone/core/type.cpp:67 | interning a type leaves every existing handle naming the same type |
| Types.DifferentTypesDifferentHandles | libs/core/src/tone/core/type.cpp:50-70 | different types get different handles |
| Identifiers.InsertIdent | libs/core/src/tone/core/identifier.cpp:42-49 | `emplace` keeps an existing binding and returns it; otherwise it binds the name to the new record |
| Identifiers.InsertIdentBinds | libs/core/src/tone/core/identifier.cpp:42-49 | after insertion the name is bound to the returned record and no other name changes |
| Identifiers.GlobalFind | libs/core/src/tone/core/identifier.cpp:34-39 | a global name is found exactly when it is bound, with its record |
| Identifiers.GlobalCreate | libs/core/src/tone/core/identifier.cpp:60-65 | a new global name takes as index the number of names bound before it; a name already bound keeps its first record; the name is found afterwards |
| Identifiers.GlobalIndicesBelowCount | libs/core/src/tone/core/identifier.cpp:60-65 | global indices stay below the number of globals |
| Identifiers.ChainFind | libs/core/src/tone/core/identifier.cpp:77-82 | a name is found exactly when some scope in the chain binds it, and the innermost such binding is the one returned |
| Identifiers.LocalCreate | libs/core/src/tone/core/identifier.cpp:83-88 | a new local name takes the innermost scope's counter, and the counter advances even for a name already bound; outer scopes are untouched; the name is found afterwards |
| Identifiers.CreateParam | libs/core/src/tone/core/identifier.cpp:103-107 | a parameter takes the next negative slot, is neither global nor constant, and the slot counter moves down |
| Identifiers.NewLocal | libs/core/src/tone/core/identifier.cpp:71-75 | a new local scope is empty and counts on from its parent's counter, or from 1 without a parent |
| Identifiers.NewFunction | libs/core/src/tone/core/identifier.cpp:98-101 | a function scope is empty and counts locals from 1 and parameters from -1 |
| Identifiers.DetachParent | libs/core/src/tone/core/identifier.cpp:89-92 | leaving a scope gives back the chain it was opened in |
| Identifiers.OpenCloseRestores | libs/core/src/tone/core/identifier.cpp:71-92 | opening a scope and closing it again gives back the original chain |
| Identifiers.SiblingsReuseSlots | libs/core/src/tone/core/identifier.cpp:71-92 | sibling scopes reuse the same slots |
| Identifiers.RedeclarationKeepsFirst | libs/core/src/tone/core/identifier.cpp:42-49 | redeclaring a name in the same scope returns its first record, while the counter still advances past a slot nobody gets |
| Identifiers.InnermostShadows | libs/core/src/tone/core/identifier.cpp:77-82 | the innermost binding shadows outer ones |
| CompileContext.NewContext | libs/core/src/tone/core/compile_context.cpp:5-8 | a new context has no names, no local scope and no parameter scope |
| CompileContext.GetTypeHandle | libs/core/src/tone/core/compile_context.cpp:9-12 | interning goes through the context's registry and touches nothing else |
| CompileContext.Find | libs/core/src/tone/core/compile_context.cpp:13-21 | local scopes are searched innermost first, and the globals are searched only when no local scope binds the name |
| CompileContext.CreateIdentifier | libs/core/src/tone/core/compile_context.cpp:22-28 | a name goes into the innermost local scope if there is one, else into the globals, and is found afterwards |
| CompileContext.CreateParameter | libs/core/src/tone/core/compile_context.cpp:29-32 | a parameter goes into the function scope and nothing else changes |
| CompileContext.EnterScope | libs/core/src/tone/core/compile_context.cpp:33-36 | entering a scope appends a scope and keeps the parameter scope as it was |
| CompileContext.LeaveScope | libs/core/src/tone/core/compile_context.cpp:37-45 | leaving fails, with nothing changed, exactly when there is no local scope; otherwise the innermost scope goes, together with the parameter scope when that was it |
| CompileContext.EnterFunction | libs/core/src/tone/core/compile_context.cpp:46-51 | entering a function makes a fresh function scope the only local scope |
| CompileContext.EnterLeaveRestores | libs/core/src/tone/core/compile_context.cpp:33-45 | entering and leaving a scope restores the context exactly |
| CompileContext.EnterLeaveSameBindings | libs/core/src/tone/core/compile_context.cpp:13-45 | so every name resolves as it did before |
| CompileContext.FunctionDiscardsLocals | libs/core/src/tone/core/compile_context.cpp:46-51 | after entering a function and leaving its scope, only the globals are visible, whatever local scopes were open before |
| CompileContext.NestedBlockKeepsParams | libs/core/src/tone/core/compile_context.cpp:33-51 | blocks nested in a function still have the parameter scope |
| CompileContext.ParameterFound | libs/core/src/tone/core/compile_context.cpp:29-32 | a new parameter is found, and it is neither global nor constant |
| CompileContext.LeavingForgetsLocals | libs/core/src/tone/core/compile_context.cpp:22-45 | a declaration in a scope is invisible once that scope is left |
| ExpressionTree.TagsExclusive | libs/core/src/tone/core/expression_tree.cpp:210-237 | every node is exactly one of operation, identifier or literal, and a numeric literal is neither a string nor a bool |
| ExpressionTree.CheckConversion | libs/core/src/tone/core/expression_tree.cpp:258-265 | the check passes exactly when the node converts to the type, and an error is placed at the node |
| ExpressionTree.CheckAnyConversion | libs/core/src/tone/core/expression_tree.cpp:266-280 | the check passes exactly when the node converts to one of the types, and an error is placed at the node |
| ExpressionTree.CheckNumber | libs/core/src/tone/core/expression_tree.cpp:266-280 | the number check passes exactly when the node is an int or a real, and is an lvalue if one is asked for |
| ExpressionTree.CheckArguments | libs/core/src/tone/core/expression_tree.cpp:189-197 | the argument checks pass exactly when every argument fits its parameter; otherwise the error is placed at an argument that does not fit |
| ExpressionTree.MakeNode | libs/core/src/tone/core/expression_tree.cpp:9-209 | a node keeps its value, children and position; an operation node has the type its typing rule gives, or raises that rule's error |
| ExpressionTree.LiteralNode | libs/core/src/tone/core/expression_tree.cpp:23-38 | a literal node always builds, has the literal's static type and is not an lvalue |
| ExpressionTree.IdentifierNode | libs/core/src/tone/core/expression_tree.cpp:39-47 | an identifier node builds exactly when the name is declared; it takes the declared type and is an lvalue unless constant; otherwise it raises the undeclared error |
| ExpressionTree.ParamRule | libs/core/src/tone/core/expression_tree.cpp:51-54 | a parameter node has its child's type and is not an lvalue |
| ExpressionTree.IncDecRule | libs/core/src/tone/core/expression_tree.cpp:55-66 | increments and decrements need a number lvalue; the prefix forms give an lvalue and the postfix forms do not |
| ExpressionTree.AddRule | libs/core/src/tone/core/expression_tree.cpp:83-100 | `+` of two numeric literals needs numbers; otherwise one side must be a string literal and both must convert to str; the result has the left type |
| ExpressionTree.AddRejectsNonLiterals | libs/core/src/tone/core/expression_tree.cpp:83-100 | `+` of two non-literal operands is always a syntax error, even for two numbers |
| ExpressionTree.ArithmeticRule | libs/core/src/tone/core/expression_tree.cpp:101-109 | `-`, `*`, `/` and `%` need numbers and give the left type |
| ExpressionTree.BitwiseRule | libs/core/src/tone/core/expression_tree.cpp:110-119 | the bitwise operators need numbers and give an int |
| ExpressionTree.LogicalRule | libs/core/src/tone/core/expression_tree.cpp:120-126 | `&&` and `\|\|` need operands that convert to bool and give a bool |
| ExpressionTree.ComparisonRule | libs/core/src/tone/core/expression_tree.cpp:127-137 | the comparisons need numbers and give a bool |
| ExpressionTree.AssignRule | libs/core/src/tone/core/expression_tree.cpp:138-143 | `=` needs a void or lvalue target and a right side that converts to the target's type, and gives an lvalue of the target's type |
| ExpressionTree.CompoundAssignRule | libs/core/src/tone/core/expression_tree.cpp:144-153 | compound assignments need a number lvalue and a number, and give an lvalue of the target's type |
| ExpressionTree.CommaRule | libs/core/src/tone/core/expression_tree.cpp:154-159 | a comma node takes the type and lvalue-ness of its last child |
| ExpressionTree.CommaChecksWouldPass | libs/core/src/tone/core/expression_tree.cpp:154-159 | every node converts to void, so the skipped child checks would pass anyway |
| ExpressionTree.IndexRule | libs/core/src/tone/core/expression_tree.cpp:160-175 | indexing needs an array and gives its element type, as an lvalue exactly when the array is one |
| ExpressionTree.CallTypingRule | libs/core/src/tone/core/expression_tree.cpp:176-203 | a call needs a function type, one argument per parameter and every argument fitting its parameter, and gives the return type |
| ExpressionTree.CallRule | libs/core/src/tone/core/expression_tree.cpp:176-203 | the same rule seen through the node's typing |
| ExpressionTree.UnaryRule | libs/core/src/tone/core/expression_tree.cpp:67-82 | unary `+`, `-` and `~` need numbers, and `!` needs an operand that converts to bool |
| ExpressionTree.LvalueOperations | libs/core/src/tone/core/expression_tree.cpp:9-209 | only assignments, prefix increments and decrements, indexing and the comma can give an lvalue |
| Operators.LevelInjective | libs/core/src/tone/core/expression_parser.cpp:11-27 | distinct precedence classes have distinct levels |
| Operators.MakeInfo | libs/core/src/tone/core/expression_parser.cpp:43-145 | the operator info keeps its operation and position, and expects at least as many operands as the node needs |
| Operators.TableFacts | libs/core/src/tone/core/expression_parser.cpp:48-143 | exactly the six unary operators are prefix; exactly prefix operators and assignments group right to left; exactly prefix and postfix operators and calls take one operand, and all others take two |
| Operators.PostfixTightestCommaLoosest | libs/core/src/tone/core/expression_parser.cpp:48-114 | postfix operators and calls bind tightest and the comma binds loosest |
| Operators.GetOperatorInfo | libs/core/src/tone/core/expression_parser.cpp:147-221 | a token resolves exactly when it names an operation in the given position; otherwise an unexpected-syntax error is raised at the token |
| Operators.PrefixResolution | libs/core/src/tone/core/expression_parser.cpp:147-221 | `++`, `--`, `+` and `-` resolve to a prefix operation exactly in prefix position; other tokens resolve the same way in both positions |
| Operators.OperatorTokens | libs/core/src/tone/core/expression_parser.cpp:147-221 | exactly the operator tokens other than `;`, `:`, `.`, `)`, `{`, `}` and `]` resolve to an operation |
| Operators.EndOfExpressionExactly | libs/core/src/tone/core/expression_parser.cpp:223-244 | an expression ends at end of file, `;`, `)`, `]` or `:`, and at `,` when commas are not allowed |
| Operators.AllowingCommaEndsLess | libs/core/src/tone/core/expression_parser.cpp:223-244 | allowing commas removes exactly `,` from the end tokens |
| Operators.EvaluatedBeforeByLevel | libs/core/src/tone/core/expression_parser.cpp:246-251 | a tighter operator is evaluated first; at equal precedence the pending one goes first exactly when the class groups left to right |
| Operators.GroupingExamples | libs/core/src/tone/core/expression_parser.cpp:116-125 | `-` groups left, `=` groups right, and `*` goes before `-` but not after it |
| ExpressionParser.Advance | libs/core/src/tone/core/expression_parser.cpp:289 | advancing moves to the next token, or raises the error the lexer step gave there |
| ExpressionParser.PopOneOperator | libs/core/src/tone/core/expression_parser.cpp:253-279 | with too few operands it raises the parse failure; otherwise it replaces the top operator and its operands by the node they build, or raises that node's error |
| ExpressionParser.ReducedNode | libs/core/src/tone/core/expression_parser.cpp:260-278 | the node built by a reduction is the operator's operation over the topmost operands, in order |
| ExpressionParser.Reduce | libs/core/src/tone/core/expression_parser.cpp:319-323 | reduction only pops operators from the top of the stack |
| ExpressionParser.ReducesAtMostOne | libs/core/src/tone/core/expression_parser.cpp:319-323 | as written, at most one pending operator is reduced before an incoming one is pushed |
| ExpressionParser.ReduceAllLeavesNothingPending | libs/core/src/tone/core/expression_parser.cpp:319-323 | the reduce-while loop leaves no operator on the stack that should be evaluated before the incoming one |
| ExpressionParser.ReduceAllKeepsOrder | libs/core/src/tone/core/expression_parser.cpp:319-386 | with the reduce-while loop the operator stack stays ordered: no operator is evaluated before the one above it |
| ExpressionParser.OneReductionLeavesPending | libs/core/src/tone/core/expression_parser.cpp:319-323 | as written, when two pending operators both go before the incoming one, one of them stays pending and the stack becomes disordered |
| ExpressionParser.OneReductionGroupsRight | libs/core/src/tone/core/expression_parser.cpp:319-323 | in `1 - 2 * 3 - 4`, the second `-` reduces only `2 * 3` and is pushed over the first `-` |
| ExpressionParser.MulReducedOnce | libs/core/src/tone/core/expression_parser.cpp:319-323 | as written, at the second `-` of `1 - 2 * 3 - 4` the stacks become `-` over `1` and `2 * 3` |
| ExpressionParser.MulAndSubReduced | libs/core/src/tone/core/expression_parser.cpp:319-323 | with the reduce-while loop, at the second `-` the stacks become one operand `1 - 2 * 3` and no operator |
| ExpressionParser.MulDoesNotReduce | libs/core/src/tone/core/expression_parser.cpp:319-323 | `*` arriving over a pending `-` reduces nothing in either mode |
| ExpressionParser.OneReductionParsesRight | libs/core/src/tone/core/expression_parser.cpp:281-453 | as written, the whole parse of `1 - 2 * 3 - 4` succeeds with the tree `1 - ((2 * 3) - 4)` |
| ExpressionParser.AllPendingParsesLeft | libs/core/src/tone/core/expression_parser.cpp:281-453 | with the reduce-while loop, the whole parse of `1 - 2 * 3 - 4` succeeds with the tree `(1 - (2 * 3)) - 4` |
| ExpressionParser.AllPendingGroupsLeft | libs/core/src/tone/core/expression_parser.cpp:319-323 | with the reduce-while loop, the second `-` reduces both pending operators of `1 - 2 * 3` to one operand |
| ExpressionParser.ArithmeticReduces | libs/core/src/tone/core/expression_parser.cpp:253-279 | reducing an arithmetic operator over two numbers succeeds and leaves one operand of the left type |
| ExpressionParser.DrainCount | libs/core/src/tone/core/expression_parser.cpp:440-444 | a successful drain consumed exactly the operands its operators needed |
| ExpressionParser.ParseImpl | libs/core/src/tone/core/expression_parser.cpp:281-453 | a parse that succeeds stops on an end-of-expression token at or after its start, and yields a node unless empty expressions are allowed |
| ExpressionParser.ParenStep | libs/core/src/tone/core/expression_parser.cpp:297-311 | a successful parse from `(` stops at an end-of-expression token after it |
| ExpressionParser.ParenOutcome | libs/core/src/tone/core/expression_parser.cpp:297-311 | after `(` in operand position, read errors and inner parse errors are passed on; an inner expression ending at `)` becomes one operand with an operator expected next; any other closing token raises "Expected closing ')'" at that token |
| ExpressionParser.CallStep | libs/core/src/tone/core/expression_parser.cpp:327-371 | a successful parse from a call's `(` stops at an end-of-expression token after it |
| ExpressionParser.CallOutcome | libs/core/src/tone/core/expression_parser.cpp:327-371 | `()` pushes the call with its operand count unchanged; otherwise the arguments, at least one, are pushed above the existing operands and the call is pushed with its count raised by their number; errors are passed on |
| ExpressionParser.CallCountsCallee | libs/core/src/tone/core/expression_parser.cpp:126-142 | `(` read as an operator is a call that starts with one operand, the callee |
| ExpressionParser.CallArgs | libs/core/src/tone/core/expression_parser.cpp:327-371 | the argument loop pushes one operand per argument and stops at `)` |
| ExpressionParser.AfterArgument | libs/core/src/tone/core/expression_parser.cpp:359-368 | after an argument, `,` continues the loop and `)` ends it |
| ExpressionParser.Argument | libs/core/src/tone/core/expression_parser.cpp:333-357 | a by-value argument is wrapped in a parameter node; a by-reference argument is passed as it is and must be an lvalue, else a wrong-type error is raised |
| ExpressionParser.ParamNodeConstructed | libs/core/src/tone/core/expression_parser.cpp:341-350 | building a parameter node over an argument always succeeds |
| ExpressionParser.IndexStep | libs/core/src/tone/core/expression_parser.cpp:372-380 | a successful parse from an index's `[` stops at an end-of-expression token after it |
| ExpressionParser.IndexOutcome | libs/core/src/tone/core/expression_parser.cpp:372-380 | read errors and subscript errors are passed on; a subscript ending at `]` is pushed as an operand and the index operator is pushed, with an operator expected next; any other closing token raises "Expected closing ']'" at that token |
| ExpressionParser.Finish | libs/core/src/tone/core/expression_parser.cpp:427-452 | at the end token the pending operators are drained, and exactly one operand must remain |
| ExpressionParser.OperandAfterOperand | libs/core/src/tone/core/expression_parser.cpp:390-392 | an operand where an operator is expected raises an unexpected-syntax error at that token |
| ExpressionParser.PrefixMismatch | libs/core/src/tone/core/expression_parser.cpp:313-317 | an operator in the wrong position raises an unexpected-syntax error at that token |
| ExpressionParser.EndWhileExpectingOperand | libs/core/src/tone/core/expression_parser.cpp:427-438 | an expression that ends where an operand is expected is empty if that is allowed, and otherwise raises "Operand expected" |
| ExpressionParser.EmptyExpression | libs/core/src/tone/core/expression_parser.cpp:289-438 | an expression that ends at once is empty or an error, depending on whether empty expressions are allowed |
| ExpressionParser.FinishLeavesOneOperand | libs/core/src/tone/core/expression_parser.cpp:440-452 | the parse succeeds at the end token exactly when draining leaves exactly one operand, which is the result |
| ExpressionParser.LoneNumber | libs/core/src/tone/core/expression_parser.cpp:388-452 | an example: a lone number literal parses to a real node |
| ExpressionParser.OperandPushed | libs/core/src/tone/core/expression_parser.cpp:388-424 | an operand where one is expected pushes its node and makes an operator expected |
| ExpressionParser.ReduceThenPush | libs/core/src/tone/core/expression_parser.cpp:319-386 | an operator other than a call or index is pushed once the pending operators are reduced, or the reduction's error is raised; an operand is expected next unless it is postfix |
| ExpressionParser.BinaryPushed | libs/core/src/tone/core/expression_parser.cpp:291-386 | a binary operator where one is expected takes two operands, and is pushed after reducing the pending operators |
| ExpressionParser.EndReducesBinary | libs/core/src/tone/core/expression_parser.cpp:427-452 | at the end, one pending binary operator over two operands gives its node as the tree, or its error |
| ExpressionParser.DrainTwo | libs/core/src/tone/core/expression_parser.cpp:440-444 | draining two arithmetic operators over three numbers nests the upper one's node inside the lower one's |
| ExpressionParser.DrainOne | libs/core/src/tone/core/expression_parser.cpp:440-444 | draining one arithmetic operator over two numbers gives its node |
| ExpressionParser.BinaryExpression | libs/core/src/tone/core/expression_parser.cpp:281-453 | for any two operands around any binary operator, the lexed `a op b` then end of file parses, in either mode, to the operator's node over `a` and `b` in order, or fails with that node's error |
| ExpressionParser.ParseExpressionTree | libs/core/src/tone/core/expression_parser.cpp:455-461 | the parsed node must convert to the requested type; a successful result converts to it and stops on an end-of-expression token |

## Left out

- The read-eval-print programs under `examples/` are not modelled. They only do I/O.
- `print_error` is not modelled. It only formats output.
- The token dump and `print_ansi` are not modelled. They only format output.
- `dump_type_handle`, `dump_token`, `compiler_error` and `unexpected_syntax_error` are not part of this model. Their messages are placeholders; only the error position is modelled.
- Doubles are exact Dafny reals. There is no rounding, overflow or NaN.
- Numbers.Strtod: only what the lexer relies on is stated, namely how much is consumed, the value of plain and decimal-point forms, and that the value is not negative. Hexadecimal floats and exponents are modelled, but no value is proved for them.
- `int` overflow in the operator's operand count is not modelled. The counts are 1 or 2.
- Identifiers.CreateParam: the parameter index is a Dafny `int`. The source stores `_idx` in a `size_t`, so -1 wraps to the largest value.
- Tokenizer.Next: the iterator carries its stream by value. In the source all iterators share one stream, which only matters for copies advanced independently.
- ExpressionParser.ParseImpl: token sequences holding a `null` literal are excluded by precondition. The operand branch of the source has no case for `null`.
- ExpressionParser.ParseImpl: the contract states only where a successful parse stops and that it yields a tree. The tree built is proved for a single operand (LoneNumber), any binary expression (BinaryExpression) and `1 - 2 * 3 - 4` in both modes, not for every input.
- ExpressionParser.ParenStep: the function's own contract states only where a successful parse stops. Its error and success cases are stated by ParenOutcome.
- ExpressionParser.CallStep: the function's own contract states only where a successful parse stops. What it pushes is stated by CallOutcome.
- ExpressionParser.IndexStep: the function's own contract states only where a successful parse stops. Its error and success cases are stated by IndexOutcome.
- ExpressionParser.ParseExpressionTree: requires `allowEmpty` to be false. With an empty expression the source calls `check_conversion` on a null node (expression_parser.cpp:458-459).
- ExpressionParser.ReduceAllKeepsOrder: the ordering invariant is proved for one reduction step, not through a whole parse.
- Types.GetHandle: type handles are modelled as numbers standing for pointers into the registry.
- Lexer.ReadString: the contract states only that what was read so far is a prefix of the result and that input is consumed. The full string is stated by ReadStringEscaped.
- Redeclaration keeps the first binding. A name redeclared in the same scope keeps its first record, because `emplace` does not overwrite (identifier.cpp:42-49).
- Lexer.FetchOperator: an operator token's character index is its line number, because the source reads the line number twice. The model keeps this as written.

## Findings

| source | as written | input that shows it | evidently intended | confidence | as-written member | corrected member |
|---|---|---|---|---|---|---|
| libs/core/src/tone/core/expression_parser.cpp:319-323 | an `if` reduces at most one pending operator before the incoming operator is pushed | `1 - 2 * 3 - 4`: at the second `-` only `2 * 3` is reduced and `1 -` stays pending, so the result groups as `1 - ((2 * 3) - 4)` | a `while` loop that reduces every pending operator evaluated before the incoming one, giving `((1 - 2 * 3) - 4)` | not executed | ExpressionParser.OneReductionParsesRight | ExpressionParser.AllPendingParsesLeft |
