# slug3 core in Dafny

A model of the front half and the execution loop of slug3, a small
expression language with a scanner → Pratt compiler → stack machine pipeline.
It covers four source files:

- **Scanner** (`src/token.rs`). The flat `TokenType` enumeration and its lexeme map. The
  `KeywordTree` character trie (`add_token`, `populate`, `get_tokentype`).
  Number scanning, reserved-word scanning and identifier scanning, and the
  `tokenize` driver.
- **Compiler** (`src/parser.rs`). The precedence order and `next`, the
  token-kind → parse-rule table, and the parser's cursor helpers
  (`current`, `previous`, `check`/`match_tokentype`, `consume`). Also the Pratt
  loop `parse_precedence`, the `binary` handler, `expression`, `statement` and
  `assert`.
- **Bytecode** (`src/chunk.rs`). Opcodes, instruction-stream units and chunks.
- **Machine** (`src/vm.rs`). `read_byte`, `read_constant`, `peek`,
  `binary_op`, `call`, and the fetch/dispatch loop of `run`, including
  `Return`.

Every `panic!`, `unwrap` on `None`, out-of-range index and checked-arithmetic
overflow of the Rust code becomes a `Fault` in a `Result` (module `Faults`).
`usize` becomes `nat` and `u8` a newtype. Objects with `&mut self` methods
become immutable records that each operation returns updated.

The code is work in progress and has several defects. Each one is modelled
**as written**, and next to it a corrected variant is modelled and used to
state the property the code evidently aims at:

- `Lexer.ScanConfig` selects the scanner behaviour (`AsWritten` / `Corrected`).
- `Parser.Emission` selects the opcode emission.
- `Machine.Revision` selects the machine behaviour.

See "## Findings".

The modules, in dependency order:

| module | file | contents |
|---|---|---|
| `Faults` | faults.dfy | the fault kinds, `Option`, `Result` |
| `TokenTypes` | token_types.dfy | scanner token types, lexemes, the iteration order of `TokenType::iter()` |
| `TokenKinds` | token_kinds.dfy | the compiler's nested token kinds (`Operator`/`Number`/`Keyword`/`Identifier`/`Eof`) and the map from scanner types |
| `KeywordTrie` | keyword_trie.dfy | the trie, its insertion, population and walk |
| `Scanner` | scanner.dfy | `peek`, `parse_number` (and a reference automaton for number lexemes), `parse_reserved`, `parse_identifier` |
| `Lexer` | lexer.dfy | the `tokenize` driver, its step function and worked inputs |
| `Values` | value.dfy | run-time values; value arithmetic as a parameter |
| `Bytecode` | chunk.dfy | `Op`, `BytecodeOp`, `Chunk`, function objects |
| `Precedences`, `Parser` | parser.dfy | precedence order, rule table, the Pratt compiler |
| `ParserProofs` | parser_proofs.dfy | the grammar the compiler accepts, the expression tree it builds, worked inputs |
| `Machine` | vm.dfy | frames, the machine state, `call`, one dispatch step, the run loop |

`emit_byte` has no body in the source (`todo!()`). The compiler's output is
therefore modelled as a *trace*: a list of `(opcode, line)` pairs that each
emission appends to.

### The compiler's central theorem

The trie, scanner and machine are each specified by a reference definition
plus a connecting lemma. For the compiler, the reference is a grammar and a tree:

- `Expression` succeeds on a token list exactly when the list starts with an
  alternating chain `integer (binop integer)*` that is followed by a token
  with no binding power (`ExpressionGrammar`).
- What it emits is then the postfix walk of the expression tree. That tree
  splits each chain at its loosest, right-most operator
  (`ParserProofs.Tree`, `ExpressionTree`).
- Hence all binary operators, `**` included, associate to the left. The
  emitted opcodes are a permutation of the chain's operators
  (`ExpressionEmitsEachOperator`).

## Model

| member | source | states |
|---|---|---|
| TokenTypes.Lexeme | src/token.rs:41-75 | every token type has a non-empty lexeme free of digits, underscores and spaces |
| TokenTypes.LookupLexeme | src/token.rs:41-75 | a search of a list of types by lexeme finds a type spelled that way, and finds none exactly when no listed type is spelled that way |
| TokenTypes.LexemeRoundTrip | src/token.rs:41-75 | reading a type's lexeme back gives that type again |
| TokenTypes.LexemesDistinct | src/token.rs:41-75 | two types share a lexeme if and only if they are the same type |
| TokenTypes.LexemeFingerprint | src/token.rs:41-75 | distinct types have distinct lexemes |
| TokenTypes.LookupFindsFirst | src/token.rs:41-75 | the search returns the first listed type with the given lexeme |
| TokenTypes.AllTokenTypesHoldsEvery | src/token.rs:7-39 | the iteration order of `TokenType::iter()` lists every token type |
| TokenTypes.AllTokenTypesComplete | src/token.rs:102 | every token type occurs in the order `populate` inserts from |
| TokenTypes.NoLexemeRunsPastSpace | src/token.rs:41-75 | no lexeme has a prefix that ends in a space |
| TokenKinds.KindOf | src/parser.rs:39-78 | the compiler kind of a scanner type is never `Eof`, `=` or `in`, which the scanner has no type for |
| TokenKinds.FlatKindOfKind | src/parser.rs:39-78 | mapping a scanner type to a compiler kind and back gives the type again |
| TokenKinds.KindOfInjective | src/parser.rs:39-78 | two scanner types map to the same compiler kind if and only if they are equal |
| TokenKinds.KindOfOnto | src/parser.rs:39-78 | every compiler kind except `Eof`, `=` and `in` is the image of exactly one scanner type |
| TokenKinds.CompilerTokens | src/parser.rs:100-111 | the token list handed to the compiler keeps each token's position, length and line, and its kind maps back to the scanned type |
| KeywordTrie.GetTokenType | src/token.rs:109-116 | a walk returns a node keyed by the last character of the query, or nothing |
| KeywordTrie.WalkConcat | src/token.rs:109-116 | walking `a + b` is walking `a`, then walking `b` from the node reached |
| KeywordTrie.WalkFailsAtMissingChild | src/token.rs:109-116 | a walk fails if and only if some query character has no child on the walked path |
| KeywordTrie.FirstMissing | src/token.rs:109-116 | a failed walk names the position of the first missing child |
| KeywordTrie.PathPrefixClosed | src/token.rs:109-116 | every prefix of a walkable path is walkable |
| KeywordTrie.InsertPaths | src/token.rs:85-97 | after inserting a lexeme, the walkable paths are the old ones plus the prefixes of that lexeme |
| KeywordTrie.InsertTokens | src/token.rs:85-97 | inserting a lexeme marks the node it ends at with the type and leaves every other node's type unchanged |
| KeywordTrie.InsertKeepsOtherSubtrees | src/token.rs:85-97 | a query that is neither a prefix nor an extension of the inserted lexeme walks exactly as before |
| KeywordTrie.MarkKeepsPaths | src/token.rs:96 | marking a node's type changes only the type at that node |
| KeywordTrie.LeafPaths | src/token.rs:92 | a freshly created child has only the empty path |
| KeywordTrie.LeafTokens | src/token.rs:92 | a freshly created child carries no type anywhere |
| KeywordTrie.AddAllTokens | src/token.rs:102-104 | inserting a list of types marks each of their lexemes with the first listed type spelled that way, and keeps older marks elsewhere |
| KeywordTrie.AddAllPaths | src/token.rs:102-104 | after inserting a list, the walkable paths are the old ones plus the prefixes of the listed lexemes |
| KeywordTrie.PopulateTokens | src/token.rs:99-107 | in the populated trie, the type at any string is exactly the type whose lexeme that string is |
| KeywordTrie.PopulateFindsEveryLexeme | src/token.rs:99-107 | walking any type's lexeme in the populated trie reaches a node marked with that type |
| KeywordTrie.PopulatePaths | src/token.rs:99-107 | the populated trie's walkable paths are exactly the prefixes of lexemes |
| KeywordTrie.PopulateRootHasNoDigitOrUnderscore | src/token.rs:99-107 | the populated root has no child for a digit or an underscore |
| KeywordTrie.RecognisedTokens | src/token.rs:99-107 | any trie with the populated trie's paths and marks reports, at every string, the type spelled by it |
| Scanner.Peek | src/token.rs:159-161 | a look-ahead yields a character exactly when the position is inside the text, and that character is the one `distance` past `current_index` |
| Scanner.Span | src/token.rs:180-183 | a scanned run is the maximal run of class characters from the start position |
| Scanner.ParseNumber | src/token.rs:171-228 | number scanning succeeds if and only if the position is not past the text; the token starts there, on the current line, has length at least one and a numeric type |
| Scanner.ParseNumberScansLexeme | src/token.rs:171-228 | the scanned characters are the longest number lexeme at the position, classified as the reference automaton does, and the length is one more |
| Scanner.StagesSpellLongestLexeme | src/token.rs:179-217 | the characters the four scanning stages consume form a number lexeme that the next character cannot extend |
| Scanner.ParseNumberOfLexeme | src/token.rs:171-228 | scanning a lexeme on its own reports its own classification and length plus one |
| Scanner.NumberRescan | src/token.rs:171-228 | rescanning the scanned characters alone gives the same type and length |
| Scanner.NumberRescanWithFollower | src/token.rs:171-228 | rescanning the text span the token reports, `[start, start+length)`, gives the same type and length |
| Scanner.MaximalPrefixIsWhole | src/token.rs:171-228 | a number lexeme that cannot be extended by its next character is already complete |
| Scanner.PrefixOfNumberLexeme | src/token.rs:171-228 | number lexemes are closed under prefixes |
| Scanner.RejectIsFinal | src/token.rs:171-228 | once the number automaton rejects, no further characters make the text a number |
| Scanner.ParsesOneDigit | src/token.rs:174-183 | a single digit before a space, `+` or the end is an Integer of length 2 |
| Scanner.ParsesFraction | src/token.rs:186-194 | `d.d` before a space is a Float of length 4 |
| Scanner.ParsesTwoDigits | src/token.rs:180-183 | `dd` before a space is an Integer of length 3 |
| Scanner.ParsesComplexFraction | src/token.rs:214-225 | `d.dJ` is Complex of length 5, the suffix outranking the dot |
| Scanner.ParsesComplexExponent | src/token.rs:197-225 | `de-dj` is Complex of length 6 |
| Scanner.ParsesIntegerExponent | src/token.rs:197-225 | an exponent alone, `de-d`, stays an Integer |
| Scanner.Walk | src/token.rs:234-245 | the reserved-word walk stays inside the text |
| Scanner.PeekWalkIsWalk | src/token.rs:230-245 | the loop that counts `length` up and reads `peek(length)` ends on the same trie node, having taken the same characters, as the walk over the text from `current_index` |
| Scanner.WalkSpells | src/token.rs:234-245 | the walk reaches the node the walked characters spell, every walked character passed the guard, and it stopped at the end, at a guard failure or at a missing child |
| Scanner.WalkReachesLongestPath | src/token.rs:234-245 | with every character admitted, the walk covers exactly the longest trie path at the position |
| Scanner.ReservedIn | src/token.rs:247-253 | a reserved match starts at the position, on the current line, with length at least one |
| Scanner.ParseReservedWith | src/token.rs:230-255 | the same for reserved scanning with the populated trie |
| Scanner.ReservedMatchFromTrie | src/token.rs:230-255 | a match is reported exactly when the walk moved and the node it reached is marked; there is no backtracking to a shorter marked prefix |
| Scanner.RecognisedMatchIsLexeme | src/token.rs:230-255 | over a trie with the populated paths and marks, the reported type is the one the walked text spells |
| Scanner.MatchOfLexemeMarks | src/token.rs:247-253 | when the trie marks the walked string with the type it spells, the match reports that type and the string's length |
| Scanner.ReservedMatchIsLexeme | src/token.rs:230-255 | reserved scanning reports a match exactly when the walked text is a lexeme, and reports its type |
| Scanner.RecognisedRootEdges | src/token.rs:99-107 | such a trie has no digit or underscore edge at its root |
| Scanner.DigitsOrUnderscoresNeverMatch | src/token.rs:235 | with the guard as written, a trie without digit or underscore root edges never matches |
| Scanner.ParseReservedNeverMatches | src/token.rs:230-255 | reserved scanning as written never reports a match, on any text |
| Scanner.RecognisedFindsLexeme | src/token.rs:230-255 | with every character admitted, a lexeme alone is found as its own type and length |
| Scanner.WalkedLexemeIsFound | src/token.rs:230-255 | a walk that covers a marked path finds that path's type with the path's length |
| Scanner.ParseReservedAnyCharFindsLexeme | src/token.rs:230-255 | reserved scanning with every character admitted finds each lexeme standing alone as the whole text, as its own type and full length |
| Scanner.ParseIdentifier | src/token.rs:257-268 | identifier scanning succeeds exactly when the position is inside the text; the token is an identifier starting there with length at least one |
| Scanner.ParseIdentifierScansRun | src/token.rs:257-268 | the identifier is the first character plus the maximal following run of letters, digits and underscores |
| Lexer.ScannerAt | src/token.rs:288-316 | as written every scanner reads the tokenizer's own fixed position; corrected, it reads the driver's position |
| Lexer.ScanAtSpec | src/token.rs:276-327 | at each character the driver skips exactly the blanks, counts a newline, emits a numeric token at a digit, and stops only with an unknown-token fault on a character that is not a digit, letter or underscore; as written, it stops on every such character |
| Lexer.StepperLaws | src/token.rs:276-327 | a step skips exactly the blanks and counts newlines, emits non-empty tokens on the current line, and stops only on an unknown token; tokens start at the driver's position when scanners track it and at the fixed position otherwise; as written only numbers and identifiers are emitted |
| Lexer.TokenizeFrom | src/token.rs:270-331 | tokenizing fails only with an unknown-token fault, and the final line is the start line plus at most the newlines it passed |
| Lexer.Tokenize | src/token.rs:270-331 | a start position past the text fails with a slice fault; any other failure is an unknown token |
| Lexer.RunTokens | src/token.rs:270-331 | every emitted token is non-empty, lies on a line between the start and final lines, and starts inside the scanned range when scanners track the driver and at the fixed position otherwise |
| Lexer.TrackedRunIsDisjoint | src/token.rs:270-331 | when scanners read the driver's position, emitted tokens are ordered and do not overlap |
| Lexer.CorrectedTokensAreDisjoint | src/token.rs:270-331 | when it succeeds, corrected tokenizing yields ordered, non-overlapping, non-empty tokens inside the text |
| Lexer.AsWrittenTokensStayPut | src/token.rs:270-331 | when it succeeds, tokenizing as written yields only numbers and identifiers, all at the tokenizer's start position |
| Lexer.RunNumbersAndIdentifiers | src/token.rs:270-331 | with the guard as written, every emitted token is a number or an identifier |
| Lexer.NewlinesFromMonotone | src/token.rs:283-286 | fewer characters hold no more newlines |
| Lexer.BlankTextYieldsNoTokens | src/token.rs:279-286 | blank text yields no tokens and moves the line by its newline count; in particular no end-of-input token is appended |
| Lexer.SkipThenRest | src/token.rs:279-281 | a space or tab emits nothing |
| Lexer.EmitThen | src/token.rs:288-325 | an emitted token is followed by what tokenizing yields after skipping its length |
| Lexer.EmitThenRest | src/token.rs:288-325 | the same, given that the rest succeeds |
| Lexer.NumberStep | src/token.rs:288-295 | a digit emits the number scanner's token |
| Lexer.OperatorStep | src/token.rs:315-325 | any other character emits the reserved match, or aborts with an unknown token |
| Lexer.CorrectedFindsLexemeBeforeSpace | src/token.rs:230-255 | with every character admitted, a lexeme followed by a space is matched as its type |
| Lexer.WalkStopsAtSpace | src/token.rs:234-245 | the reserved walk stops at the space after a lexeme |
| Lexer.SourceTestFirstStep | src/token.rs:339-343 | on `3 + 1`, the first step emits an Integer of length 2 |
| Lexer.AsWrittenStopsAtPlus | src/token.rs:339-343 | on `3 + 1` as written, the step at `+` aborts with an unknown token |
| Lexer.SourceTestAborts | src/token.rs:339-343 | the source's own test input `3 + 1` aborts tokenizing as written |
| Lexer.CorrectedScansPlus | src/token.rs:339-343 | corrected, the step at `+` emits Plus of length 1 |
| Lexer.CorrectedSourceTestLastStep | src/token.rs:339-343 | corrected, the last step emits an Integer at 4 |
| Lexer.CorrectedSourceTest | src/token.rs:339-343 | corrected, `3 + 1` yields Integer, Plus, Integer at 0, 2, 4 |
| Lexer.SourceTest | src/token.rs:339-343 | both outcomes for `3 + 1` from the public entry point |
| Lexer.AsWrittenSecondStep | src/token.rs:288-295 | as written, on `1 2`, the second number step rescans the first number |
| Lexer.AsWrittenRescansFirstToken | src/token.rs:270-331 | as written, `1 2` yields the first token twice |
| Lexer.SwallowingSteps | src/token.rs:288-295 | on `1+2`, the number's reported length jumps over the `+` |
| Lexer.NumberSwallowsNextCharacter | src/token.rs:288-295 | even corrected, `1+2` yields two Integers and no Plus, because a number's length is one more than its lexeme |
| Lexer.TwoTokens | src/token.rs:270-331 | two adjacent emissions covering the text are the whole result |
| Lexer.ThreeTokens | src/token.rs:270-331 | three adjacent emissions covering the text are the whole result |
| Lexer.GapThreeTokens | src/token.rs:270-331 | three emissions with one blank skipped are the whole result |
| Lexer.FiveTokens | src/token.rs:270-331 | five adjacent emissions covering the text are the whole result |
| Lexer.ScenarioStepFloat | src/token.rs:171-228 | `1.2 ` scans as a Float of length 4 |
| Lexer.ScenarioStepInteger | src/token.rs:171-228 | `21 ` scans as an Integer of length 3 |
| Lexer.ScenarioStepComplexFraction | src/token.rs:171-228 | `2.1J ` scans as Complex of length 5 |
| Lexer.ScenarioStepComplexExponent | src/token.rs:171-228 | `1e-3j ` scans as Complex of length 6 |
| Lexer.ScenarioStepIntegerExponent | src/token.rs:171-228 | `1e-1` at the end scans as an Integer of length 5 |
| Lexer.NumberScenario | src/token.rs:270-331 | corrected, `1.2 21 2.1J 1e-3j 1e-1` yields Float, Integer, Complex, Complex, Integer at 0, 4, 7, 12, 18 with lengths 4, 3, 5, 6, 5 |
| Lexer.AsWrittenScenarioSecondStep | src/token.rs:270-331 | as written, the number scan at index 4 of the same text rescans index 0 and again reports Float(0, 4), sending the driver to the `.` at index 8 |
| Lexer.AsWrittenScenarioAborts | src/token.rs:270-331 | as written, `1.2 21 2.1J 1e-3j 1e-1` aborts with UnknownToken |
| Bytecode.ReferencedConstants | src/chunk.rs:34 | every pool entry an index operand refers to is below 256, and every index operand in the stream is among them |
| Bytecode.HighConstantsUnreachable | src/chunk.rs:34 | pool entries from 256 on can never be referenced |
| Precedences.Rank | src/parser.rs:4-18 | precedences are ranked 0 to 11, with None lowest and Primary highest |
| Precedences.Next | src/parser.rs:20-37 | `next` is defined on all but Primary, where it is the fatal no-next-precedence fault, and raises the rank by one |
| Precedences.NextIsImmediateSuccessor | src/parser.rs:20-37 | `next(p)` is above `p` and no precedence lies strictly between them |
| Parser.BinaryOpcode | src/parser.rs:214-228 | an opcode exists exactly for the kinds whose rule has the `binary` infix handler; others are the unknown-binary-operator fault |
| Parser.RuleTableAgreesWithOpcodes | src/parser.rs:39-78 | a kind has the `binary` handler exactly when `binary` has an opcode for it, and has an infix handler exactly when its precedence is not None |
| Parser.OperatorPrecedences | src/parser.rs:39-78 | `+ -` are Term; `* / //` Factor; `**` Exponent; `< <= > >=` Comparison; `== !=` Equality; `(` Call; and each of these holds only for the kinds named |
| Parser.GreaterEqualCollides | src/parser.rs:224 | as written, `>=` and `>` compile to the same opcode |
| Parser.CorrectedOpcodesDistinct | src/parser.rs:214-228 | corrected, distinct operators compile to distinct opcodes |
| Parser.CurrentToken | src/parser.rs:114-116 | the current token exists exactly when the cursor is inside the list |
| Parser.PreviousToken | src/parser.rs:119-121 | the previous token exists exactly when the cursor is in 1..length; at 0 the subtraction overflows |
| Parser.MatchKind | src/parser.rs:124-135 | matching advances by one exactly when the current token has the kind, and fails past the end |
| Parser.Consume | src/parser.rs:138-142 | consuming advances by one exactly when the current token has the kind, and otherwise fails with the given message |
| Parser.OperandLevel | src/parser.rs:212 | `binary` parses its right operand one precedence above its operator's |
| Parser.BinaryLevels | src/parser.rs:39-78 | binary operators bind between Equality and Exponent |
| Parser.Stop | src/parser.rs:155-163 | the point where the infix loop stops lies at or after its start and inside the token list |
| Parser.StopEnds | src/parser.rs:155-163 | the loop never stops at a token it would take |
| Parser.StopCompose | src/parser.rs:155-163 | stopping at a tighter precedence and then at a looser one is stopping at the looser one |
| Parser.NoRound | src/parser.rs:155-165 | when the current token is not taken, the loop stops at once and succeeds exactly when that token ends the expression |
| Parser.RoundAcceptance | src/parser.rs:155-163 | a round succeeds exactly when the right operand parses and the loop succeeds after it, and rounds compose |
| Parser.RunPrefix | src/parser.rs:241-243 | only the integer prefix handler succeeds, emitting nothing; the others are unimplemented |
| Parser.ParsePrecedence | src/parser.rs:144-169 | parsing succeeds exactly when the grammar accepts at the cursor; it stops where the infix loop stops and emits one opcode per two tokens after the first |
| Parser.InfixLoop | src/parser.rs:155-163 | the loop succeeds exactly when its rounds all do and the stop token ends the expression, emitting one opcode per two tokens |
| Parser.BinaryInfix | src/parser.rs:206-231 | `binary` succeeds exactly when its right operand parses at one precedence above its operator's, and emits one more opcode than the operand |
| Parser.Expression | src/parser.rs:171-173 | an expression consumes at least one token and stops before the end of the list |
| Parser.AssertStatement | src/parser.rs:191-194 | `assert` ends by emitting an `Assert` opcode |
| Parser.Statement | src/parser.rs:179-189 | a statement consumes at least one token |
| ParserProofs.ExpressionGrammar | src/parser.rs:144-173 | an expression parses if and only if the tokens start with an integer/operator chain followed by a token with no binding power; then it emits one opcode per operator |
| ParserProofs.ExpressionReachesTerminator | src/parser.rs:144-173 | such a chain parses up to its terminator |
| ParserProofs.ScannedExpressionNeedsEof | src/parser.rs:114-116 | a chain exactly as long as the scanned tokens fails, because the scanner appends no end-of-input token; the same chain followed by `Eof` parses |
| ParserProofs.AssignmentTarget | src/parser.rs:165-167 | an integer followed by `=` fails as an invalid assignment target at Assignment precedence or lower, and above it parsing stops right after the integer |
| ParserProofs.StopChain | src/parser.rs:155-163 | the loop stops at the end of an integer/operator chain |
| ParserProofs.StopAtTerminator | src/parser.rs:155-163 | a loop at Equality or looser runs to the chain's terminator |
| ParserProofs.OddChainAt | src/parser.rs:155-163 | a chain alternates integers and operators and has odd length |
| ParserProofs.OddChainSplit | src/parser.rs:155-163 | a chain splits at any operator into two chains |
| ParserProofs.OddChainJoin | src/parser.rs:155-163 | two chains joined by an operator form a chain |
| ParserProofs.IntegerNotBinary | src/parser.rs:39-78 | an integer token is never a binary operator |
| ParserProofs.Loosest | src/parser.rs:155-163 | a chain of several integers has an operator position |
| ParserProofs.LoosestIsLoosest | src/parser.rs:155-163 | that operator binds no tighter than any other, and strictly looser than any to its right |
| ParserProofs.TreeRoot | src/parser.rs:155-163 | the expression tree of a chain is rooted at its loosest right-most operator |
| ParserProofs.RoundScan | src/parser.rs:155-163 | after a round, the operator just taken is the loosest of the chain so far |
| ParserProofs.LoopExprTree | src/parser.rs:155-163 | what the loop builds from a chain's tree is the tree of the longer chain up to the stop point |
| ParserProofs.ParseTrace | src/parser.rs:144-169 | `parse_precedence` emits the postfix walk of the expression the loop builds |
| ParserProofs.InfixTrace | src/parser.rs:155-163 | the infix loop extends the trace by the postfix walk of what it builds |
| ParserProofs.BinaryTrace | src/parser.rs:206-231 | `binary` emits its right operand, then its own opcode |
| ParserProofs.ExpressionTree | src/parser.rs:171-173 | an expression's trace is the postfix walk of its chain's tree |
| ParserProofs.ExpressionTreeAt | src/parser.rs:171-173 | the same from any cursor, after the existing trace |
| ParserProofs.AssertTrace | src/parser.rs:191-194 | `assert` emits its expression's tree, then `Assert` on the last token's line |
| ParserProofs.StatementTrace | src/parser.rs:179-194 | after `assert` the trace is the expression's and `Assert`; any other statement emits only its expression, with no `Pop` |
| ParserProofs.AssertStatementTrace | src/parser.rs:179-194 | a statement opening with `assert` emits its expression's postfix trace followed by `Assert` on the last token's line |
| ParserProofs.ExpressionStatementTrace | src/parser.rs:179-194 | a statement not opening with `assert` emits only its expression's postfix trace, starting at the same token |
| ParserProofs.TreeReadsAsChain | src/parser.rs:155-163 | the tree read in order is the chain's operators left to right |
| ParserProofs.OperatorsSplit | src/parser.rs:155-163 | a chain's operators split around any operator |
| ParserProofs.PostfixPermutesInorder | src/parser.rs:206-228 | postfix emission is a permutation of in-order |
| ParserProofs.ExpressionEmitsEachOperator | src/parser.rs:144-173 | an expression emits each operator of its chain exactly once |
| ParserProofs.EmissionsAcceptAlike | src/parser.rs:214-228 | the `>=` fix changes what is emitted, never what is accepted |
| ParserProofs.OneOperator | src/parser.rs:144-173 | `a op b` emits exactly op |
| ParserProofs.TwoOperators | src/parser.rs:144-173 | `a op1 b op2 c` emits op1 first unless op2 binds strictly tighter: equal precedence, `**` included, associates left |
| ParserProofs.SubtractThenAdd | src/parser.rs:144-173 | `a - b + c` emits Subtract, Add |
| ParserProofs.MultiplyBeforeAdd | src/parser.rs:144-173 | `a + b * c` emits Multiply, Add |
| ParserProofs.GreaterEqualTraces | src/parser.rs:224 | `a >= b` emits Greater as written and GreaterEqual corrected |
| ParserProofs.AssignmentRejected | src/parser.rs:165-167 | `1 = 2` is an invalid assignment target |
| Machine.ReadByte | src/vm.rs:23-25 | reading a unit succeeds exactly inside the stream and returns it with the cursor advanced by one |
| Machine.OperandStride | src/vm.rs:37 | the constant operand advances the cursor by two as written and by one corrected |
| Machine.ReadConstant | src/vm.rs:28-38 | reading a constant needs an index unit inside the pool and returns that pool entry; otherwise the fault says which requirement failed |
| Machine.Peek | src/vm.rs:68-70 | as written `peek(d)` is defined for 1 ≤ d ≤ height, and `peek(0)` is out of range; corrected, `d` counts down from the top |
| Machine.PeekOffByOne | src/vm.rs:68-70 | as-written `peek(d + 1)` is corrected `peek(d)`, and as-written `peek(0)` always fails |
| Machine.BinaryOp | src/vm.rs:73-83 | as written every binary operation fails; corrected, it needs two numbers on top, pops them and pushes `apply(left, right)`, leaving the rest of the stack unchanged |
| Machine.Call | src/vm.rs:85-99 | a call fails on an arity mismatch, then on 255 frames, then on slot underflow or an insert position past the frame list; on success it inserts a frame at instruction 0 with slot base `height − args − 1` at index `frame_count`, which grows by one |
| Machine.BinaryOperator | src/vm.rs:118-129 | exactly the twelve arithmetic and comparison opcodes dispatch to `binary_op` |
| Machine.OpcodesRoundTrip | src/vm.rs:118-129 | the operator the machine applies for a compiled opcode is the operator that was compiled, except `>=` as written |
| Machine.ReturnStep | src/vm.rs:130-141 | `Return` from the outermost frame finishes and removes up to two values from the top, leaving the rest of the stack as it was; otherwise it drops the last frame and carries on at the same cursor |
| Machine.Dispatch | src/vm.rs:109-143 | a running step never adds frames; `Constant` moves past its operand; `True`, `False` and `Pop` always go on; only `Return` with a single live frame finishes, leaving the frame table unchanged; a step from balanced live frames keeps the outermost frame; `Not`, `Negative`, `Noop` and `Assert` have no arm and are fatal |
| Machine.Step | src/vm.rs:107-143 | a step needs a bare opcode at the cursor and moves forward; an operand unit in opcode position is fatal; it finishes only from a single live frame and otherwise keeps the outermost frame |
| Machine.StackEffectHolds | src/vm.rs:109-143 | each opcode pops and pushes its stated counts and leaves the stack below unchanged |
| Machine.StepStackEffect | src/vm.rs:107-143 | the same for one full step |
| Machine.StepPushes | src/vm.rs:110-116 | `Constant` pushes exactly the indexed pool entry; `True` and `False` push one Bool |
| Machine.ConstantStride | src/vm.rs:108-114 | a `Constant` instruction moves the cursor by three as written and by two corrected |
| Machine.StepCursor | src/vm.rs:107-114 | a step that goes on moves the cursor past its opcode and past each immediate operand (`Bytecode.OperandCount`: one for `Constant`, none otherwise), each operand counting two units as written and one corrected |
| Machine.Loop | src/vm.rs:107-145 | a completed loop has returned from every frame; started on a balanced frame table, it ends with the table cut to its outermost frame |
| Machine.LoopEndsAtReturn | src/vm.rs:107-145 | a completed loop ran through a `Return` opcode |
| Machine.Run | src/vm.rs:102-147 | with `frame_count` 0, `run` underflows; with no frame at `frame_count − 1`, it faults; success ends with `frame_count` 0 and, when the frame table held exactly the live frames, with the table cut to its outermost frame, which the final `Return` never pops |
| Machine.ConstantThenReturnRuns | src/vm.rs:102-147 | calling `[Constant 0, Return]` runs off the stream as written and returns cleanly corrected |

## Left out

- `src/main.rs`, `src/compiler.rs` and `src/object.rs` beyond `arity` and the chunk: they hold plumbing and placeholders with no logic. `src/value.rs`'s arithmetic (`Operator::doit`, `is_number`) is not part of this model. The machine takes it as an `Arith` parameter.
- Floating point: float and complex payloads are kept as opaque 64-bit patterns.
- Machine fields `compilers`, `globals`, `strings`, `objects`, `init_string`, and `InterpretResult`: the core never reads them. `run`'s `Ok` result is an `Ok` of the final machine state.
- `println!` in `tokenize`: output only.
- Lifetimes, borrowing, and `hashbrown` internals: the trie's children are a Dafny `map`, and `TokenType::iter()` is an explicit list.
- `emit_byte`'s body is `todo!()`. Emission is modelled as appending to a trace, since that is the compiler's only output.
- The `todo!()` prefix handlers `unary`, `grouping`, `call`, `float` and `complex` become an `Unimplemented` fault. Parentheses, literals other than integers, and constant emission are therefore not reachable.
- `had_error` and `panic_mode` are never read, and `declaration` and `expression_statement` are one-line forwards; all four are folded into `Statement`.
- Maximal-munch matching would fall back to the deepest marked node on the walked path. The code does not: it takes the node where the walk stops or nothing. The model follows the code (`Scanner.ReservedMatchFromTrie`).
- `CallFrame.slots` and `instruction_index` are kept but never read, as in the code. `run` takes the frame at `frame_count - 1` once (src/vm.rs:103) and keeps executing it after an inner `Return`; the model does the same.
- Assertion failure at run time: `run` has no arm for `Assert`, `Not`, `Negative` or `Noop`, so these are fatal like an operand unit in opcode position (src/vm.rs:142). There is no assertion behaviour to model.
- `Scanner.ParseNumber`: the reported length is one more than the number's characters (src/token.rs:174). This is kept as written because, with the scanners at the driver's position, the over-long lengths land exactly on the next number of `1.2 21 2.1J 1e-3j 1e-1` (`Lexer.NumberScenario`). As written the same text aborts (`Lexer.AsWrittenScenarioAborts`). Its effect on `1+2` is stated by `Lexer.NumberSwallowsNextCharacter`.
- `Lexer.Tokenize`: no end-of-input token is appended. The compiler's loop needs one (`ParserProofs.ScannedExpressionNeedsEof`), so the model leaves the choice to the caller, as the code does.
- `Machine.Call`: `stack.len() as u8` truncates modulo 256 and the subtractions are checked (a debug build). An underflow is a fault rather than a wrap-around, because a release build's wrap is not what the code means.
- `Machine.Loop` is bounded by the stream length plus one, because each step moves the cursor forward. A frame that is resumed after an inner `Return` is not re-fetched (see above).
- The opcode enumeration of `src/chunk.rs` lacks `IntDivide`, which `src/parser.rs:220` and `src/vm.rs:129` use; `Bytecode.Op` includes it. `BytecodeOp::Op` has no payload in `src/chunk.rs:33` although `src/vm.rs` matches `BytecodeOp::Op(Op::…)`; the model gives it the opcode.
- The compiler's nested token kinds (`Operator`/`Number`/`Keyword`, with `Eof`, `=` and `in`) differ from the scanner's flat `TokenType`; `TokenKinds.KindOf` maps one to the other.

## Findings

| source | as written | input that shows it | evidently intended | confidence | as-written member | corrected member |
|---|---|---|---|---|---|---|
| src/token.rs:235 | the reserved-word walk admits only digits and underscores, which no lexeme starts with, so nothing reserved ever matches | `3 + 1`: the `+` aborts tokenizing with "unknown token" | the walk admits every character and follows trie edges | not executed | Scanner.ParseReservedNeverMatches, Lexer.SourceTestAborts | Scanner.ParseReservedAnyCharFindsLexeme, Lexer.CorrectedSourceTest |
| src/token.rs:270-325 | the driver skips characters of its own iterator, but every scanner reads `current_index`, which never moves | `1 2` yields the first Integer twice | each scanner reads at the driver's position | not executed | Lexer.AsWrittenTokensStayPut, Lexer.AsWrittenRescansFirstToken | Lexer.CorrectedTokensAreDisjoint |
| src/parser.rs:224 | `>=` emits `Op::Greater` | `1 >= 2` compiles to Greater | `>=` emits `Op::GreaterEqual` | not executed | Parser.GreaterEqualCollides, ParserProofs.GreaterEqualTraces | Parser.CorrectedOpcodesDistinct, Machine.OpcodesRoundTrip |
| src/vm.rs:37 | `read_constant` returns cursor + 2 from the operand's position, which `read_byte` already advanced past the opcode | calling `[Constant 0, Return]` skips `Return` and runs off the stream | return the position just after the operand | not executed | Machine.ConstantStride, Machine.ConstantThenReturnRuns | Machine.ReadConstant, Machine.ConstantStride |
| src/vm.rs:69 | `peek(d)` reads index `len - d`, so `binary_op`'s `peek(0)` is always out of range | any binary opcode, e.g. `Add` on `[1, 2]` | `peek(d)` reads index `len - 1 - d` | not executed | Machine.PeekOffByOne, Machine.BinaryOp | Machine.Peek, Machine.BinaryOp |
