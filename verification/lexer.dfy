/** The `tokenize` driver of src/token.rs. The driver walks its own
    character iterator over `chars[current_index..]`: it skips spaces and
    tabs, counts newlines, and for every other character asks a scanner for
    a token and then skips as many characters as that token's length.

    The scanners themselves read the tokenizer's `current_index`, which the
    driver never moves, so as written every token is scanned at the same
    position. `ScanConfig` selects between that behaviour and the evidently
    intended one (scanners at the driver's position, reserved words walked
    whatever their characters). */
module Lexer {
  import opened Faults
  import opened TokenTypes
  import opened KeywordTrie
  import opened Scanner

  /** Whether the scanners see the driver's position, and the guard of the
      reserved-word walk. */
  datatype ScanConfig = ScanConfig(tracksPosition: bool, guard: Guard)

  /** The driver as written. */
  const AsWritten: ScanConfig := ScanConfig(false, DigitsOrUnderscores)

  /** The driver with the scanners at the driver's position and the
      reserved-word walk unrestricted. */
  const Corrected: ScanConfig := ScanConfig(true, AnyChar)

  /** What one iteration of the driver loop does at one character. */
  datatype Step = Skip(line: nat) | Emit(token: Token) | Stop(fault: Fault)

  predicate IsBlank(c: char) {
    c == ' ' || c == '\t' || c == '\n'
  }

  /** The tokenizer the scanners see when the driver is at `k`. */
  function ScannerAt(cfg: ScanConfig, tz: Tokenizer, k: nat): (at: Tokenizer)
    ensures at.chars == tz.chars && at.line == tz.line
    ensures at.currentIndex == if cfg.tracksPosition then k else tz.currentIndex
  {
    if cfg.tracksPosition then tz.(currentIndex := k) else tz
  }

  /** One iteration of the loop at character `k`, in the order of the
      match arms: blank, digit, letter or underscore, anything else. */
  function ScanAt(cfg: ScanConfig, root: KeywordTree, tz: Tokenizer, k: nat): (r: Step)
    requires WellKeyed(root) && NoDigitOrUnderscoreEdge(root) && tz.currentIndex <= k < |tz.chars|
    ensures r.Emit? ==> r.token.length >= 1
  {
    var c := tz.chars[k];
    var at := ScannerAt(cfg, tz, k);
    if c == ' ' || c == '\t' then Skip(tz.line)
    else if c == '\n' then Skip(tz.line + 1)
    else if IsDigit(c) then Emit(ParseNumber(at).value)
    else if IsAlpha(c) || IsUnderscore(c) then
      match ReservedIn(root, at, cfg.guard)
      case Some(t) => Emit(t)
      case None => Emit(ParseIdentifier(at).value)
    else
      match ReservedIn(root, at, cfg.guard)
      case Some(t) => Emit(t)
      case None => Stop(UnknownToken)
  }

  /** What one iteration does: blanks are skipped (a newline counts a
      line), digits always start a number, a token starts where the
      scanners look and lies on the current line, and a character that
      starts no token stops the run with `UnknownToken`. Under the guard as
      written the reserved words are never found, so exactly the
      characters that are neither blank, digit, letter nor underscore stop
      the run, and every token is a number or an identifier. */
  lemma {:induction false} ScanAtSpec(cfg: ScanConfig, root: KeywordTree, tz: Tokenizer, k: nat)
    requires WellKeyed(root) && NoDigitOrUnderscoreEdge(root) && tz.currentIndex <= k < |tz.chars|
    ensures var r := ScanAt(cfg, root, tz, k); var c := tz.chars[k];
      && (r.Skip? <==> IsBlank(c))
      && (r.Skip? ==> r.line == if c == '\n' then tz.line + 1 else tz.line)
      && (r.Emit? ==> r.token.line == tz.line && r.token.start == ScannerAt(cfg, tz, k).currentIndex)
      && (r.Stop? ==> r.fault == UnknownToken && !IsDigit(c) && !IsAlpha(c) && !IsUnderscore(c))
      && (IsDigit(c) ==> r.Emit? && IsNumberType(r.token.tokentype))
      && (cfg.guard == DigitsOrUnderscores ==>
            && (r.Stop? <==> !IsBlank(c) && !IsDigit(c) && !IsAlpha(c) && !IsUnderscore(c))
            && (r.Emit? ==> IsNumberType(r.token.tokentype) || r.token.tokentype == Identifier))
  {
    DigitsOrUnderscoresNeverMatch(root, ScannerAt(cfg, tz, k));
  }

  // ---------------------------------------------------------------------
  // The driver loop, over any step

  /** One iteration of the loop as a function of the tokenizer and the
      driver's position. The loop is written against any such step; the
      scanners' own is `Stepper`. */
  type StepFn = (Tokenizer, nat) -> Step

  /** The scanners' step. The driver only consults it from `currentIndex`
      to the end of the text; elsewhere its answer is arbitrary. */
  function Stepper(cfg: ScanConfig, root: KeywordTree): StepFn
    requires WellKeyed(root) && NoDigitOrUnderscoreEdge(root)
  {
    (tz: Tokenizer, k: nat) =>
      if tz.currentIndex <= k < |tz.chars| then ScanAt(cfg, root, tz, k) else Stop(UnknownToken)
  }

  /** What the loop relies on from one iteration at `k`: blanks and only
      blanks are skipped and a newline counts a line, a token is never
      empty and lies on the current line, and a stop reports an unknown
      token. */
  predicate LawfulStep(tz: Tokenizer, k: nat, r: Step)
    requires k < |tz.chars|
  {
    && (r.Skip? <==> IsBlank(tz.chars[k]))
    && (r.Skip? ==> r.line == if tz.chars[k] == '\n' then tz.line + 1 else tz.line)
    && (r.Emit? ==> r.token.length >= 1 && r.token.line == tz.line)
    && (r.Stop? ==> r.fault == UnknownToken)
  }

  ghost predicate Lawful(scan: StepFn) {
    forall tz: Tokenizer, k: nat | tz.currentIndex <= k < |tz.chars| :: LawfulStep(tz, k, scan(tz, k))
  }

  /** Where a step's tokens start: at the driver's position when the
      scanners track it, at `currentIndex` otherwise. */
  ghost predicate StartsWhere(scan: StepFn, tracks: bool) {
    forall tz: Tokenizer, k: nat | tz.currentIndex <= k < |tz.chars| ::
      scan(tz, k).Emit? ==> scan(tz, k).token.start == if tracks then k else tz.currentIndex
  }

  /** A step that only ever emits numbers and identifiers. */
  ghost predicate NumbersAndIdentifiersOnly(scan: StepFn) {
    forall tz: Tokenizer, k: nat | tz.currentIndex <= k < |tz.chars| ::
      scan(tz, k).Emit? ==> IsNumberType(scan(tz, k).token.tokentype) || scan(tz, k).token.tokentype == Identifier
  }

  /** The scanners' step keeps the laws, puts tokens where the
      configuration says, and under the guard as written emits only numbers
      and identifiers. */
  lemma {:induction false} StepperLaws(cfg: ScanConfig, root: KeywordTree)
    requires WellKeyed(root) && NoDigitOrUnderscoreEdge(root)
    ensures Lawful(Stepper(cfg, root))
    ensures StartsWhere(Stepper(cfg, root), cfg.tracksPosition)
    ensures cfg.guard == DigitsOrUnderscores ==> NumbersAndIdentifiersOnly(Stepper(cfg, root))
  {
    var scan := Stepper(cfg, root);
    forall tz: Tokenizer, k: nat | tz.currentIndex <= k < |tz.chars|
      ensures LawfulStep(tz, k, scan(tz, k))
      ensures scan(tz, k).Emit? ==> scan(tz, k).token.start == if cfg.tracksPosition then k else tz.currentIndex
      ensures cfg.guard == DigitsOrUnderscores && scan(tz, k).Emit? ==>
        IsNumberType(scan(tz, k).token.tokentype) || scan(tz, k).token.tokentype == Identifier
    {
      assert scan(tz, k) == ScanAt(cfg, root, tz, k);
      ScanAtSpec(cfg, root, tz, k);
    }
  }

  /** The tokens and the final line count of a successful run. */
  datatype Scanned = Scanned(tokens: seq<Token>, line: nat)

  /** Number of newlines in `s[k..]`. */
  function NewlinesFrom(s: seq<char>, k: nat): nat
    decreases |s| - k
  {
    if k >= |s| then 0 else (if s[k] == '\n' then 1 else 0) + NewlinesFrom(s, k + 1)
  }

  lemma {:induction false} NewlinesFromMonotone(s: seq<char>, k: nat, m: nat)
    requires k <= m
    ensures NewlinesFrom(s, m) <= NewlinesFrom(s, k)
    decreases m - k
  {
    if k < m {
      NewlinesFromMonotone(s, k + 1, m);
    }
  }

  /** The driver loop from character `k` on: skip a blank, or push the
      token and skip its reported length, or stop. */
  function TokenizeFrom(scan: StepFn, tz: Tokenizer, k: nat): (r: Result<Scanned>)
    requires Lawful(scan) && tz.currentIndex <= k
    ensures r.Fail? ==> r.fault == UnknownToken
    ensures r.Ok? ==> tz.line <= r.value.line <= tz.line + NewlinesFrom(tz.chars, k)
    decreases |tz.chars| - k
  {
    if k >= |tz.chars| then Ok(Scanned([], tz.line))
    else
      assert LawfulStep(tz, k, scan(tz, k));
      match scan(tz, k)
      case Skip(line) => TokenizeFrom(scan, tz.(line := line), k + 1)
      case Emit(t) =>
        var rest :- TokenizeFrom(scan, tz, k + t.length);
        NewlinesFromMonotone(tz.chars, k, k + t.length);
        Ok(Scanned([t] + rest.tokens, rest.line))
      case Stop(f) => Fail(f)
  }

  /** `tokenize`: the loop over `chars[currentIndex..]` with the scanners'
      step over the populated trie; slicing past the end aborts. No
      end-of-input token is appended: the scanner's token types have none. */
  function Tokenize(cfg: ScanConfig, tz: Tokenizer): (r: Result<Scanned>)
    ensures tz.currentIndex > |tz.chars| ==> r == Fail(SliceOutOfRange)
    ensures r.Fail? && tz.currentIndex <= |tz.chars| ==> r.fault == UnknownToken
  {
    if tz.currentIndex > |tz.chars| then Fail(SliceOutOfRange)
    else
      PopulateRecognises();
      RecognisedRootEdges(Populate());
      StepperLaws(cfg, Populate());
      TokenizeFrom(Stepper(cfg, Populate()), tz, tz.currentIndex)
  }

  // ---------------------------------------------------------------------
  // Properties of the driver

  /** What every token of a successful run from `k` satisfies: never empty,
      on a line the run passed through, and starting at `currentIndex`
      (scanners fixed there) or inside the text at or after `k` (scanners
      tracking the driver). */
  predicate RunToken(tracks: bool, tz: Tokenizer, k: nat, finalLine: nat, t: Token) {
    && t.length >= 1
    && tz.line <= t.line <= finalLine
    && (!tracks ==> t.start == tz.currentIndex)
    && (tracks ==> k <= t.start < |tz.chars|)
  }

  lemma {:induction false} RunTokens(scan: StepFn, tracks: bool, tz: Tokenizer, k: nat)
    requires Lawful(scan) && StartsWhere(scan, tracks) && tz.currentIndex <= k
    requires TokenizeFrom(scan, tz, k).Ok?
    ensures var sc := TokenizeFrom(scan, tz, k).value;
      forall i :: 0 <= i < |sc.tokens| ==> RunToken(tracks, tz, k, sc.line, sc.tokens[i])
    decreases |tz.chars| - k
  {
    if k < |tz.chars| {
      assert LawfulStep(tz, k, scan(tz, k));
      match scan(tz, k)
      case Skip(line) =>
        RunTokens(scan, tracks, tz.(line := line), k + 1);
      case Emit(t) =>
        RunTokens(scan, tracks, tz, k + t.length);
        var rest := TokenizeFrom(scan, tz, k + t.length).value;
        assert TokenizeFrom(scan, tz, k).value == Scanned([t] + rest.tokens, rest.line);
        assert RunToken(tracks, tz, k, rest.line, t);
    }
  }

  /** A step that emits only numbers and identifiers yields runs of only
      numbers and identifiers. */
  lemma {:induction false} RunNumbersAndIdentifiers(scan: StepFn, tz: Tokenizer, k: nat)
    requires Lawful(scan) && NumbersAndIdentifiersOnly(scan) && tz.currentIndex <= k
    requires TokenizeFrom(scan, tz, k).Ok?
    ensures var ts := TokenizeFrom(scan, tz, k).value.tokens;
      forall i :: 0 <= i < |ts| ==> IsNumberType(ts[i].tokentype) || ts[i].tokentype == Identifier
    decreases |tz.chars| - k
  {
    if k < |tz.chars| {
      assert LawfulStep(tz, k, scan(tz, k));
      match scan(tz, k)
      case Skip(line) =>
        RunNumbersAndIdentifiers(scan, tz.(line := line), k + 1);
      case Emit(t) =>
        RunNumbersAndIdentifiers(scan, tz, k + t.length);
        var rest := TokenizeFrom(scan, tz, k + t.length).value.tokens;
        assert TokenizeFrom(scan, tz, k).value.tokens == [t] + rest;
        assert IsNumberType(t.tokentype) || t.tokentype == Identifier;
    }
  }

  /** Tokens that do not overlap and appear in source order. */
  predicate Disjoint(ts: seq<Token>) {
    forall i, j :: 0 <= i < j < |ts| ==> ts[i].start + ts[i].length <= ts[j].start
  }

  /** A token that ends before every later token starts, in front of
      disjoint tokens, keeps them disjoint. */
  lemma {:induction false} DisjointCons(t: Token, rest: seq<Token>)
    requires Disjoint(rest)
    requires forall j :: 0 <= j < |rest| ==> t.start + t.length <= rest[j].start
    ensures Disjoint([t] + rest)
  {
    var ts := [t] + rest;
    forall i, j | 0 <= i < j < |ts|
      ensures ts[i].start + ts[i].length <= ts[j].start
    {
      assert ts[j] == rest[j - 1];
      if i > 0 {
        assert ts[i] == rest[i - 1];
      }
    }
  }

  /** When the scanners track the driver's position the tokens of a run do
      not overlap and come in source order. */
  lemma {:induction false} TrackedRunIsDisjoint(scan: StepFn, tz: Tokenizer, k: nat)
    requires Lawful(scan) && StartsWhere(scan, true) && tz.currentIndex <= k
    requires TokenizeFrom(scan, tz, k).Ok?
    ensures Disjoint(TokenizeFrom(scan, tz, k).value.tokens)
    decreases |tz.chars| - k
  {
    if k < |tz.chars| {
      assert LawfulStep(tz, k, scan(tz, k));
      match scan(tz, k)
      case Skip(line) =>
        TrackedRunIsDisjoint(scan, tz.(line := line), k + 1);
      case Emit(t) =>
        var rest := TokenizeFrom(scan, tz, k + t.length).value;
        TrackedRunIsDisjoint(scan, tz, k + t.length);
        RunTokens(scan, true, tz, k + t.length);
        forall j | 0 <= j < |rest.tokens|
          ensures t.start + t.length <= rest.tokens[j].start
        {
          assert RunToken(true, tz, k + t.length, rest.line, rest.tokens[j]);
        }
        DisjointCons(t, rest.tokens);
    }
  }

  /** `tokenize` with the scanners at the driver's position: the tokens lie
      inside the text after `currentIndex`, do not overlap and come in
      source order. */
  lemma {:induction false} CorrectedTokensAreDisjoint(tz: Tokenizer)
    ensures var r := Tokenize(Corrected, tz);
      r.Ok? ==>
        && Disjoint(r.value.tokens)
        && forall i :: 0 <= i < |r.value.tokens| ==>
             tz.currentIndex <= r.value.tokens[i].start < |tz.chars| && r.value.tokens[i].length >= 1
  {
    if Tokenize(Corrected, tz).Ok? {
      PopulateRecognises();
      RecognisedRootEdges(Populate());
      var scan := Stepper(Corrected, Populate());
      StepperLaws(Corrected, Populate());
      assert Tokenize(Corrected, tz) == TokenizeFrom(scan, tz, tz.currentIndex);
      TrackedRunIsDisjoint(scan, tz, tz.currentIndex);
      RunTokens(scan, true, tz, tz.currentIndex);
    }
  }

  /** `tokenize` as written: every token starts at `currentIndex` and is a
      number or an identifier. */
  lemma {:induction false} AsWrittenTokensStayPut(tz: Tokenizer)
    ensures var r := Tokenize(AsWritten, tz);
      r.Ok? ==>
        forall i :: 0 <= i < |r.value.tokens| ==>
          && r.value.tokens[i].start == tz.currentIndex
          && (IsNumberType(r.value.tokens[i].tokentype) || r.value.tokens[i].tokentype == Identifier)
  {
    if Tokenize(AsWritten, tz).Ok? {
      PopulateRecognises();
      RecognisedRootEdges(Populate());
      var scan := Stepper(AsWritten, Populate());
      StepperLaws(AsWritten, Populate());
      assert Tokenize(AsWritten, tz) == TokenizeFrom(scan, tz, tz.currentIndex);
      RunTokens(scan, false, tz, tz.currentIndex);
      RunNumbersAndIdentifiers(scan, tz, tz.currentIndex);
    }
  }

  predicate AllBlank(s: seq<char>, k: nat) {
    forall i :: k <= i < |s| ==> IsBlank(s[i])
  }

  /** Text made only of spaces, tabs and newlines yields no token, and the
      line counter grows by exactly the number of newlines. */
  lemma {:induction false} BlankTextYieldsNoTokens(scan: StepFn, tz: Tokenizer, k: nat)
    requires Lawful(scan) && tz.currentIndex <= k && AllBlank(tz.chars, k)
    ensures TokenizeFrom(scan, tz, k) == Ok(Scanned([], tz.line + NewlinesFrom(tz.chars, k)))
    decreases |tz.chars| - k
  {
    if k < |tz.chars| {
      assert LawfulStep(tz, k, scan(tz, k));
      BlankTextYieldsNoTokens(scan, tz.(line := scan(tz, k).line), k + 1);
    }
  }

  /** One emitting iteration followed by a successful rest of the run. */
  lemma {:induction false} EmitThenRest(scan: StepFn, tz: Tokenizer, k: nat, t: Token)
    requires Lawful(scan) && tz.currentIndex <= k < |tz.chars|
    requires scan(tz, k) == Emit(t)
    requires TokenizeFrom(scan, tz, k + t.length).Ok?
    ensures var rest := TokenizeFrom(scan, tz, k + t.length).value;
      TokenizeFrom(scan, tz, k) == Ok(Scanned([t] + rest.tokens, rest.line))
  {
  }

  /** One emitting iteration in front of a known run. */
  lemma {:induction false} EmitThen(scan: StepFn, tz: Tokenizer, k: nat, t: Token, ts: seq<Token>, line: nat)
    requires Lawful(scan) && tz.currentIndex <= k < |tz.chars|
    requires scan(tz, k) == Emit(t)
    requires TokenizeFrom(scan, tz, k + t.length) == Ok(Scanned(ts, line))
    ensures TokenizeFrom(scan, tz, k) == Ok(Scanned([t] + ts, line))
  {
    EmitThenRest(scan, tz, k, t);
  }

  /** A space or a tab leaves the run as it is from the next character. */
  lemma {:induction false} SkipThenRest(scan: StepFn, tz: Tokenizer, k: nat)
    requires Lawful(scan) && tz.currentIndex <= k < |tz.chars|
    requires tz.chars[k] == ' ' || tz.chars[k] == '\t'
    ensures TokenizeFrom(scan, tz, k) == TokenizeFrom(scan, tz, k + 1)
  {
    assert LawfulStep(tz, k, scan(tz, k));
    assert tz.(line := tz.line) == tz;
  }

  // ---------------------------------------------------------------------
  // Concrete runs

  /** At a digit the scanners' step emits what `parse_number` returns at
      the position the scanners look at. */
  lemma {:induction false} NumberStep(cfg: ScanConfig, root: KeywordTree, tz: Tokenizer, k: nat, t: Token)
    requires WellKeyed(root) && NoDigitOrUnderscoreEdge(root) && tz.currentIndex <= k < |tz.chars|
    requires IsDigit(tz.chars[k]) && ParseNumber(ScannerAt(cfg, tz, k)) == Ok(t)
    ensures Stepper(cfg, root)(tz, k) == Emit(t)
  {
  }

  /** At a character that is neither blank, digit, letter nor underscore
      the scanners' step is the reserved-word scan, and stops when that
      finds nothing. */
  lemma {:induction false} OperatorStep(cfg: ScanConfig, root: KeywordTree, tz: Tokenizer, k: nat)
    requires WellKeyed(root) && NoDigitOrUnderscoreEdge(root) && tz.currentIndex <= k < |tz.chars|
    requires var c := tz.chars[k]; !IsBlank(c) && !IsDigit(c) && !IsAlpha(c) && !IsUnderscore(c)
    ensures Stepper(cfg, root)(tz, k) ==
      match ReservedIn(root, ScannerAt(cfg, tz, k), cfg.guard)
      case Some(t) => Emit(t)
      case None => Stop(UnknownToken)
  {
  }

  /** A path that ends in a space is no path of a recognising trie. */
  lemma {:induction false} SpaceEndsPaths(root: KeywordTree, s: seq<char>, i: nat, n: nat)
    requires Recognises(root) && i + n < |s| && s[i + n] == ' '
    ensures !HasPath(root, s[i..i + n + 1])
  {
    var q := s[i..i + n + 1];
    forall t: TokenType
      ensures !(q <= Lexeme(t))
    {
      NoLexemeRunsPastSpace(q, t);
    }
  }

  /** With the intended guard, a reserved lexeme followed by a space is
      found whole, as its own token type. */
  lemma {:induction false} CorrectedFindsLexemeBeforeSpace(root: KeywordTree, at: Tokenizer, t: TokenType)
    requires Recognises(root)
    requires var i, n := at.currentIndex, |Lexeme(t)|;
      i + n < |at.chars| && at.chars[i..i + n] == Lexeme(t) && at.chars[i + n] == ' '
    ensures ReservedIn(root, at, AnyChar) == Some(Token(t, at.currentIndex, |Lexeme(t)|, at.line))
  {
    WalkStopsAtSpace(root, at.chars, at.currentIndex, t);
    assert TokenAt(root, Lexeme(t)) == Some(t);
    WalkedLexemeIsFound(root, at, Lexeme(t), t);
  }

  /** The trie walk over a lexeme followed by a space covers exactly the
      lexeme. */
  lemma {:induction false} WalkStopsAtSpace(root: KeywordTree, s: seq<char>, i: nat, t: TokenType)
    requires Recognises(root)
    requires i + |Lexeme(t)| < |s| && s[i..i + |Lexeme(t)|] == Lexeme(t) && s[i + |Lexeme(t)|] == ' '
    ensures Walk(root, s, i, AnyChar).length == |Lexeme(t)|
  {
    var n := |Lexeme(t)|;
    assert HasPath(root, s[i..i + n]) by {
      PrefixOfLexemeIsPath(root, s[i..i + n], t);
    }
    assert !HasPath(root, s[i..i + n + 1]) by {
      SpaceEndsPaths(root, s, i, n);
    }
    assert WellKeyed(root);
    WalkReachesLongestPath(root, s, i, n);
  }

  // The source's own test, `tokenize("3 + 1")`, step by step.

  lemma {:induction false} SourceTestFirstStep(cfg: ScanConfig, root: KeywordTree)
    requires WellKeyed(root) && NoDigitOrUnderscoreEdge(root)
    ensures Stepper(cfg, root)(New("3 + 1"), 0) == Emit(Token(Integer, 0, 2, 0))
  {
    ParsesOneDigit(Tokenizer("3 + 1", 0, 0));
    NumberStep(cfg, root, New("3 + 1"), 0, Token(Integer, 0, 2, 0));
  }

  /** As written the `+` is not reserved under the digit-or-underscore
      guard, and the run stops. */
  lemma {:induction false} AsWrittenStopsAtPlus(root: KeywordTree)
    requires WellKeyed(root) && NoDigitOrUnderscoreEdge(root)
    ensures Stepper(AsWritten, root)(New("3 + 1"), 2) == Stop(UnknownToken)
  {
    OperatorStep(AsWritten, root, New("3 + 1"), 2);
    DigitsOrUnderscoresNeverMatch(root, New("3 + 1"));
  }

  /** With the intended guard the `+` is the one-character operator. */
  lemma {:induction false} CorrectedScansPlus(root: KeywordTree)
    requires Recognises(root) && NoDigitOrUnderscoreEdge(root)
    ensures Stepper(Corrected, root)(New("3 + 1"), 2) == Emit(Token(Plus, 2, 1, 0))
  {
    OperatorStep(Corrected, root, New("3 + 1"), 2);
    assert "3 + 1"[2..3] == Lexeme(TokenType.Plus);
    CorrectedFindsLexemeBeforeSpace(root, Tokenizer("3 + 1", 2, 0), TokenType.Plus);
  }

  lemma {:induction false} CorrectedSourceTestLastStep(root: KeywordTree)
    requires WellKeyed(root) && NoDigitOrUnderscoreEdge(root)
    ensures Stepper(Corrected, root)(New("3 + 1"), 4) == Emit(Token(Integer, 4, 2, 0))
  {
    ParsesOneDigit(Tokenizer("3 + 1", 4, 0));
    NumberStep(Corrected, root, New("3 + 1"), 4, Token(Integer, 4, 2, 0));
  }

  /** The source's own test aborts as written. */
  lemma {:induction false} SourceTestAborts(root: KeywordTree)
    requires WellKeyed(root) && NoDigitOrUnderscoreEdge(root)
    ensures TokenizeFrom(Stepper(AsWritten, root), New("3 + 1"), 0) == Fail(UnknownToken)
  {
    StepperLaws(AsWritten, root);
    SourceTestFirstStep(AsWritten, root);
    AsWrittenStopsAtPlus(root);
  }

  /** With the scanners at the driver's position, `3 + 1` is two integers
      around a `+`. */
  lemma {:induction false} CorrectedSourceTest(root: KeywordTree)
    requires Recognises(root) && NoDigitOrUnderscoreEdge(root)
    ensures TokenizeFrom(Stepper(Corrected, root), New("3 + 1"), 0) ==
      Ok(Scanned([Token(Integer, 0, 2, 0), Token(Plus, 2, 1, 0), Token(Integer, 4, 2, 0)], 0))
  {
    StepperLaws(Corrected, root);
    SourceTestFirstStep(Corrected, root);
    CorrectedScansPlus(root);
    CorrectedSourceTestLastStep(root);
    GapThreeTokens(Stepper(Corrected, root), New("3 + 1"),
      Token(Integer, 0, 2, 0), Token(Plus, 2, 1, 0), Token(Integer, 4, 2, 0));
  }

  lemma {:induction false} AsWrittenSecondStep(root: KeywordTree)
    requires WellKeyed(root) && NoDigitOrUnderscoreEdge(root)
    ensures Stepper(AsWritten, root)(New("1 2"), 0) == Emit(Token(Integer, 0, 2, 0))
    ensures Stepper(AsWritten, root)(New("1 2"), 2) == Emit(Token(Integer, 0, 2, 0))
  {
    ParsesOneDigit(New("1 2"));
    NumberStep(AsWritten, root, New("1 2"), 0, Token(Integer, 0, 2, 0));
    NumberStep(AsWritten, root, New("1 2"), 2, Token(Integer, 0, 2, 0));
  }

  /** As written every token is scanned at `currentIndex`: in `1 2` the
      second number is a copy of the first. */
  lemma {:induction false} AsWrittenRescansFirstToken(root: KeywordTree)
    requires WellKeyed(root) && NoDigitOrUnderscoreEdge(root)
    ensures TokenizeFrom(Stepper(AsWritten, root), New("1 2"), 0) ==
      Ok(Scanned([Token(Integer, 0, 2, 0), Token(Integer, 0, 2, 0)], 0))
  {
    StepperLaws(AsWritten, root);
    AsWrittenSecondStep(root);
    TwoTokens(Stepper(AsWritten, root), New("1 2"), Token(Integer, 0, 2, 0), Token(Integer, 0, 2, 0));
  }

  lemma {:induction false} SwallowingSteps(root: KeywordTree)
    requires WellKeyed(root) && NoDigitOrUnderscoreEdge(root)
    ensures Stepper(Corrected, root)(New("1+2"), 0) == Emit(Token(Integer, 0, 2, 0))
    ensures Stepper(Corrected, root)(New("1+2"), 2) == Emit(Token(Integer, 2, 2, 0))
  {
    ParsesOneDigit(Tokenizer("1+2", 0, 0));
    ParsesOneDigit(Tokenizer("1+2", 2, 0));
    NumberStep(Corrected, root, New("1+2"), 0, Token(Integer, 0, 2, 0));
    NumberStep(Corrected, root, New("1+2"), 2, Token(Integer, 2, 2, 0));
  }

  /** The reported number length is one more than the characters the
      number consumed, so even with the scanners at the driver's position
      the character right after a number is skipped unseen: `1+2` loses
      its `+`. */
  lemma {:induction false} NumberSwallowsNextCharacter(root: KeywordTree)
    requires WellKeyed(root) && NoDigitOrUnderscoreEdge(root)
    ensures TokenizeFrom(Stepper(Corrected, root), New("1+2"), 0) ==
      Ok(Scanned([Token(Integer, 0, 2, 0), Token(Integer, 2, 2, 0)], 0))
  {
    StepperLaws(Corrected, root);
    SwallowingSteps(root);
    TwoTokens(Stepper(Corrected, root), New("1+2"), Token(Integer, 0, 2, 0), Token(Integer, 2, 2, 0));
  }

  /** Five number literals: a float, an integer, two complex numbers and
      an integer with an exponent. */
  const Scenario: string := "1.2 21 2.1J 1e-3j 1e-1"

  /** A run of two emitting iterations that ends exactly at the end of the
      text. */
  lemma {:induction false} TwoTokens(scan: StepFn, tz: Tokenizer, a: Token, b: Token)
    requires Lawful(scan) && tz.currentIndex == 0
    requires a.length < |tz.chars| && scan(tz, 0) == Emit(a)
    requires scan(tz, a.length) == Emit(b) && a.length + b.length >= |tz.chars|
    ensures TokenizeFrom(scan, tz, 0) == Ok(Scanned([a, b], tz.line))
  {
    EmitThen(scan, tz, a.length, b, [], tz.line);
    EmitThen(scan, tz, 0, a, [b] + [], tz.line);
    assert [a] + ([b] + []) == [a, b];
  }

  /** A run of three emitting iterations that ends exactly at the end of
      the text. */
  lemma {:induction false} ThreeTokens(scan: StepFn, tz: Tokenizer, a: Token, b: Token, c: Token)
    requires Lawful(scan) && tz.currentIndex == 0
    requires a.length < |tz.chars| && scan(tz, 0) == Emit(a)
    requires a.length + b.length < |tz.chars| && scan(tz, a.length) == Emit(b)
    requires scan(tz, a.length + b.length) == Emit(c) && a.length + b.length + c.length >= |tz.chars|
    ensures TokenizeFrom(scan, tz, 0) == Ok(Scanned([a, b, c], tz.line))
  {
    EmitThen(scan, tz, a.length + b.length, c, [], tz.line);
    EmitThen(scan, tz, a.length, b, [c] + [], tz.line);
    EmitThen(scan, tz, 0, a, [b] + ([c] + []), tz.line);
    assert [a] + ([b] + ([c] + [])) == [a, b, c];
  }

  /** Three emitting iterations, the third after a blank, ending exactly
      at the end of the text. */
  lemma {:induction false} GapThreeTokens(scan: StepFn, tz: Tokenizer, a: Token, b: Token, c: Token)
    requires Lawful(scan) && tz.currentIndex == 0
    requires var k := a.length + b.length;
      k + 1 < |tz.chars| && (tz.chars[k] == ' ' || tz.chars[k] == '\t') && k + 1 + c.length >= |tz.chars|
    requires scan(tz, 0) == Emit(a) && scan(tz, a.length) == Emit(b)
    requires scan(tz, a.length + b.length + 1) == Emit(c)
    ensures TokenizeFrom(scan, tz, 0) == Ok(Scanned([a, b, c], tz.line))
  {
    var k := a.length + b.length;
    EmitThen(scan, tz, k + 1, c, [], tz.line);
    SkipThenRest(scan, tz, k);
    EmitThen(scan, tz, a.length, b, [c] + [], tz.line);
    EmitThen(scan, tz, 0, a, [b] + ([c] + []), tz.line);
    assert [a] + ([b] + ([c] + [])) == [a, b, c];
  }

  /** A run of five emitting iterations that ends exactly at the end of
      the text. */
  lemma {:induction false} FiveTokens(scan: StepFn, tz: Tokenizer, a: Token, b: Token, c: Token, d: Token, e: Token)
    requires Lawful(scan) && tz.currentIndex == 0
    requires a.length < |tz.chars| && scan(tz, 0) == Emit(a)
    requires a.length + b.length < |tz.chars| && scan(tz, a.length) == Emit(b)
    requires a.length + b.length + c.length < |tz.chars|
    requires scan(tz, a.length + b.length) == Emit(c)
    requires a.length + b.length + c.length + d.length < |tz.chars|
    requires scan(tz, a.length + b.length + c.length) == Emit(d)
    requires scan(tz, a.length + b.length + c.length + d.length) == Emit(e)
    requires a.length + b.length + c.length + d.length + e.length >= |tz.chars|
    ensures TokenizeFrom(scan, tz, 0) == Ok(Scanned([a, b, c, d, e], tz.line))
  {
    var ke := a.length + b.length + c.length + d.length;
    EmitThen(scan, tz, ke, e, [], tz.line);
    EmitThen(scan, tz, a.length + b.length + c.length, d, [e] + [], tz.line);
    EmitThen(scan, tz, a.length + b.length, c, [d] + ([e] + []), tz.line);
    EmitThen(scan, tz, a.length, b, [c] + ([d] + ([e] + [])), tz.line);
    EmitThen(scan, tz, 0, a, [b] + ([c] + ([d] + ([e] + []))), tz.line);
    assert [a] + ([b] + ([c] + ([d] + ([e] + [])))) == [a, b, c, d, e];
  }

  // The scanners' steps at the five numbers of the scenario.

  lemma {:induction false} ScenarioStepFloat(root: KeywordTree)
    requires WellKeyed(root) && NoDigitOrUnderscoreEdge(root)
    ensures Stepper(Corrected, root)(New(Scenario), 0) == Emit(Token(Float, 0, 4, 0))
  {
    ParsesFraction(ScannerAt(Corrected, New(Scenario), 0));
    NumberStep(Corrected, root, New(Scenario), 0, Token(Float, 0, 4, 0));
  }

  lemma {:induction false} ScenarioStepInteger(root: KeywordTree)
    requires WellKeyed(root) && NoDigitOrUnderscoreEdge(root)
    ensures Stepper(Corrected, root)(New(Scenario), 4) == Emit(Token(Integer, 4, 3, 0))
  {
    ParsesTwoDigits(ScannerAt(Corrected, New(Scenario), 4));
    NumberStep(Corrected, root, New(Scenario), 4, Token(Integer, 4, 3, 0));
  }

  lemma {:induction false} ScenarioStepComplexFraction(root: KeywordTree)
    requires WellKeyed(root) && NoDigitOrUnderscoreEdge(root)
    ensures Stepper(Corrected, root)(New(Scenario), 7) == Emit(Token(Complex, 7, 5, 0))
  {
    ParsesComplexFraction(ScannerAt(Corrected, New(Scenario), 7));
    NumberStep(Corrected, root, New(Scenario), 7, Token(Complex, 7, 5, 0));
  }

  lemma {:induction false} ScenarioStepComplexExponent(root: KeywordTree)
    requires WellKeyed(root) && NoDigitOrUnderscoreEdge(root)
    ensures Stepper(Corrected, root)(New(Scenario), 12) == Emit(Token(Complex, 12, 6, 0))
  {
    ParsesComplexExponent(ScannerAt(Corrected, New(Scenario), 12));
    NumberStep(Corrected, root, New(Scenario), 12, Token(Complex, 12, 6, 0));
  }

  lemma {:induction false} ScenarioStepIntegerExponent(root: KeywordTree)
    requires WellKeyed(root) && NoDigitOrUnderscoreEdge(root)
    ensures Stepper(Corrected, root)(New(Scenario), 18) == Emit(Token(Integer, 18, 5, 0))
  {
    ParsesIntegerExponent(ScannerAt(Corrected, New(Scenario), 18));
    NumberStep(Corrected, root, New(Scenario), 18, Token(Integer, 18, 5, 0));
  }

  /** Numbers of every kind separated by single spaces: with the scanners at
      the driver's position the over-long lengths land exactly on the next
      number. An exponent alone keeps a number an integer. */
  lemma {:induction false} NumberScenario(root: KeywordTree)
    requires WellKeyed(root) && NoDigitOrUnderscoreEdge(root)
    ensures TokenizeFrom(Stepper(Corrected, root), New(Scenario), 0) ==
      Ok(Scanned([
        Token(Float, 0, 4, 0),
        Token(Integer, 4, 3, 0),
        Token(Complex, 7, 5, 0),
        Token(Complex, 12, 6, 0),
        Token(Integer, 18, 5, 0)], 0))
  {
    StepperLaws(Corrected, root);
    ScenarioStepFloat(root);
    ScenarioStepInteger(root);
    ScenarioStepComplexFraction(root);
    ScenarioStepComplexExponent(root);
    ScenarioStepIntegerExponent(root);
    FiveTokens(Stepper(Corrected, root), New(Scenario),
      Token(Float, 0, 4, 0), Token(Integer, 4, 3, 0), Token(Complex, 7, 5, 0),
      Token(Complex, 12, 6, 0), Token(Integer, 18, 5, 0));
  }

  // As written, the second number of the scenario is the first one
  // rescanned, so the driver lands on the `.` of `2.1J`.

  lemma {:induction false} AsWrittenScenarioFirstStep(root: KeywordTree)
    requires WellKeyed(root) && NoDigitOrUnderscoreEdge(root)
    ensures Stepper(AsWritten, root)(New(Scenario), 0) == Emit(Token(Float, 0, 4, 0))
  {
    ParsesFraction(ScannerAt(AsWritten, New(Scenario), 0));
    NumberStep(AsWritten, root, New(Scenario), 0, Token(Float, 0, 4, 0));
  }

  lemma {:induction false} AsWrittenScenarioSecondStep(root: KeywordTree)
    requires WellKeyed(root) && NoDigitOrUnderscoreEdge(root)
    ensures Stepper(AsWritten, root)(New(Scenario), 4) == Emit(Token(Float, 0, 4, 0))
  {
    assert IsDigit(Scenario[4]);
    assert ScannerAt(AsWritten, New(Scenario), 4) == New(Scenario);
    ParsesFraction(New(Scenario));
    NumberStep(AsWritten, root, New(Scenario), 4, Token(Float, 0, 4, 0));
  }

  lemma {:induction false} AsWrittenScenarioStopsAtDot(root: KeywordTree)
    requires WellKeyed(root) && NoDigitOrUnderscoreEdge(root)
    ensures Stepper(AsWritten, root)(New(Scenario), 8) == Stop(UnknownToken)
  {
    OperatorStep(AsWritten, root, New(Scenario), 8);
    DigitsOrUnderscoresNeverMatch(root, ScannerAt(AsWritten, New(Scenario), 8));
  }

  /** As written the scenario aborts: the over-long length of the rescanned
      first number carries the driver onto a `.`, which no scanner takes. */
  lemma {:induction false} AsWrittenScenarioAborts(root: KeywordTree)
    requires WellKeyed(root) && NoDigitOrUnderscoreEdge(root)
    ensures TokenizeFrom(Stepper(AsWritten, root), New(Scenario), 0) == Fail(UnknownToken)
  {
    var scan := Stepper(AsWritten, root);
    StepperLaws(AsWritten, root);
    AsWrittenScenarioFirstStep(root);
    AsWrittenScenarioSecondStep(root);
    AsWrittenScenarioStopsAtDot(root);
    assert TokenizeFrom(scan, New(Scenario), 8) == Fail(UnknownToken);
    assert TokenizeFrom(scan, New(Scenario), 4) == Fail(UnknownToken);
  }

  /** `tokenize("3 + 1")` over the populated trie, as written and
      corrected. */
  lemma {:induction false} SourceTest()
    ensures Tokenize(AsWritten, New("3 + 1")) == Fail(UnknownToken)
    ensures Tokenize(Corrected, New("3 + 1")) ==
      Ok(Scanned([Token(Integer, 0, 2, 0), Token(Plus, 2, 1, 0), Token(Integer, 4, 2, 0)], 0))
  {
    PopulateRecognises();
    RecognisedRootEdges(Populate());
    SourceTestAborts(Populate());
    CorrectedSourceTest(Populate());
  }
}
