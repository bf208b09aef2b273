/** The scanner of src/token.rs: `parse_number`, `parse_reserved`,
    `parse_identifier` and the `tokenize` driver.

    The three scanners read the tokenizer's `current_index`, which the
    driver never advances: the driver walks its own character iterator and
    only skips as many characters as each token's reported length. The
    scanners are therefore modelled as functions of the `Tokenizer` record
    (its `currentIndex` included), and the driver separately. */
module Scanner {
  import opened Faults
  import opened TokenTypes
  import opened KeywordTrie

  /** Scanner state: the characters, the index the scanners start from and
      the current source line. */
  datatype Tokenizer = Tokenizer(chars: seq<char>, currentIndex: nat, line: nat)

  function New(source: string): Tokenizer {
    Tokenizer(source, 0, 0)
  }

  /** `peek(distance)`: the character `distance` past `currentIndex`. */
  function Peek(tz: Tokenizer, distance: nat): (r: Option<char>)
    ensures r.Some? <==> tz.currentIndex + distance < |tz.chars|
    ensures r.Some? ==> r.value == tz.chars[tz.currentIndex + distance]
  {
    if tz.currentIndex + distance < |tz.chars| then Some(tz.chars[tz.currentIndex + distance]) else None
  }

  // ---------------------------------------------------------------------
  // Character runs

  datatype CharClass = NumberDigit | IdentifierChar

  predicate InClass(cls: CharClass, c: char) {
    match cls
    case NumberDigit => IsDigit(c) || IsUnderscore(c)
    case IdentifierChar => IsDigit(c) || IsAlpha(c) || IsUnderscore(c)
  }

  /** Length of the maximal run of `cls` characters starting at `i`. */
  function Span(s: seq<char>, i: nat, cls: CharClass): (n: nat)
    requires i <= |s|
    ensures i + n <= |s|
    ensures forall k :: i <= k < i + n ==> InClass(cls, s[k])
    ensures i + n == |s| || !InClass(cls, s[i + n])
    decreases |s| - i
  {
    if i < |s| && InClass(cls, s[i]) then 1 + Span(s, i + 1, cls) else 0
  }

  predicate CharIs(s: seq<char>, i: nat, a: char, b: char) {
    i < |s| && (s[i] == a || s[i] == b)
  }

  // ---------------------------------------------------------------------
  // Number literals

  /** End of the initial digit run. */
  function IntEnd(s: seq<char>, pos: nat): nat
    requires pos <= |s|
  {
    pos + Span(s, pos, NumberDigit)
  }

  /** End of the optional `.` and fraction digits that start at `i`. */
  function FracEnd(s: seq<char>, i: nat): (e: nat)
    requires i <= |s|
    ensures i <= e <= |s|
  {
    if CharIs(s, i, '.', '.') then i + 1 + Span(s, i + 1, NumberDigit) else i
  }

  /** End of the optional exponent (`e`/`E`, optional sign, digits) that
      starts at `i`. */
  function ExpEnd(s: seq<char>, i: nat): (e: nat)
    requires i <= |s|
    ensures i <= e <= |s|
  {
    if CharIs(s, i, 'e', 'E') then
      var k := if CharIs(s, i + 1, '+', '-') then i + 2 else i + 1;
      k + Span(s, k, NumberDigit)
    else i
  }

  /** End of the optional complex suffix at `i`. */
  function SuffixEnd(s: seq<char>, i: nat): (e: nat)
    requires i <= |s|
    ensures i <= e <= |s|
  {
    if CharIs(s, i, 'j', 'J') then i + 1 else i
  }

  /** `parse_number`: scan digits, an optional fraction, an optional
      exponent and an optional `j`/`J`, starting at `currentIndex`. The
      reported length starts from 1, so it is one more than the number of
      characters consumed. */
  function ParseNumber(tz: Tokenizer): (r: Result<Token>)
    ensures r.Ok? <==> tz.currentIndex <= |tz.chars|
    ensures r.Ok? ==> r.value.length >= 1 && r.value.start == tz.currentIndex && r.value.line == tz.line
    ensures r.Ok? ==> IsNumberType(r.value.tokentype)
  {
    if tz.currentIndex > |tz.chars| then Fail(SliceOutOfRange)
    else
      var s, pos := tz.chars, tz.currentIndex;
      var i1 := IntEnd(s, pos);
      var foundDot := CharIs(s, i1, '.', '.');
      var i2 := FracEnd(s, i1);
      var i3 := ExpEnd(s, i2);
      var foundJ := CharIs(s, i3, 'j', 'J');
      var i4 := SuffixEnd(s, i3);
      var tokentype := if foundJ then Complex else if foundDot then Float else Integer;
      Ok(Token(tokentype, pos, 1 + (i4 - pos), tz.line))
  }


  /** `parse_number` in terms of where its stages end. */
  lemma {:induction false} ParseNumberOfStages(tz: Tokenizer, i1: nat, i2: nat, i3: nat)
    requires tz.currentIndex <= |tz.chars|
    requires IntEnd(tz.chars, tz.currentIndex) == i1
    requires i1 <= |tz.chars| && FracEnd(tz.chars, i1) == i2
    requires i2 <= |tz.chars| && ExpEnd(tz.chars, i2) == i3
    ensures i3 <= |tz.chars|
    ensures ParseNumber(tz) == Ok(Token(
      if CharIs(tz.chars, i3, 'j', 'J') then Complex else if CharIs(tz.chars, i1, '.', '.') then Float else Integer,
      tz.currentIndex, 1 + (SuffixEnd(tz.chars, i3) - tz.currentIndex), tz.line))
  {
  }

  // Small literal shapes, at any position; each reported length is one
  // more than the characters consumed.

  /** A single digit followed by the end, a space or a `+` is an integer. */
  lemma {:induction false} ParsesOneDigit(tz: Tokenizer)
    requires var c, p := tz.chars, tz.currentIndex;
      p < |c| && IsDigit(c[p]) && (p + 1 == |c| || c[p + 1] == ' ' || c[p + 1] == '+')
    ensures ParseNumber(tz) == Ok(Token(Integer, tz.currentIndex, 2, tz.line))
  {
    var c, p := tz.chars, tz.currentIndex;
    assert Span(c, p + 1, NumberDigit) == 0;
    ParseNumberOfStages(tz, p + 1, p + 1, p + 1);
  }

  /** `d.d` followed by a space is a float. */
  lemma {:induction false} ParsesFraction(tz: Tokenizer)
    requires var c, p := tz.chars, tz.currentIndex;
      p + 3 < |c| && IsDigit(c[p]) && c[p + 1] == '.' && IsDigit(c[p + 2]) && c[p + 3] == ' '
    ensures ParseNumber(tz) == Ok(Token(Float, tz.currentIndex, 4, tz.line))
  {
    var c, p := tz.chars, tz.currentIndex;
    assert Span(c, p + 1, NumberDigit) == 0;
    assert Span(c, p + 3, NumberDigit) == 0;
    ParseNumberOfStages(tz, p + 1, p + 3, p + 3);
  }

  /** `dd` followed by a space is an integer. */
  lemma {:induction false} ParsesTwoDigits(tz: Tokenizer)
    requires var c, p := tz.chars, tz.currentIndex;
      p + 2 < |c| && IsDigit(c[p]) && IsDigit(c[p + 1]) && c[p + 2] == ' '
    ensures ParseNumber(tz) == Ok(Token(Integer, tz.currentIndex, 3, tz.line))
  {
    var c, p := tz.chars, tz.currentIndex;
    assert Span(c, p + 2, NumberDigit) == 0;
    assert Span(c, p + 1, NumberDigit) == 1;
    ParseNumberOfStages(tz, p + 2, p + 2, p + 2);
  }

  /** `d.dJ` followed by a space is a complex number. */
  lemma {:induction false} ParsesComplexFraction(tz: Tokenizer)
    requires var c, p := tz.chars, tz.currentIndex;
      p + 4 < |c| && IsDigit(c[p]) && c[p + 1] == '.' && IsDigit(c[p + 2]) && c[p + 3] == 'J' && c[p + 4] == ' '
    ensures ParseNumber(tz) == Ok(Token(Complex, tz.currentIndex, 5, tz.line))
  {
    var c, p := tz.chars, tz.currentIndex;
    assert Span(c, p + 1, NumberDigit) == 0;
    assert Span(c, p + 3, NumberDigit) == 0;
    ParseNumberOfStages(tz, p + 1, p + 3, p + 3);
  }

  /** `de-dj` followed by a space is a complex number. */
  lemma {:induction false} ParsesComplexExponent(tz: Tokenizer)
    requires var c, p := tz.chars, tz.currentIndex;
      p + 5 < |c| && IsDigit(c[p]) && c[p + 1] == 'e' && c[p + 2] == '-' && IsDigit(c[p + 3])
      && c[p + 4] == 'j' && c[p + 5] == ' '
    ensures ParseNumber(tz) == Ok(Token(Complex, tz.currentIndex, 6, tz.line))
  {
    var c, p := tz.chars, tz.currentIndex;
    assert Span(c, p + 1, NumberDigit) == 0;
    assert Span(c, p + 4, NumberDigit) == 0;
    ParseNumberOfStages(tz, p + 1, p + 1, p + 4);
  }

  /** `de-d` at the end of the text is an integer: an exponent alone does
      not make a float. */
  lemma {:induction false} ParsesIntegerExponent(tz: Tokenizer)
    requires var c, p := tz.chars, tz.currentIndex;
      p + 4 == |c| && IsDigit(c[p]) && c[p + 1] == 'e' && c[p + 2] == '-' && IsDigit(c[p + 3])
    ensures ParseNumber(tz) == Ok(Token(Integer, tz.currentIndex, 5, tz.line))
  {
    var c, p := tz.chars, tz.currentIndex;
    assert Span(c, p + 1, NumberDigit) == 0;
    assert Span(c, p + 4, NumberDigit) == 0;
    ParseNumberOfStages(tz, p + 1, p + 1, p + 4);
  }

  // ---------------------------------------------------------------------
  // Number literals: an independent reference automaton

  /** States of an automaton for the number grammar
      `D* ('.' D*)? ([eE] [+-]? D*)? [jJ]?` with `D` a digit or underscore. */
  datatype NumState = IntPart | FracPart | ExpMark | ExpDigits | Imaginary | Reject

  function NumStep(st: NumState, c: char): NumState {
    var digit := IsDigit(c) || IsUnderscore(c);
    var imag := c == 'j' || c == 'J';
    var expo := c == 'e' || c == 'E';
    match st
    case IntPart =>
      if digit then IntPart else if c == '.' then FracPart else if expo then ExpMark else if imag then Imaginary else Reject
    case FracPart =>
      if digit then FracPart else if expo then ExpMark else if imag then Imaginary else Reject
    case ExpMark =>
      if digit || c == '+' || c == '-' then ExpDigits else if imag then Imaginary else Reject
    case ExpDigits =>
      if digit then ExpDigits else if imag then Imaginary else Reject
    case Imaginary => Reject
    case Reject => Reject
  }

  /** The automaton's state after reading `w`. */
  function NumRun(w: seq<char>): NumState
    decreases |w|
  {
    if w == [] then IntPart else NumStep(NumRun(w[..|w| - 1]), w[|w| - 1])
  }

  predicate IsNumberLexeme(w: seq<char>) {
    NumRun(w) != Reject
  }

  /** The numeric kind a lexeme denotes: complex when it ends in `j`/`J`,
      otherwise float when it holds a `.`, otherwise integer (an exponent
      alone does not make a float). */
  function NumberKind(w: seq<char>): TokenType {
    if |w| > 0 && (w[|w| - 1] == 'j' || w[|w| - 1] == 'J') then Complex
    else if '.' in w then Float
    else Integer
  }

  /** Reading one more character of `s` steps the automaton once. */
  lemma {:induction false} RunStep(s: seq<char>, pos: nat, i: nat)
    requires pos <= i < |s|
    ensures NumRun(s[pos..i + 1]) == NumStep(NumRun(s[pos..i]), s[i])
  {
    assert s[pos..i + 1][..i - pos] == s[pos..i];
  }

  /** Reading a digit run leaves the integer, fraction and exponent-digit
      states where they are. */
  lemma {:induction false} RunThroughDigits(s: seq<char>, pos: nat, i: nat)
    requires pos <= i <= |s|
    requires NumRun(s[pos..i]) in {IntPart, FracPart, ExpDigits}
    ensures NumRun(s[pos..i + Span(s, i, NumberDigit)]) == NumRun(s[pos..i])
    decreases |s| - i
  {
    if i < |s| && InClass(NumberDigit, s[i]) {
      RunStep(s, pos, i);
      RunThroughDigits(s, pos, i + 1);
    }
  }

  /** Once rejected, always rejected. */
  lemma {:induction false} RejectIsFinal(w: seq<char>, k: nat)
    requires k <= |w| && NumRun(w[..k]) == Reject
    ensures NumRun(w) == Reject
    decreases |w| - k
  {
    if k < |w| {
      assert w[..k + 1][..k] == w[..k];
      RejectIsFinal(w, k + 1);
    } else {
      assert w[..k] == w;
    }
  }

  /** Every prefix of a number lexeme is a number lexeme. */
  lemma {:induction false} PrefixOfNumberLexeme(w: seq<char>, k: nat)
    requires k <= |w| && IsNumberLexeme(w)
    ensures IsNumberLexeme(w[..k])
  {
    if NumRun(w[..k]) == Reject {
      RejectIsFinal(w, k);
    }
  }

  /** Stage 1: the initial digit run keeps the automaton in `IntPart`. */
  lemma {:induction false} StageInt(s: seq<char>, pos: nat)
    requires pos <= |s|
    ensures NumRun(s[pos..IntEnd(s, pos)]) == IntPart
  {
    assert s[pos..pos] == [];
    RunThroughDigits(s, pos, pos);
  }

  /** Stage 2: an optional `.` and digit run lead to `FracPart`. */
  lemma {:induction false} StageFrac(s: seq<char>, pos: nat, i: nat)
    requires pos <= i <= |s| && NumRun(s[pos..i]) == IntPart
    ensures NumRun(s[pos..FracEnd(s, i)]) == if CharIs(s, i, '.', '.') then FracPart else IntPart
  {
    if CharIs(s, i, '.', '.') {
      RunStep(s, pos, i);
      RunThroughDigits(s, pos, i + 1);
    }
  }

  /** After the exponent mark at `i`, the optional sign and the digits
      leave the automaton in `ExpDigits`, or in `ExpMark` when nothing
      followed the mark. */
  lemma {:induction false} ExpTail(s: seq<char>, pos: nat, i: nat)
    requires pos <= i < |s| && CharIs(s, i, 'e', 'E') && NumRun(s[pos..i + 1]) == ExpMark
    ensures ExpEnd(s, i) > i
    ensures NumRun(s[pos..ExpEnd(s, i)]) == if ExpEnd(s, i) == i + 1 then ExpMark else ExpDigits
  {
    var signed := CharIs(s, i + 1, '+', '-');
    var digit := i + 1 < |s| && InClass(NumberDigit, s[i + 1]);
    if signed || digit {
      if signed { ExpEndSigned(s, i); } else { ExpEndDigit(s, i); }
      ExpTailAfter(s, pos, i + 1);
    } else {
      ExpEndBare(s, i);
    }
  }

  lemma {:induction false} ExpEndSigned(s: seq<char>, i: nat)
    requires CharIs(s, i, 'e', 'E') && CharIs(s, i + 1, '+', '-')
    ensures ExpEnd(s, i) == i + 2 + Span(s, i + 2, NumberDigit)
  {
  }

  lemma {:induction false} ExpEndDigit(s: seq<char>, i: nat)
    requires CharIs(s, i, 'e', 'E') && i + 1 < |s| && InClass(NumberDigit, s[i + 1])
    ensures ExpEnd(s, i) == i + 2 + Span(s, i + 2, NumberDigit)
  {
    assert !CharIs(s, i + 1, '+', '-');
    assert Span(s, i + 1, NumberDigit) == 1 + Span(s, i + 2, NumberDigit);
  }

  lemma {:induction false} ExpEndBare(s: seq<char>, i: nat)
    requires CharIs(s, i, 'e', 'E') && !CharIs(s, i + 1, '+', '-')
    requires !(i + 1 < |s| && InClass(NumberDigit, s[i + 1]))
    ensures ExpEnd(s, i) == i + 1
  {
    assert Span(s, i + 1, NumberDigit) == 0;
  }

  /** A sign or digit right after the mark, and the digits after it. */
  lemma {:induction false} ExpTailAfter(s: seq<char>, pos: nat, k: nat)
    requires pos < k < |s| && NumRun(s[pos..k]) == ExpMark
    requires s[k] == '+' || s[k] == '-' || InClass(NumberDigit, s[k])
    ensures NumRun(s[pos..k + 1 + Span(s, k + 1, NumberDigit)]) == ExpDigits
  {
    RunStep(s, pos, k);
    RunThroughDigits(s, pos, k + 1);
  }

  /** Stage 3: an optional exponent leads to `ExpMark` or `ExpDigits`. */
  lemma {:induction false} StageExp(s: seq<char>, pos: nat, i: nat)
    requires pos <= i <= |s| && NumRun(s[pos..i]) in {IntPart, FracPart}
    ensures CharIs(s, i, 'e', 'E') ==> NumRun(s[pos..ExpEnd(s, i)]) in {ExpMark, ExpDigits}
    ensures !CharIs(s, i, 'e', 'E') ==> ExpEnd(s, i) == i
  {
    if CharIs(s, i, 'e', 'E') {
      RunStep(s, pos, i);
      ExpTail(s, pos, i);
    }
  }

  /** After an exponent, the next character can only be read as the
      complex suffix, or not at all. */
  lemma {:induction false} StopAfterExp(s: seq<char>, pos: nat, i: nat)
    requires pos <= i <= |s| && NumRun(s[pos..i]) in {IntPart, FracPart} && CharIs(s, i, 'e', 'E')
    ensures var e := ExpEnd(s, i); e == |s| || NumStep(NumRun(s[pos..e]), s[e]) in {Imaginary, Reject}
  {
    RunStep(s, pos, i);
    ExpTail(s, pos, i);
    var e := ExpEnd(s, i);
    if e < |s| {
      if e == i + 1 {
        assert !CharIs(s, i + 1, '+', '-') && !InClass(NumberDigit, s[i + 1]);
      } else {
        ExpDigitsStop(s[e]);
      }
    }
  }

  lemma {:induction false} ExpDigitsStop(c: char)
    requires !InClass(NumberDigit, c)
    ensures NumStep(ExpDigits, c) in {Imaginary, Reject}
  {
  }

  /** Without an exponent, the same holds after the fraction. */
  lemma {:induction false} StopWithoutExp(s: seq<char>, pos: nat)
    requires pos <= |s|
    requires !CharIs(s, FracEnd(s, IntEnd(s, pos)), 'e', 'E')
    ensures var e := FracEnd(s, IntEnd(s, pos)); e == |s| || NumStep(NumRun(s[pos..e]), s[e]) in {Imaginary, Reject}
  {
    var i1 := IntEnd(s, pos);
    StageInt(s, pos);
    StageFrac(s, pos, i1);
    if CharIs(s, i1, '.', '.') {
      assert !InClass(NumberDigit, s[i1]);
    }
  }

  /** After stage 3, the next character can only be read as the complex
      suffix, or not at all. */
  lemma {:induction false} StageStop(s: seq<char>, pos: nat)
    requires pos <= |s|
    ensures var i3 := ExpEnd(s, FracEnd(s, IntEnd(s, pos)));
      i3 == |s| || NumStep(NumRun(s[pos..i3]), s[i3]) in {Imaginary, Reject}
  {
    var i1 := IntEnd(s, pos);
    var i2 := FracEnd(s, i1);
    StageInt(s, pos);
    StageFrac(s, pos, i1);
    if CharIs(s, i2, 'e', 'E') {
      StopAfterExp(s, pos, i2);
    } else {
      StopWithoutExp(s, pos);
    }
  }

  /** The automaton state after each stage of `parse_number`. */
  lemma {:induction false} NumberStages(s: seq<char>, pos: nat)
    requires pos <= |s|
    ensures var i1 := IntEnd(s, pos); var i2 := FracEnd(s, i1); var i3 := ExpEnd(s, i2);
      && NumRun(s[pos..i3]) in {IntPart, FracPart, ExpMark, ExpDigits}
      && (i3 == |s| || NumStep(NumRun(s[pos..i3]), s[i3]) in {Imaginary, Reject})
      && (CharIs(s, i3, 'j', 'J') <==> i3 < |s| && NumStep(NumRun(s[pos..i3]), s[i3]) == Imaginary)
  {
    var i1 := IntEnd(s, pos);
    var i2 := FracEnd(s, i1);
    StageInt(s, pos);
    StageFrac(s, pos, i1);
    StageExp(s, pos, i2);
    StageStop(s, pos);
  }

  /** What `parse_number` returns: the characters it consumes form the
      longest number lexeme at `currentIndex` (the next character cannot
      extend it), the kind is the lexeme's numeric kind, the start is
      `currentIndex`, the line is the current line, and the length is one
      more than the lexeme. */
  lemma {:induction false} ParseNumberScansLexeme(tz: Tokenizer)
    requires tz.currentIndex <= |tz.chars|
    ensures var r := ParseNumber(tz).value; var pos := tz.currentIndex;
      && pos + r.length - 1 <= |tz.chars|
      && var w := tz.chars[pos..pos + r.length - 1];
      && IsNumberLexeme(w)
      && (pos + |w| == |tz.chars| || !IsNumberLexeme(w + [tz.chars[pos + |w|]]))
      && r.tokentype == NumberKind(w)
      && r.start == pos && r.line == tz.line
  {
    var s, pos := tz.chars, tz.currentIndex;
    var i1 := IntEnd(s, pos);
    var i2 := FracEnd(s, i1);
    var i3 := ExpEnd(s, i2);
    var i4 := SuffixEnd(s, i3);
    ParseNumberOfStages(tz, i1, i2, i3);
    var r := ParseNumber(tz).value;
    assert r.length - 1 == i4 - pos && r.start == pos && r.line == tz.line;
    var w := s[pos..i4];
    assert pos + r.length - 1 == i4 && pos + |w| == i4;
    assert tz.chars[pos..pos + r.length - 1] == w;
    assert IsNumberLexeme(w) && (i4 == |s| || !IsNumberLexeme(w + [s[i4]])) by {
      StagesSpellLongestLexeme(s, pos);
    }
    assert r.tokentype == NumberKind(w) by {
      NumberKindOfStages(s, pos);
    }
  }

  /** The characters the four stages consume form a number lexeme that the
      next character cannot extend. */
  lemma {:induction false} StagesSpellLongestLexeme(s: seq<char>, pos: nat)
    requires pos <= |s|
    ensures var i4 := SuffixEnd(s, ExpEnd(s, FracEnd(s, IntEnd(s, pos))));
      var w := s[pos..i4];
      IsNumberLexeme(w) && (i4 == |s| || !IsNumberLexeme(w + [s[i4]]))
  {
    NumberStages(s, pos);
    var i3 := ExpEnd(s, FracEnd(s, IntEnd(s, pos)));
    var i4 := SuffixEnd(s, i3);
    var w := s[pos..i4];
    if CharIs(s, i3, 'j', 'J') {
      RunStep(s, pos, i3);
      assert NumRun(w) == Imaginary;
      if i4 < |s| {
        assert w + [s[i4]] == s[pos..i4 + 1];
        RunStep(s, pos, i4);
      }
    } else {
      assert w == s[pos..i3];
      if i3 < |s| {
        assert w + [s[i3]] == s[pos..i3 + 1];
        RunStep(s, pos, i3);
      }
    }
  }

  /** The kind `parse_number` picks from its flags agrees with the kind the
      consumed lexeme denotes. */
  lemma {:induction false} NumberKindOfStages(s: seq<char>, pos: nat)
    requires pos <= |s|
    ensures var i1 := IntEnd(s, pos); var i3 := ExpEnd(s, FracEnd(s, i1)); var i4 := SuffixEnd(s, i3);
      NumberKind(s[pos..i4]) ==
        if CharIs(s, i3, 'j', 'J') then Complex
        else if CharIs(s, i1, '.', '.') then Float
        else Integer
  {
    var i1 := IntEnd(s, pos);
    var i2 := FracEnd(s, i1);
    var i3 := ExpEnd(s, i2);
    var i4 := SuffixEnd(s, i3);
    var w := s[pos..i4];
    if !CharIs(s, i3, 'j', 'J') {
      assert i4 == i3;
      // the last consumed character is a digit, `.`, `e`, `E`, `+` or `-`
      if i4 > pos {
        assert w[|w| - 1] == s[i4 - 1];
        LastConsumedIsNotImaginary(s, pos);
      }
      if CharIs(s, i1, '.', '.') {
        assert w[i1 - pos] == '.';
      } else {
        forall k | pos <= k < i3
          ensures s[k] != '.'
        {
          DotOnlyAfterIntPart(s, pos, k);
        }
        assert '.' !in w;
      }
    }
  }

  lemma {:induction false} LastConsumedIsNotImaginary(s: seq<char>, pos: nat)
    requires pos <= |s|
    requires var i3 := ExpEnd(s, FracEnd(s, IntEnd(s, pos))); i3 > pos
    ensures var i3 := ExpEnd(s, FracEnd(s, IntEnd(s, pos))); s[i3 - 1] != 'j' && s[i3 - 1] != 'J'
  {
    var i1 := IntEnd(s, pos);
    var i2 := FracEnd(s, i1);
    var i3 := ExpEnd(s, i2);
    if CharIs(s, i2, 'e', 'E') {
    } else if CharIs(s, i1, '.', '.') {
    }
  }

  lemma {:induction false} DotOnlyAfterIntPart(s: seq<char>, pos: nat, k: nat)
    requires pos <= |s| && pos <= k < ExpEnd(s, FracEnd(s, IntEnd(s, pos)))
    requires !CharIs(s, IntEnd(s, pos), '.', '.')
    ensures s[k] != '.'
  {
  }

  /** A number lexeme that cannot be extended by its next character is the
      whole of any number lexeme it is a prefix of. */
  lemma {:induction false} MaximalPrefixIsWhole(w: seq<char>, n: nat)
    requires IsNumberLexeme(w) && n <= |w|
    requires n == |w| || !IsNumberLexeme(w[..n] + [w[n]])
    ensures n == |w|
  {
    if n < |w| {
      assert w[..n] + [w[n]] == w[..n + 1];
      PrefixOfNumberLexeme(w, n + 1);
    }
  }

  /** A number lexeme scanned on its own is consumed whole: the reported
      length is one more than the lexeme and the kind is the lexeme's. */
  lemma {:induction false} ParseNumberOfLexeme(w: seq<char>, line: nat)
    requires IsNumberLexeme(w)
    ensures var r := ParseNumber(Tokenizer(w, 0, line)).value;
      r.length == |w| + 1 && r.tokentype == NumberKind(w)
  {
    var iso := Tokenizer(w, 0, line);
    var r := ParseNumber(iso).value;
    var n := r.length - 1;
    assert n <= |w| && IsNumberLexeme(w[..n]) && r.tokentype == NumberKind(w[..n]) &&
      (n == |w| || !IsNumberLexeme(w[..n] + [w[n]])) by {
      ParseNumberScansLexeme(iso);
      assert w[0..n] == w[..n];
    }
    MaximalPrefixIsWhole(w, n);
    assert w[..n] == w;
  }

  /** Re-scanning a number lexeme on its own gives the same kind and the
      same reported length. */
  lemma {:induction false} NumberRescan(tz: Tokenizer)
    requires tz.currentIndex <= |tz.chars|
    ensures var r := ParseNumber(tz).value;
      var w := tz.chars[tz.currentIndex..tz.currentIndex + r.length - 1];
      var r' := ParseNumber(Tokenizer(w, 0, tz.line)).value;
      r'.tokentype == r.tokentype && r'.length == r.length
  {
    ParseNumberScansLexeme(tz);
    var r := ParseNumber(tz).value;
    var w := tz.chars[tz.currentIndex..tz.currentIndex + r.length - 1];
    ParseNumberOfLexeme(w, tz.line);
  }

  /** The same over the reported span itself: when a character follows
      the number, re-scanning the `length` characters from `start` on
      their own (the lexeme and that character) gives the same kind and
      the same reported length, since the follower cannot extend it. */
  lemma {:induction false} NumberRescanWithFollower(tz: Tokenizer)
    requires tz.currentIndex <= |tz.chars|
    requires tz.currentIndex + ParseNumber(tz).value.length <= |tz.chars|
    ensures var r := ParseNumber(tz).value;
      var v := tz.chars[tz.currentIndex..tz.currentIndex + r.length];
      var r' := ParseNumber(Tokenizer(v, 0, tz.line)).value;
      r'.tokentype == r.tokentype && r'.length == r.length
  {
    var pos := tz.currentIndex;
    var r := ParseNumber(tz).value;
    var n := r.length - 1;
    var w := tz.chars[pos..pos + n];
    var v := tz.chars[pos..pos + n + 1];
    assert IsNumberLexeme(w) && !IsNumberLexeme(v) && r.tokentype == NumberKind(w) by {
      ParseNumberScansLexeme(tz);
      assert v == w + [tz.chars[pos + n]];
    }
    var iso := Tokenizer(v, 0, tz.line);
    var r' := ParseNumber(iso).value;
    var m := r'.length - 1;
    assert m <= |v| && IsNumberLexeme(v[..m]) && r'.tokentype == NumberKind(v[..m]) by {
      ParseNumberScansLexeme(iso);
      assert v[0..m] == v[..m];
    }
    assert m == |v| || !IsNumberLexeme(v[..m] + [v[m]]) by {
      ParseNumberScansLexeme(iso);
      assert v[0..m] == v[..m];
    }
    assert v[..n] == w;
    LongestLexemeIsUnique(v, n, m);
  }

  /** Of a text whose first `n` characters form a number lexeme that its
      last character cannot extend, the only number-lexeme prefix that
      cannot be extended by its next character is that one. */
  lemma {:induction false} LongestLexemeIsUnique(v: seq<char>, n: nat, m: nat)
    requires |v| == n + 1 && IsNumberLexeme(v[..n]) && !IsNumberLexeme(v)
    requires m <= |v| && IsNumberLexeme(v[..m])
    requires m == |v| || !IsNumberLexeme(v[..m] + [v[m]])
    ensures m == n
  {
    assert v[..|v|] == v;
    if m < n {
      assert v[..m] + [v[m]] == v[..n][..m + 1];
      PrefixOfNumberLexeme(v[..n], m + 1);
    }
  }

  // ---------------------------------------------------------------------
  // Reserved words and operators

  /** Which characters the reserved-word walk may consume. The code admits
      only digits and underscores; `AnyChar` is the evidently intended guard
      (walk while the trie has a child). */
  datatype Guard = DigitsOrUnderscores | AnyChar

  predicate Admits(g: Guard, c: char) {
    match g
    case DigitsOrUnderscores => IsDigit(c) || IsUnderscore(c)
    case AnyChar => true
  }

  datatype Walked = Walked(node: KeywordTree, length: nat)

  /** The walk of `parse_reserved`: from `node`, follow `s[i..]` while the
      guard admits the next character and the trie has a child for it. */
  function Walk(node: KeywordTree, s: seq<char>, i: nat, g: Guard): (r: Walked)
    requires WellKeyed(node) && i <= |s|
    ensures i + r.length <= |s|
    decreases |s| - i
  {
    if i < |s| && Admits(g, s[i]) && s[i] in node.children then
      var w := Walk(node.children[s[i]], s, i + 1, g);
      Walked(w.node, w.length + 1)
    else
      Walked(node, 0)
  }

  /** The walk spells a trie path ending at the node it returns, every
      character it took was admitted, and it stopped only at the end of the
      text, at a character the guard refuses, or where the trie has no
      child. */
  lemma {:induction false} WalkSpells(node: KeywordTree, s: seq<char>, i: nat, g: Guard)
    requires WellKeyed(node) && i <= |s|
    ensures var r := Walk(node, s, i, g);
      && GetTokenType(node, s[i..i + r.length]) == Some(r.node)
      && (forall k :: i <= k < i + r.length ==> Admits(g, s[k]))
      && (i + r.length == |s| || !Admits(g, s[i + r.length]) || s[i + r.length] !in r.node.children)
    decreases |s| - i
  {
    if i < |s| && Admits(g, s[i]) && s[i] in node.children {
      var w := Walk(node.children[s[i]], s, i + 1, g);
      WalkSpells(node.children[s[i]], s, i + 1, g);
      assert s[i..i + 1 + w.length][1..] == s[i + 1..i + 1 + w.length];
    } else {
      assert s[i..i] == [];
    }
  }

  /** The loop of `parse_reserved` as written: `length` counts the
      characters taken so far, and each round reads `peek(length)`. */
  function PeekWalk(node: KeywordTree, tz: Tokenizer, length: nat, g: Guard): Walked
    requires WellKeyed(node) && tz.currentIndex + length <= |tz.chars|
    decreases |tz.chars| - tz.currentIndex - length
  {
    var chr := Peek(tz, length);
    if chr.Some? && Admits(g, chr.value) && chr.value in node.children then
      PeekWalk(node.children[chr.value], tz, length + 1, g)
    else
      Walked(node, length)
  }

  /** Counting the length up through `peek` walks exactly as `Walk` does
      over the text from `currentIndex`: the loop ends on the same node,
      having taken the same characters. */
  lemma {:induction false} PeekWalkIsWalk(node: KeywordTree, tz: Tokenizer, n: nat, g: Guard)
    requires WellKeyed(node) && tz.currentIndex + n <= |tz.chars|
    ensures var w := Walk(node, tz.chars, tz.currentIndex + n, g);
      PeekWalk(node, tz, n, g) == Walked(w.node, n + w.length)
    decreases |tz.chars| - tz.currentIndex - n
  {
    var chr := Peek(tz, n);
    if chr.Some? && Admits(g, chr.value) && chr.value in node.children {
      PeekWalkIsWalk(node.children[chr.value], tz, n + 1, g);
    }
  }

  /** With the intended guard the walk goes exactly as far as the longest
      trie path spelled from `i`. */
  lemma {:induction false} WalkReachesLongestPath(root: KeywordTree, s: seq<char>, i: nat, n: nat)
    requires WellKeyed(root) && i + n <= |s|
    requires HasPath(root, s[i..i + n])
    requires i + n == |s| || !HasPath(root, s[i..i + n + 1])
    ensures Walk(root, s, i, AnyChar).length == n
  {
    var w := Walk(root, s, i, AnyChar);
    var len := w.length;
    WalkSpells(root, s, i, AnyChar);
    if len < n {
      PathPrefixClosed(root, s[i..i + len + 1], s[i..i + n]);
      assert s[i..i + len + 1] == s[i..i + len] + [s[i + len]];
      WalkConcat(root, s[i..i + len], [s[i + len]]);
      assert false;
    } else if len > n {
      PathPrefixClosed(root, s[i..i + n + 1], s[i..i + len]);
      assert false;
    }
  }

  /** `parse_reserved` over a given trie and guard: walk the trie from
      `currentIndex`; a token only if at least one character was walked and
      the node reached is terminal (no backtracking to a shorter match). */
  function ReservedIn(root: KeywordTree, tz: Tokenizer, g: Guard): (r: Option<Token>)
    requires WellKeyed(root)
    ensures r.Some? ==> r.value.start == tz.currentIndex && r.value.line == tz.line && r.value.length >= 1
  {
    if tz.currentIndex > |tz.chars| then None
    else
      var w := Walk(root, tz.chars, tz.currentIndex, g);
      if w.length == 0 || w.node.token.None? then None
      else Some(Token(w.node.token.value, tz.currentIndex, w.length, tz.line))
  }

  /** `parse_reserved` with a given guard, over the populated trie. */
  function ParseReservedWith(tz: Tokenizer, g: Guard): (r: Option<Token>)
    ensures r.Some? ==> r.value.start == tz.currentIndex && r.value.line == tz.line && r.value.length >= 1
  {
    ReservedIn(Populate(), tz, g)
  }

  /** `parse_reserved` as written. */
  function ParseReserved(tz: Tokenizer): Option<Token> {
    ParseReservedWith(tz, DigitsOrUnderscores)
  }

  /** The token the reserved-word scan returns is read off the trie node
      that the walked characters spell. */
  lemma {:induction false} ReservedMatchFromTrie(root: KeywordTree, tz: Tokenizer, g: Guard)
    requires WellKeyed(root) && tz.currentIndex <= |tz.chars|
    ensures var w := Walk(root, tz.chars, tz.currentIndex, g);
      var spelled := tz.chars[tz.currentIndex..tz.currentIndex + w.length];
      ReservedIn(root, tz, g) ==
        if w.length > 0 && TokenAt(root, spelled).Some?
        then Some(Token(TokenAt(root, spelled).value, tz.currentIndex, |spelled|, tz.line))
        else None
  {
    WalkSpells(root, tz.chars, tz.currentIndex, g);
  }

  /** Over a trie that recognises the reserved lexemes, a match is exactly
      a walked string that spells a lexeme: the token's kind is that
      lexeme's type and its length the lexeme's. */
  lemma {:induction false} RecognisedMatchIsLexeme(root: KeywordTree, tz: Tokenizer, g: Guard)
    requires Recognises(root) && tz.currentIndex <= |tz.chars|
    ensures var w := Walk(root, tz.chars, tz.currentIndex, g);
      var spelled := tz.chars[tz.currentIndex..tz.currentIndex + w.length];
      ReservedIn(root, tz, g) ==
        if w.length > 0 && FromLexeme(spelled).Some?
        then Some(Token(FromLexeme(spelled).value, tz.currentIndex, |spelled|, tz.line))
        else None
  {
    var w := Walk(root, tz.chars, tz.currentIndex, g);
    var spelled := tz.chars[tz.currentIndex..tz.currentIndex + w.length];
    RecognisedTokens(root, spelled);
    MatchOfLexemeMarks(root, tz, g);
  }

  /** A trie that marks the walked string with the type it spells reports
      that type. */
  lemma {:induction false} MatchOfLexemeMarks(root: KeywordTree, tz: Tokenizer, g: Guard)
    requires WellKeyed(root) && tz.currentIndex <= |tz.chars|
    requires var w := Walk(root, tz.chars, tz.currentIndex, g);
      var spelled := tz.chars[tz.currentIndex..tz.currentIndex + w.length];
      TokenAt(root, spelled) == FromLexeme(spelled)
    ensures var w := Walk(root, tz.chars, tz.currentIndex, g);
      var spelled := tz.chars[tz.currentIndex..tz.currentIndex + w.length];
      ReservedIn(root, tz, g) ==
        if w.length > 0 && FromLexeme(spelled).Some?
        then Some(Token(FromLexeme(spelled).value, tz.currentIndex, |spelled|, tz.line))
        else None
  {
    ReservedMatchFromTrie(root, tz, g);
  }

  /** The same for `parse_reserved`'s own trie. */
  lemma {:induction false} ReservedMatchIsLexeme(tz: Tokenizer, g: Guard)
    requires tz.currentIndex <= |tz.chars|
    ensures var w := Walk(Populate(), tz.chars, tz.currentIndex, g);
      var spelled := tz.chars[tz.currentIndex..tz.currentIndex + w.length];
      ParseReservedWith(tz, g) ==
        if w.length > 0 && FromLexeme(spelled).Some?
        then Some(Token(FromLexeme(spelled).value, tz.currentIndex, |spelled|, tz.line))
        else None
  {
    PopulateRecognises();
    RecognisedMatchIsLexeme(Populate(), tz, g);
  }

  /** A child of a node is the end of a one-character path. */
  lemma {:induction false} ChildIsPath(t: KeywordTree, c: char)
    requires WellKeyed(t) && c in t.children
    ensures HasPath(t, [c])
  {
    assert GetTokenType(t, [c]) == GetTokenType(t.children[c], []);
  }

  /** No edge out of the root is labelled with a digit or an underscore. */
  predicate NoDigitOrUnderscoreEdge(root: KeywordTree) {
    forall c :: c in root.children ==> !IsDigit(c) && !IsUnderscore(c)
  }

  /** A trie that recognises the reserved lexemes has no such edge, since
      no reserved lexeme contains a digit or an underscore. */
  lemma {:induction false} RecognisedRootEdges(root: KeywordTree)
    requires Recognises(root)
    ensures NoDigitOrUnderscoreEdge(root)
  {
    forall c | c in root.children
      ensures !IsDigit(c) && !IsUnderscore(c)
    {
      ChildIsPath(root, c);
    }
  }

  /** Under the guard as written such a trie never yields a match: the
      guard admits only the characters the root has no edge for. */
  lemma {:induction false} DigitsOrUnderscoresNeverMatch(root: KeywordTree, tz: Tokenizer)
    requires WellKeyed(root) && NoDigitOrUnderscoreEdge(root)
    ensures ReservedIn(root, tz, DigitsOrUnderscores) == None
  {
  }

  /** As written, `parse_reserved` never matches. */
  lemma {:induction false} ParseReservedNeverMatches(tz: Tokenizer)
    ensures ParseReserved(tz) == None
  {
    PopulateRecognises();
    RecognisedRootEdges(Populate());
    DigitsOrUnderscoresNeverMatch(Populate(), tz);
  }

  /** With the intended guard, a trie that recognises the reserved lexemes
      finds every lexeme standing alone, as its own token type and with its
      full length. */
  lemma {:induction false} RecognisedFindsLexeme(root: KeywordTree, t: TokenType, line: nat)
    requires Recognises(root)
    ensures ReservedIn(root, Tokenizer(Lexeme(t), 0, line), AnyChar) ==
      Some(Token(t, 0, |Lexeme(t)|, line))
  {
    var s := Lexeme(t);
    assert s[0..|s|] == s;
    PrefixOfLexemeIsPath(root, s, t);
    WalkReachesLongestPath(root, s, 0, |s|);
    assert TokenAt(root, s) == Some(t);
    WalkedLexemeIsFound(root, Tokenizer(s, 0, line), s, t);
  }

  /** A walk that spells a path whose end the trie marks finds that
      token, with the path's length. */
  lemma {:induction false} WalkedLexemeIsFound(root: KeywordTree, at: Tokenizer, q: string, tt: TokenType)
    requires WellKeyed(root) && |q| > 0 && TokenAt(root, q) == Some(tt)
    requires var i := at.currentIndex;
      i + |q| <= |at.chars| && at.chars[i..i + |q|] == q && Walk(root, at.chars, i, AnyChar).length == |q|
    ensures ReservedIn(root, at, AnyChar) == Some(Token(tt, at.currentIndex, |q|, at.line))
  {
    ReservedMatchFromTrie(root, at, AnyChar);
  }

  /** The same for `parse_reserved`'s own trie. */
  lemma {:induction false} ParseReservedAnyCharFindsLexeme(t: TokenType, line: nat)
    ensures ParseReservedWith(Tokenizer(Lexeme(t), 0, line), AnyChar) ==
      Some(Token(t, 0, |Lexeme(t)|, line))
  {
    PopulateRecognises();
    RecognisedFindsLexeme(Populate(), t, line);
  }

  // ---------------------------------------------------------------------
  // Identifiers

  /** `parse_identifier`: the character at `currentIndex` and the maximal
      run of letters, digits and underscores after it. */
  function ParseIdentifier(tz: Tokenizer): (r: Result<Token>)
    ensures r.Ok? <==> tz.currentIndex < |tz.chars|
    ensures r.Ok? ==>
      && r.value.tokentype == Identifier && r.value.start == tz.currentIndex && r.value.line == tz.line
      && r.value.length >= 1
  {
    if tz.currentIndex + 1 > |tz.chars| then Fail(SliceOutOfRange)
    else
      var pos := tz.currentIndex;
      Ok(Token(Identifier, pos, 1 + Span(tz.chars, pos + 1, IdentifierChar), tz.line))
  }

  /** The identifier token covers its first character and then the maximal
      run of letters, digits and underscores: every character after the
      first is one, and the character after the token is not. */
  lemma {:induction false} ParseIdentifierScansRun(tz: Tokenizer)
    requires tz.currentIndex < |tz.chars|
    ensures var r := ParseIdentifier(tz).value; var pos := tz.currentIndex;
      && pos + r.length <= |tz.chars|
      && (forall k :: pos < k < pos + r.length ==> InClass(IdentifierChar, tz.chars[k]))
      && (pos + r.length == |tz.chars| || !InClass(IdentifierChar, tz.chars[pos + r.length]))
  {
  }
}
