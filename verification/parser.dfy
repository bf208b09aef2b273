/** Binding precedences of the Pratt compiler (`Precedence` of
    src/parser.rs) and their order. */
module Precedences {
  import F = Faults

  /** Lowest to highest, in declaration order: a precedence is its
      position, which the derived `Ord` compares. */
  newtype Precedence = x: int | 0 <= x < 12

  const None: Precedence := 0
  const Assignment: Precedence := 1
  const Or: Precedence := 2
  const And: Precedence := 3
  const Equality: Precedence := 4
  const Comparison: Precedence := 5
  const Term: Precedence := 6
  const Factor: Precedence := 7
  const Exponent: Precedence := 8
  const Unary: Precedence := 9
  const Call: Precedence := 10
  const Primary: Precedence := 11

  function Rank(p: Precedence): (r: nat)
    ensures r < 12
    ensures r == 0 <==> p == None
    ensures r == 11 <==> p == Primary
  {
    p as nat
  }

  predicate Le(a: Precedence, b: Precedence) {
    Rank(a) <= Rank(b)
  }

  /** `next`: the following precedence; `Primary` has none. */
  function Next(p: Precedence): (r: F.Result<Precedence>)
    ensures r.Ok? <==> p != Primary
    ensures r.Fail? ==> r.fault == F.NoNextPrecedence
    ensures r.Ok? ==> Rank(r.value) == Rank(p) + 1
  {
    if p == Primary then F.Fail(F.NoNextPrecedence) else F.Ok(p + 1)
  }

  /** `next(p)` is the immediate successor of `p`: above it, and below or
      equal to everything above `p`. */
  lemma {:induction false} NextIsImmediateSuccessor(p: Precedence, q: Precedence)
    requires p != Primary
    ensures Le(p, Next(p).value) && p != Next(p).value
    ensures Le(p, q) && p != q ==> Le(Next(p).value, q)
  {
    assert Rank(p) == Rank(q) <==> p == q;
  }
}

/** The Pratt compiler of src/parser.rs. The compiler's state becomes an
    explicit record, `emit_byte` (which has no body in the source) appends
    to an output trace, and every `panic!` becomes a `Fault`. */
module Parser {
  import opened Faults
  import opened TokenKinds
  import opened Precedences
  import B = Bytecode

  /** The prefix handlers of the rule table. Only `integer` has a body in
      the source, and it emits nothing. */
  datatype PrefixFn = GroupingFn | UnaryFn | IntegerFn | FloatFn | ComplexFn

  /** The infix handlers of the rule table. */
  datatype InfixFn = BinaryFn | CallFn

  datatype ParseRule = ParseRule(prefix: Option<PrefixFn>, infix: Option<InfixFn>, precedence: Precedence)

  /** `From<TokenType> for ParseRule`: the handlers and the binding
      precedence of each token kind. Every kind the source lists with no
      handler and precedence `None` falls into the last case. */
  function Rule(k: TokenKind): ParseRule {
    match k
    case Operator(LeftParen) => ParseRule(Some(GroupingFn), Some(CallFn), Call)
    case Operator(Plus) => ParseRule(Option.None, Some(BinaryFn), Term)
    case Operator(Minus) => ParseRule(Some(UnaryFn), Some(BinaryFn), Term)
    case Operator(Star) => ParseRule(Option.None, Some(BinaryFn), Factor)
    case Operator(Slash) => ParseRule(Option.None, Some(BinaryFn), Factor)
    case Operator(SlashSlash) => ParseRule(Option.None, Some(BinaryFn), Factor)
    case Operator(StarStar) => ParseRule(Option.None, Some(BinaryFn), Exponent)
    case Operator(Greater) => ParseRule(Option.None, Some(BinaryFn), Comparison)
    case Operator(GreaterEqual) => ParseRule(Option.None, Some(BinaryFn), Comparison)
    case Operator(Less) => ParseRule(Option.None, Some(BinaryFn), Comparison)
    case Operator(LessEqual) => ParseRule(Option.None, Some(BinaryFn), Comparison)
    case Operator(EqualEqual) => ParseRule(Option.None, Some(BinaryFn), Equality)
    case Operator(NotEqual) => ParseRule(Option.None, Some(BinaryFn), Equality)
    case Number(Integer) => ParseRule(Some(IntegerFn), Option.None, Precedences.None)
    case Number(Float) => ParseRule(Some(FloatFn), Option.None, Precedences.None)
    case Number(Complex) => ParseRule(Some(ComplexFn), Option.None, Precedences.None)
    case _ => ParseRule(Option.None, Option.None, Precedences.None)
  }

  /** Which opcode `binary` emits for the `>=` operator: `Greater` as
      written, `GreaterEqual` as evidently intended. */
  datatype Emission = AsWritten | Corrected

  /** The opcode `binary` emits for an operator token. */
  function BinaryOpcode(e: Emission, k: TokenKind): (r: Result<B.Op>)
    ensures r.Ok? <==> Rule(k).infix == Some(BinaryFn)
    ensures r.Fail? ==> r.fault == UnknownBinaryOperator
  {
    match k
    case Operator(Plus) => Ok(B.Add)
    case Operator(Minus) => Ok(B.Subtract)
    case Operator(Star) => Ok(B.Multiply)
    case Operator(Slash) => Ok(B.Divide)
    case Operator(StarStar) => Ok(B.Exponent)
    case Operator(SlashSlash) => Ok(B.IntDivide)
    case Operator(Less) => Ok(B.Less)
    case Operator(LessEqual) => Ok(B.LessEqual)
    case Operator(Greater) => Ok(B.Greater)
    case Operator(GreaterEqual) => if e == AsWritten then Ok(B.Greater) else Ok(B.GreaterEqual)
    case Operator(EqualEqual) => Ok(B.ValueEqual)
    case Operator(NotEqual) => Ok(B.NotValueEqual)
    case _ => Fail(UnknownBinaryOperator)
  }

  /** The two tables agree: a kind has the binary infix handler exactly
      when `binary` knows an opcode for it, and a kind has an infix handler
      exactly when it binds tighter than `None`. */
  lemma {:induction false} RuleTableAgreesWithOpcodes(e: Emission, k: TokenKind)
    ensures Rule(k).infix == Some(BinaryFn) <==> BinaryOpcode(e, k).Ok?
    ensures Rule(k).infix.Some? <==> Rule(k).precedence != Precedences.None
  {
  }

  /** The binding precedences of the operators. */
  lemma {:induction false} OperatorPrecedences(k: TokenKind)
    ensures k in {Operator(Plus), Operator(Minus)} <==> Rule(k).precedence == Term
    ensures k in {Operator(Star), Operator(Slash), Operator(SlashSlash)} <==> Rule(k).precedence == Factor
    ensures k == Operator(StarStar) <==> Rule(k).precedence == Precedences.Exponent
    ensures k in {Operator(Less), Operator(LessEqual), Operator(Greater), Operator(GreaterEqual)} <==>
      Rule(k).precedence == Comparison
    ensures k in {Operator(EqualEqual), Operator(NotEqual)} <==> Rule(k).precedence == Equality
    ensures k == Operator(LeftParen) <==> Rule(k).precedence == Precedences.Call
  {
  }

  /** As written, `>` and `>=` compile to the same opcode, so a compiled
      comparison cannot tell them apart. */
  lemma {:induction false} GreaterEqualCollides()
    ensures BinaryOpcode(AsWritten, Operator(GreaterEqual)) == BinaryOpcode(AsWritten, Operator(Greater))
  {
  }

  /** Corrected, distinct operators compile to distinct opcodes. */
  lemma {:induction false} CorrectedOpcodesDistinct(a: TokenKind, b: TokenKind)
    requires BinaryOpcode(Corrected, a).Ok? && BinaryOpcode(Corrected, b).Ok?
    ensures BinaryOpcode(Corrected, a) == BinaryOpcode(Corrected, b) <==> a == b
  {
  }

  // ---------------------------------------------------------------------
  // Compiler state

  /** One opcode handed to `emit_byte`, with its source line. */
  datatype Emitted = Emitted(op: B.Op, line: nat)

  /** The compiler: its tokens, the index of the current token and what it
      has emitted so far. */
  datatype ParserState = ParserState(tokens: seq<Token>, current: nat, trace: seq<Emitted>)

  function NewParser(tokens: seq<Token>): ParserState {
    ParserState(tokens, 0, [])
  }

  /** `current`: the token at the current index. */
  function CurrentToken(p: ParserState): (r: Result<Token>)
    ensures r.Ok? <==> p.current < |p.tokens|
    ensures r.Ok? ==> r.value == p.tokens[p.current]
    ensures r.Fail? ==> r.fault == TokenOutOfRange
  {
    if p.current < |p.tokens| then Ok(p.tokens[p.current]) else Fail(TokenOutOfRange)
  }

  /** `previous`: the token before the current index; the subtraction
      overflows at index 0. */
  function PreviousToken(p: ParserState): (r: Result<Token>)
    ensures r.Ok? <==> 0 < p.current <= |p.tokens|
    ensures r.Ok? ==> r.value == p.tokens[p.current - 1]
    ensures p.current == 0 ==> r == Fail(ArithmeticOverflow)
  {
    if p.current == 0 then Fail(ArithmeticOverflow)
    else if p.current - 1 < |p.tokens| then Ok(p.tokens[p.current - 1])
    else Fail(TokenOutOfRange)
  }

  function Advance(p: ParserState): ParserState {
    p.(current := p.current + 1)
  }

  /** `match_tokentype`: whether the current token has kind `k`, and the
      state after moving past it if so. */
  function MatchKind(p: ParserState, k: TokenKind): (r: Result<(bool, ParserState)>)
    ensures r.Ok? <==> p.current < |p.tokens|
    ensures r.Fail? ==> r.fault == TokenOutOfRange
    ensures r.Ok? ==> (r.value.0 <==> p.tokens[p.current].kind == k)
    ensures r.Ok? ==> r.value.1 == if r.value.0 then Advance(p) else p
  {
    var t :- CurrentToken(p);
    if t.kind == k then Ok((true, Advance(p))) else Ok((false, p))
  }

  /** `consume`: move past a token of kind `k`, or abort with `message`. */
  function Consume(p: ParserState, k: TokenKind, message: string): (r: Result<ParserState>)
    ensures r.Ok? <==> p.current < |p.tokens| && p.tokens[p.current].kind == k
    ensures r.Ok? ==> r.value == Advance(p)
    ensures r.Fail? && p.current < |p.tokens| ==> r.fault == ConsumeFailed(message)
  {
    var (found, q) :- MatchKind(p, k);
    if found then Ok(q) else Fail(ConsumeFailed(message))
  }

  function Emit(p: ParserState, op: B.Op, line: nat): ParserState {
    p.(trace := p.trace + [Emitted(op, line)])
  }

  /** What every parsing function keeps: the same tokens, and a trace
      that only grows. */
  predicate Extends(p: ParserState, q: ParserState) {
    q.tokens == p.tokens && q.current >= p.current && p.trace <= q.trace
  }

  // ---------------------------------------------------------------------
  // The accepted language

  /** The token has `integer` as its prefix handler. */
  predicate IsInteger(t: Token) {
    Rule(t.kind).prefix == Some(IntegerFn)
  }

  /** The token has `binary` as its infix handler. */
  predicate IsBinary(t: Token) {
    Rule(t.kind).infix == Some(BinaryFn)
  }

  /** The precedence `binary` parses the right operand of `t` at: one
      above the operator's own. */
  function OperandLevel(t: Token): (r: Precedence)
    requires IsBinary(t)
    ensures Rank(r) == Rank(Rule(t.kind).precedence) + 1
  {
    BinaryLevels(t);
    Next(Rule(t.kind).precedence).value
  }

  /** Binary operators bind between `Equality` and `Exponent`. */
  lemma {:induction false} BinaryLevels(t: Token)
    ensures IsBinary(t) ==> Rank(Equality) <= Rank(Rule(t.kind).precedence) <= Rank(Precedences.Exponent)
  {
  }

  /** The infix loop at level `prec` takes the token at `i` as a binary
      operator with an integer literal after it. */
  predicate Takes(ts: seq<Token>, i: nat, prec: Precedence) {
    i + 1 < |ts| && Le(prec, Rule(ts[i].kind).precedence) && IsBinary(ts[i]) && IsInteger(ts[i + 1])
  }

  /** Where a scan from `i` over operator and literal pairs that the loop
      at level `prec` takes comes to rest. */
  function Stop(ts: seq<Token>, i: nat, prec: Precedence): (m: nat)
    decreases |ts| - i
    ensures i <= m
    ensures i <= |ts| ==> m <= |ts|
  {
    if Takes(ts, i, prec) then Stop(ts, i + 2, prec) else i
  }

  /** The token `t` ends a loop at level `prec` normally: it does not bind
      that tightly, and it is not `=` where an assignment could start. */
  predicate Stops(prec: Precedence, assignable: bool, t: Token) {
    !Le(prec, Rule(t.kind).precedence) && !(assignable && t.kind == Operator(Equal))
  }

  /** The infix loop at level `prec` from `i` finishes normally. */
  predicate LoopAccepts(ts: seq<Token>, i: nat, prec: Precedence, assignable: bool) {
    Stop(ts, i, prec) < |ts| && Stops(prec, assignable, ts[Stop(ts, i, prec)])
  }

  /** `parse_precedence(prec)` from `i` finishes normally: an integer
      literal, then a loop that finishes normally. */
  predicate Accepts(ts: seq<Token>, i: nat, prec: Precedence) {
    i < |ts| && IsInteger(ts[i]) && LoopAccepts(ts, i + 1, prec, Le(prec, Assignment))
  }

  /** What `binary` emits for an operator token. */
  function Emits(e: Emission, t: Token): Emitted
    requires IsBinary(t)
  {
    Emitted(BinaryOpcode(e, t.kind).value, t.line)
  }

  /** The scan stops at a token it cannot take. */
  lemma {:induction false} StopEnds(ts: seq<Token>, i: nat, prec: Precedence)
    decreases |ts| - i
    ensures !Takes(ts, Stop(ts, i, prec), prec)
  {
    if Takes(ts, i, prec) {
      StopEnds(ts, i + 2, prec);
    }
  }

  /** A scan at a tighter level, continued at a looser one, is the scan
      at the looser level. */
  lemma {:induction false} StopCompose(ts: seq<Token>, i: nat, tight: Precedence, prec: Precedence)
    requires Le(prec, tight)
    decreases |ts| - i
    ensures Stop(ts, Stop(ts, i, tight), prec) == Stop(ts, i, prec)
  {
    if Takes(ts, i, tight) {
      StopCompose(ts, i + 2, tight, prec);
    }
  }

  /** A token that the loop at `prec` takes but the loop at `level` does
      not binds more loosely than `level`. */
  lemma {:induction false} TakenBelow(ts: seq<Token>, m: nat, prec: Precedence, level: Precedence)
    requires Takes(ts, m, prec) && !Takes(ts, m, level)
    ensures Rank(Rule(ts[m].kind).precedence) < Rank(level)
  {
  }

  /** Where the loop at `i` takes no round, it comes to rest at `i`, and
      finishes normally exactly when the token there ends it. */
  lemma {:induction false} NoRound(ts: seq<Token>, i: nat, prec: Precedence, a: bool)
    requires !(i < |ts| && Le(prec, Rule(ts[i].kind).precedence) && IsBinary(ts[i]))
    ensures Stop(ts, i, prec) == i
    ensures LoopAccepts(ts, i, prec, a) <==> i < |ts| && Stops(prec, a, ts[i])
  {
  }

  /** A round at a binary operator the loop binds: the loop finishes
      normally exactly when the right operand parses and the loop
      finishes normally from where the operand stops, and both loops
      come to rest at the same token. */
  lemma {:induction false} RoundAcceptance(ts: seq<Token>, i: nat, prec: Precedence, a: bool)
    requires i < |ts| && Le(prec, Rule(ts[i].kind).precedence) && IsBinary(ts[i])
    ensures var m := Stop(ts, i + 2, OperandLevel(ts[i]));
      (LoopAccepts(ts, i, prec, a) <==> Accepts(ts, i + 1, OperandLevel(ts[i])) && LoopAccepts(ts, m, prec, a)) &&
      (Accepts(ts, i + 1, OperandLevel(ts[i])) ==> Stop(ts, m, prec) == Stop(ts, i, prec))
  {
    var level := OperandLevel(ts[i]);
    var m := Stop(ts, i + 2, level);
    if Takes(ts, i, prec) {
      StopCompose(ts, i + 2, level, prec);
      StopEnds(ts, i + 2, level);
      assert Stop(ts, i, prec) == Stop(ts, i + 2, prec);
      BinaryLevels(ts[i]);
      if LoopAccepts(ts, i, prec, a) && !Takes(ts, m, prec) {
        assert Stop(ts, m, prec) == m;
      }
    }
  }

  // ---------------------------------------------------------------------
  // Parsing

  /** Run a prefix handler. `integer` does nothing; the others have no
      body in the source. */
  function RunPrefix(h: PrefixFn, p: ParserState): (r: Result<ParserState>)
    ensures r.Ok? <==> h == IntegerFn
    ensures r.Ok? ==> r.value == p
  {
    match h
    case IntegerFn => Ok(p)
    case GroupingFn => Fail(Unimplemented("grouping"))
    case UnaryFn => Fail(Unimplemented("unary"))
    case FloatFn => Fail(Unimplemented("float"))
    case ComplexFn => Fail(Unimplemented("complex"))
  }

  /** `parse_precedence`: move past one token, run its prefix handler,
      then the infix loop; finally reject a trailing `=` where an
      assignment could start. It succeeds exactly on the inputs the scan
      accepts, stops where the scan stops, and emits one opcode per
      operator it passes. */
  function ParsePrecedence(e: Emission, p: ParserState, prec: Precedence): (r: Result<ParserState>)
    ensures r.Ok? <==> Accepts(p.tokens, p.current, prec)
    ensures r.Ok? ==>
      Extends(p, r.value) && r.value.current == Stop(p.tokens, p.current + 1, prec) &&
      2 * (|r.value.trace| - |p.trace|) + 1 == r.value.current - p.current
    decreases |p.tokens| - p.current, 1
  {
    var p1 := Advance(p);
    var previous :- PreviousToken(p1);
    var assignable := Le(prec, Assignment);
    match Rule(previous.kind).prefix
    case None => Fail(NoPrefixRule)
    case Some(h) =>
      var p2 :- RunPrefix(h, p1);
      InfixLoop(e, p2, prec, assignable)
  }

  /** The `while` loop of `parse_precedence` and the assignment check after
      it. Each round moves past the current token and runs its infix
      handler. */
  function InfixLoop(e: Emission, p: ParserState, prec: Precedence, assignable: bool): (r: Result<ParserState>)
    ensures r.Ok? <==> LoopAccepts(p.tokens, p.current, prec, assignable)
    ensures r.Ok? ==>
      Extends(p, r.value) && r.value.current == Stop(p.tokens, p.current, prec) &&
      2 * (|r.value.trace| - |p.trace|) == r.value.current - p.current
    decreases |p.tokens| - p.current, 0
  {
    if |p.tokens| <= p.current then
      NoRound(p.tokens, p.current, prec, assignable);
      Fail(TokenOutOfRange)
    else
    var t := p.tokens[p.current];
    if Le(prec, Rule(t.kind).precedence) then
      var p1 := Advance(p);
      match Rule(t.kind).infix
      case None =>
        NoRound(p.tokens, p.current, prec, assignable);
        Fail(NoInfixRule)
      case Some(CallFn) =>
        NoRound(p.tokens, p.current, prec, assignable);
        Fail(Unimplemented("call"))
      case Some(BinaryFn) =>
        RoundAcceptance(p.tokens, p.current, prec, assignable);
        match BinaryInfix(e, p1)
        case Fail(f) =>
          assert !Accepts(p.tokens, p.current + 1, OperandLevel(t));
          Fail(f)
        case Ok(p2) =>
          assert p2.tokens == p.tokens && p2.current == Stop(p.tokens, p.current + 2, OperandLevel(t));
          InfixLoop(e, p2, prec, assignable)
    else
      NoRound(p.tokens, p.current, prec, assignable);
      if assignable && t.kind == Operator(Equal) then
        Fail(InvalidAssignmentTarget)
      else
        Ok(p)
  }

  /** `binary`: the operator is the previous token; parse the right
      operand one level tighter, then emit the operator's opcode. */
  function BinaryInfix(e: Emission, p: ParserState): (r: Result<ParserState>)
    ensures r.Ok? <==>
      1 <= p.current <= |p.tokens| && IsBinary(p.tokens[p.current - 1]) &&
      Accepts(p.tokens, p.current, OperandLevel(p.tokens[p.current - 1]))
    ensures r.Ok? ==>
      Extends(p, r.value) &&
      r.value.current == Stop(p.tokens, p.current + 1, OperandLevel(p.tokens[p.current - 1])) &&
      2 * (|r.value.trace| - |p.trace|) == r.value.current - p.current + 1
    decreases |p.tokens| - p.current, 2
  {
    var previous :- PreviousToken(p);
    var next :- Next(Rule(previous.kind).precedence);
    var p1 :- ParsePrecedence(e, p, next);
    var op :- BinaryOpcode(e, previous.kind);
    Ok(Emit(p1, op, previous.line))
  }

  /** `expression`. A successful parse stops on a token it has not
      consumed, so it needs a trailing token such as `Eof`. */
  function Expression(e: Emission, p: ParserState): (r: Result<ParserState>)
    ensures r.Ok? ==> Extends(p, r.value) && p.current < r.value.current < |p.tokens|
  {
    ParsePrecedence(e, p, Assignment)
  }

  /** `assert`: the keyword has been matched; parse the expression, then
      emit `Assert` on the line of its last token. */
  function AssertStatement(e: Emission, p: ParserState): (r: Result<ParserState>)
    ensures r.Ok? ==> Extends(p, r.value) && |r.value.trace| > |p.trace|
    ensures r.Ok? ==> r.value.trace[|r.value.trace| - 1].op == B.Assert
  {
    var p1 :- Expression(e, p);
    // `previous` cannot fail here: the expression consumed a token.
    var last := p1.tokens[p1.current - 1];
    Ok(Emit(p1, B.Assert, last.line))
  }

  /** `statement` (and `declaration`, which is only `statement`): an
      assertion when the current token is the `assert` keyword, an
      expression otherwise. */
  function Statement(e: Emission, p: ParserState): (r: Result<ParserState>)
    ensures r.Ok? ==> Extends(p, r.value) && r.value.current > p.current
  {
    var (isAssert, p1) :- MatchKind(p, Keyword(Assert));
    if isAssert then AssertStatement(e, p1) else Expression(e, p1)
  }
}
