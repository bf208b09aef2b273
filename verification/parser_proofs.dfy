/** What the Pratt compiler of src/parser.rs accepts and what it emits.

    Only the `integer` prefix handler and the `binary` infix handler have
    bodies, so the language the compiler accepts is a chain of integer
    literals joined by binary operators, closed by a token that binds
    nothing. `ExpressionGrammar` characterises exactly which token
    sequences parse, and `ExpressionTree` what they compile to: the
    postfix form of the tree that splits every chain at its rightmost
    loosest-binding operator, a tree that reads left to right as the
    chain's operators (`TreeReadsAsChain`). */
module ParserProofs {
  import opened Faults
  import opened TokenKinds
  import opened Precedences
  import opened Parser
  import B = Bytecode
  import TT = TokenTypes

  function Level(t: Token): Precedence {
    Rule(t.kind).precedence
  }

  /** An odd-length chain from `s` up to `j`: an integer literal, then
      pairs of a binary operator and an integer literal. */
  predicate OddChain(ts: seq<Token>, s: nat, j: nat)
    decreases j - s
  {
    s < j <= |ts| && IsInteger(ts[s]) &&
    (j == s + 1 || (s + 2 < j && IsBinary(ts[s + 1]) && OddChain(ts, s + 2, j)))
  }

  /** Tokens `s` up to `j` form a complete expression, and the token at `j`
      ends it: it binds nothing and is not `=`. */
  predicate Terminated(ts: seq<Token>, s: nat, j: nat) {
    j < |ts| && OddChain(ts, s, j) &&
    Level(ts[j]) == Precedences.None && ts[j].kind != Operator(Equal)
  }

  /** No token is both an integer literal and a binary operator. */
  lemma {:induction false} IntegerNotBinary(t: Token)
    ensures IsInteger(t) ==> !IsBinary(t)
  {

  }

  /** A chain has odd length, integer literals at even offsets and binary
      operators at odd ones. */
  lemma {:induction false} OddChainAt(ts: seq<Token>, s: nat, j: nat, m: nat)
    requires OddChain(ts, s, j) && s <= m < j
    decreases j - s
    ensures (j - s) % 2 == 1
    ensures if (m - s) % 2 == 0 then IsInteger(ts[m]) else IsBinary(ts[m])
  {
    if j != s + 1 {
      if m < s + 2 {
        OddChainAt(ts, s + 2, j, s + 2);
      } else {
        OddChainAt(ts, s + 2, j, m);
      }
    }
  }

  /** Cutting a chain at one of its operators leaves two chains. */
  lemma {:induction false} OddChainSplit(ts: seq<Token>, s: nat, k: nat, j: nat)
    requires OddChain(ts, s, j) && s < k < j && IsBinary(ts[k])
    decreases k - s
    ensures OddChain(ts, s, k) && OddChain(ts, k + 1, j)
  {
    IntegerNotBinary(ts[s]);
    if k != s + 1 {
      OddChainSplit(ts, s + 2, k, j);
    }
  }

  /** An odd chain, a binary operator and another odd chain make one odd
      chain. */
  lemma {:induction false} OddChainJoin(ts: seq<Token>, s: nat, c: nat, f: nat)
    requires OddChain(ts, s, c) && c < |ts| && IsBinary(ts[c]) && OddChain(ts, c + 1, f)
    decreases c - s
    ensures OddChain(ts, s, f)
  {
    if c != s + 1 {
      OddChainJoin(ts, s + 2, c, f);
    }
  }

  /** A chain stays a chain when more tokens follow. */
  lemma {:induction false} OddChainExtend(ts: seq<Token>, more: seq<Token>, s: nat, j: nat)
    requires OddChain(ts, s, j)
    decreases j - s
    ensures OddChain(ts + more, s, j)
  {
    assert (ts + more)[s] == ts[s];
    if j != s + 1 {
      assert (ts + more)[s + 1] == ts[s + 1];
      OddChainExtend(ts, more, s + 2, j);
    }
  }

  // ---------------------------------------------------------------------
  // Which token sequences parse

  /** The scan from just after an integer literal passes over a chain. */
  lemma {:induction false} StopChain(ts: seq<Token>, i: nat, prec: Precedence)
    requires 0 < i <= |ts| && IsInteger(ts[i - 1])
    decreases |ts| - i
    ensures OddChain(ts, i - 1, Stop(ts, i, prec))
  {
    if Takes(ts, i, prec) {
      StopChain(ts, i + 2, prec);
    }
  }

  /** Over a chain that a token binding nothing closes, a scan at a
      level no tighter than `Equality` takes every operator and comes to
      rest on that token. */
  lemma {:induction false} StopAtTerminator(ts: seq<Token>, i: nat, j: nat, prec: Precedence)
    requires 0 < i && OddChain(ts, i - 1, j) && j < |ts| && Level(ts[j]) == Precedences.None
    requires Rank(prec) <= Rank(Equality)
    decreases j - i
    ensures Stop(ts, i, prec) == j
  {
    if i < j {
      BinaryLevels(ts[i]);
      StopAtTerminator(ts, i + 2, j, prec);
    } else {
      BinaryLevels(ts[j]);
    }
  }

  /** On a terminated chain, `expression` succeeds and stops on the
      terminator. */
  lemma {:induction false} ExpressionReachesTerminator(e: Emission, ts: seq<Token>, j: nat)
    requires Terminated(ts, 0, j)
    ensures var r := Expression(e, NewParser(ts));
      r.Ok? && r.value.current == j
  {
    StopAtTerminator(ts, 1, j, Assignment);
  }

  /** The language of `expression`: it succeeds exactly when the tokens
      open with a terminated chain, and then it stops on the terminator,
      having emitted one opcode per operator. */
  lemma {:induction false} ExpressionGrammar(e: Emission, ts: seq<Token>)
    ensures Expression(e, NewParser(ts)).Ok? <==> exists j: nat :: Terminated(ts, 0, j)
    ensures var r := Expression(e, NewParser(ts));
      r.Ok? ==> Terminated(ts, 0, r.value.current) && 2 * |r.value.trace| + 1 == r.value.current
  {
    var r := Expression(e, NewParser(ts));
    if r.Ok? {
      StopChain(ts, 1, Assignment);
      assert Terminated(ts, 0, r.value.current);
    }
    if j: nat :| Terminated(ts, 0, j) {
      ExpressionReachesTerminator(e, ts, j);
    }
  }

  /** The scanner appends no `Eof`, so its tokens for a whole expression
      never compile; with an `Eof` appended they do, up to the `Eof`. */
  lemma {:induction false} ScannedExpressionNeedsEof(e: Emission, ts: seq<TT.Token>, eof: Token)
    requires OddChain(CompilerTokens(ts), 0, |ts|)
    requires eof.kind == Eof
    ensures Expression(e, NewParser(CompilerTokens(ts))).Fail?
    ensures var r := Expression(e, NewParser(CompilerTokens(ts) + [eof]));
      r.Ok? && r.value.current == |ts|
  {
    var cts := CompilerTokens(ts);
    var r := Expression(e, NewParser(cts));
    if r.Ok? {
      StopChain(cts, 1, Assignment);
      var j := r.value.current;
      OddChainAt(cts, 0, j, 0);
      OddChainAt(cts, 0, |ts|, j);
      BinaryLevels(cts[j]);
    }
    var closed := cts + [eof];
    OddChainExtend(cts, [eof], 0, |ts|);
    ExpressionReachesTerminator(e, closed, |ts|);
  }

  /** An integer literal followed by `=`: rejected where an assignment
      could start, otherwise the `=` is left to the caller. */
  lemma {:induction false} AssignmentTarget(e: Emission, p: ParserState, prec: Precedence)
    requires p.current + 1 < |p.tokens| && IsInteger(p.tokens[p.current])
    requires p.tokens[p.current + 1].kind == Operator(Equal) && prec != Precedences.None
    ensures ParsePrecedence(e, p, prec) ==
      if Le(prec, Assignment) then Fail(InvalidAssignmentTarget) else Ok(Advance(p))
  {
    assert ParsePrecedence(e, p, prec) == InfixLoop(e, Advance(p), prec, Le(prec, Assignment));
  }

  // ---------------------------------------------------------------------
  // What a parse emits

  /** An expression tree whose leaves are integer literals (which emit
      nothing) and whose nodes are binary operators. */
  datatype Expr = Leaf | Node(op: Emitted, left: Expr, right: Expr)

  /** The order in which a stack machine evaluates the tree: both operands,
      then the operator. */
  function Postfix(x: Expr): seq<Emitted> {
    match x
    case Leaf => []
    case Node(op, left, right) => Postfix(left) + Postfix(right) + [op]
  }

  /** The trace after emitting tree `x` onto `trace`. */
  function EmitTree(x: Expr, trace: seq<Emitted>): seq<Emitted> {
    match x
    case Leaf => trace
    case Node(op, left, right) => EmitTree(right, EmitTree(left, trace)) + [op]
  }

  /** Emitting a tree appends its postfix form. */
  lemma {:induction false} EmitTreeAppends(x: Expr, trace: seq<Emitted>)
    ensures EmitTree(x, trace) == trace + Postfix(x)
  {
    match x
    case Leaf =>
    case Node(op, left, right) =>
      EmitTreeAppends(left, trace);
      EmitTreeAppends(right, EmitTree(left, trace));
  }

  /** Every binary operator between `s` and `j` binds at least as tightly
      as `level`. */
  predicate OpsAtLeast(ts: seq<Token>, s: nat, j: nat, level: Precedence)
    requires j <= |ts|
  {
    forall q {:trigger Level(ts[q])} :: s <= q < j && IsBinary(ts[q]) ==> Rank(level) <= Rank(Level(ts[q]))
  }

  /** The rightmost of the loosest-binding operators of a chain with at
      least one operator. */
  function Loosest(ts: seq<Token>, s: nat, j: nat): (k: nat)
    requires OddChain(ts, s, j) && s + 1 < j
    decreases j - s
    ensures s < k < j - 1 && IsBinary(ts[k])
  {
    if j == s + 3 then s + 1
    else
      var k := Loosest(ts, s + 2, j);
      if Rank(Level(ts[k])) <= Rank(Level(ts[s + 1])) then k else s + 1
  }

  /** `Loosest` binds no tighter than any operator of the chain, and
      looser than every operator after it. */
  lemma {:induction false} LoosestIsLoosest(ts: seq<Token>, s: nat, j: nat)
    requires OddChain(ts, s, j) && s + 1 < j
    decreases j - s
    ensures var k := Loosest(ts, s, j);
      forall q {:trigger Level(ts[q])} :: s <= q < j && IsBinary(ts[q]) ==>
        Rank(Level(ts[k])) <= Rank(Level(ts[q])) && (k < q ==> Rank(Level(ts[k])) < Rank(Level(ts[q])))
  {
    IntegerNotBinary(ts[s]);
    if j == s + 3 {
      assert OddChain(ts, s + 2, j);
      IntegerNotBinary(ts[s + 2]);
    } else {
      LoosestIsLoosest(ts, s + 2, j);
    }
  }

  /** The tree of a chain: split at its rightmost loosest operator. */
  function Tree(e: Emission, ts: seq<Token>, s: nat, j: nat): Expr
    requires OddChain(ts, s, j)
    decreases j - s
  {
    if j == s + 1 then Leaf
    else
      var k := Loosest(ts, s, j);
      OddChainSplit(ts, s, k, j);
      Node(Emits(e, ts[k]), Tree(e, ts, s, k), Tree(e, ts, k + 1, j))
  }

  /** The operators of a chain, as `binary` emits them, in source order. */
  function Operators(e: Emission, ts: seq<Token>, s: nat, j: nat): seq<Emitted>
    requires OddChain(ts, s, j)
    decreases j - s
  {
    if j == s + 1 then [] else [Emits(e, ts[s + 1])] + Operators(e, ts, s + 2, j)
  }

  // Facts about the scan

  /** Every operator the scan passes binds at least as tightly as its
      level. */
  lemma {:induction false} StopOpsAtLeast(ts: seq<Token>, i: nat, prec: Precedence)
    requires Stop(ts, i, prec) <= |ts|
    decreases |ts| - i
    ensures OpsAtLeast(ts, i, Stop(ts, i, prec), prec)
  {
    if Takes(ts, i, prec) {
      IntegerNotBinary(ts[i + 1]);
      StopOpsAtLeast(ts, i + 2, prec);
    }
  }

  /** A loop round that the loop at level `prec` takes: its right operand
      parses, and the loop goes on normally from where the operand
      stops. */
  lemma {:induction false} RoundAccepts(ts: seq<Token>, i: nat, prec: Precedence, a: bool)
    requires Takes(ts, i, prec) && LoopAccepts(ts, i, prec, a)
    ensures Accepts(ts, i + 1, OperandLevel(ts[i]))
    ensures var m := Stop(ts, i + 2, OperandLevel(ts[i]));
      LoopAccepts(ts, m, prec, a) && Stop(ts, m, prec) == Stop(ts, i, prec) &&
      (Takes(ts, m, prec) ==> Rank(Level(ts[m])) <= Rank(Level(ts[i])))
  {
    var m := Stop(ts, i + 2, OperandLevel(ts[i]));
    StopCompose(ts, i + 2, OperandLevel(ts[i]), prec);
    StopEnds(ts, i + 2, OperandLevel(ts[i]));
    assert Stop(ts, i, prec) == Stop(ts, i + 2, prec);
    if !Takes(ts, m, prec) {
      assert Stop(ts, m, prec) == m;
    }
  }

  // The shape of the tree

  /** A loop round joins the chain before its operator `c` and the right
      operand's chain, whose operators all bind more tightly than `c`,
      into one chain whose rightmost loosest operator is `c`. */
  lemma {:induction false} LoosestAt(ts: seq<Token>, s: nat, c: nat, j: nat)
    requires OddChain(ts, s, c) && c + 1 < |ts| && IsBinary(ts[c]) && OddChain(ts, c + 1, j)
    requires OpsAtLeast(ts, s, c, Level(ts[c]))
    requires OpsAtLeast(ts, c + 2, j, OperandLevel(ts[c]))
    ensures OddChain(ts, s, j) && OpsAtLeast(ts, s, j, Level(ts[c]))
    ensures s + 1 < j && Loosest(ts, s, j) == c
  {
    IntegerNotBinary(ts[c + 1]);
    OddChainJoin(ts, s, c, j);
    LoosestIsLoosest(ts, s, j);
    var k := Loosest(ts, s, j);
    assert Rank(Level(ts[k])) <= Rank(Level(ts[c]));
  }

  /** The root of a chain's tree is its rightmost loosest operator. */
  lemma {:induction false} TreeRoot(e: Emission, ts: seq<Token>, s: nat, j: nat)
    requires OddChain(ts, s, j) && s + 1 < j
    ensures var k := Loosest(ts, s, j);
      OddChain(ts, s, k) && OddChain(ts, k + 1, j) &&
      Tree(e, ts, s, j) == Node(Emits(e, ts[k]), Tree(e, ts, s, k), Tree(e, ts, k + 1, j))
  {
    OddChainSplit(ts, s, Loosest(ts, s, j), j);
  }

  /** The same, for a root already known. */
  lemma {:induction false} TreeRootAt(e: Emission, ts: seq<Token>, s: nat, k: nat, j: nat)
    requires OddChain(ts, s, j) && s + 1 < j && Loosest(ts, s, j) == k
    ensures OddChain(ts, s, k) && OddChain(ts, k + 1, j)
    ensures Tree(e, ts, s, j) == Node(Emits(e, ts[k]), Tree(e, ts, s, k), Tree(e, ts, k + 1, j))
  {
    TreeRoot(e, ts, s, j);
  }

  // ---------------------------------------------------------------------
  // What a parse emits: the tree

  /** A round the loop takes extends the chain from `s` to where its
      right operand stops, with the round's operator at the root, and the
      loop goes on from there as it would have from the round. */
  lemma {:induction false} RoundScan(ts: seq<Token>, s: nat, i: nat, prec: Precedence)
    requires OddChain(ts, s, i) && Takes(ts, i, prec) && OpsAtLeast(ts, s, i, Level(ts[i]))
    ensures var m := Stop(ts, i + 2, OperandLevel(ts[i]));
      OddChain(ts, i + 1, m) && OddChain(ts, s, m) && s + 1 < m && Loosest(ts, s, m) == i &&
      Stop(ts, m, prec) == Stop(ts, i, prec) && (Takes(ts, m, prec) ==> OpsAtLeast(ts, s, m, Level(ts[m])))
  {
    var level := OperandLevel(ts[i]);
    var m := Stop(ts, i + 2, level);
    StopChain(ts, i + 2, level);
    StopOpsAtLeast(ts, i + 2, level);
    LoosestAt(ts, s, i, m);
    StopCompose(ts, i + 2, level, prec);
    StopEnds(ts, i + 2, level);
    assert Stop(ts, i, prec) == Stop(ts, i + 2, prec);
    if Takes(ts, m, prec) {
      TakenBelow(ts, m, prec, level);
    }
  }

  /** The expression the loop at level `prec`, started at `i` with `left`
      parsed, builds: each round it takes joins what it has so far and
      its right operand, which the loop one level above the operator
      builds from the literal after it. */
  function LoopExpr(e: Emission, ts: seq<Token>, i: nat, prec: Precedence, left: Expr): Expr
    requires i <= |ts|
    decreases |ts| - i
  {
    if Takes(ts, i, prec) then
      var level := OperandLevel(ts[i]);
      LoopExpr(e, ts, Stop(ts, i + 2, level), prec, Node(Emits(e, ts[i]), left, LoopExpr(e, ts, i + 2, level, Leaf)))
    else left
  }

  /** The first round of the loop, when it takes one. */
  lemma {:induction false} LoopExprUnfold(e: Emission, ts: seq<Token>, i: nat, prec: Precedence, left: Expr)
    requires Takes(ts, i, prec)
    ensures var level := OperandLevel(ts[i]);
      LoopExpr(e, ts, i, prec, left) ==
      LoopExpr(e, ts, Stop(ts, i + 2, level), prec, Node(Emits(e, ts[i]), left, LoopExpr(e, ts, i + 2, level, Leaf)))
  {
  }

  /** One round the loop takes: it joins the chain's tree and the tree
      of its right operand under the round's operator, which is the tree
      of the chain extended to where the operand stops. */
  lemma {:induction false} LoopExprRound(e: Emission, ts: seq<Token>, s: nat, i: nat, prec: Precedence)
    requires OddChain(ts, s, i) && Takes(ts, i, prec) && OpsAtLeast(ts, s, i, Level(ts[i]))
    decreases |ts| - i, 0
    ensures var m := Stop(ts, i + 2, OperandLevel(ts[i]));
      i < m <= |ts| && OddChain(ts, s, m) &&
      LoopExpr(e, ts, i, prec, Tree(e, ts, s, i)) == LoopExpr(e, ts, m, prec, Tree(e, ts, s, m)) &&
      Stop(ts, m, prec) == Stop(ts, i, prec) && (Takes(ts, m, prec) ==> OpsAtLeast(ts, s, m, Level(ts[m])))
  {
    var level := OperandLevel(ts[i]);
    var m := Stop(ts, i + 2, level);
    RoundScan(ts, s, i, prec);
    OperandExprTree(e, ts, i + 1, i + 2, level);
    TreeRootAt(e, ts, s, i, m);
    LoopExprUnfold(e, ts, i, prec, Tree(e, ts, s, i));
  }

  /** The loop at level `prec`, started at the end of a chain from `s`
      with that chain's tree, builds the tree of the longer chain it stops
      at, provided the chain's operators bind at least as tightly as the
      first operator the loop takes. */
  lemma {:induction false} LoopExprTree(e: Emission, ts: seq<Token>, s: nat, i: nat, prec: Precedence)
    requires OddChain(ts, s, i)
    requires Takes(ts, i, prec) ==> OpsAtLeast(ts, s, i, Level(ts[i]))
    decreases |ts| - i, 1
    ensures OddChain(ts, s, Stop(ts, i, prec))
    ensures LoopExpr(e, ts, i, prec, Tree(e, ts, s, i)) == Tree(e, ts, s, Stop(ts, i, prec))
  {
    if Takes(ts, i, prec) {
      LoopExprRound(e, ts, s, i, prec);
      LoopExprTree(e, ts, s, Stop(ts, i + 2, OperandLevel(ts[i])), prec);
    }
  }

  /** The loop started at `i`, just after an integer literal at `c`,
      builds the tree of the operand chain from the literal. */
  lemma {:induction false} OperandExprTree(e: Emission, ts: seq<Token>, c: nat, i: nat, prec: Precedence)
    requires i == c + 1 <= |ts| && IsInteger(ts[c])
    decreases |ts| - c
    ensures OddChain(ts, c, Stop(ts, i, prec))
    ensures LoopExpr(e, ts, i, prec, Leaf) == Tree(e, ts, c, Stop(ts, i, prec))
  {
    assert OddChain(ts, c, i);
    assert Tree(e, ts, c, i) == Leaf;
    IntegerNotBinary(ts[c]);
    LoopExprTree(e, ts, c, i, prec);
  }

  // What each parsing function emits

  /** A `parse_precedence` that succeeds emits the expression its infix
      loop builds from the integer literal. */
  lemma {:induction false} ParseTrace(e: Emission, p: ParserState, prec: Precedence)
    requires Accepts(p.tokens, p.current, prec)
    decreases |p.tokens| - p.current, 1
    ensures var r := ParsePrecedence(e, p, prec);
      r.Ok? && r.value.trace == EmitTree(LoopExpr(e, p.tokens, p.current + 1, prec, Leaf), p.trace)
  {
    InfixTrace(e, Advance(p), prec, Le(prec, Assignment), Leaf, p.trace);
  }

  /** The infix loop, entered with the tree `left` emitted after `pre`,
      emits the expression it builds from `left`. */
  lemma {:induction false} InfixTrace(e: Emission, p: ParserState, prec: Precedence, a: bool, left: Expr, pre: seq<Emitted>)
    requires LoopAccepts(p.tokens, p.current, prec, a)
    requires p.trace == EmitTree(left, pre)
    decreases |p.tokens| - p.current, 0
    ensures var r := InfixLoop(e, p, prec, a);
      r.Ok? && r.value.trace == EmitTree(LoopExpr(e, p.tokens, p.current, prec, left), pre)
  {
    var ts := p.tokens;
    if Takes(ts, p.current, prec) {
      var t := ts[p.current];
      var right := LoopExpr(e, ts, p.current + 2, OperandLevel(t), Leaf);
      RoundAccepts(ts, p.current, prec, a);
      var p1 := Advance(p);
      BinaryTrace(e, p1);
      assert p1.tokens == ts && p1.tokens[p1.current - 1] == t && p1.trace == EmitTree(left, pre);
      var p2 := BinaryInfix(e, p1).value;
      var m := Stop(ts, p.current + 2, OperandLevel(t));
      assert p1.current + 1 == p.current + 2 && OperandLevel(p1.tokens[p1.current - 1]) == OperandLevel(t);
      assert Stop(p1.tokens, p1.current + 1, OperandLevel(p1.tokens[p1.current - 1])) == m;
      assert p2.tokens == ts && p2.current == m;
      assert p2.trace == EmitTree(Node(Emits(e, t), left, right), pre);
      assert BinaryInfix(e, p1) == Ok(p2);
      assert InfixLoop(e, p, prec, a) == InfixLoop(e, p2, prec, a);
      LoopExprUnfold(e, ts, p.current, prec, left);
      assert LoopExpr(e, ts, p.current, prec, left) == LoopExpr(e, ts, m, prec, Node(Emits(e, t), left, right));
      InfixTrace(e, p2, prec, a, Node(Emits(e, t), left, right), pre);
    }
  }

  /** `binary` emits its right operand's expression, then its operator. */
  lemma {:induction false} BinaryTrace(e: Emission, p: ParserState)
    requires 1 <= p.current <= |p.tokens| && IsBinary(p.tokens[p.current - 1])
    requires Accepts(p.tokens, p.current, OperandLevel(p.tokens[p.current - 1]))
    decreases |p.tokens| - p.current, 2
    ensures var r := BinaryInfix(e, p);
      r.Ok? && r.value.trace ==
        EmitTree(LoopExpr(e, p.tokens, p.current + 1, OperandLevel(p.tokens[p.current - 1]), Leaf), p.trace) +
        [Emits(e, p.tokens[p.current - 1])]
  {
    var t := p.tokens[p.current - 1];
    var level := OperandLevel(t);
    assert PreviousToken(p) == Ok(t);
    assert Next(Rule(t.kind).precedence) == Ok(level);
    ParseTrace(e, p, level);
    var p1 := ParsePrecedence(e, p, level).value;
    assert BinaryOpcode(e, t.kind) == Ok(Emits(e, t).op);
    assert BinaryInfix(e, p) == Ok(Emit(p1, Emits(e, t).op, t.line));
  }

  /** `expression`, from any position, emits the tree of the chain it
      consumed after what was emitted before. */
  lemma {:induction false} ExpressionTreeAt(e: Emission, p: ParserState)
    ensures var r := Expression(e, p);
      r.Ok? ==>
        OddChain(p.tokens, p.current, r.value.current) &&
        r.value.trace == p.trace + Postfix(Tree(e, p.tokens, p.current, r.value.current))
  {
    var r := ParsePrecedence(e, p, Assignment);
    assert Expression(e, p) == r;
    if r.Ok? {
      var ts := p.tokens;
      var m := Stop(ts, p.current + 1, Assignment);
      assert r.value.current == m;
      ParseTrace(e, p, Assignment);
      assert r.value.trace == EmitTree(LoopExpr(e, ts, p.current + 1, Assignment, Leaf), p.trace);
      OperandExprTree(e, ts, p.current, p.current + 1, Assignment);
      assert LoopExpr(e, ts, p.current + 1, Assignment, Leaf) == Tree(e, ts, p.current, m);
      EmitTreeAppends(Tree(e, ts, p.current, m), p.trace);
    }
  }

  /** `expression` emits the tree of the chain it consumed. */
  lemma {:induction false} ExpressionTree(e: Emission, ts: seq<Token>)
    ensures var r := Expression(e, NewParser(ts));
      r.Ok? ==> OddChain(ts, 0, r.value.current) && r.value.trace == Postfix(Tree(e, ts, 0, r.value.current))
  {
    ExpressionTreeAt(e, NewParser(ts));
  }

  /** `assert` emits its expression's tree, then `Assert` on the line of
      the expression's last token. */
  lemma {:induction false} AssertTrace(e: Emission, p: ParserState)
    ensures var r := AssertStatement(e, p);
      r.Ok? ==>
        OddChain(p.tokens, p.current, r.value.current) &&
        r.value.trace == p.trace + Postfix(Tree(e, p.tokens, p.current, r.value.current)) +
          [Emitted(B.Assert, p.tokens[r.value.current - 1].line)]
  {
    ExpressionTreeAt(e, p);
  }

  /** `statement` emits its expression's tree, followed for an assertion
      by `Assert`. */
  lemma {:induction false} StatementTrace(e: Emission, p: ParserState)
    ensures var r := Statement(e, p);
      r.Ok? && p.tokens[p.current].kind == Keyword(Assert) ==>
        OddChain(p.tokens, p.current + 1, r.value.current) &&
        r.value.trace == p.trace + Postfix(Tree(e, p.tokens, p.current + 1, r.value.current)) +
          [Emitted(B.Assert, p.tokens[r.value.current - 1].line)]
    ensures var r := Statement(e, p);
      r.Ok? && p.tokens[p.current].kind != Keyword(Assert) ==>
        OddChain(p.tokens, p.current, r.value.current) &&
        r.value.trace == p.trace + Postfix(Tree(e, p.tokens, p.current, r.value.current))
  {
    if p.current < |p.tokens| {
      if p.tokens[p.current].kind == Keyword(Assert) {
        AssertStatementTrace(e, p);
      } else {
        ExpressionStatementTrace(e, p);
      }
    }
  }

  /** An `assert` statement emits its expression's tree, then `Assert`. */
  lemma {:induction false} AssertStatementTrace(e: Emission, p: ParserState)
    requires p.current < |p.tokens| && p.tokens[p.current].kind == Keyword(Assert)
    ensures var r := Statement(e, p);
      r.Ok? ==>
        OddChain(p.tokens, p.current + 1, r.value.current) &&
        r.value.trace == p.trace + Postfix(Tree(e, p.tokens, p.current + 1, r.value.current)) +
          [Emitted(B.Assert, p.tokens[r.value.current - 1].line)]
  {
    assert MatchKind(p, Keyword(Assert)) == Ok((true, Advance(p)));
    assert Statement(e, p) == AssertStatement(e, Advance(p));
    AssertTrace(e, Advance(p));
  }

  /** Any other statement emits only its expression's tree. */
  lemma {:induction false} ExpressionStatementTrace(e: Emission, p: ParserState)
    requires p.current < |p.tokens| && p.tokens[p.current].kind != Keyword(Assert)
    ensures var r := Statement(e, p);
      r.Ok? ==>
        OddChain(p.tokens, p.current, r.value.current) &&
        r.value.trace == p.trace + Postfix(Tree(e, p.tokens, p.current, r.value.current))
  {
    assert MatchKind(p, Keyword(Assert)) == Ok((false, p));
    assert Statement(e, p) == Expression(e, p);
    ExpressionTreeAt(e, p);
  }

  /** Each operator of a chain, in source order, as `binary` emits it. */
  lemma {:induction false} OperatorsSplit(e: Emission, ts: seq<Token>, s: nat, k: nat, j: nat)
    requires OddChain(ts, s, j) && s < k < j && IsBinary(ts[k])
    decreases k - s
    ensures OddChain(ts, s, k) && OddChain(ts, k + 1, j)
    ensures Operators(e, ts, s, j) == Operators(e, ts, s, k) + [Emits(e, ts[k])] + Operators(e, ts, k + 1, j)
  {
    OddChainSplit(ts, s, k, j);
    if k != s + 1 {
      IntegerNotBinary(ts[s + 2]);
      OperatorsSplit(e, ts, s + 2, k, j);
    }
  }

  /** The operators of a tree read left to right. */
  function Inorder(x: Expr): seq<Emitted> {
    match x
    case Leaf => []
    case Node(op, left, right) => Inorder(left) + [op] + Inorder(right)
  }

  /** A chain's tree reads, left to right, as the chain's operators in
      source order: the tree rearranges nothing. */
  lemma {:induction false} TreeReadsAsChain(e: Emission, ts: seq<Token>, s: nat, j: nat)
    requires OddChain(ts, s, j)
    decreases j - s
    ensures Inorder(Tree(e, ts, s, j)) == Operators(e, ts, s, j)
  {
    if j != s + 1 {
      var k := Loosest(ts, s, j);
      TreeRootAt(e, ts, s, k, j);
      OperatorsSplit(e, ts, s, k, j);
      TreeReadsAsChain(e, ts, s, k);
      TreeReadsAsChain(e, ts, k + 1, j);
    }
  }

  /** The postfix form of a tree holds its operators, each once. */
  lemma {:induction false} PostfixPermutesInorder(x: Expr)
    ensures multiset(Postfix(x)) == multiset(Inorder(x))
  {
    match x
    case Leaf =>
    case Node(op, left, right) =>
      PostfixPermutesInorder(left);
      PostfixPermutesInorder(right);
      calc {
        multiset(Postfix(x));
        multiset(Postfix(left)) + multiset(Postfix(right)) + multiset{op};
        multiset(Inorder(left)) + multiset{op} + multiset(Inorder(right));
        multiset(Inorder(x));
      }
  }

  /** `expression` emits one opcode for each operator it consumed, and no
      other: its trace is a permutation of the operators. */
  lemma {:induction false} ExpressionEmitsEachOperator(e: Emission, ts: seq<Token>)
    ensures var r := Expression(e, NewParser(ts));
      r.Ok? ==>
        OddChain(ts, 0, r.value.current) &&
        multiset(r.value.trace) == multiset(Operators(e, ts, 0, r.value.current))
  {
    ExpressionTree(e, ts);
    if Expression(e, NewParser(ts)).Ok? {
      var x := Tree(e, ts, 0, Expression(e, NewParser(ts)).value.current);
      TreeReadsAsChain(e, ts, 0, Expression(e, NewParser(ts)).value.current);
      PostfixPermutesInorder(x);
    }
  }

  /** Both emissions accept the same token sequences. */
  lemma {:induction false} EmissionsAcceptAlike(ts: seq<Token>)
    ensures Expression(AsWritten, NewParser(ts)).Ok? <==> Expression(Corrected, NewParser(ts)).Ok?
  {
    ExpressionGrammar(AsWritten, ts);
    ExpressionGrammar(Corrected, ts);
  }

  // ---------------------------------------------------------------------
  // Examples, each token on line 1

  function Tok(k: TokenKind, start: nat): Token {
    Token(k, start, 1, 1)
  }

  /** Two operators: the looser one is emitted last, and of two at one
      level the right one, so operators of one level associate to the
      left. */
  lemma {:induction false} TwoOperators(e: Emission, ts: seq<Token>)
    requires |ts| == 6 && ts[5].kind == Eof
    requires IsInteger(ts[0]) && IsBinary(ts[1]) && IsInteger(ts[2]) && IsBinary(ts[3]) && IsInteger(ts[4])
    ensures var r := Expression(e, NewParser(ts));
      r.Ok? && r.value.current == 5 &&
      r.value.trace == if Rank(Level(ts[3])) <= Rank(Level(ts[1]))
        then [Emits(e, ts[1]), Emits(e, ts[3])]
        else [Emits(e, ts[3]), Emits(e, ts[1])]
  {
    assert OddChain(ts, 4, 5);
    assert OddChain(ts, 2, 5);
    assert Terminated(ts, 0, 5);
    ExpressionReachesTerminator(e, ts, 5);
    ExpressionTree(e, ts);
    if Rank(Level(ts[3])) <= Rank(Level(ts[1])) {
      assert Loosest(ts, 0, 5) == 3;
      TreeRootAt(e, ts, 0, 3, 5);
      TreeRootAt(e, ts, 0, 1, 3);
    } else {
      assert Loosest(ts, 0, 5) == 1;
      TreeRootAt(e, ts, 0, 1, 5);
      TreeRootAt(e, ts, 2, 3, 5);
    }
  }

  /** `1 - 2 + 3` compiles to `Subtract` then `Add`. */
  lemma {:induction false} SubtractThenAdd(e: Emission)
    ensures var ts := [Tok(Number(Integer), 0), Tok(Operator(Minus), 2), Tok(Number(Integer), 4),
                       Tok(Operator(Plus), 6), Tok(Number(Integer), 8), Token(Eof, 9, 0, 1)];
      Expression(e, NewParser(ts)).Ok? &&
      Expression(e, NewParser(ts)).value.trace == [Emitted(B.Subtract, 1), Emitted(B.Add, 1)]
  {
    var ts := [Tok(Number(Integer), 0), Tok(Operator(Minus), 2), Tok(Number(Integer), 4),
               Tok(Operator(Plus), 6), Tok(Number(Integer), 8), Token(Eof, 9, 0, 1)];
    TwoOperators(e, ts);
  }

  /** `1 + 2 * 3` compiles to `Multiply` then `Add`. */
  lemma {:induction false} MultiplyBeforeAdd(e: Emission)
    ensures var ts := [Tok(Number(Integer), 0), Tok(Operator(Plus), 2), Tok(Number(Integer), 4),
                       Tok(Operator(Star), 6), Tok(Number(Integer), 8), Token(Eof, 9, 0, 1)];
      Expression(e, NewParser(ts)).Ok? &&
      Expression(e, NewParser(ts)).value.trace == [Emitted(B.Multiply, 1), Emitted(B.Add, 1)]
  {
    var ts := [Tok(Number(Integer), 0), Tok(Operator(Plus), 2), Tok(Number(Integer), 4),
               Tok(Operator(Star), 6), Tok(Number(Integer), 8), Token(Eof, 9, 0, 1)];
    TwoOperators(e, ts);
  }

  /** `1 >= 2` compiles to `Greater` as written and to `GreaterEqual`
      corrected. */
  lemma {:induction false} GreaterEqualTraces()
    ensures var ts := [Tok(Number(Integer), 0), Tok(Operator(GreaterEqual), 2), Tok(Number(Integer), 5),
                       Token(Eof, 6, 0, 1)];
      Expression(AsWritten, NewParser(ts)) == Ok(ParserState(ts, 3, [Emitted(B.Greater, 1)])) &&
      Expression(Corrected, NewParser(ts)) == Ok(ParserState(ts, 3, [Emitted(B.GreaterEqual, 1)]))
  {
    var ts := [Tok(Number(Integer), 0), Tok(Operator(GreaterEqual), 2), Tok(Number(Integer), 5),
               Token(Eof, 6, 0, 1)];
    OneOperator(AsWritten, ts);
    OneOperator(Corrected, ts);
  }

  /** A single operator between two literals, then `Eof`. */
  lemma {:induction false} OneOperator(e: Emission, ts: seq<Token>)
    requires |ts| == 4 && ts[3].kind == Eof
    requires IsInteger(ts[0]) && IsBinary(ts[1]) && IsInteger(ts[2])
    ensures Expression(e, NewParser(ts)) == Ok(ParserState(ts, 3, [Emits(e, ts[1])]))
  {
    assert OddChain(ts, 2, 3);
    assert Terminated(ts, 0, 3);
    ExpressionReachesTerminator(e, ts, 3);
    ExpressionTree(e, ts);
    TreeRootAt(e, ts, 0, 1, 3);
    var r := Expression(e, NewParser(ts)).value;
    assert r.tokens == ts && r.current == 3 && r.trace == [Emits(e, ts[1])];
  }

  /** `1 = 2` is rejected as an invalid assignment target. */
  lemma {:induction false} AssignmentRejected(e: Emission)
    ensures Expression(e, NewParser([Tok(Number(Integer), 0), Tok(Operator(Equal), 2),
                                     Tok(Number(Integer), 4), Token(Eof, 5, 0, 1)])) ==
      Fail(InvalidAssignmentTarget)
  {
    AssignmentTarget(e, NewParser([Tok(Number(Integer), 0), Tok(Operator(Equal), 2),
                                   Tok(Number(Integer), 4), Token(Eof, 5, 0, 1)]), Assignment);
  }
}
