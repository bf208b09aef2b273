/** The character trie of reserved lexemes (`KeywordTree` of src/token.rs):
    `add_token` inserts one lexeme, `populate` inserts every token type's
    lexeme in enumeration order, `get_tokentype` walks a query string. */
module KeywordTrie {
  import opened Faults
  import opened TokenTypes

  /** A trie node: the character on the edge into it, the token type whose
      lexeme ends here (if any) and the children keyed by next character. */
  datatype KeywordTree = KeywordTree(chr: char, token: Option<TokenType>, children: map<char, KeywordTree>)

  /** Character of the root node. */
  const RootChar: char := '\\'

  function Leaf(c: char): KeywordTree {
    KeywordTree(c, None, map[])
  }

  /** Every child is labelled with the character it is keyed by. */
  predicate WellKeyed(t: KeywordTree)
    decreases t
  {
    forall c :: c in t.children ==> t.children[c].chr == c && WellKeyed(t.children[c])
  }

  /** `get_tokentype`: follow `q` one character at a time from `t`; `None`
      as soon as a character has no child. */
  function GetTokenType(t: KeywordTree, q: string): (r: Option<KeywordTree>)
    requires WellKeyed(t)
    ensures r.Some? ==> WellKeyed(r.value)
    ensures r.Some? && |q| > 0 ==> r.value.chr == q[|q| - 1]
    decreases |q|
  {
    if q == [] then Some(t)
    else if q[0] in t.children then GetTokenType(t.children[q[0]], q[1..])
    else None
  }

  /** The terminal token at the end of path `q`, if the path exists. */
  function TokenAt(t: KeywordTree, q: string): Option<TokenType>
    requires WellKeyed(t)
  {
    match GetTokenType(t, q)
    case Some(n) => n.token
    case None => None
  }

  predicate HasPath(t: KeywordTree, q: string)
    requires WellKeyed(t)
  {
    GetTokenType(t, q).Some?
  }

  /** `add_token` for an arbitrary string: walk `s`, creating a fresh node
      for every missing character, and mark the final node with `tt`. */
  function Insert(t: KeywordTree, s: string, tt: TokenType): (r: KeywordTree)
    requires WellKeyed(t)
    ensures WellKeyed(r) && r.chr == t.chr
    decreases |s|
  {
    if s == [] then t.(token := Some(tt))
    else
      var c := s[0];
      var child := if c in t.children then t.children[c] else Leaf(c);
      t.(children := t.children[c := Insert(child, s[1..], tt)])
  }

  function AddToken(t: KeywordTree, tt: TokenType): KeywordTree
    requires WellKeyed(t)
  {
    Insert(t, Lexeme(tt), tt)
  }

  /** Insert the lexemes of `ts` into `t`, first to last. */
  function AddAll(t: KeywordTree, ts: seq<TokenType>): (r: KeywordTree)
    requires WellKeyed(t)
    ensures WellKeyed(r)
    decreases |ts|
  {
    if ts == [] then t else AddAll(AddToken(t, ts[0]), ts[1..])
  }

  /** `populate`: the trie of every token type's lexeme. */
  function Populate(): (r: KeywordTree)
    ensures WellKeyed(r)
  {
    AddAll(Leaf(RootChar), AllTokenTypes())
  }

  // ---------------------------------------------------------------------
  // Walking

  /** Walking `a + b` is walking `a` and then `b` from wherever `a` ended. */
  lemma {:induction false} WalkConcat(t: KeywordTree, a: string, b: string)
    requires WellKeyed(t)
    ensures GetTokenType(t, a + b) ==
      match GetTokenType(t, a)
      case Some(n) => GetTokenType(n, b)
      case None => None
    decreases |a|
  {
    if a != [] {
      assert (a + b)[0] == a[0] && (a + b)[1..] == a[1..] + b;
      if a[0] in t.children {
        WalkConcat(t.children[a[0]], a[1..], b);
      }
    } else {
      assert a + b == b;
    }
  }

  /** Paths are closed under prefixes. */
  lemma {:induction false} PathPrefixClosed(t: KeywordTree, p: string, q: string)
    requires WellKeyed(t) && p <= q && HasPath(t, q)
    ensures HasPath(t, p)
  {
    assert q == p + q[|p|..];
    WalkConcat(t, p, q[|p|..]);
  }

  /** `get_tokentype` fails exactly when, at some point of the walk, the
      next query character has no child. */
  lemma {:induction false} WalkFailsAtMissingChild(t: KeywordTree, q: string)
    requires WellKeyed(t)
    ensures GetTokenType(t, q).None? <==> exists k :: MissingChildAt(t, q, k)
  {
    if GetTokenType(t, q).None? {
      var k := FirstMissing(t, q);
    } else {
      forall k | MissingChildAt(t, q, k)
        ensures false
      {
        assert q == q[..k] + ([q[k]] + q[k + 1..]);
        WalkConcat(t, q[..k], [q[k]] + q[k + 1..]);
      }
    }
  }

  /** The walk along `q` reaches the prefix `q[..k]` but not `q[..k+1]`. */
  predicate MissingChildAt(t: KeywordTree, q: string, k: int)
    requires WellKeyed(t)
  {
    && 0 <= k < |q|
    && HasPath(t, q[..k])
    && q[k] !in GetTokenType(t, q[..k]).value.children
  }

  /** Locates the character of `q` that has no child, by following the
      walk from the front. */
  lemma {:induction false} FirstMissing(t: KeywordTree, q: string) returns (m: nat)
    requires WellKeyed(t) && GetTokenType(t, q).None?
    ensures MissingChildAt(t, q, m)
    decreases |q|
  {
    assert q != [];
    if q[0] !in t.children {
      m := 0;
      assert q[..0] == [];
    } else {
      var child := t.children[q[0]];
      var m' := FirstMissing(child, q[1..]);
      m := m' + 1;
      assert q[..m][1..] == q[1..][..m'];
      assert q[..m][0] == q[0];
      assert q[m] == q[1..][m'];
    }
  }

  // ---------------------------------------------------------------------
  // Insertion touches one path only

  /** One step of a walk after an insertion: the first character of the
      inserted string leads into the child the insertion rebuilt, any other
      first character into the child that was there before. */
  lemma {:induction false} InsertFirstStep(t: KeywordTree, s: string, tt: TokenType, q: string)
    requires WellKeyed(t) && s != [] && q != []
    ensures var c := s[0]; var child := if c in t.children then t.children[c] else Leaf(c);
      GetTokenType(Insert(t, s, tt), q) ==
        if q[0] == c then GetTokenType(Insert(child, s[1..], tt), q[1..]) else GetTokenType(t, q)
  {
  }

  /** After inserting `s`, a path exists exactly when it existed before or
      is a prefix of `s`. */
  lemma {:induction false} InsertPaths(t: KeywordTree, s: string, tt: TokenType, q: string)
    requires WellKeyed(t)
    ensures HasPath(Insert(t, s, tt), q) <==> HasPath(t, q) || q <= s
    decreases |s|
  {
    if q != [] && s != [] {
      var c := s[0];
      var child := if c in t.children then t.children[c] else Leaf(c);
      InsertFirstStep(t, s, tt, q);
      if q[0] == c {
        InsertPaths(child, s[1..], tt, q[1..]);
        if c !in t.children {
          LeafPaths(c, q[1..]);
        }
        assert q <= s <==> q[1..] <= s[1..];
      }
    }
  }

  /** A fresh node has only the empty path. */
  lemma {:induction false} LeafPaths(c: char, q: string)
    ensures HasPath(Leaf(c), q) <==> q == []
  {
  }

  /** Inserting `s` marks the end of `s` with `tt` and leaves the terminal
      token at every other path as it was. */
  lemma {:induction false} InsertTokens(t: KeywordTree, s: string, tt: TokenType, q: string)
    requires WellKeyed(t)
    ensures TokenAt(Insert(t, s, tt), q) == if q == s then Some(tt) else TokenAt(t, q)
    decreases |s|
  {
    if s == [] {
      MarkKeepsPaths(t, tt, q);
    } else if q != [] {
      var c := s[0];
      var child := if c in t.children then t.children[c] else Leaf(c);
      InsertTokenStep(t, s, tt, q);
      if q[0] == c {
        InsertTokens(child, s[1..], tt, q[1..]);
        TokenAtChild(t, q);
        LeafTokens(c, q[1..]);
        assert q == s <==> q[1..] == s[1..];
      }
    }
  }

  /** `InsertFirstStep` for the terminal token. */
  lemma {:induction false} InsertTokenStep(t: KeywordTree, s: string, tt: TokenType, q: string)
    requires WellKeyed(t) && s != [] && q != []
    ensures var c := s[0]; var child := if c in t.children then t.children[c] else Leaf(c);
      TokenAt(Insert(t, s, tt), q) ==
        if q[0] == c then TokenAt(Insert(child, s[1..], tt), q[1..]) else TokenAt(t, q)
  {
    InsertFirstStep(t, s, tt, q);
  }

  /** The terminal token at a non-empty path is read in the child its
      first character leads to. */
  lemma {:induction false} TokenAtChild(t: KeywordTree, q: string)
    requires WellKeyed(t) && q != []
    ensures TokenAt(t, q) == if q[0] in t.children then TokenAt(t.children[q[0]], q[1..]) else None
  {
  }

  /** A fresh node has no terminal token anywhere. */
  lemma {:induction false} LeafTokens(c: char, q: string)
    ensures TokenAt(Leaf(c), q) == None
  {
  }

  /** Marking a node leaves every longer path as it was. */
  lemma {:induction false} MarkKeepsPaths(t: KeywordTree, tt: TokenType, q: string)
    requires WellKeyed(t)
    ensures TokenAt(t.(token := Some(tt)), q) == if q == [] then Some(tt) else TokenAt(t, q)
  {
  }


  /** A path that is neither a prefix nor an extension of `s` leads to the
      very same subtree after the insertion. */
  lemma {:induction false} InsertKeepsOtherSubtrees(t: KeywordTree, s: string, tt: TokenType, q: string)
    requires WellKeyed(t)
    requires !(q <= s) && !(s <= q)
    ensures GetTokenType(Insert(t, s, tt), q) == GetTokenType(t, q)
    decreases |s|
  {
    var c := s[0];
    var child := if c in t.children then t.children[c] else Leaf(c);
    InsertFirstStep(t, s, tt, q);
    if q[0] == c {
      InsertKeepsOtherSubtrees(child, s[1..], tt, q[1..]);
      if c !in t.children {
        LeafPaths(c, q[1..]);
      }
    }
  }

  // ---------------------------------------------------------------------
  // The populated trie

  /** The terminal tokens after inserting a list of token types: the
      lexeme of an inserted type leads to that type; any other path keeps
      the token it had before. */
  lemma {:induction false} AddAllTokens(t: KeywordTree, ts: seq<TokenType>, q: string)
    requires WellKeyed(t)
    ensures TokenAt(AddAll(t, ts), q) ==
      if LookupLexeme(q, ts).Some? then LookupLexeme(q, ts) else TokenAt(t, q)
    decreases |ts|
  {
    if ts != [] {
      var a := ts[0];
      AddAllTokens(AddToken(t, a), ts[1..], q);
      InsertTokens(t, Lexeme(a), a, q);
      var later := LookupLexeme(q, ts[1..]);
      if Lexeme(a) == q && later.Some? {
        LexemesDistinct(later.value, a);
      }
    }
  }

  /** After `populate`, the terminal token at any path is the token type
      whose lexeme that path spells, and nothing else is terminal. */
  lemma {:induction false} PopulateTokens(q: string)
    ensures TokenAt(Populate(), q) == FromLexeme(q)
  {
    AddAllTokens(Leaf(RootChar), AllTokenTypes(), q);
    LeafPaths(RootChar, q);
  }

  /** In particular every token type's lexeme leads to exactly that type. */
  lemma {:induction false} PopulateFindsEveryLexeme(t: TokenType)
    ensures TokenAt(Populate(), Lexeme(t)) == Some(t)
  {
    PopulateTokens(Lexeme(t));
    LexemeRoundTrip(t);
  }

  /** The paths of a trie after inserting `ts`: the old ones and the
      prefixes of the inserted lexemes. */
  lemma {:induction false} AddAllPaths(t: KeywordTree, ts: seq<TokenType>, q: string)
    requires WellKeyed(t)
    ensures HasPath(AddAll(t, ts), q) <==>
      HasPath(t, q) || exists i :: 0 <= i < |ts| && q <= Lexeme(ts[i])
    decreases |ts|
  {
    if ts != [] {
      AddAllPaths(AddToken(t, ts[0]), ts[1..], q);
      InsertPaths(t, Lexeme(ts[0]), ts[0], q);
      if exists i :: 0 <= i < |ts| && q <= Lexeme(ts[i]) {
        var i :| 0 <= i < |ts| && q <= Lexeme(ts[i]);
        if i > 0 {
          assert ts[1..][i - 1] == ts[i];
        }
      }
      if exists i :: 0 <= i < |ts[1..]| && q <= Lexeme(ts[1..][i]) {
        var i :| 0 <= i < |ts[1..]| && q <= Lexeme(ts[1..][i]);
        assert ts[1..][i] == ts[i + 1];
      }
    }
  }

  /** `q` is a prefix of some reserved lexeme. */
  predicate PrefixOfSomeLexeme(q: string) {
    exists t: TokenType :: q <= Lexeme(t)
  }

  /** Ranging over a list that holds every token type is ranging over all
      token types. */
  lemma {:induction false} PrefixOverCompleteList(ts: seq<TokenType>, q: string)
    requires forall t: TokenType :: t in ts
    ensures (exists i :: 0 <= i < |ts| && q <= Lexeme(ts[i])) <==> PrefixOfSomeLexeme(q)
  {
    if PrefixOfSomeLexeme(q) {
      var t: TokenType :| q <= Lexeme(t);
      assert t in ts;
      var i :| 0 <= i < |ts| && ts[i] == t;
    }
  }

  /** Inserting a list that holds every token type into a fresh root
      yields exactly the prefixes of the lexemes as paths. */
  lemma {:induction false} PathsOverCompleteList(ts: seq<TokenType>, q: string)
    requires forall t: TokenType :: t in ts
    ensures HasPath(AddAll(Leaf(RootChar), ts), q) <==> PrefixOfSomeLexeme(q)
  {
    AddAllPaths(Leaf(RootChar), ts, q);
    LeafPaths(RootChar, q);
    PrefixOverCompleteList(ts, q);
    if q == [] {
      assert q <= Lexeme(Plus);
    }
  }

  /** The populated trie holds exactly the prefixes of the lexemes. */
  lemma {:induction false} PopulatePaths(q: string)
    ensures HasPath(Populate(), q) <==> PrefixOfSomeLexeme(q)
  {
    AllTokenTypesHoldsEvery();
    PathsOverCompleteList(AllTokenTypes(), q);
  }

  /** No path out of the populated root starts with a digit or an
      underscore, since no lexeme contains one. */
  lemma {:induction false} PopulateRootHasNoDigitOrUnderscore(c: char)
    requires IsDigit(c) || IsUnderscore(c)
    ensures !HasPath(Populate(), [c])
  {
    PopulatePaths([c]);
  }

  /** A trie recognises the reserved lexemes when every lexeme leads to
      its own token type, every terminal token sits at its own lexeme, and
      its paths are exactly the lexemes' prefixes. */
  ghost predicate Recognises(root: KeywordTree) {
    && WellKeyed(root)
    && (forall t {:trigger TokenAt(root, Lexeme(t))} :: TokenAt(root, Lexeme(t)) == Some(t))
    && (forall q {:trigger TokenAt(root, q)} :: TokenAt(root, q).Some? ==> Lexeme(TokenAt(root, q).value) == q)
    && (forall q {:trigger HasPath(root, q)} :: HasPath(root, q) <==> PrefixOfSomeLexeme(q))
  }

  /** `populate` builds a trie that recognises the reserved lexemes. */
  lemma {:induction false} PopulateRecognises()
    ensures Recognises(Populate())
  {
    forall t
      ensures TokenAt(Populate(), Lexeme(t)) == Some(t)
    {
      PopulateFindsEveryLexeme(t);
    }
    forall q
      ensures TokenAt(Populate(), q).Some? ==> Lexeme(TokenAt(Populate(), q).value) == q
      ensures HasPath(Populate(), q) <==> PrefixOfSomeLexeme(q)
    {
      PopulateTokens(q);
      PopulatePaths(q);
    }
  }

  /** Every prefix of a lexeme is a path of a recognising trie. */
  lemma {:induction false} PrefixOfLexemeIsPath(root: KeywordTree, q: string, t: TokenType)
    requires Recognises(root) && q <= Lexeme(t)
    ensures HasPath(root, q)
  {
    assert PrefixOfSomeLexeme(q);
  }

  /** Over a recognising trie the terminal token at a path is the token
      type whose lexeme the path spells. */
  lemma {:induction false} RecognisedTokens(root: KeywordTree, q: string)
    requires Recognises(root)
    ensures TokenAt(root, q) == FromLexeme(q)
  {
    match FromLexeme(q)
    case Some(t) =>
      LexemeRoundTrip(t);
      assert TokenAt(root, Lexeme(t)) == Some(t);
    case None =>
      if TokenAt(root, q).Some? {
        LexemeRoundTrip(TokenAt(root, q).value);
        assert false;
      }
  }
}
