/** The scanner's flat token enumeration (`TokenType` of src/token.rs), its
    lexeme table and the character classes the scanner uses. */
module TokenTypes {
  import opened Faults

  /** The flat enumeration, in declaration order. Note that `Integer`,
      `Float` and `Complex` double as the type keywords `int`, `float` and
      `complex`, and that `Identifier` has the literal lexeme "Identifier". */
  datatype TokenType =
    | LeftParen | RightParen | Pound
    | Plus | Minus | Star | StarStar | Slash | SlashSlash
    | EqualEqual | NotEqual | Less | LessEqual | Greater | GreaterEqual
    | Assert | If | Not | Else | Elif | While | For
    | Integer | Float | Complex | Class
    | Identifier

  /** A scanned token: its type, where its lexeme starts, the length the
      scanner reported and the source line. */
  datatype Token = Token(tokentype: TokenType, start: nat, length: nat, line: nat)

  /** The three number types, which double as the type keywords. */
  predicate IsNumberType(t: TokenType) {
    t == Integer || t == Float || t == Complex
  }

  predicate IsUnderscore(c: char) {
    c == '_'
  }

  /** ASCII digits only, as `char::is_ascii_digit`. */
  predicate IsDigit(c: char) {
    '0' <= c <= '9'
  }

  /** ASCII letters only. */
  predicate IsAlpha(c: char) {
    ('a' <= c <= 'z') || ('A' <= c <= 'Z')
  }

  /** The reserved lexeme of each token type. No lexeme is empty, and none
      contains a digit, an underscore or a space. */
  function Lexeme(t: TokenType): (r: string)
    ensures |r| > 0
    ensures forall i :: 0 <= i < |r| ==> !IsDigit(r[i]) && !IsUnderscore(r[i]) && r[i] != ' '
  {
    match t
    case LeftParen => "("
    case RightParen => ")"
    case Pound => "#"
    case Plus => "+"
    case Minus => "-"
    case Star => "*"
    case StarStar => "**"
    case Slash => "/"
    case SlashSlash => "//"
    case EqualEqual => "=="
    case Less => "<"
    case LessEqual => "<="
    case Greater => ">"
    case GreaterEqual => ">="
    case NotEqual => "!="
    case Assert => "assert"
    case If => "if"
    case Not => "not"
    case Else => "else"
    case Elif => "elif"
    case While => "while"
    case For => "for"
    case Integer => "int"
    case Float => "float"
    case Complex => "complex"
    case Class => "class"
    case Identifier => "Identifier"
  }

  /** Reverse lookup of the lexeme table: the first token type of `ts`
      whose lexeme is `s`, if there is one. */
  function LookupLexeme(s: string, ts: seq<TokenType>): (r: Option<TokenType>)
    ensures r.Some? ==> r.value in ts && Lexeme(r.value) == s
    ensures r.None? <==> forall i :: 0 <= i < |ts| ==> Lexeme(ts[i]) != s
  {
    if ts == [] then None
    else if Lexeme(ts[0]) == s then Some(ts[0])
    else LookupLexeme(s, ts[1..])
  }

  /** The token type whose lexeme is `s`, if any. */
  function FromLexeme(s: string): (r: Option<TokenType>)
    ensures r.Some? ==> Lexeme(r.value) == s
  {
    LookupLexeme(s, AllTokenTypes())
  }

  /** `LookupLexeme` finds the first entry carrying the lexeme. */
  lemma {:induction false} LookupFindsFirst(s: string, ts: seq<TokenType>, k: nat)
    requires k < |ts| && Lexeme(ts[k]) == s
    requires forall i :: 0 <= i < k ==> Lexeme(ts[i]) != s
    ensures LookupLexeme(s, ts) == Some(ts[k])
    decreases k
  {
    if k > 0 {
      LookupFindsFirst(s, ts[1..], k - 1);
    }
  }

  /** The lexeme table is injective: looking a lexeme up again gives back
      its own token type. Together with the contract of `FromLexeme` this
      says that `FromLexeme` is exactly the inverse of `Lexeme`. */
  lemma {:induction false} LexemeRoundTrip(t: TokenType)
    ensures FromLexeme(Lexeme(t)) == Some(t)
  {
    var all := AllTokenTypes();
    AllTokenTypesComplete(t);
    var k :| 0 <= k < |all| && all[k] == t;
    assert Lexeme(all[k]) == Lexeme(t);
    var r := FromLexeme(Lexeme(t));
    if r.value != t {
      LexemeFingerprint(r.value, t);
    }
  }

  /** Distinct token types have distinct lexemes, decided by length and
      first character and, where those agree, a later character. */
  lemma {:induction false} LexemeFingerprint(a: TokenType, b: TokenType)
    requires a != b
    ensures Lexeme(a) != Lexeme(b)
  {
    var x, y := Lexeme(a), Lexeme(b);
    if |x| == |y| && x[0] == y[0] {
      assert |x| >= 2;
      if x[1] == y[1] {
        assert x[2] != y[2];
      }
    }
  }

  lemma {:induction false} LexemesDistinct(a: TokenType, b: TokenType)
    ensures Lexeme(a) == Lexeme(b) <==> a == b
  {
    LexemeRoundTrip(a);
    LexemeRoundTrip(b);
  }

  /** The iteration order of the enumeration: declaration order. */
  function AllTokenTypes(): seq<TokenType> {
    [ LeftParen, RightParen, Pound,
      Plus, Minus, Star, StarStar, Slash, SlashSlash,
      EqualEqual, NotEqual, Less, LessEqual, Greater, GreaterEqual,
      Assert, If, Not, Else, Elif, While, For,
      Integer, Float, Complex, Class,
      Identifier ]
  }

  /** The iteration order holds every token type. */
  lemma {:induction false} AllTokenTypesHoldsEvery()
    ensures forall t: TokenType :: t in AllTokenTypes()
  {
    forall t: TokenType
      ensures t in AllTokenTypes()
    {
      AllTokenTypesComplete(t);
    }
  }

  /** Every token type occurs in the iteration order. */
  lemma {:induction false} AllTokenTypesComplete(t: TokenType)
    ensures t in AllTokenTypes()
  {
    var all := AllTokenTypes();
    match t
    case LeftParen => assert all[0] == t;
    case RightParen => assert all[1] == t;
    case Pound => assert all[2] == t;
    case Plus => assert all[3] == t;
    case Minus => assert all[4] == t;
    case Star => assert all[5] == t;
    case StarStar => assert all[6] == t;
    case Slash => assert all[7] == t;
    case SlashSlash => assert all[8] == t;
    case EqualEqual => assert all[9] == t;
    case NotEqual => assert all[10] == t;
    case Less => assert all[11] == t;
    case LessEqual => assert all[12] == t;
    case Greater => assert all[13] == t;
    case GreaterEqual => assert all[14] == t;
    case Assert => assert all[15] == t;
    case If => assert all[16] == t;
    case Not => assert all[17] == t;
    case Else => assert all[18] == t;
    case Elif => assert all[19] == t;
    case While => assert all[20] == t;
    case For => assert all[21] == t;
    case Integer => assert all[22] == t;
    case Float => assert all[23] == t;
    case Complex => assert all[24] == t;
    case Class => assert all[25] == t;
    case Identifier => assert all[26] == t;
  }

  /** A string ending in a space is a prefix of no lexeme. */
  lemma {:induction false} NoLexemeRunsPastSpace(q: string, t: TokenType)
    requires |q| > 0 && q[|q| - 1] == ' '
    ensures !(q <= Lexeme(t))
  {
  }
}
