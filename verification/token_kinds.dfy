/** Token kinds as the Pratt compiler uses them (src/parser.rs): operators,
    number literals and keywords are nested, and the compiler also knows the
    kinds `Operator(Equal)`, `Keyword(In)` and `Eof`, which the scanner's flat
    enumeration lacks. `KindOf` maps the scanner's kinds into this one. */
module TokenKinds {
  import opened Faults
  import TT = TokenTypes

  datatype Operator =
    | LeftParen | RightParen | Pound
    | Plus | Minus | Star | StarStar | Slash | SlashSlash
    | EqualEqual | NotEqual | Less | LessEqual | Greater | GreaterEqual
    | Equal

  datatype Number = Integer | Float | Complex

  datatype Keyword = Assert | If | In | Not | Else | Elif | While | For | Class

  datatype TokenKind =
    | Operator(op: Operator)
    | Number(num: Number)
    | Keyword(kw: Keyword)
    | Identifier
    | Eof

  /** A scanned token: its kind, where its lexeme starts, the length the
      scanner reported and the source line. */
  datatype Token = Token(kind: TokenKind, start: nat, length: nat, line: nat)

  /** The compiler's view of a scanner kind. */
  function KindOf(t: TT.TokenType): (r: TokenKind)
    ensures r != Eof && r != Operator(Equal) && r != Keyword(In)
  {
    match t
    case LeftParen => Operator(LeftParen)
    case RightParen => Operator(RightParen)
    case Pound => Operator(Pound)
    case Plus => Operator(Plus)
    case Minus => Operator(Minus)
    case Star => Operator(Star)
    case StarStar => Operator(StarStar)
    case Slash => Operator(Slash)
    case SlashSlash => Operator(SlashSlash)
    case EqualEqual => Operator(EqualEqual)
    case NotEqual => Operator(NotEqual)
    case Less => Operator(Less)
    case LessEqual => Operator(LessEqual)
    case Greater => Operator(Greater)
    case GreaterEqual => Operator(GreaterEqual)
    case Assert => Keyword(Assert)
    case If => Keyword(If)
    case Not => Keyword(Not)
    case Else => Keyword(Else)
    case Elif => Keyword(Elif)
    case While => Keyword(While)
    case For => Keyword(For)
    case Integer => Number(Integer)
    case Float => Number(Float)
    case Complex => Number(Complex)
    case Class => Keyword(Class)
    case Identifier => Identifier
  }

  /** The scanner kind behind a compiler kind; `None` for the three kinds
      only the compiler knows. */
  function FlatKind(k: TokenKind): Option<TT.TokenType> {
    match k
    case Operator(LeftParen) => Some(TT.LeftParen)
    case Operator(RightParen) => Some(TT.RightParen)
    case Operator(Pound) => Some(TT.Pound)
    case Operator(Plus) => Some(TT.Plus)
    case Operator(Minus) => Some(TT.Minus)
    case Operator(Star) => Some(TT.Star)
    case Operator(StarStar) => Some(TT.StarStar)
    case Operator(Slash) => Some(TT.Slash)
    case Operator(SlashSlash) => Some(TT.SlashSlash)
    case Operator(EqualEqual) => Some(TT.EqualEqual)
    case Operator(NotEqual) => Some(TT.NotEqual)
    case Operator(Less) => Some(TT.Less)
    case Operator(LessEqual) => Some(TT.LessEqual)
    case Operator(Greater) => Some(TT.Greater)
    case Operator(GreaterEqual) => Some(TT.GreaterEqual)
    case Operator(Equal) => None
    case Number(Integer) => Some(TT.Integer)
    case Number(Float) => Some(TT.Float)
    case Number(Complex) => Some(TT.Complex)
    case Keyword(Assert) => Some(TT.Assert)
    case Keyword(If) => Some(TT.If)
    case Keyword(In) => None
    case Keyword(Not) => Some(TT.Not)
    case Keyword(Else) => Some(TT.Else)
    case Keyword(Elif) => Some(TT.Elif)
    case Keyword(While) => Some(TT.While)
    case Keyword(For) => Some(TT.For)
    case Keyword(Class) => Some(TT.Class)
    case Identifier => Some(TT.Identifier)
    case Eof => None
  }

  /** The scanner's tokens as the compiler receives them: each keeps its
      position, and its kind is the nested counterpart of the scanner's. */
  function CompilerTokens(ts: seq<TT.Token>): (r: seq<Token>)
    ensures |r| == |ts|
    ensures forall i :: 0 <= i < |ts| ==>
      FlatKind(r[i].kind) == Some(ts[i].tokentype) &&
      r[i].start == ts[i].start && r[i].length == ts[i].length && r[i].line == ts[i].line
  {
    seq(|ts|, i requires 0 <= i < |ts| =>
      Token(KindOf(ts[i].tokentype), ts[i].start, ts[i].length, ts[i].line))
  }

  /** `FlatKind` undoes `KindOf`. */
  lemma {:induction false} FlatKindOfKind(t: TT.TokenType)
    ensures FlatKind(KindOf(t)) == Some(t)
  {
  }

  /** `KindOf` loses nothing: distinct scanner kinds stay distinct. */
  lemma {:induction false} KindOfInjective(a: TT.TokenType, b: TT.TokenType)
    ensures KindOf(a) == KindOf(b) <==> a == b
  {
    FlatKindOfKind(a);
    FlatKindOfKind(b);
  }

  /** The compiler kinds that some scanner kind maps to are exactly those
      with a flat counterpart. */
  lemma {:induction false} KindOfOnto(k: TokenKind)
    ensures FlatKind(k).Some? ==> KindOf(FlatKind(k).value) == k
    ensures FlatKind(k).None? <==> k in {Eof, Operator(Equal), Keyword(In)}
  {
  }
}
