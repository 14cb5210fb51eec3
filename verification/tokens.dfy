/** The token model: the closed set of token kinds and the immutable
    (kind, value) record the lexer produces (Lexer/TokenType.cs, Lexer/Token.cs). */
module Tokens {
  import opened Wrappers

  /** The token kinds in declaration order. `LeftSquareBracket` and
      `RightSquareBracket` are used by the lexer's rule table and the parser
      although their declarations are commented out in the enumeration. */
  datatype TokenKind =
    | AnyExpression | As | AxisNameIdentifier | Dimension | DateExpression
    | DimensionProperty | Empty | EndOfLine | From | IdentifierSeparator
    | LastToken | LeftCurlyBracket | LeftRoundBracket | LeftSquareBracket
    | LogicalExpression | LogicsOperator | MathsOperator | Member
    | MemberSeparator | Non | NotOperator | NumberExpression | On | Ordering
    | Properties | RangeSeparator | RightCurlyBracket | RightRoundBracket
    | RightSquareBracket | Select | Set | ValueSeparator | Where | With
    | IdentifierExpression | TitleExpression

  /** The name an enumeration value prints as. */
  function KindName(k: TokenKind): string {
    match k
    case AnyExpression => "AnyExpression"
    case As => "As"
    case AxisNameIdentifier => "AxisNameIdentifier"
    case Dimension => "Dimension"
    case DateExpression => "DateExpression"
    case DimensionProperty => "DimensionProperty"
    case Empty => "Empty"
    case EndOfLine => "EndOfLine"
    case From => "From"
    case IdentifierSeparator => "IdentifierSeparator"
    case LastToken => "LastToken"
    case LeftCurlyBracket => "LeftCurlyBracket"
    case LeftRoundBracket => "LeftRoundBracket"
    case LeftSquareBracket => "LeftSquareBracket"
    case LogicalExpression => "LogicalExpression"
    case LogicsOperator => "LogicsOperator"
    case MathsOperator => "MathsOperator"
    case Member => "Member"
    case MemberSeparator => "MemberSeparator"
    case Non => "Non"
    case NotOperator => "NotOperator"
    case NumberExpression => "NumberExpression"
    case On => "On"
    case Ordering => "Ordering"
    case Properties => "Properties"
    case RangeSeparator => "RangeSeparator"
    case RightCurlyBracket => "RightCurlyBracket"
    case RightRoundBracket => "RightRoundBracket"
    case RightSquareBracket => "RightSquareBracket"
    case Select => "Select"
    case Set => "Set"
    case ValueSeparator => "ValueSeparator"
    case Where => "Where"
    case With => "With"
    case IdentifierExpression => "IdentifierExpression"
    case TitleExpression => "TitleExpression"
  }

  /** Reads an enumeration name back. */
  function KindOfName(name: string): Option<TokenKind> {
    if |name| == 2 then
      if name == "As" then Some(As)
      else if name == "On" then Some(On)
      else None
    else if |name| == 3 then
      if name == "Non" then Some(Non)
      else if name == "Set" then Some(Set)
      else None
    else if |name| == 4 then
      if name == "From" then Some(From)
      else if name == "With" then Some(With)
      else None
    else if |name| == 5 then
      if name == "Empty" then Some(Empty)
      else if name == "Where" then Some(Where)
      else None
    else if |name| == 6 then
      if name == "Member" then Some(Member)
      else if name == "Select" then Some(Select)
      else None
    else if |name| == 8 then
      if name == "Ordering" then Some(Ordering)
      else None
    else if |name| == 9 then
      if name == "Dimension" then Some(Dimension)
      else if name == "EndOfLine" then Some(EndOfLine)
      else if name == "LastToken" then Some(LastToken)
      else None
    else if |name| == 10 then
      if name == "Properties" then Some(Properties)
      else None
    else if |name| == 11 then
      if name == "NotOperator" then Some(NotOperator)
      else None
    else if |name| == 13 then
      if name == "AnyExpression" then Some(AnyExpression)
      else if name == "MathsOperator" then Some(MathsOperator)
      else None
    else if |name| == 14 then
      if name == "DateExpression" then Some(DateExpression)
      else if name == "LogicsOperator" then Some(LogicsOperator)
      else if name == "RangeSeparator" then Some(RangeSeparator)
      else if name == "ValueSeparator" then Some(ValueSeparator)
      else None
    else if |name| == 15 then
      if name == "MemberSeparator" then Some(MemberSeparator)
      else if name == "TitleExpression" then Some(TitleExpression)
      else None
    else if |name| == 16 then
      if name == "LeftCurlyBracket" then Some(LeftCurlyBracket)
      else if name == "LeftRoundBracket" then Some(LeftRoundBracket)
      else if name == "NumberExpression" then Some(NumberExpression)
      else None
    else if |name| == 17 then
      if name == "DimensionProperty" then Some(DimensionProperty)
      else if name == "LeftSquareBracket" then Some(LeftSquareBracket)
      else if name == "LogicalExpression" then Some(LogicalExpression)
      else if name == "RightCurlyBracket" then Some(RightCurlyBracket)
      else if name == "RightRoundBracket" then Some(RightRoundBracket)
      else None
    else if |name| == 18 then
      if name == "AxisNameIdentifier" then Some(AxisNameIdentifier)
      else if name == "RightSquareBracket" then Some(RightSquareBracket)
      else None
    else if |name| == 19 then
      if name == "IdentifierSeparator" then Some(IdentifierSeparator)
      else None
    else if |name| == 20 then
      if name == "IdentifierExpression" then Some(IdentifierExpression)
      else None
    else None
  }

  /** Every kind prints under a name that reads back as that kind, so no two
      kinds share a printed name. The cases are split in groups of four to
      keep each proof small. */
  lemma KindNameRoundTrip(k: TokenKind)
    ensures KindOfName(KindName(k)) == Some(k)
  {
    if k.AnyExpression? || k.As? || k.AxisNameIdentifier? || k.Dimension? {
      KindNameRoundTrip1(k);
    } else if k.DateExpression? || k.DimensionProperty? || k.Empty? || k.EndOfLine? {
      KindNameRoundTrip2(k);
    } else if k.From? || k.IdentifierSeparator? || k.LastToken? || k.LeftCurlyBracket? {
      KindNameRoundTrip3(k);
    } else if k.LeftRoundBracket? || k.LeftSquareBracket? || k.LogicalExpression? || k.LogicsOperator? {
      KindNameRoundTrip4(k);
    } else if k.MathsOperator? || k.Member? || k.MemberSeparator? || k.Non? {
      KindNameRoundTrip5(k);
    } else if k.NotOperator? || k.NumberExpression? || k.On? || k.Ordering? {
      KindNameRoundTrip6(k);
    } else if k.Properties? || k.RangeSeparator? || k.RightCurlyBracket? || k.RightRoundBracket? {
      KindNameRoundTrip7(k);
    } else if k.RightSquareBracket? || k.Select? || k.Set? || k.ValueSeparator? {
      KindNameRoundTrip8(k);
    } else {
      KindNameRoundTrip9(k);
    }
  }

  lemma KindNameRoundTrip1(k: TokenKind)
    requires k.AnyExpression? || k.As? || k.AxisNameIdentifier? || k.Dimension?
    ensures KindOfName(KindName(k)) == Some(k)
  {
  }

  lemma KindNameRoundTrip2(k: TokenKind)
    requires k.DateExpression? || k.DimensionProperty? || k.Empty? || k.EndOfLine?
    ensures KindOfName(KindName(k)) == Some(k)
  {
  }

  lemma KindNameRoundTrip3(k: TokenKind)
    requires k.From? || k.IdentifierSeparator? || k.LastToken? || k.LeftCurlyBracket?
    ensures KindOfName(KindName(k)) == Some(k)
  {
  }

  lemma KindNameRoundTrip4(k: TokenKind)
    requires k.LeftRoundBracket? || k.LeftSquareBracket? || k.LogicalExpression? || k.LogicsOperator?
    ensures KindOfName(KindName(k)) == Some(k)
  {
  }

  lemma KindNameRoundTrip5(k: TokenKind)
    requires k.MathsOperator? || k.Member? || k.MemberSeparator? || k.Non?
    ensures KindOfName(KindName(k)) == Some(k)
  {
  }

  lemma KindNameRoundTrip6(k: TokenKind)
    requires k.NotOperator? || k.NumberExpression? || k.On? || k.Ordering?
    ensures KindOfName(KindName(k)) == Some(k)
  {
  }

  lemma KindNameRoundTrip7(k: TokenKind)
    requires k.Properties? || k.RangeSeparator? || k.RightCurlyBracket? || k.RightRoundBracket?
    ensures KindOfName(KindName(k)) == Some(k)
  {
  }

  lemma KindNameRoundTrip8(k: TokenKind)
    requires k.RightSquareBracket? || k.Select? || k.Set? || k.ValueSeparator?
    ensures KindOfName(KindName(k)) == Some(k)
  {
  }

  lemma KindNameRoundTrip9(k: TokenKind)
    requires k.Where? || k.With? || k.IdentifierExpression? || k.TitleExpression?
    ensures KindOfName(KindName(k)) == Some(k)
  {
  }

  /** No printed kind name contains an opening square bracket. */
  lemma KindNameHasNoBracket(k: TokenKind)
    ensures '[' !in KindName(k)
  {
    if k.AnyExpression? || k.As? || k.AxisNameIdentifier? || k.Dimension? {
      KindNameHasNoBracket1(k);
    } else if k.DateExpression? || k.DimensionProperty? || k.Empty? || k.EndOfLine? {
      KindNameHasNoBracket2(k);
    } else if k.From? || k.IdentifierSeparator? || k.LastToken? || k.LeftCurlyBracket? {
      KindNameHasNoBracket3(k);
    } else if k.LeftRoundBracket? || k.LeftSquareBracket? || k.LogicalExpression? || k.LogicsOperator? {
      KindNameHasNoBracket4(k);
    } else if k.MathsOperator? || k.Member? || k.MemberSeparator? || k.Non? {
      KindNameHasNoBracket5(k);
    } else if k.NotOperator? || k.NumberExpression? || k.On? || k.Ordering? {
      KindNameHasNoBracket6(k);
    } else if k.Properties? || k.RangeSeparator? || k.RightCurlyBracket? || k.RightRoundBracket? {
      KindNameHasNoBracket7(k);
    } else if k.RightSquareBracket? || k.Select? || k.Set? || k.ValueSeparator? {
      KindNameHasNoBracket8(k);
    } else {
      KindNameHasNoBracket9(k);
    }
  }

  lemma KindNameHasNoBracket1(k: TokenKind)
    requires k.AnyExpression? || k.As? || k.AxisNameIdentifier? || k.Dimension?
    ensures '[' !in KindName(k)
  {
  }

  lemma KindNameHasNoBracket2(k: TokenKind)
    requires k.DateExpression? || k.DimensionProperty? || k.Empty? || k.EndOfLine?
    ensures '[' !in KindName(k)
  {
  }

  lemma KindNameHasNoBracket3(k: TokenKind)
    requires k.From? || k.IdentifierSeparator? || k.LastToken? || k.LeftCurlyBracket?
    ensures '[' !in KindName(k)
  {
  }

  lemma KindNameHasNoBracket4(k: TokenKind)
    requires k.LeftRoundBracket? || k.LeftSquareBracket? || k.LogicalExpression? || k.LogicsOperator?
    ensures '[' !in KindName(k)
  {
  }

  lemma KindNameHasNoBracket5(k: TokenKind)
    requires k.MathsOperator? || k.Member? || k.MemberSeparator? || k.Non?
    ensures '[' !in KindName(k)
  {
  }

  lemma KindNameHasNoBracket6(k: TokenKind)
    requires k.NotOperator? || k.NumberExpression? || k.On? || k.Ordering?
    ensures '[' !in KindName(k)
  {
  }

  lemma KindNameHasNoBracket7(k: TokenKind)
    requires k.Properties? || k.RangeSeparator? || k.RightCurlyBracket? || k.RightRoundBracket?
    ensures '[' !in KindName(k)
  {
  }

  lemma KindNameHasNoBracket8(k: TokenKind)
    requires k.RightSquareBracket? || k.Select? || k.Set? || k.ValueSeparator?
    ensures '[' !in KindName(k)
  {
  }

  lemma KindNameHasNoBracket9(k: TokenKind)
    requires k.Where? || k.With? || k.IdentifierExpression? || k.TitleExpression?
    ensures '[' !in KindName(k)
  {
  }

  /** An immutable lexical unit: its kind and the exact text it was read from. */
  datatype Token = Token(kind: TokenKind, value: string)

  /** The end-of-input sentinel the lexer appends. */
  const Sentinel := Token(LastToken, "")

  /** `Token.ToString()`: the kind's name followed by the value in square brackets. */
  function TokenToString(t: Token): (r: string)
    ensures |r| == |KindName(t.kind)| + |t.value| + 2
    ensures r[..|KindName(t.kind)|] == KindName(t.kind)
    ensures r[|KindName(t.kind)|] == '[' && r[|r| - 1] == ']'
  {
    KindName(t.kind) + "[" + t.value + "]"
  }

  /** Position of the first `[` in `s`, if any. */
  function FirstBracket(s: string): (r: Option<nat>)
    ensures r.Some? ==> r.value < |s| && s[r.value] == '[' && '[' !in s[..r.value]
    ensures r.None? ==> '[' !in s
  {
    if s == [] then None
    else if s[0] == '[' then Some(0)
    else match FirstBracket(s[1..])
      case None => None
      case Some(i) => assert s[..i + 1] == [s[0]] + s[1..][..i]; Some(i + 1)
  }

  /** Reads a printed token back: the kind name before the first `[` and the
      value between it and the closing `]`. */
  function ParseTokenString(s: string): Option<Token> {
    match FirstBracket(s)
    case None => None
    case Some(i) =>
      if s[|s| - 1] != ']' || i == |s| - 1 then None
      else match KindOfName(s[..i])
        case None => None
        case Some(k) => Some(Token(k, s[i + 1..|s| - 1]))
  }

  /** Reading a printed token gives back the token. */
  lemma ParseTokenStringRoundTrip(t: Token)
    ensures ParseTokenString(TokenToString(t)) == Some(t)
  {
    var s := TokenToString(t);
    var n := |KindName(t.kind)|;
    KindNameHasNoBracket(t.kind);
    assert s[..n] == KindName(t.kind);
    assert FirstBracket(s) == Some(n);
    KindNameRoundTrip(t.kind);
    assert s[n + 1..|s| - 1] == t.value;
  }

  /** Two tokens print alike exactly when they are equal, so comparing the
      printed forms of two token streams compares the streams. */
  lemma TokenToStringInjective(a: Token, b: Token)
    ensures TokenToString(a) == TokenToString(b) <==> a == b
  {
    if TokenToString(a) == TokenToString(b) {
      ParseTokenStringRoundTrip(a);
      ParseTokenStringRoundTrip(b);
    }
  }

  /** The sentinel prints as `LastToken[]`. */
  lemma SentinelToString()
    ensures TokenToString(Sentinel) == "LastToken[]"
  {
  }
}
