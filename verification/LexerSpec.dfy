/** What the lexer computes on the text still to read, and what texts lex to which tokens. */
module LexerSpec {
  import opened Ast
  import opened Wrappers

  /** The character classes the lexer scans over. */
  datatype Class = Space | Digit | IdentChar | NotQuote

  predicate Is(k: Class, c: char)
  {
    match k
    case Space => c == ' ' || c == '\t' || c == '\n' || c == '\r'
    case Digit => '0' <= c <= '9'
    case IdentChar => IdentStart(c) || '0' <= c <= '9' || c == '-'
    case NotQuote => c != '\''
  }

  predicate IdentStart(c: char)
  {
    'a' <= c <= 'z' || 'A' <= c <= 'Z' || c == '_'
  }

  predicate All(k: Class, s: string)
  {
    forall i | 0 <= i < |s| :: Is(k, s[i])
  }

  predicate Starts(k: Class, s: string)
  {
    |s| > 0 && Is(k, s[0])
  }

  /** How many leading characters of `s` are in the class. */
  function Span(k: Class, s: string): (n: nat)
    ensures n <= |s| && All(k, s[..n]) && !Starts(k, s[n..])
    ensures n > 0 <==> Starts(k, s)
  {
    if !Starts(k, s) then 0
    else
      var n := 1 + Span(k, s[1..]);
      assert s[n..] == s[1..][n - 1..] && s[..n] == [s[0]] + s[1..][..n - 1];
      n
  }

  lemma {:induction false} SpanIs(k: Class, w: string, rest: string)
    requires All(k, w) && !Starts(k, rest)
    ensures Span(k, w + rest) == |w|
  {
    if w == "" {
      assert w + rest == rest;
    } else {
      assert (w + rest)[1..] == w[1..] + rest;
      SpanIs(k, w[1..], rest);
    }
  }

  function DigitValue(c: char): real
    requires Is(Digit, c)
  {
    match c
    case '0' => 0.0 case '1' => 1.0 case '2' => 2.0 case '3' => 3.0 case '4' => 4.0
    case '5' => 5.0 case '6' => 6.0 case '7' => 7.0 case '8' => 8.0 case _ => 9.0
  }

  function DigitsValue(ds: string): real
    requires All(Digit, ds)
  {
    if ds == "" then 0.0 else 10.0 * DigitsValue(ds[..|ds| - 1]) + DigitValue(ds[|ds| - 1])
  }

  /** What the digits after the point are worth. */
  function FractionValue(ds: string): real
    requires All(Digit, ds)
  {
    if ds == "" then 0.0 else (DigitValue(ds[0]) + FractionValue(ds[1..])) / 10.0
  }

  /** The pieces of a numeral: sign, whole digits, and fraction digits when there is a point. */
  datatype Numeral = Numeral(negative: bool, whole: string, fraction: Option<string>)

  predicate NumeralOk(n: Numeral)
  {
    n.whole != "" && All(Digit, n.whole) &&
      (n.fraction.Some? ==> n.fraction.value != "" && All(Digit, n.fraction.value))
  }

  function NumeralText(n: Numeral): string
  {
    (if n.negative then "-" else "") + n.whole + if n.fraction.Some? then "." + n.fraction.value else ""
  }

  function NumeralValue(n: Numeral): real
    requires NumeralOk(n)
  {
    var f := if n.fraction.Some? then FractionValue(n.fraction.value) else 0.0;
    var m := DigitsValue(n.whole) + f;
    if n.negative then -m else m
  }

  /** A point followed by a digit. */
  predicate StartsFraction(s: string)
  {
    |s| > 1 && s[0] == '.' && Is(Digit, s[1])
  }

  predicate StartsNumber(s: string)
  {
    Starts(Digit, s) || (|s| > 1 && s[0] == '-' && Is(Digit, s[1]))
  }

  lemma {:induction false} TextExtends(s: string, w: nat, tail: string)
    requires w <= |s| && tail <= s[w..]
    ensures s[..w] + tail <= s
  {
  }

  lemma {:induction false} TextParts(n: Numeral)
    ensures !n.negative ==> NumeralText(n) == n.whole + if n.fraction.Some? then "." + n.fraction.value else ""
    ensures NumeralText(n.(negative := true)) == "-" + NumeralText(n.(negative := false))
  {
  }

  /** The longest numeral `s` starts with. */
  function NumeralAt(s: string): (n: Numeral)
    requires StartsNumber(s)
    ensures NumeralOk(n) && |NumeralText(n)| > 0
    ensures NumeralText(n) <= s
  {
    if s[0] == '-' then
      var n := UnsignedAt(s[1..]);
      TextParts(n);
      TextExtends(s, 1, NumeralText(n));
      n.(negative := true)
    else UnsignedAt(s)
  }

  function UnsignedAt(s: string): (n: Numeral)
    requires Starts(Digit, s)
    ensures NumeralOk(n) && !n.negative && |NumeralText(n)| > 0
    ensures NumeralText(n) <= s
  {
    var w := Span(Digit, s);
    var f := FractionAt(s[w..]);
    var n := Numeral(false, s[..w], f);
    TextParts(n);
    TextExtends(s, w, if f.Some? then "." + f.value else "");
    n
  }

  function FractionAt(s: string): (f: Option<string>)
    ensures f.Some? <==> StartsFraction(s)
    ensures f.Some? ==> f.value != "" && All(Digit, f.value) && "." + f.value <= s
  {
    if StartsFraction(s) then Some(s[1..][..Span(Digit, s[1..])]) else None
  }

  /** A token and how many characters it took, or no token. */
  datatype Lexed = Lexed(token: Token, len: nat) | NoToken

  function Punctuation(c: char): Option<Token>
  {
    match c
    case '$' => Some(TDollar)
    case '.' => Some(TDot)
    case '[' => Some(TLBracket)
    case ']' => Some(TRBracket)
    case '(' => Some(TLParen)
    case ')' => Some(TRParen)
    case '@' => Some(TAt)
    case '*' => Some(TStar)
    case _ => None
  }

  /** Two-character operators first, then the one-character ones. */
  function Operator(s: string): (r: Lexed)
    requires s != ""
    ensures r.Lexed? ==> 0 < r.len <= |s|
  {
    var second := if |s| > 1 then s[1] else ' ';
    match s[0]
    case '=' => if second == '=' then Lexed(TOp(Eq), 2) else NoToken
    case '&' => if second == '&' then Lexed(TOp(And), 2) else NoToken
    case '|' => if second == '|' then Lexed(TOp(Or), 2) else NoToken
    case '!' => if second == '=' then Lexed(TOp(NotEq), 2) else Lexed(TBang, 1)
    case '<' => if second == '=' then Lexed(TOp(Le), 2) else Lexed(TOp(Lt), 1)
    case '>' => if second == '=' then Lexed(TOp(Ge), 2) else Lexed(TOp(Gt), 1)
    case '?' => if second == '?' then Lexed(TOp(Coalesce), 2) else Lexed(TQuestion, 1)
    case _ => NoToken
  }

  function WordToken(w: string): Token
  {
    if w == "true" then TTrue else if w == "false" then TFalse else if w == "null" then TNull else TIdent(w)
  }

  /** The token `s` starts with; `s` does not start with a space. */
  function LexToken(s: string): (r: Lexed)
    requires s != ""
    ensures r.Lexed? ==> 0 < r.len <= |s|
  {
    if Punctuation(s[0]).Some? then Lexed(Punctuation(s[0]).value, 1)
    else if Operator(s).Lexed? then Operator(s)
    else if s[0] == '\'' then
      var n := Span(NotQuote, s[1..]);
      if 1 + n < |s| then Lexed(TString(s[1..1 + n]), n + 2) else NoToken
    else if StartsNumber(s) then
      var n := NumeralAt(s);
      Lexed(TNumber(NumeralValue(n)), |NumeralText(n)|)
    else if IdentStart(s[0]) then
      var n := Span(IdentChar, s);
      Lexed(WordToken(s[..n]), n)
    else NoToken
  }

  /** All the tokens of a text; an error carries how many characters were still to read. */
  function Lex(s: string): Result<Tokens, nat>
    decreases |s|
  {
    var s1 := s[Span(Space, s)..];
    if s1 == "" then Ok(Eof)
    else
      match LexToken(s1)
      case NoToken => Err(|s1|)
      case Lexed(t, n) => TokResult(t, Lex(s1[n..]))
  }

  function TokResult(t: Token, r: Result<Tokens, nat>): Result<Tokens, nat>
  {
    match r
    case Err(left) => Err(left)
    case Ok(ts) => Ok(Tok(t, ts))
  }
}
