/**
  Every way of writing a token list down: the spelling of each token, and the white space
  before it. The lexer reads a text as a token list exactly when the text is one of the
  valid layouts of that list.
 */
module Layouts {
  import opened Ast
  import opened LexerSpec
  import opened Wrappers

  datatype Layout =
    | Tail(gap: string)
    | Piece(gap: string, lexeme: string, token: Token, next: Layout)

  function Text(l: Layout): string
  {
    match l
    case Tail(gap) => gap
    case Piece(gap, lexeme, _, next) => gap + (lexeme + Text(next))
  }

  function TokensOf(l: Layout): Tokens
  {
    match l
    case Tail(_) => Eof
    case Piece(_, _, t, next) => Tok(t, TokensOf(next))
  }

  function OpText(op: BinaryOp): string
  {
    match op
    case Eq => "=="
    case NotEq => "!="
    case Lt => "<"
    case Le => "<="
    case Gt => ">"
    case Ge => ">="
    case And => "&&"
    case Or => "||"
    case Coalesce => "??"
  }

  predicate IsWord(w: string)
  {
    w != "" && IdentStart(w[0]) && All(IdentChar, w)
  }

  /** A word that is not one of the three reserved ones. */
  predicate IsIdent(w: string)
  {
    IsWord(w) && WordToken(w).TIdent?
  }

  predicate IsNumeral(w: string, n: real)
  {
    StartsNumber(w) && NumeralText(NumeralAt(w)) == w && NumeralValue(NumeralAt(w)) == n
  }

  /** The spellings of a token. Only numbers have more than one. */
  predicate Spells(w: string, t: Token)
  {
    match t
    case TDollar => w == "$"
    case TDot => w == "."
    case TLBracket => w == "["
    case TRBracket => w == "]"
    case TLParen => w == "("
    case TRParen => w == ")"
    case TQuestion => w == "?"
    case TAt => w == "@"
    case TStar => w == "*"
    case TBang => w == "!"
    case TOp(op) => w == OpText(op)
    case TIdent(name) => w == name && IsIdent(name)
    case TString(s) => w == "'" + s + "'" && All(NotQuote, s)
    case TNumber(n) => IsNumeral(w, n)
    case TTrue => w == "true"
    case TFalse => w == "false"
    case TNull => w == "null"
    case TEof => false
  }

  predicate BeginsWith(s: string, c: char)
  {
    |s| > 0 && s[0] == c
  }

  /** Longest match: the text after a lexeme must not extend it. */
  predicate Stops(t: Token, w: string, after: string)
  {
    match t
    case TIdent(_) | TTrue | TFalse | TNull => !Starts(IdentChar, after)
    case TNumber(_) => !Starts(Digit, after) && ('.' in w || !StartsFraction(after))
    case TBang => !BeginsWith(after, '=')
    case TQuestion => !BeginsWith(after, '?')
    case TOp(op) => op == Lt || op == Gt ==> !BeginsWith(after, '=')
    case _ => true
  }

  predicate Valid(l: Layout)
  {
    match l
    case Tail(gap) => All(Space, gap)
    case Piece(gap, w, t, next) => All(Space, gap) && Spells(w, t) && Stops(t, w, Text(next)) && Valid(next)
  }

  // ------------------------------------------------------------ reading a lexeme

  lemma {:induction false} WordRead(w: string, after: string)
    requires IsWord(w) && !Starts(IdentChar, after)
    ensures LexToken(w + after) == Lexed(WordToken(w), |w|)
  {
    SpanIs(IdentChar, w, after);
    assert (w + after)[..|w|] == w;
  }

  lemma {:induction false} StringRead(s: string, after: string)
    requires All(NotQuote, s)
    ensures LexToken("'" + s + "'" + after) == Lexed(TString(s), |s| + 2)
  {
    var t := "'" + s + "'" + after;
    assert t[1..] == s + ("'" + after);
    SpanIs(NotQuote, s, "'" + after);
    assert t[1..1 + |s|] == s;
  }

  lemma {:induction false} FractionRead(f: Option<string>, after: string)
    requires !Starts(Digit, after)
    requires if f.Some? then f.value != "" && All(Digit, f.value) else !StartsFraction(after)
    ensures FractionAt((if f.Some? then "." + f.value else "") + after) == f
  {
    if f.Some? {
      var s := "." + f.value + after;
      assert s[1..] == f.value + after;
      SpanIs(Digit, f.value, after);
      assert s[1..][..|f.value|] == f.value;
    } else {
      assert "" + after == after;
    }
  }

  lemma {:induction false} UnsignedRead(n: Numeral, after: string)
    requires NumeralOk(n) && !n.negative && !Starts(Digit, after)
    requires n.fraction.None? ==> !StartsFraction(after)
    ensures Starts(Digit, NumeralText(n) + after) && UnsignedAt(NumeralText(n) + after) == n
  {
    hide FractionAt;
    var s, s1 := NumeralText(n) + after, (if n.fraction.Some? then "." + n.fraction.value else "") + after;
    assert s == n.whole + s1;
    FractionRead(n.fraction, after);
    SpanIs(Digit, n.whole, s1);
    assert s[|n.whole|..] == s1 && s[..|n.whole|] == n.whole;
  }

  lemma {:induction false} NumberRead(n: Numeral, after: string)
    requires NumeralOk(n) && !Starts(Digit, after)
    requires n.fraction.None? ==> !StartsFraction(after)
    ensures StartsNumber(NumeralText(n) + after) && NumeralAt(NumeralText(n) + after) == n
  {
    hide UnsignedAt;
    var s, u := NumeralText(n) + after, n.(negative := false);
    UnsignedRead(u, after);
    if n.negative {
      assert s[1..] == NumeralText(u) + after;
      assert Is(Digit, s[1]);
    } else {
      assert Is(Digit, s[0]);
    }
  }

  lemma {:induction false} NumeralPoint(n: Numeral)
    requires NumeralOk(n)
    ensures '.' in NumeralText(n) <==> n.fraction.Some?
  {
    if n.fraction.Some? {
      var i := (if n.negative then 1 else 0) + |n.whole|;
      assert NumeralText(n)[i] == '.';
    }
  }

  lemma {:induction false} NumberTokenRead(w: string, n: real, after: string)
    ensures IsNumeral(w, n) && Stops(TNumber(n), w, after) ==>
      w != "" && !Is(Space, w[0]) && LexToken(w + after) == Lexed(TNumber(n), |w|)
  {
    hide NumeralText, NumeralValue, UnsignedAt;
    if IsNumeral(w, n) && Stops(TNumber(n), w, after) {
      var m := NumeralAt(w);
      NumeralPoint(m);
      NumberRead(m, after);
      assert (w + after)[0] == w[0];
    }
  }

  lemma {:induction false} WordTokenRead(w: string, t: Token, after: string)
    requires t.TIdent? || t.TTrue? || t.TFalse? || t.TNull?
    requires Spells(w, t) && Stops(t, w, after)
    ensures w != "" && !Is(Space, w[0])
    ensures LexToken(w + after) == Lexed(t, |w|)
  {
    hide LexToken;
    KeywordsAreWords();
    WordRead(w, after);
  }

  /** A spelled token followed by text that does not extend it reads as that token. */
  lemma {:induction false} TokenRead(w: string, t: Token, after: string)
    requires Spells(w, t) && Stops(t, w, after)
    ensures w != "" && !Is(Space, w[0])
    ensures LexToken(w + after) == Lexed(t, |w|)
  {
    hide LexToken, Stops, IsNumeral;
    match t
    case TIdent(_) | TTrue | TFalse | TNull => WordTokenRead(w, t, after);
    case TString(s) => StringRead(s, after);
    case TNumber(n) => NumberTokenRead(w, n, after);
    case _ => FixedRead(w, t, after);
  }

  lemma {:induction false} KeywordsAreWords()
    ensures IsWord("true") && IsWord("false") && IsWord("null")
  {
  }

  predicate IsFixed(t: Token)
  {
    !t.TIdent? && !t.TTrue? && !t.TFalse? && !t.TNull? && !t.TString? && !t.TNumber?
  }

  lemma {:induction false} FixedRead(w: string, t: Token, after: string)
    requires IsFixed(t) && Spells(w, t) && Stops(t, w, after)
    ensures w != "" && !Is(Space, w[0])
    ensures LexToken(w + after) == Lexed(t, |w|)
  {
    hide NumeralAt, NumeralText, NumeralValue, Span, WordToken, IsNumeral, IsIdent, All;
    var s := w + after;
    assert s[0] == w[0];
    if |w| == 2 {
      assert s[1] == w[1];
    } else {
      assert |s| > 1 ==> s[1] == after[0];
    }
  }

  // ------------------------------------------------------------ writing a lexeme

  lemma {:induction false} UnsignedWritten(s: string)
    requires Starts(Digit, s)
    ensures var n := UnsignedAt(s); var after := s[|NumeralText(n)|..];
      !Starts(Digit, after) && (n.fraction.None? ==> !StartsFraction(after))
  {
    var n, rest := UnsignedAt(s), s[Span(Digit, s)..];
    if n.fraction.Some? {
      assert s[|NumeralText(n)|..] == rest[1..][|n.fraction.value|..];
    } else {
      assert s[|NumeralText(n)|..] == rest;
    }
  }

  lemma {:induction false} NumberWritten(s: string)
    requires StartsNumber(s)
    ensures var n := NumeralAt(s); var w := NumeralText(n);
      Spells(w, TNumber(NumeralValue(n))) && Stops(TNumber(NumeralValue(n)), w, s[|w|..])
  {
    hide UnsignedAt, NumeralText, NumeralValue, IsNumeral;
    var n := NumeralAt(s);
    NumeralReread(n);
    NumeralPoint(n);
    NegativeText(n);
    if n.negative {
      UnsignedWritten(s[1..]);
      assert s[|NumeralText(n)|..] == s[1..][|NumeralText(n)| - 1..];
    } else {
      UnsignedWritten(s);
    }
  }

  lemma {:induction false} NegativeText(n: Numeral)
    ensures n.negative ==> |NumeralText(n)| == 1 + |NumeralText(n.(negative := false))|
    ensures !n.negative ==> n == n.(negative := false)
  {
  }

  lemma {:induction false} NumeralReread(n: Numeral)
    requires NumeralOk(n)
    ensures IsNumeral(NumeralText(n), NumeralValue(n))
  {
    hide NumeralText, NumeralValue, NumeralAt;
    NumberRead(n, "");
    assert NumeralText(n) + "" == NumeralText(n);
  }

  lemma {:induction false} FixedWritten(s: string)
    requires s != "" && (Punctuation(s[0]).Some? || Operator(s).Lexed?)
    ensures var r := LexToken(s); r.Lexed? && Spells(s[..r.len], r.token) && Stops(r.token, s[..r.len], s[r.len..])
  {
    hide NumeralAt, NumeralText, NumeralValue, Span, WordToken, IsNumeral, IsIdent, All;
    assert s[..1] == [s[0]];
    assert |s| > 1 ==> s[..2] == [s[0], s[1]] && s[1..][0] == s[1];
  }

  lemma {:induction false} StringWritten(s: string)
    requires s != "" && s[0] == '\'' && LexToken(s).Lexed?
    ensures var r := LexToken(s); Spells(s[..r.len], r.token) && Stops(r.token, s[..r.len], s[r.len..])
  {
    var n := Span(NotQuote, s[1..]);
    assert s[1..][n..][0] == s[1 + n];
    assert s[..n + 2] == "'" + s[1..1 + n] + "'";
    assert s[1..][..n] == s[1..1 + n];
  }

  lemma {:induction false} WordWritten(s: string)
    requires s != "" && IdentStart(s[0])
    ensures var n := Span(IdentChar, s); var t := WordToken(s[..n]);
      Spells(s[..n], t) && Stops(t, s[..n], s[n..])
  {
    assert IsWord(s[..Span(IdentChar, s)]);
  }

  /** Whatever token the lexer reads, what it consumed spells that token and stops there. */
  lemma {:induction false} TokenWritten(s: string)
    requires s != "" && LexToken(s).Lexed?
    ensures var r := LexToken(s); Spells(s[..r.len], r.token) && Stops(r.token, s[..r.len], s[r.len..])
  {
    hide Spells, Stops, Punctuation, Operator, WordToken, NumeralText, NumeralValue, NumeralAt;
    if Punctuation(s[0]).Some? || Operator(s).Lexed? {
      FixedWritten(s);
    } else if s[0] == '\'' {
      StringWritten(s);
    } else if StartsNumber(s) {
      var n := NumeralAt(s);
      NumberWritten(s);
      assert s[..|NumeralText(n)|] == NumeralText(n);
    } else {
      WordWritten(s);
    }
  }

  // ------------------------------------------------------------ main results

  lemma {:induction false} LayoutLexes(l: Layout)
    requires Valid(l)
    ensures Lex(Text(l)) == Ok(TokensOf(l))
  {
    var s := Text(l);
    match l
    case Tail(gap) =>
      assert gap + "" == gap;
      SpanIs(Space, gap, "");
    case Piece(gap, w, t, next) =>
      var after := Text(next);
      TokenRead(w, t, after);
      SpanIs(Space, gap, w + after);
      assert s[|gap|..] == w + after;
      assert (w + after)[|w|..] == after;
      LayoutLexes(next);
  }

  lemma {:induction false} LexedLayout(s: string) returns (l: Layout)
    requires Lex(s).Ok?
    ensures Valid(l) && Text(l) == s && TokensOf(l) == Lex(s).value
    decreases |s|
  {
    hide LexToken, Spells, Stops;
    var gap, s1 := s[..Span(Space, s)], s[Span(Space, s)..];
    assert s == gap + s1;
    if s1 == "" {
      l := Tail(s);
      assert s == gap;
    } else {
      var r := LexToken(s1);
      TokenWritten(s1);
      var next := LexedLayout(s1[r.len..]);
      l := Piece(gap, s1[..r.len], r.token, next);
      TextOfPiece(s1, r.len);
    }
  }

  lemma {:induction false} TextOfPiece(s: string, n: nat)
    requires n <= |s|
    ensures s[..n] + s[n..] == s
  {
  }

  /** A text lexes to `ts` exactly when it is a valid layout of `ts`. */
  lemma {:induction false} LexesExactlyTheLayouts(s: string, ts: Tokens)
    ensures Lex(s) == Ok(ts) <==> exists l :: Valid(l) && Text(l) == s && TokensOf(l) == ts
  {
    if Lex(s) == Ok(ts) {
      var l := LexedLayout(s);
    }
    if l :| Valid(l) && Text(l) == s && TokensOf(l) == ts {
      LayoutLexes(l);
    }
  }
}
