/** What a numeral is worth, told from the texts it is written in. */
module Numerals {
  import opened Ast
  import opened Grammar
  import opened GrammarTheorem
  import opened Layouts
  import opened LexerSpec
  import opened ParserSpec
  import opened Printer
  import opened Wrappers

  function Pow10(k: nat): (p: nat)
    ensures p > 0
  {
    if k == 0 then 1 else 10 * Pow10(k - 1)
  }

  /** The natural number the digits stand for, each weighted by its place. */
  function Positional(ds: string): nat
    requires forall i | 0 <= i < |ds| :: '0' <= ds[i] <= '9'
  {
    if ds == "" then 0 else (ds[0] - '0') as nat * Pow10(|ds| - 1) + Positional(ds[1..])
  }

  lemma {:induction false} PowerSum(a: nat, b: nat)
    ensures Pow10(a + b) == Pow10(a) * Pow10(b)
  {
    if a > 0 {
      PowerSum(a - 1, b);
      assert 10 * (Pow10(a - 1) * Pow10(b)) == 10 * Pow10(a - 1) * Pow10(b);
    }
  }

  lemma {:induction false} PositionalConcat(a: string, b: string)
    requires forall i | 0 <= i < |a| :: '0' <= a[i] <= '9'
    requires forall i | 0 <= i < |b| :: '0' <= b[i] <= '9'
    ensures Positional(a + b) == Positional(a) * Pow10(|b|) + Positional(b)
  {
    if a == "" {
      assert a + b == b;
    } else {
      assert (a + b)[1..] == a[1..] + b;
      PositionalConcat(a[1..], b);
      PowerSum(|a| - 1, |b|);
      Shifted((a[0] - '0') as nat, Pow10(|a| - 1), Pow10(|b|), Positional(a[1..]), Positional(b));
    }
  }

  lemma {:induction false} Shifted(d: nat, p: nat, q: nat, x: nat, y: nat)
    ensures d * (p * q) + (x * q + y) == (d * p + x) * q + y
  {
    assert d * (p * q) == d * p * q;
    assert (d * p + x) * q == d * p * q + x * q;
  }

  lemma {:induction false} CastProduct(a: nat, b: nat)
    ensures (a * b) as real == a as real * b as real
  {
  }

  /** The decimal point moved `k` places to the right. */
  function Moved(x: real, k: nat): real
  {
    x * Pow10(k) as real
  }

  lemma {:induction false} FractionStep(d: nat, f: real, k: nat, rest: nat)
    requires Moved(f, k) == rest as real
    ensures Moved((d as real + f) / 10.0, k + 1) == (d * Pow10(k) + rest) as real
  {
    var p := Pow10(k);
    CastProduct(d, p);
    CastProduct(10, p);
    TenthShifted(d as real, f, p as real);
  }

  lemma {:induction false} TenthShifted(d: real, f: real, p: real)
    ensures (d + f) / 10.0 * (10.0 * p) == d * p + f * p
  {
    var x := d + f;
    assert x / 10.0 * 10.0 == x;
    assert x / 10.0 * (10.0 * p) == x / 10.0 * 10.0 * p;
  }

  lemma {:induction false} DigitIs(c: char)
    requires '0' <= c <= '9'
    ensures DigitValue(c) == (c - '0') as nat as real
  {
  }

  lemma {:induction false} WholeIsPositional(ds: string)
    requires All(Digit, ds)
    ensures forall i | 0 <= i < |ds| :: '0' <= ds[i] <= '9'
    ensures DigitsValue(ds) == Positional(ds) as real
  {
    assert forall i | 0 <= i < |ds| :: Is(Digit, ds[i]);
    if ds != "" {
      var n := |ds| - 1;
      WholeIsPositional(ds[..n]);
      DigitIs(ds[n]);
      assert ds == ds[..n] + [ds[n]];
      PositionalConcat(ds[..n], [ds[n]]);
      OneDigit(ds[n]);
    }
  }

  lemma {:induction false} OneDigit(c: char)
    requires '0' <= c <= '9'
    ensures Positional([c]) == (c - '0') as nat && Pow10(1) == 10
  {
    assert [c][1..] == "";
    assert Pow10(0) == 1;
  }

  lemma {:induction false} FractionIsPositional(ds: string)
    requires All(Digit, ds)
    ensures forall i | 0 <= i < |ds| :: '0' <= ds[i] <= '9'
    ensures Moved(FractionValue(ds), |ds|) == Positional(ds) as real
  {
    if ds != "" {
      hide FractionValue, Positional, Pow10, DigitValue, Moved;
      FractionIsPositional(ds[1..]);
      FirstDigit(ds);
      FractionStep((ds[0] - '0') as nat, FractionValue(ds[1..]), |ds| - 1, Positional(ds[1..]));
    }
  }

  lemma {:induction false} FirstDigit(ds: string)
    requires ds != "" && All(Digit, ds)
    ensures forall i | 0 <= i < |ds| :: '0' <= ds[i] <= '9'
    ensures FractionValue(ds) == ((ds[0] - '0') as nat as real + FractionValue(ds[1..])) / 10.0
    ensures Positional(ds) == (ds[0] - '0') as nat * Pow10(|ds| - 1) + Positional(ds[1..])
  {
    assert forall i | 0 <= i < |ds| :: Is(Digit, ds[i]);
    DigitIs(ds[0]);
  }

  lemma {:induction false} NoFraction()
    ensures FractionValue("") == 0.0
  {
  }

  function FractionDigits(n: Numeral): string
  {
    match n.fraction case None => "" case Some(ds) => ds
  }

  /** Its parts put together as decimal notation does. */
  lemma {:induction false} ValueIsDecimal(n: Numeral)
    requires NumeralOk(n)
    ensures var ds := n.whole + FractionDigits(n);
      && (forall i | 0 <= i < |ds| :: '0' <= ds[i] <= '9')
      && NumeralValue(n) * Pow10(|FractionDigits(n)|) as real ==
         (if n.negative then -1.0 else 1.0) * Positional(ds) as real
  {
    hide DigitsValue, FractionValue, Positional, Pow10;
    var f := FractionDigits(n);
    NoFraction();
    WholeIsPositional(n.whole);
    FractionIsPositional(f);
    PositionalConcat(n.whole, f);
    CastProduct(Positional(n.whole), Pow10(|f|));
    var v := DigitsValue(n.whole) + FractionValue(f);
    assert NumeralValue(n) == if n.negative then -v else v;
    SignedSum(DigitsValue(n.whole), FractionValue(f), Pow10(|f|) as real);
  }

  lemma {:induction false} SignedSum(a: real, b: real, p: real)
    ensures (a + b) * p == a * p + b * p && (-(a + b)) * p == -1.0 * (a * p + b * p)
  {
  }

  /**
   * A numeral parses to the number decimal notation gives it: shifted by its fraction digits, the natural number that
   * all its digits stand for, below zero exactly when it is written with a minus.
   */
  lemma {:induction false} NumeralParsesToItsValue(n: Numeral)
    requires NumeralOk(n)
    ensures var e := ParseText(NumeralText(n));
      var ds := n.whole + FractionDigits(n);
      && e.Some? && e.value.Lit? && e.value.l.Number?
      && (forall i | 0 <= i < |ds| :: '0' <= ds[i] <= '9')
      && e.value.l.n * Pow10(|FractionDigits(n)|) as real ==
         (if n.negative then -1.0 else 1.0) * Positional(ds) as real
  {
    hide NumeralText, NumeralValue, Positional, Pow10, Lex, LexToken, ParseTokens;
    NumeralToken(n);
    NumberAlone(NumeralText(n), NumeralValue(n));
    ValueIsDecimal(n);
  }

  lemma {:induction false} NumeralToken(n: Numeral)
    requires NumeralOk(n)
    ensures var w := NumeralText(n);
      w != "" && !Is(Space, w[0]) && LexToken(w) == Lexed(TNumber(NumeralValue(n)), |w|)
  {
    hide NumeralText, NumeralValue, NumeralAt;
    NumberRead(n, "");
    assert NumeralText(n) + "" == NumeralText(n);
  }

  /** A text that is one number token. */
  lemma {:induction false} NumberAlone(w: string, v: real)
    requires w != "" && !Is(Space, w[0]) && LexToken(w) == Lexed(TNumber(v), |w|)
    ensures ParseText(w) == Some(Lit(Number(v)))
  {
    hide LexToken, LevelAt;
    assert w[0..] == w && w[|w|..] == "";
    assert Lex("") == Ok(Eof);
    DerivationParses(CLit(Number(v)));
  }

  /** A minus in front of a number that is written without one negates it. */
  lemma {:induction false} MinusNegates(w: string, v: real)
    requires w != "" && '0' <= w[0] <= '9' && ParseText(w) == Some(Lit(Number(v)))
    ensures ParseText("-" + w) == Some(Lit(Number(-v)))
  {
    hide Lex, LevelAt, ParseTokens;
    TokensOfNumber(w, v);
    LexSigned(w, v);
    DerivationParses(CLit(Number(-v)));
  }

  lemma {:induction false} LexSigned(w: string, v: real)
    requires w != "" && '0' <= w[0] <= '9' && Lex(w) == Ok(Tok(TNumber(v), Eof))
    ensures Lex("-" + w) == Ok(Tok(TNumber(-v), Eof))
  {
    hide LexToken, Lex;
    var s := "-" + w;
    assert w[0..] == w && s[0..] == s;
    SignedToken(w);
    var k := LexToken(w).len;
    assert s[1 + k..] == w[k..];
    OneToken(w);
    OneToken(s);
  }

  lemma {:induction false} OneToken(s: string)
    requires s != "" && !Is(Space, s[0]) && LexToken(s).Lexed?
    ensures Lex(s) == TokResult(LexToken(s).token, Lex(s[LexToken(s).len..]))
  {
    hide LexToken;
    assert s[0..] == s;
  }

  lemma {:induction false} SignedToken(w: string)
    requires w != "" && '0' <= w[0] <= '9'
    ensures LexToken(w).Lexed? && LexToken(w).token.TNumber?
    ensures LexToken("-" + w) == Lexed(TNumber(-LexToken(w).token.n), 1 + LexToken(w).len)
  {
    hide NumeralText, NumeralValue, UnsignedAt;
    assert ("-" + w)[1..] == w;
    TextParts(NumeralAt(w));
    SignedValue(NumeralAt(w));
  }

  lemma {:induction false} SignedValue(n: Numeral)
    requires NumeralOk(n) && !n.negative
    ensures NumeralValue(n.(negative := true)) == -NumeralValue(n)
  {
  }

  /** A text that begins with a digit and parses to a number is that one token. */
  lemma {:induction false} TokensOfNumber(w: string, v: real)
    requires w != "" && '0' <= w[0] <= '9' && ParseText(w) == Some(Lit(Number(v)))
    ensures Lex(w) == Ok(Tok(TNumber(v), Eof))
  {
    hide NumeralText, NumeralValue, UnsignedAt, ParseTokens, LevelAt;
    assert w[0..] == w;
    assert LexToken(w).token.TNumber?;
    var ts := Lex(w).value;
    var c := AcceptedDerivation(ts);
    assert ts.head.TNumber?;
  }
}
