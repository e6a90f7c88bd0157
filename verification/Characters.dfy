/** Which characters blanks, digits, words and strings are made of, by code point, as the lexer shows it. */
module Characters {
  import opened Ast
  import opened LexerSpec
  import opened Wrappers

  /** Letters and the underscore. */
  predicate IsLetterCode(u: int)
  {
    0x41 <= u <= 0x5A || 0x61 <= u <= 0x7A || u == 0x5F
  }

  predicate IsDigitCode(u: int)
  {
    0x30 <= u <= 0x39
  }

  /** What a single character lexes to. */
  lemma {:induction false} OneCharacter(c: char)
    ensures Lex([c]) == if Is(Space, c) then Ok(Eof) else
      match LexToken([c])
      case NoToken => Err(1)
      case Lexed(t, _) => Ok(Tok(t, Eof))
  {
    hide LexToken;
    var s := [c];
    assert s[0..] == s && s[1..] == "";
    assert Lex("") == Ok(Eof);
    if Is(Space, c) {
      assert Span(Space, s) == 1;
    } else if LexToken(s).Lexed? {
      assert s[LexToken(s).len..] == "";
    }
  }

  lemma {:induction false} WholeText(s: string, t: Token)
    requires s != "" && !Is(Space, s[0]) && LexToken(s) == Lexed(t, |s|)
    ensures Lex(s) == Ok(Tok(t, Eof))
  {
    hide LexToken;
    assert s[0..] == s && s[|s|..] == "";
    assert Lex("") == Ok(Eof);
  }

  /** A text is blank exactly when it is made of spaces, tabs, line feeds and carriage returns. */
  lemma {:induction false} BlankExactlyWhen(s: string)
    ensures Lex(s) == Ok(Eof) <==> forall c | c in s :: c as int in [0x20, 0x09, 0x0A, 0x0D]
  {
    hide LexToken;
    var n := Span(Space, s);
    forall i | 0 <= i < n
      ensures s[i] as int in [0x20, 0x09, 0x0A, 0x0D]
    {
      assert Is(Space, s[..n][i]);
    }
    if n < |s| {
      assert s[n..][0] == s[n] && s[n] in s;
    }
  }

  /** A character is a number on its own exactly when it is a decimal digit, and then the digit's own. */
  lemma {:induction false} DigitExactlyWhen(c: char)
    ensures forall v :: Lex([c]) == Ok(Tok(TNumber(v), Eof)) <==>
      IsDigitCode(c as int) && v == (c as int - 0x30) as real
  {
    OneCharacter(c);
    var s := [c];
    if Is(Digit, c) {
      assert s[1..] == "" && s[..1] == s;
      assert Span(Digit, s) == 1;
      assert FractionAt(s[1..]) == None;
      assert UnsignedAt(s) == Numeral(false, s, None);
      assert DigitsValue(s) == 10.0 * DigitsValue(s[..0]) + DigitValue(c);
      assert s[..0] == "";
    }
  }

  predicate IsWordText(w: string)
  {
    && w != "" && IsLetterCode(w[0] as int)
    && forall c | c in w :: IsLetterCode(c as int) || IsDigitCode(c as int) || c == '-'
  }

  lemma {:induction false} WordIs(w: string)
    ensures IsWordText(w) <==> w != "" && IdentStart(w[0]) && Span(IdentChar, w) == |w|
  {
    if IsWordText(w) {
      forall i | 0 <= i < |w|
        ensures Is(IdentChar, w[i])
      {
        assert w[i] in w;
      }
      assert w + "" == w;
      SpanIs(IdentChar, w, "");
    } else if w != "" && Span(IdentChar, w) == |w| {
      assert w[..|w|] == w;
    }
  }

  /**
   * A text is one name exactly when it begins with a letter or an underscore, goes on with those, digits and hyphens,
   * and is none of the three reserved words.
   */
  lemma {:induction false} NameExactlyWhen(w: string)
    ensures Lex(w) == Ok(Tok(TIdent(w), Eof)) <==> IsWordText(w) && w !in ["true", "false", "null"]
  {
    hide LexToken, Lex, WordToken, IsWordText;
    WordIs(w);
    if w != "" && IdentStart(w[0]) {
      WordRead(w);
      NameFirst(w);
    } else if w != "" {
      NameNowhere(w);
    } else {
      BlankExactlyWhen(w);
    }
  }

  lemma {:induction false} NameFirst(w: string)
    requires w != "" && IdentStart(w[0]) && !Is(Space, w[0])
    requires LexToken(w) == Lexed(WordToken(w[..Span(IdentChar, w)]), Span(IdentChar, w))
    ensures Lex(w) == Ok(Tok(TIdent(w), Eof)) <==>
      Span(IdentChar, w) == |w| && w !in ["true", "false", "null"]
  {
    hide LexToken;
    assert w[0..] == w;
    if Span(IdentChar, w) == |w| {
      assert w[..|w|] == w;
      WholeText(w, WordToken(w));
    }
  }

  lemma {:induction false} NameNowhere(w: string)
    requires w != "" && !IdentStart(w[0])
    ensures Lex(w) != Ok(Tok(TIdent(w), Eof))
  {
    hide LexToken;
    var s1 := w[Span(Space, w)..];
    if s1 != "" && LexToken(s1).Lexed? && LexToken(s1).token == TIdent(w) {
      StartsNoName(s1);
    }
  }

  lemma {:induction false} WordRead(w: string)
    requires w != "" && IdentStart(w[0])
    ensures !Is(Space, w[0])
    ensures LexToken(w) == Lexed(WordToken(w[..Span(IdentChar, w)]), Span(IdentChar, w))
  {
    hide NumeralAt, NumeralText, NumeralValue, Operator;
    StartsNoOther(w);
  }

  lemma {:induction false} StartsNoOther(w: string)
    requires w != "" && IdentStart(w[0])
    ensures Punctuation(w[0]).None? && Operator(w).NoToken? && !StartsNumber(w) && !Is(Space, w[0])
  {
  }

  lemma {:induction false} StartsNoName(s: string)
    requires s != "" && LexToken(s).Lexed? && LexToken(s).token.TIdent?
    ensures IdentStart(s[0]) && |LexToken(s).token.name| <= |s|
  {
    hide NumeralAt, NumeralText, NumeralValue;
  }

  lemma {:induction false} QuoteSpan(s: string)
    ensures Span(NotQuote, s + "'") <= |s|
    ensures Span(NotQuote, s + "'") == |s| <==> '\'' !in s
  {
    if s != "" {
      assert (s + "'")[1..] == s[1..] + "'";
      QuoteSpan(s[1..]);
      assert s == [s[0]] + s[1..];
    }
  }

  /** A quoted text up to its first quote. */
  lemma {:induction false} QuotedRead(s: string)
    ensures var whole := "'" + s + "'";
      var n := Span(NotQuote, whole[1..]);
      && n <= |s| && LexToken(whole) == Lexed(TString(whole[1..1 + n]), n + 2)
      && (n == |s| <==> '\'' !in s)
  {
    hide NumeralAt, NumeralText, NumeralValue, Span, WordToken;
    QuoteSpan(s);
    assert ("'" + s + "'")[1..] == s + "'";
  }

  /** A quoted text is that string exactly when it holds no quote. */
  lemma {:induction false} StringExactlyWhen(s: string)
    ensures Lex("'" + s + "'") == Ok(Tok(TString(s), Eof)) <==> '\'' !in s
  {
    hide LexToken;
    var whole := "'" + s + "'";
    var n := Span(NotQuote, whole[1..]);
    QuotedRead(s);
    assert whole[0..] == whole;
    if n == |s| {
      assert whole[1..1 + n] == s;
      WholeText(whole, TString(s));
    } else {
      assert |whole[1..1 + n]| < |s|;
    }
  }
}
