/** The lexer with its moving position, proved to compute what `LexerSpec` says. */
module Lexer {
  import opened Ast
  import opened LexerSpec
  import opened Wrappers
  import P = Parser

  datatype Lexeme = Lexeme(kind: Token, start: nat)

  function Kinds(out: seq<Lexeme>): (ks: seq<Token>)
    ensures |ks| == |out|
  {
    if out == [] then [] else Kinds(out[..|out| - 1]) + [out[|out| - 1].kind]
  }

  lemma {:induction false} KindsSnoc(out: seq<Lexeme>, l: Lexeme)
    ensures Kinds(out + [l]) == Kinds(out) + [l.kind]
  {
    assert (out + [l])[..|out|] == out;
  }

  class Lexer {
    const src: string
    var pos: nat

    ghost predicate Valid()
      reads this
    {
      pos <= |src|
    }

    /** The text still to read. */
    ghost function Todo(): string
      requires Valid()
      reads this
    {
      src[pos..]
    }

    constructor (src: string)
      ensures Valid() && this.src == src && pos == 0
    {
      this.src := src;
      pos := 0;
    }

    /** The scanning loop over one character class. */
    method SkipWhile(k: Class)
      requires Valid()
      modifies this
      ensures Valid() && pos == old(pos) + Span(k, old(Todo()))
    {
      while pos < |src| && Is(k, src[pos])
        invariant old(pos) <= pos <= |src|
        invariant Span(k, old(Todo())) == pos - old(pos) + Span(k, Todo())
      {
        assert Todo()[1..] == src[pos + 1..];
        pos := pos + 1;
      }
    }

    /** White space, then one token; an error carries its position. */
    method NextToken() returns (r: Result<Lexeme, nat>)
      requires Valid()
      modifies this
      ensures Valid()
      ensures var s := old(Todo())[Span(Space, old(Todo()))..]; var start := |src| - |s|;
        if s == "" then r == Ok(Lexeme(TEof, start)) && pos == |src| else DidLex(s, start, r)
    {
      hide LexToken;
      SkipWhile(Space);
      var start := pos;
      assert Todo() == old(Todo())[Span(Space, old(Todo()))..];
      if pos == |src| {
        return Ok(Lexeme(TEof, start));
      }
      r := LexLexeme(start);
    }

    /** `s` was to read; the result and the new position are the token `s` starts with. */
    ghost predicate DidLex(s: string, start: nat, r: Result<Lexeme, nat>)
      requires Valid() && s != ""
      reads this
    {
      match LexToken(s)
      case NoToken => r == Err(start)
      case Lexed(t, n) => r == Ok(Lexeme(t, start)) && Todo() == s[n..]
    }

    /** The token at a position that holds no white space. */
    method LexLexeme(start: nat) returns (r: Result<Lexeme, nat>)
      requires Valid() && pos < |src|
      modifies this
      ensures Valid() && DidLex(old(Todo()), start, r)
    {
      hide Punctuation, Operator, NumeralAt, NumeralText, WordToken;
      ghost var s := Todo();
      assert s[0] == src[pos];
      if Punctuation(src[pos]).Some? {
        r := Ok(Lexeme(Punctuation(src[pos]).value, start));
        Advance(1);
      } else if Operator(src[pos..]).Lexed? {
        var operator := Operator(src[pos..]);
        r := Ok(Lexeme(operator.token, start));
        Advance(operator.len);
      } else if src[pos] == '\'' {
        r := LexString(start);
      } else if StartsNumber(src[pos..]) {
        r := LexNumber(start);
      } else if IdentStart(src[pos]) {
        r := LexIdent(start);
      } else {
        r := Err(start);
      }
    }

    method Advance(n: nat)
      requires Valid() && pos + n <= |src|
      modifies this
      ensures Valid() && pos == old(pos) + n && Todo() == old(Todo())[n..]
    {
      pos := pos + n;
    }

    method LexIdent(start: nat) returns (r: Result<Lexeme, nat>)
      requires Valid()
      modifies this
      ensures Valid()
      ensures var n := Span(IdentChar, old(Todo()));
        r == Ok(Lexeme(WordToken(old(Todo())[..n]), start)) && Todo() == old(Todo())[n..]
    {
      hide WordToken;
      var begin := pos;
      SkipWhile(IdentChar);
      assert src[begin..pos] == old(Todo())[..pos - begin];
      assert Todo() == old(Todo())[pos - begin..];
      return Ok(Lexeme(WordToken(src[begin..pos]), start));
    }

    /** No escapes: the first quote after the opening one ends the literal. */
    method LexString(start: nat) returns (r: Result<Lexeme, nat>)
      requires Valid() && pos < |src| && src[pos] == '\''
      modifies this
      ensures Valid()
      ensures var s := old(Todo()); var n := Span(NotQuote, s[1..]);
        if 1 + n < |s| then r == Ok(Lexeme(TString(s[1..1 + n]), start)) && Todo() == s[n + 2..] else r == Err(start)
    {
      ghost var s := Todo();
      Advance(1);
      var content := pos;
      SkipWhile(NotQuote);
      if pos == |src| {
        return Err(start);
      }
      assert src[content..pos] == s[1..1 + pos - content];
      r := Ok(Lexeme(TString(src[content..pos]), start));
      Advance(1);
    }

    method LexNumber(start: nat) returns (r: Result<Lexeme, nat>)
      requires Valid() && pos < |src| && StartsNumber(src[pos..])
      modifies this
      ensures Valid()
      ensures var n := NumeralAt(old(Todo()));
        r == Ok(Lexeme(TNumber(NumeralValue(n)), start)) && Todo() == old(Todo())[|NumeralText(n)|..]
    {
      hide UnsignedAt, NumeralValue;
      ghost var s := Todo();
      var negative := src[pos] == '-';
      if negative {
        Advance(1);
      }
      var n := LexUnsigned();
      n := n.(negative := negative);
      assert Todo() == s[|NumeralText(n)|..];
      return Ok(Lexeme(TNumber(NumeralValue(n)), start));
    }

    /** The whole digits, then the fraction. */
    method LexUnsigned() returns (n: Numeral)
      requires Valid() && Starts(Digit, Todo())
      modifies this
      ensures Valid() && n == UnsignedAt(old(Todo())) && pos == old(pos) + |NumeralText(n)|
    {
      ghost var u := Todo();
      var begin := pos;
      SkipWhile(Digit);
      var whole := src[begin..pos];
      assert whole == u[..|whole|] && Todo() == u[|whole|..];
      var fraction := LexFraction();
      n := Numeral(false, whole, fraction);
    }

    method LexFraction() returns (f: Option<string>)
      requires Valid()
      modifies this
      ensures Valid() && f == FractionAt(old(Todo()))
      ensures pos == old(pos) + if f.Some? then 1 + |f.value| else 0
    {
      if pos + 1 < |src| && src[pos] == '.' && Is(Digit, src[pos + 1]) {
        Advance(1);
        var point := pos;
        SkipWhile(Digit);
        assert src[point..pos] == old(Todo())[1..][..pos - point];
        return Some(src[point..pos]);
      }
      return None;
    }

    /** The whole token vector, its last element the end marker. */
    method Tokenize() returns (r: Result<seq<Lexeme>, nat>)
      requires pos == 0
      modifies this
      ensures match Lex(src)
        case Err(left) => r == Err(|src| - left)
        case Ok(ts) =>
          r.Ok? && P.ValidTokens(Kinds(r.value)) && P.View(Kinds(r.value), 0) == ts && InPlace(src, r.value)
    {
      hide LexToken, Lex, Onto, OntoResult, Placed, Kinds, InPlace, StartsAt, ReadAt, End, Blank, Span, P.ValidTokens,
        P.View;
      var out: seq<Lexeme> := [];
      TokenizeStart(src);
      while true
        invariant Valid()
        invariant TEof !in Kinds(out)
        invariant Lex(src) == OntoResult(Kinds(out), Lex(Todo()))
        invariant Placed(src, out, pos)
        decreases |src| - pos
      {
        ghost var before := pos;
        ghost var s := Todo()[Span(Space, Todo())..];
        TokenizeEnd(src, out, pos);
        var r1 := NextToken();
        if s != "" {
          TokenizeStep(src, out, before, s);
        }
        if r1.Err? {
          return Err(r1.error);
        }
        out := out + [r1.value];
        if r1.value.kind == TEof {
          return Ok(out);
        }
      }
    }
  }

  lemma {:induction false} TokenizeStart(src: string)
    ensures Lex(src) == OntoResult([], Lex(src[0..])) && Placed(src, [], 0) && Kinds([]) == []
  {
    assert src[0..] == src;
  }

  /** The tokens read up to `pos` are in place, and the text lexes to them and what is left. */
  ghost predicate SoFar(src: string, out: seq<Lexeme>, pos: nat)
    requires pos <= |src|
  {
    TEof !in Kinds(out) && Placed(src, out, pos) && Lex(src) == OntoResult(Kinds(out), Lex(src[pos..]))
  }

  /** At the end of the text. */
  lemma {:induction false} TokenizeEnd(src: string, out: seq<Lexeme>, pos: nat)
    requires pos <= |src|
    ensures SoFar(src, out, pos) && src[pos..][Span(Space, src[pos..])..] == "" ==>
      var all := out + [Lexeme(TEof, |src|)];
      P.ValidTokens(Kinds(all)) && Lex(src) == Ok(P.View(Kinds(all), 0)) && InPlace(src, all)
  {
    hide P.ValidTokens, P.View, Kinds, Onto, LexToken;
    KindsSnoc(out, Lexeme(TEof, |src|));
    if SoFar(src, out, pos) && Blank(src, pos, |src|) {
      OntoIsView(Kinds(out));
      var all := out + [Lexeme(TEof, |src|)];
      assert Increasing(all);
      forall k: nat | k < |all|
        ensures StartsAt(src, Kinds(all), k, all[k].start)
      {
        PlacedIsInPlace(src, out, all, pos, k);
      }
    }
  }

  /** Before the end: `s` is what is left after white space. */
  lemma {:induction false} TokenizeStep(src: string, out: seq<Lexeme>, pos: nat, s: string)
    requires pos <= |src| && s == src[pos..][Span(Space, src[pos..])..] && s != ""
    ensures SoFar(src, out, pos) ==>
      match LexToken(s)
      case NoToken => Lex(src) == Err(|s|)
      case Lexed(t, n) =>
        var all := out + [Lexeme(t, |src| - |s|)];
        && t != TEof && TEof !in Kinds(all) && Lex(src) == OntoResult(Kinds(all), Lex(s[n..]))
        && Placed(src, all, |src| - |s| + n)
  {
    hide LexToken, Lex, Kinds, OntoResult, Placed;
    LexStep(src[pos..], s);
    OntoErr(Kinds(out), |s|);
    if SoFar(src, out, pos) && LexToken(s).Lexed? {
      var t, n := LexToken(s).token, LexToken(s).len;
      KindsSnoc(out, Lexeme(t, |src| - |s|));
      OntoCompose(Kinds(out), t, Lex(s[n..]));
      assert src[|src| - |s|..] == s;
      PlacedStep(src, out, pos, t, |src| - |s|, n);
    }
  }

  lemma {:induction false} LexStep(rest: string, s: string)
    requires s == rest[Span(Space, rest)..] && s != ""
    ensures match LexToken(s)
      case NoToken => Lex(rest) == Err(|s|)
      case Lexed(t, n) => t != TEof && Lex(rest) == TokResult(t, Lex(s[n..]))
  {
    if LexToken(s).Lexed? {
      LexTokenNotEof(s);
    }
    hide LexToken;
  }

  lemma {:induction false} OntoErr(ks: seq<Token>, left: nat)
    ensures OntoResult(ks, Err(left)) == Err(left)
  {
  }

  lemma {:induction false} OntoCompose(ks: seq<Token>, t: Token, r: Result<Tokens, nat>)
    ensures OntoResult(ks, TokResult(t, r)) == OntoResult(ks + [t], r)
  {
    assert (ks + [t])[..|ks|] == ks;
  }

  lemma {:induction false} PlacedStep(src: string, out: seq<Lexeme>, pos: nat, t: Token, start: nat, n: nat)
    requires pos <= start < start + n <= |src| && Placed(src, out, pos) && Blank(src, pos, start)
    requires LexToken(src[start..]) == Lexed(t, n)
    ensures Placed(src, out + [Lexeme(t, start)], start + n)
  {
    hide LexToken;
  }

  function OntoResult(ks: seq<Token>, r: Result<Tokens, nat>): Result<Tokens, nat>
  {
    match r
    case Err(left) => Err(left)
    case Ok(ts) => Ok(Onto(ks, ts))
  }

  /** The tokens `ks` put in front of `ts`. */
  function Onto(ks: seq<Token>, ts: Tokens): Tokens
  {
    if ks == [] then ts else Onto(ks[..|ks| - 1], Tok(ks[|ks| - 1], ts))
  }

  lemma {:induction false} LexTokenNotEof(s: string)
    requires s != "" && LexToken(s).Lexed?
    ensures LexToken(s).token != TEof
  {
  }

  lemma {:induction false} OntoIsView(ks: seq<Token>)
    requires TEof !in ks
    ensures P.ValidTokens(ks + [TEof]) && P.View(ks + [TEof], 0) == Onto(ks, Eof)
  {
    OntoIsViewFrom(ks, |ks|);
    assert ks[..|ks|] == ks;
  }

  lemma {:induction false} OntoIsViewFrom(ks: seq<Token>, k: nat)
    requires TEof !in ks && k <= |ks|
    ensures P.ValidTokens(ks + [TEof]) && P.View(ks + [TEof], 0) == Onto(ks[..k], P.View(ks + [TEof], k))
  {
    if k > 0 {
      OntoIsViewFrom(ks, k - 1);
      assert ks[..k][..k - 1] == ks[..k - 1];
    }
  }

  /** The text has this token at its start. */
  predicate ReadAt(src: string, x: Lexeme)
  {
    x.start < |src| && LexToken(src[x.start..]).Lexed? && LexToken(src[x.start..]).token == x.kind
  }

  function End(src: string, x: Lexeme): (end: nat)
    requires ReadAt(src, x)
    ensures x.start < end <= |src|
  {
    x.start + LexToken(src[x.start..]).len
  }

  /** The longest run of white space from one position leads to the other. */
  predicate Blank(src: string, from: nat, to: nat)
  {
    from <= |src| && from + Span(Space, src[from..]) == to
  }

  /**
   * Each token is the one the text has at its start, with nothing but white space between them; the last ends at `pos`.
   */
  ghost predicate Placed(src: string, out: seq<Lexeme>, pos: nat)
    requires pos <= |src|
  {
    && (forall i | 0 <= i < |out| :: ReadAt(src, out[i]) && out[i].start < pos)
    && Increasing(out)
    && (forall i, j | 0 <= i < j < |out| && j == i + 1 :: Blank(src, End(src, out[i]), out[j].start))
    && (out != [] ==> End(src, out[|out| - 1]) == pos)
  }

  predicate Increasing(out: seq<Lexeme>)
  {
    forall i, j | 0 <= i < j < |out| :: out[i].start < out[j].start
  }

  /**
   * From the start of each token the text lexes to that token and all after it, and no token starts with white space.
   */
  predicate InPlace(src: string, out: seq<Lexeme>)
    requires P.ValidTokens(Kinds(out))
  {
    && out[|out| - 1] == Lexeme(TEof, |src|) && Increasing(out)
    && forall k: nat | k < |out| :: StartsAt(src, Kinds(out), k, out[k].start)
  }

  predicate StartsAt(src: string, kinds: seq<Token>, k: nat, start: nat)
    requires P.ValidTokens(kinds) && k < |kinds|
  {
    start <= |src| && Lex(src[start..]) == Ok(P.View(kinds, k)) && !Starts(Space, src[start..])
  }

  lemma {:induction false} KindsAt(out: seq<Lexeme>, k: nat)
    requires k < |out|
    ensures Kinds(out)[k] == out[k].kind
  {
    if k < |out| - 1 {
      KindsAt(out[..|out| - 1], k);
    }
  }

  lemma {:induction false} NoTokenAtSpace(s: string)
    requires s != "" && LexToken(s).Lexed?
    ensures !Starts(Space, s) && Lex(s) == TokResult(LexToken(s).token, Lex(s[LexToken(s).len..]))
  {
    assert s[0..] == s;
  }

  lemma {:induction false} LexSkipsSpace(s: string)
    ensures Lex(s) == Lex(s[Span(Space, s)..])
  {
    hide LexToken;
    var rest := s[Span(Space, s)..];
    assert rest[Span(Space, rest)..] == rest;
  }

  /** Read from the back: what follows a token is what the text lexes to after it. */
  lemma {:induction false} PlacedIsInPlace(src: string, out: seq<Lexeme>, all: seq<Lexeme>, pos: nat, k: nat)
    requires pos <= |src| && Placed(src, out, pos) && Blank(src, pos, |src|)
    requires all == out + [Lexeme(TEof, |src|)] && P.ValidTokens(Kinds(all)) && k < |all|
    ensures StartsAt(src, Kinds(all), k, all[k].start)
    decreases |all| - k
  {
    hide LexToken, Lex, Kinds, Span, P.ValidTokens;
    if k == |out| {
      assert src[|src|..] == "";
      LexNothing();
    } else {
      PlacedIsInPlace(src, out, all, pos, k + 1);
      KindsAt(all, k);
      assert ReadAt(src, out[k]) && Blank(src, End(src, out[k]), all[k + 1].start);
      LexFrom(src, out[k], all[k + 1].start);
    }
  }

  lemma {:induction false} LexFrom(src: string, x: Lexeme, next: nat)
    requires ReadAt(src, x) && Blank(src, End(src, x), next)
    ensures next <= |src| && Lex(src[x.start..]) == TokResult(x.kind, Lex(src[next..])) &&
      !Starts(Space, src[x.start..])
  {
    hide LexToken, Lex;
    var s, end := src[x.start..], End(src, x);
    NoTokenAtSpace(s);
    LexSkipsSpace(src[end..]);
    assert s[end - x.start..] == src[end..];
    assert src[end..][Span(Space, src[end..])..] == src[next..];
  }

  lemma {:induction false} LexNothing()
    ensures Lex("") == Ok(Eof) && !Starts(Space, "")
  {
  }
}
