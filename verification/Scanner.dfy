/**
  The dependency scanner's view of a text: `$steps.<id>` found as characters, without
  lexing. It is compared here with the references the parser finds in the same text.
 */
module Scanner {
  import opened Ast
  import opened Layouts
  import opened LexerSpec

  const MARK: string := "$steps."

  /** The pattern matches at the start of `s`: the mark, then an identifier. */
  predicate MatchesAt(s: string)
  {
    |s| > 7 && s[..7] == MARK && IdentStart(s[7])
  }

  /** The captured identifier, taken as long as possible. */
  function Captured(s: string): (id: string)
    requires MatchesAt(s)
    ensures id != "" && 7 + |id| <= |s|
  {
    s[7..][..Span(IdentChar, s[7..])]
  }

  /** All leftmost, non-overlapping matches, in order. */
  function Scan(s: string): seq<string>
    decreases |s|
  {
    if s == "" then []
    else if MatchesAt(s) then [Captured(s)] + Scan(s[7 + |Captured(s)|..])
    else Scan(s[1..])
  }

  lemma {:induction false} MatchStart(s: string)
    ensures MatchesAt(s) ==> s[0] == '$'
  {
    if |s| > 7 {
      assert s[..7][0] == s[0];
    }
  }

  lemma {:induction false} ScanSkips(a: string, b: string)
    requires '$' !in a
    ensures Scan(a + b) == Scan(b)
  {
    if a == "" {
      assert a + b == b;
    } else {
      MatchStart(a + b);
      assert (a + b)[0] == a[0];
      assert (a + b)[1..] == a[1..] + b;
      ScanSkips(a[1..], b);
    }
  }

  /** A character that is in no match ends every match. */
  predicate Separates(c: char)
  {
    !Is(IdentChar, c) && c !in MARK
  }

  /** What a separator parts is scanned on its own. */
  lemma {:induction false} ScanSplits(a: string, c: char, b: string)
    requires Separates(c)
    ensures Scan(a + ([c] + b)) == Scan(a) + Scan(b)
    decreases |a|
  {
    hide MatchesAt, Captured;
    var s, q := a + ([c] + b), [c] + b;
    if a == "" {
      assert s == [c] + b;
      assert c != MARK[0];
      ScanSkips([c], b);
    } else {
      SeparatorStopsMatch(a, c, b);
      if MatchesAt(a) {
        var n := 7 + |Captured(a)|;
        assert s[n..] == a[n..] + q;
        ScanSplits(a[n..], c, b);
      } else {
        assert s[1..] == a[1..] + q;
        ScanSplits(a[1..], c, b);
      }
    }
  }

  lemma {:induction false} SeparatorStopsMatch(a: string, c: char, b: string)
    requires a != "" && Separates(c)
    ensures var s := a + ([c] + b);
      (MatchesAt(s) <==> MatchesAt(a)) && (MatchesAt(a) ==> Captured(s) == Captured(a))
  {
    var s := a + ([c] + b);
    assert s[|a|] == c;
    if |a| <= 7 {
      assert |s| > 7 && |a| < 7 ==> s[..7][|a|] == c;
      assert !MatchesAt(s);
    } else {
      assert s[..7] == a[..7];
      assert s[7..] == a[7..] + ([c] + b);
      var n := Span(IdentChar, a[7..]);
      assert a[7..] == a[7..][..n] + a[7..][n..];
      var after := a[7..][n..] + ([c] + b);
      assert after[0] == if n < |a[7..]| then a[7..][n] else c;
      assert s[7..] == a[7..][..n] + after;
      SpanIs(IdentChar, a[7..][..n], after);
      assert s[7..][..n] == a[7..][..n];
    }
  }

  /** A quote does: the inside of a string literal is scanned on its own. */
  lemma {:induction false} ScanQuoted(a: string, b: string)
    ensures Scan(a + ("'" + b)) == Scan(a) + Scan(b)
  {
    ScanSplits(a, '\'', b);
  }

  lemma {:induction false} ScanSplitsTwice(a: string, c: char, b: string)
    requires Separates(c)
    ensures Scan(a + ([c, c] + b)) == Scan(a) + Scan(b)
  {
    hide Scan;
    assert [c, c] + b == [c] + ([c] + b);
    assert "" + ([c] + b) == [c] + b;
    ScanSplits(a, c, [c] + b);
    ScanSplits("", c, b);
    ScanNothing();
    assert Scan(a) + ([] + Scan(b)) == Scan(a) + Scan(b);
  }

  /** Braces do: a template is scanned on its own, whatever text it stands in. */
  lemma {:induction false} ScanTemplate(pre: string, t: string, post: string)
    ensures Scan(Template(pre, t, post)) == Scan(pre) + Scan(t) + Scan(post)
  {
    hide Scan;
    Regroup(pre, "{{", t, "}}" + post);
    assert pre + "{{" + t + ("}}" + post) == Template(pre, t, post);
    ScanSplitsTwice(pre, '{', t + ("}}" + post));
    ScanSplitsTwice(t, '}', post);
    assert ['{', '{'] == "{{" && ['}', '}'] == "}}";
  }

  /** `t` in double braces, and what stands around it. */
  function Template(pre: string, t: string, post: string): string
  {
    pre + "{{" + t + "}}" + post
  }

  // ------------------------------------------------------------ the scan of any layout

  /** `$`, `steps`, `.` and a word written with nothing between them, seen from just after the `$`. */
  predicate TightSteps(l: Layout)
  {
    && l.Piece? && l.gap == "" && l.token == TIdent("steps")
    && l.next.Piece? && l.next.gap == "" && l.next.token == TDot
    && TightWord(l.next.next)
  }

  predicate TightWord(l: Layout)
  {
    l.Piece? && l.gap == "" && (l.token.TIdent? || l.token.TTrue? || l.token.TFalse? || l.token.TNull?)
  }

  /** What the scanner gets out of a layout: the tight references and the hits inside strings. */
  function Contributions(l: Layout): seq<string>
  {
    if l.Tail? then []
    else if l.token == TDollar && TightSteps(l.next) then
      [l.next.next.next.lexeme] + Contributions(l.next.next.next.next)
    else if l.token.TString? then Scan(l.token.s) + Contributions(l.next)
    else Contributions(l.next)
  }

  /** The scanner's result on any valid layout, exactly. */
  lemma {:induction false} ScanReadsLayout(l: Layout)
    requires Valid(l)
    ensures Scan(Text(l)) == Contributions(l)
  {
    hide Spells, Stops, Scan;
    match l
    case Tail(gap) =>
      SpacesHaveNoDollar(gap);
      ScanSkips(gap, "");
      assert gap + "" == gap;
      ScanNothing();
    case Piece(gap, w, t, next) =>
      SpacesHaveNoDollar(gap);
      ScanSkips(gap, w + Text(next));
      if t == TDollar {
        DollarIs(w);
        ScanReadsDollar(w, next);
        if TightSteps(next) {
          assert Valid(next) && Valid(next.next) && Valid(next.next.next);
          ScanReadsLayout(next.next.next.next);
        } else {
          ScanReadsLayout(next);
        }
      } else {
        ScanReadsLayout(next);
        ScanReadsOther(w, t, Text(next));
      }
  }

  lemma {:induction false} DollarIs(w: string)
    requires Spells(w, TDollar)
    ensures w == "$"
  {
  }

  lemma {:induction false} ScanNothing()
    ensures Scan("") == []
  {
  }

  lemma {:induction false} SpacesHaveNoDollar(gap: string)
    requires All(Space, gap)
    ensures '$' !in gap
  {
  }

  lemma {:induction false} ScanReadsOther(w: string, t: Token, after: string)
    requires Spells(w, t) && t != TDollar
    ensures Scan(w + after) == (if t.TString? then Scan(t.s) else []) + Scan(after)
  {
    if t.TString? {
      ScanSkips("'", t.s + ("'" + after));
      assert w + after == "'" + (t.s + ("'" + after));
      ScanQuoted(t.s, after);
    } else {
      NoDollar(w, t);
      ScanSkips(w, after);
    }
  }

  lemma {:induction false} NoDollar(w: string, t: Token)
    requires Spells(w, t) && t != TDollar && !t.TString?
    ensures '$' !in w
  {
    if t.TNumber? {
      NumeralHasNoDollar(NumeralAt(w));
    } else if t.TIdent? {
      assert forall i | 0 <= i < |w| :: Is(IdentChar, w[i]);
    }
  }

  lemma {:induction false} NumeralHasNoDollar(n: Numeral)
    requires NumeralOk(n)
    ensures '$' !in NumeralText(n)
  {
    assert forall c | c in n.whole :: Is(Digit, c);
    if n.fraction.Some? {
      assert forall c | c in n.fraction.value :: Is(Digit, c);
    }
  }

  /** After a `$`: a match exactly when the reference is tight. */
  lemma {:induction false} ScanReadsDollar(w: string, next: Layout)
    requires w == "$" && Valid(next)
    ensures TightSteps(next) ==>
      Scan(w + Text(next)) == [next.next.next.lexeme] + Scan(Text(next.next.next.next))
    ensures !TightSteps(next) ==> Scan(w + Text(next)) == Scan(Text(next))
  {
    var s := w + Text(next);
    assert s[1..] == Text(next);
    if TightSteps(next) {
      TightMatches(next);
    } else if MatchesAt(s) {
      MatchIsTight(next);
    }
  }

  lemma {:induction false} TightMatches(next: Layout)
    requires Valid(next) && TightSteps(next)
    ensures var s := "$" + Text(next); var id := next.next.next.lexeme;
      MatchesAt(s) && Captured(s) == id && s[7 + |id|..] == Text(next.next.next.next)
  {
    var word := next.next.next;
    TightWordIs(word);
    TightText(next, word.lexeme, Text(word.next));
    MarkedWordMatches(word.lexeme, Text(word.next));
  }

  lemma {:induction false} TightWordIs(l: Layout)
    requires Valid(l) && TightWord(l)
    ensures IsWord(l.lexeme) && !Starts(IdentChar, Text(l.next)) && Text(l) == l.lexeme + Text(l.next)
  {
    KeywordsAreWords();
    assert "" + (l.lexeme + Text(l.next)) == l.lexeme + Text(l.next);
  }

  lemma {:induction false} TightText(next: Layout, w: string, after: string)
    requires Valid(next) && TightSteps(next) && Text(next.next.next) == w + after
    ensures "$" + Text(next) == MARK + (w + after)
  {
    var rest := w + after;
    assert next.lexeme == "steps" && next.next.lexeme == ".";
    assert Text(next.next) == "" + ("." + rest) == "." + rest;
    assert Text(next) == "" + ("steps" + Text(next.next)) == "steps" + ("." + rest);
    Regroup("$", "steps", ".", rest);
    assert "$" + "steps" + "." == MARK;
  }

  lemma {:induction false} Regroup(a: string, b: string, c: string, d: string)
    ensures a + (b + (c + d)) == a + b + c + d
  {
    assert b + (c + d) == b + c + d;
    assert a + (b + c + d) == a + b + c + d;
  }

  lemma {:induction false} MarkedWordMatches(w: string, after: string)
    requires IsWord(w) && !Starts(IdentChar, after)
    ensures var s := MARK + (w + after); MatchesAt(s) && Captured(s) == w && s[7 + |w|..] == after
  {
    var s := MARK + (w + after);
    assert s[..7] == MARK && s[7..] == w + after && s[7] == w[0];
    SpanIs(IdentChar, w, after);
    assert (w + after)[..|w|] == w;
  }

  lemma {:induction false} GapFirst(l: Layout)
    requires Valid(l)
    ensures l.gap != "" ==> Text(l) != "" && Is(Space, Text(l)[0])
  {
  }

  /** The first token of a layout whose text does not start with a space. */
  lemma {:induction false} FirstToken(l: Layout)
    requires Valid(l) && Text(l) != "" && !Is(Space, Text(l)[0])
    ensures l.Piece? && l.gap == "" && LexToken(Text(l)) == Lexed(l.token, |l.lexeme|)
    ensures |l.lexeme| <= |Text(l)| && Text(l.next) == Text(l)[|l.lexeme|..]
  {
    hide LexToken, Spells, Stops;
    GapFirst(l);
    assert l.Piece?;
    assert Text(l) == l.lexeme + Text(l.next);
    TokenRead(l.lexeme, l.token, Text(l.next));
  }

  lemma {:induction false} MatchIsTight(next: Layout)
    requires Valid(next) && MatchesAt("$" + Text(next))
    ensures TightSteps(next)
  {
    hide LexToken, Text, MatchesAt;
    var t := Text(next);
    MatchText(t);
    FirstToken(next);
    FirstToken(next.next);
    FirstToken(next.next.next);
    assert t[5..][1..] == t[6..];
  }

  lemma {:induction false} MatchText(t: string)
    requires MatchesAt("$" + t)
    ensures |t| > 6 && t[0] == 's' && LexToken(t) == Lexed(TIdent("steps"), 5)
    ensures t[5] == '.' && LexToken(t[5..]) == Lexed(TDot, 1)
    ensures IdentStart(t[6]) && LexToken(t[6..]).Lexed?
    ensures var k := LexToken(t[6..]).token; k.TIdent? || k.TTrue? || k.TFalse? || k.TNull?
  {
    var s := "$" + t;
    assert t == s[1..] && s[..7][1..] == "steps." == t[..6];
    assert t[..5] == t[..6][..5] == "steps" && t[5] == t[..6][5];
    assert t == "steps" + t[5..];
    WordRead("steps", t[5..]);
    IdentStartsWord(t[6..]);
  }

  lemma {:induction false} IdentStartsWord(s: string)
    requires s != "" && IdentStart(s[0])
    ensures LexToken(s).Lexed?
    ensures var k := LexToken(s).token; k.TIdent? || k.TTrue? || k.TFalse? || k.TNull?
  {
  }
}
