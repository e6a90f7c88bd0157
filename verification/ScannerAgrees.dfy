/** When the character scan of a text finds exactly the step references of its parse. */
module ScannerAgrees {
  import opened Ast
  import opened Grammar
  import opened GrammarTheorem
  import opened Layouts
  import opened LexerSpec
  import opened ParserSpec
  import opened Printer
  import opened Scanner
  import opened Wrappers

  /** The step ids a tree refers to, in reading order. */
  function StepIds(e: Expression): seq<string>
  {
    match e
    case Lit(_) => []
    case Ref(r) => if r.root.Steps? then [r.root.id] else []
    case Not(x) => StepIds(x)
    case Binary(_, l, r) => StepIds(l) + StepIds(r)
  }

  /** `steps . word`, seen from just after a `$`. */
  predicate StepsAhead(ts: Tokens)
  {
    Next(ts, TIdent("steps")) && Next(ts.rest, TDot) && ts.rest.rest.Tok?
  }

  function TokenIds(ts: Tokens): seq<string>
  {
    if ts.Eof? then []
    else if ts.head == TDollar && StepsAhead(ts.rest) && ts.rest.rest.rest.head.TIdent? then
      [ts.rest.rest.rest.head.name] + TokenIds(ts.rest.rest.rest.rest)
    else TokenIds(ts.rest)
  }

  /** Every `$steps.` is followed by an identifier. */
  predicate Proper(ts: Tokens)
  {
    ts.Tok? ==> (ts.head == TDollar && StepsAhead(ts.rest) ==> ts.rest.rest.rest.head.TIdent?) && Proper(ts.rest)
  }

  /** No white space inside a `$steps.<id>`. */
  predicate Tight(l: Layout)
  {
    l.Piece? ==> (l.token == TDollar && StepsAhead(TokensOf(l.next)) ==> TightSteps(l.next)) && Tight(l.next)
  }

  /** No string literal contains `$steps.` and an identifier. */
  predicate Quiet(l: Layout)
  {
    l.Piece? ==> (l.token.TString? ==> Scan(l.token.s) == []) && Quiet(l.next)
  }

  lemma {:induction false} ContributionsAreTokenIds(l: Layout)
    requires Valid(l) && Tight(l) && Quiet(l) && Proper(TokensOf(l))
    ensures Contributions(l) == TokenIds(TokensOf(l))
  {
    hide Scan, Stops, Spells;
    if l.Piece? {
      if l.token == TDollar {
        TightAhead(l.next);
      }
      if l.token == TDollar && StepsAhead(TokensOf(l.next)) {
        TightRest(l);
        ContributionsAreTokenIds(l.next.next.next.next);
        WordLexeme(l.next.next.next);
      } else {
        ContributionsAreTokenIds(l.next);
      }
    }
  }

  lemma {:induction false} WordLexeme(l: Layout)
    requires Valid(l) && l.Piece? && l.token.TIdent?
    ensures l.lexeme == l.token.name
  {
  }

  /** A tight reference is one in the token list. */
  lemma {:induction false} TightAhead(l: Layout)
    ensures TightSteps(l) ==> var ts := TokensOf(l);
      && StepsAhead(ts) && ts.rest.rest.head == l.next.next.token
      && ts.rest.rest.rest == TokensOf(l.next.next.next)
  {
    assert TightSteps(l) ==>
      && TokensOf(l) == Tok(l.token, TokensOf(l.next))
      && TokensOf(l.next) == Tok(l.next.token, TokensOf(l.next.next))
      && TokensOf(l.next.next) == Tok(l.next.next.token, TokensOf(l.next.next.next));
  }

  lemma {:induction false} TightRest(l: Layout)
    requires Valid(l) && Tight(l) && Quiet(l) && Proper(TokensOf(l))
    requires l.Piece? && TightSteps(l.next)
    ensures var word := l.next.next.next;
      && Valid(word) && Valid(word.next) && Tight(word.next) && Quiet(word.next) && Proper(TokensOf(word.next))
  {
    hide Scan, Stops, Spells;
    assert Valid(l.next) && Valid(l.next.next) && Valid(l.next.next.next);
    assert Tight(l.next) && Tight(l.next.next) && Tight(l.next.next.next);
    assert Quiet(l.next) && Quiet(l.next.next) && Quiet(l.next.next.next);
    assert Proper(TokensOf(l.next)) && Proper(TokensOf(l.next.next)) && Proper(TokensOf(l.next.next.next));
  }

  lemma {:induction false} IdsCons()
    ensures forall t, ts :: t != TDollar ==>
      TokenIds(Tok(t, ts)) == TokenIds(ts) && (Proper(Tok(t, ts)) <==> Proper(ts))
  {
  }

  lemma {:induction false} PathIds(p: CPath, rest: Tokens)
    ensures TokenIds(SpellPath(p, rest)) == TokenIds(rest)
    ensures Proper(rest) ==> Proper(SpellPath(p, rest))
  {
    IdsCons();
    if p.Step? {
      PathIds(p.next, rest);
      if p.seg.CFilter? {
        assert TokenIds(SpellTest(p.seg.field, p.seg.value, SpellPath(p.next, rest))) == TokenIds(rest);
      }
    }
  }

  lemma {:induction false} RefIds(root: Root, p: CPath, rest: Tokens)
    requires Follow(rest, UNARY)
    ensures var ts := Spell(CRef(root, p), rest);
      && TokenIds(ts) == (if root.Steps? then [root.id] else []) + TokenIds(rest)
      && (Proper(rest) ==> Proper(ts))
  {
    IdsCons();
    PathIds(p, rest);
    PathStart(p, rest);
    var path := SpellPath(p, rest);
    if root.Steps? {
      assert TokenIds(Tok(TDollar, SpellRoot(root, path))) == [root.id] + TokenIds(path);
    } else {
      assert !StepsAhead(SpellRoot(root, path));
    }
  }

  lemma {:induction false} PathStart(p: CPath, rest: Tokens)
    requires Follow(rest, UNARY)
    ensures !Next(SpellPath(p, rest), TIdent("steps"))
  {
  }

  lemma {:induction false} Concat3(a: seq<string>, b: seq<string>, c: seq<string>)
    ensures a + (b + c) == a + b + c
  {
  }

  lemma {:induction false} SpelledIds(c: Cst, rest: Tokens)
    requires Follow(rest, UNARY)
    ensures TokenIds(Spell(c, rest)) == StepIds(AstOf(c)) + TokenIds(rest)
    ensures Proper(rest) ==> Proper(Spell(c, rest))
    decreases c
  {
    hide SpellRoot, SpellPath, PathAst, StepsAhead;
    IdsCons();
    match c
    case CLit(_) =>
    case CRef(root, p) => RefIds(root, p, rest);
    case CParen(e) => SpelledIds(e, Tok(TRParen, rest));
    case CNot(e) => SpelledIds(e, rest);
    case CBin(op, l, r) =>
      SpelledIds(r, rest);
      SpelledIds(l, Tok(TOp(op), Spell(r, rest)));
      Concat3(StepIds(AstOf(l)), StepIds(AstOf(r)), TokenIds(rest));
  }

  /** On a text with tight references and quiet strings, the scan is exactly the parsed step ids, in order. */
  lemma {:induction false} ScanFindsParsedIds(l: Layout, c: Cst, s: string, e: Expression)
    requires Writes(l, c, s, e) && Tight(l) && Quiet(l)
    ensures ParseText(s) == Some(e) && Scan(s) == StepIds(e)
  {
    LayoutLexes(l);
    DerivationParses(c);
    ScanReadsLayout(l);
    SpelledIds(c, Eof);
    ContributionsAreTokenIds(l);
  }

  // ------------------------------------------------------------ how far the two part

  /** How many `$steps.<id>` are written with white space inside. */
  function Spaced(l: Layout): nat
  {
    if l.Tail? then 0
    else (if l.token == TDollar && StepsAhead(TokensOf(l.next)) && !TightSteps(l.next) then 1 else 0) + Spaced(l.next)
  }

  /** How many hits the scan has inside string literals. */
  function Quoted(l: Layout): nat
  {
    if l.Tail? then 0 else (if l.token.TString? then |Scan(l.token.s)| else 0) + Quoted(l.next)
  }

  lemma {:induction false} NoneSpacedOrQuoted(l: Layout)
    ensures Tight(l) <==> Spaced(l) == 0
    ensures Quiet(l) <==> Quoted(l) == 0
  {
    hide Scan, TightSteps, StepsAhead;
    if l.Piece? {
      NoneSpacedOrQuoted(l.next);
    }
  }

  /** Seen from just after a `$`, the three tokens of a reference bring no hit and hold no other reference. */
  lemma {:induction false} ReferencePassed(l: Layout)
    requires StepsAhead(TokensOf(l)) && TokensOf(l).rest.rest.head.TIdent?
    ensures l.Piece? && l.next.Piece? && l.next.next.Piece?
    ensures var word := l.next.next;
      && TokensOf(word.next) == TokensOf(l).rest.rest.rest
      && Contributions(l) == Contributions(word.next)
      && Spaced(l) == Spaced(word.next) && Quoted(l) == Quoted(word.next)
  {
    hide Scan;
    assert TokensOf(l.next) == TokensOf(l).rest;
    assert TokensOf(l.next.next) == TokensOf(l.next).rest;
    var word := l.next.next;
    assert word.token.TIdent? && Contributions(word) == Contributions(word.next);
    assert Spaced(word) == Spaced(word.next) && Quoted(word) == Quoted(word.next);
    assert Contributions(l.next) == Contributions(word) && Spaced(l.next) == Spaced(word) &&
      Quoted(l.next) == Quoted(word);
  }

  /** What the scan gets is what the tokens hold, less the spaced references, plus the quoted hits. */
  lemma {:induction false} HitsBalance(l: Layout)
    requires Proper(TokensOf(l))
    ensures |Contributions(l)| + Spaced(l) == |TokenIds(TokensOf(l))| + Quoted(l)
  {
    hide Scan;
    if l.Piece? {
      if l.token == TDollar && StepsAhead(TokensOf(l.next)) {
        ReferencePassed(l.next);
        var word := l.next.next.next;
        assert Proper(TokensOf(l.next)) && Proper(TokensOf(l.next).rest) && Proper(TokensOf(l.next).rest.rest);
        HitsBalance(word.next);
      } else {
        TightAhead(l.next);
        HitsBalance(l.next);
      }
    }
  }

  /**
   * On every text of an expression, the scan finds as many ids as the parse has references, less those written with
   * white space, plus what stands in strings. So with quiet strings it finds the parsed ids exactly when every
   * reference is tight, and with tight references exactly when every string is quiet.
   */
  lemma {:induction false} ScanFindsExactlyWhen(l: Layout, c: Cst, s: string, e: Expression)
    requires Writes(l, c, s, e)
    ensures |Scan(s)| + Spaced(l) == |StepIds(e)| + Quoted(l)
    ensures Quiet(l) ==> (Scan(s) == StepIds(e) <==> Tight(l))
    ensures Tight(l) ==> (Scan(s) == StepIds(e) <==> Quiet(l))
  {
    hide Scan, Contributions, TokenIds, StepIds, Spaced, Quoted, Tight, Quiet;
    ScanReadsLayout(l);
    SpelledIds(c, Eof);
    NoIdsAtTheEnd();
    HitsBalance(l);
    NoneSpacedOrQuoted(l);
    if Tight(l) && Quiet(l) {
      ScanFindsParsedIds(l, c, s, e);
    }
  }

  lemma {:induction false} NoIdsAtTheEnd()
    ensures TokenIds(Eof) == [] && Proper(Eof)
  {
  }

  // ------------------------------------------------------------ the printed form

  predicate QuietTokens(ts: Tokens)
  {
    ts.Tok? ==> (ts.head.TString? ==> Scan(ts.head.s) == []) && QuietTokens(ts.rest)
  }

  /** No string in the tree contains `$steps.` and an identifier. */
  predicate QuietTree(e: Expression)
  {
    match e
    case Lit(l) => l.Str? ==> Scan(l.s) == []
    case Ref(r) => forall i | 0 <= i < |r.path| :: r.path[i].FilterEq? ==> Scan(r.path[i].value) == []
    case Not(x) => QuietTree(x)
    case Binary(_, l, r) => QuietTree(l) && QuietTree(r)
  }

  lemma {:induction false} QuietCons()
    ensures forall t, ts :: QuietTokens(Tok(t, ts)) <==> (t.TString? ==> Scan(t.s) == []) && QuietTokens(ts)
  {
  }

  lemma {:induction false} QuietPath(p: seq<PathSegment>, rest: Tokens)
    requires forall i | 0 <= i < |p| :: p[i].FilterEq? ==> Scan(p[i].value) == []
    requires QuietTokens(rest)
    ensures QuietTokens(SpellPath(PathCst(p), rest))
  {
    QuietCons();
    if p != [] {
      QuietPath(p[1..], rest);
      if p[0].FilterEq? {
        assert QuietTokens(SpellTest(p[0].field, p[0].value, SpellPath(PathCst(p[1..]), rest)));
      }
    }
  }

  lemma {:induction false} QuietSpell(e: Expression, k: nat, rest: Tokens)
    requires QuietTree(e) && QuietTokens(rest)
    ensures QuietTokens(Spell(ToCst(e, k), rest))
    decreases e
  {
    QuietCons();
    var ts := Tok(TRParen, rest);
    match e
    case Lit(_) =>
    case Ref(r) => QuietPath(r.path, rest);
    case Not(x) => QuietSpell(x, UNARY, rest); QuietSpell(x, UNARY, ts);
    case Binary(op, l, r) =>
      var p := Precedence(op);
      QuietSpell(r, p + 1, rest);
      QuietSpell(l, p, Tok(TOp(op), Spell(ToCst(r, p + 1), rest)));
      QuietSpell(r, p + 1, ts);
      QuietSpell(l, p, Tok(TOp(op), Spell(ToCst(r, p + 1), ts)));
  }

  lemma {:induction false} WrittenTight(prev: Token, ts: Tokens)
    requires AllSpellable(ts) && QuietTokens(ts) && Proper(ts)
    ensures Tight(Written(prev, ts)) && Quiet(Written(prev, ts)) && TokensOf(Written(prev, ts)) == ts
    decreases ts
  {
    hide Spelling, Scan;
    if ts.Tok? {
      WrittenTight(ts.head, ts.rest);
      if ts.head == TDollar && StepsAhead(ts.rest) {
        var l := Written(ts.head, ts.rest);
        assert l.next == Written(ts.rest.head, ts.rest.rest);
        assert l.next.next == Written(TDot, ts.rest.rest.rest);
      }
    }
  }

  /** The scan of a printed expression is exactly its step ids, each whole, in reading order. */
  lemma {:induction false} ScannerAgreesWithParser(e: Expression)
    requires Printable(e) && PrintsWithinLimits(e) && QuietTree(e)
    ensures ParseText(Print(e)) == Some(e) && Scan(Print(e)) == StepIds(e)
  {
    var c := ToCst(e, 0);
    var ts := Spell(c, Eof);
    PrintedSpellable(e);
    SpellSpaced(c, TLParen, Eof);
    WrittenValid(TLParen, ts);
    QuietSpell(e, 0, Eof);
    SpelledIds(c, Eof);
    WrittenTight(TLParen, ts);
    ToCstMeans(e, 0);
    ScanFindsParsedIds(Written(TLParen, ts), c, Print(e), e);
  }

  // ------------------------------------------------------------ where they part

  /** `$ steps.a` and what follows it. */
  function SpacedThen(rest: Layout): Layout
  {
    Piece("", "$", TDollar, Piece(" ", "steps", TIdent("steps"), DotWord(rest)))
  }

  function DotWord(rest: Layout): Layout
  {
    Piece("", ".", TDot, Piece("", "a", TIdent("a"), rest))
  }

  lemma {:induction false} PieceIsValid(w: string, t: Token, next: Layout, gap: string)
    requires Valid(next) && Spells(w, t) && Stops(t, w, Text(next)) && All(Space, gap)
    ensures Valid(Piece(gap, w, t, next)) && Text(Piece(gap, w, t, next)) == gap + w + Text(next)
  {
    assert gap + (w + Text(next)) == gap + w + Text(next);
  }

  lemma {:induction false} Joined(a: string, b: string, c: string)
    ensures a + (b + c) == a + b + c
  {
  }

  lemma {:induction false} DotWordIsValid(rest: Layout)
    requires Valid(rest) && !Starts(IdentChar, Text(rest))
    ensures Valid(DotWord(rest)) && Text(DotWord(rest)) == ".a" + Text(rest)
  {
    hide Starts, Valid, Text, All;
    Gaps();
    PieceIsValid("a", TIdent("a"), rest, "");
    PieceIsValid(".", TDot, DotWord(rest).next, "");
    Joined(".", "a", Text(rest));
    assert "" + "a" == "a" && "" + "." == "." && "." + "a" == ".a";
  }

  lemma {:induction false} Gaps()
    ensures All(Space, "") && All(Space, " ") && IsIdent("steps") && IsIdent("a")
  {
  }

  lemma {:induction false} SpacedIsValid(rest: Layout)
    requires Valid(rest) && !Starts(IdentChar, Text(rest))
    ensures Valid(SpacedThen(rest)) && Text(SpacedThen(rest)) == "$ steps.a" + Text(rest)
  {
    hide Starts, Valid, Text, DotWord, All, IsIdent;
    Gaps();
    DotWordIsValid(rest);
    NoWordAtDot(Text(rest));
    PieceIsValid("steps", TIdent("steps"), DotWord(rest), " ");
    PieceIsValid("$", TDollar, SpacedThen(rest).next, "");
    Joined(" steps", ".a", Text(rest));
    Joined("$", " steps.a", Text(rest));
    assert " " + "steps" == " steps" && " steps" + ".a" == " steps.a";
    assert "" + "$" == "$" && "$" + " steps.a" == "$ steps.a";
  }

  lemma {:induction false} NoWordAtDot(after: string)
    ensures !Starts(IdentChar, ".a" + after)
  {
    assert (".a" + after)[0] == '.';
  }

  lemma {:induction false} SpacedIsMissed(rest: Layout)
    ensures Contributions(SpacedThen(rest)) == Contributions(rest)
    ensures TokensOf(SpacedThen(rest)) ==
      Tok(TDollar, Tok(TIdent("steps"), Tok(TDot, Tok(TIdent("a"), TokensOf(rest)))))
    ensures !Tight(SpacedThen(rest)) && (Quiet(SpacedThen(rest)) <==> Quiet(rest))
  {
    var steps := SpacedThen(rest).next;
    assert Contributions(DotWord(rest)) == Contributions(rest) && (Quiet(DotWord(rest)) <==> Quiet(rest));
    assert TokensOf(DotWord(rest)) == Tok(TDot, Tok(TIdent("a"), TokensOf(rest)));
    assert TokensOf(steps) == Tok(TIdent("steps"), TokensOf(DotWord(rest)));
  }

  /** `$ steps.a` is a reference the scan does not see. */
  lemma {:induction false} SpacedReferenceIsMissed()
    ensures ParseText("$ steps.a") == Some(Ref(Reference(Steps("a"), []))) && Scan("$ steps.a") == []
  {
    hide Scan, Text, Valid, LevelAt, Lex, SpacedThen;
    EmptyTail();
    var l := SpacedThen(Tail(""));
    SpacedIsValid(Tail(""));
    SpacedIsMissed(Tail(""));
    assert "$ steps.a" + "" == "$ steps.a";
    LayoutLexes(l);
    DerivationParses(CRef(Steps("a"), End));
    ScanReadsLayout(l);
  }

  lemma {:induction false} EmptyTail()
    ensures Valid(Tail("")) && Text(Tail("")) == "" && TokensOf(Tail("")) == Eof && !Starts(IdentChar, "")
  {
  }

  lemma {:induction false} ScanOneWord(w: string)
    requires IsWord(w)
    ensures Scan(MARK + (w + "")) == [w]
  {
    MarkedWordMatches(w, "");
    assert Scan("") == [];
  }

  const QUOTED: Layout := Piece("", "'$steps.x'", TString("$steps.x"), Tail(""))

  lemma {:induction false} QuotedIsValid()
    ensures Valid(QUOTED) && Text(QUOTED) == "'$steps.x'"
  {
    assert Text(QUOTED) == "" + ("'$steps.x'" + "") == "'$steps.x'";
    assert "'" + "$steps.x" + "'" == "'$steps.x'";
  }

  /** `'$steps.x'` refers to nothing, yet the scan reports a dependency. */
  lemma {:induction false} QuotedReferenceIsReported()
    ensures ParseText("'$steps.x'") == Some(Lit(Str("$steps.x"))) && Scan("'$steps.x'") == ["x"]
  {
    hide Scan, Text, Valid, LevelAt, Lex;
    QuotedIsValid();
    LayoutLexes(QUOTED);
    DerivationParses(CLit(Str("$steps.x")));
    ScanReadsLayout(QUOTED);
    ScanOneWord("x");
    assert "$steps.x" == MARK + ("x" + "");
  }

  const COMPARED: Layout := Piece(" ", "==", TOp(Eq), Piece(" ", "'$steps.a'", TString("$steps.a"), Tail("")))

  lemma {:induction false} ComparedIsValid()
    ensures Valid(COMPARED) && Text(COMPARED) == " == '$steps.a'"
    ensures TokensOf(COMPARED) == Tok(TOp(Eq), Tok(TString("$steps.a"), Eof)) && !Starts(IdentChar, Text(COMPARED))
  {
    hide Valid, Text, All;
    Gaps();
    EmptyTail();
    QuotedWord();
    PieceIsValid("'$steps.a'", TString("$steps.a"), Tail(""), " ");
    PieceIsValid("==", TOp(Eq), COMPARED.next, " ");
    assert " " + "'$steps.a'" + "" == " '$steps.a'" && " " + "==" + " '$steps.a'" == " == '$steps.a'";
    assert Text(COMPARED)[0] == ' ';
  }

  lemma {:induction false} QuotedWord()
    ensures Spells("'$steps.a'", TString("$steps.a"))
  {
    assert "'" + "$steps.a" + "'" == "'$steps.a'";
  }

  lemma {:induction false} ComparedScans()
    ensures Contributions(COMPARED) == ["a"] && !Quiet(COMPARED)
  {
    hide Scan;
    ScanOneWord("a");
    assert "$steps.a" == MARK + ("a" + "");
    assert Contributions(COMPARED.next) == ["a"] + [] && !Quiet(COMPARED.next);
  }

  /**
   * The two errors can cancel: here the scan finds the parsed ids, though the reference is missed and the string is not
   * quiet.
   */
  lemma {:induction false} ErrorsCanCancel()
    ensures !Tight(SpacedThen(COMPARED)) && !Quiet(SpacedThen(COMPARED))
    ensures var s: string := "$ steps.a == '$steps.a'";
      var e := Binary(Eq, Ref(Reference(Steps("a"), [])), Lit(Str("$steps.a")));
      Text(SpacedThen(COMPARED)) == s && ParseText(s) == Some(e) && Scan(s) == StepIds(e)
  {
    hide Scan, Text, Valid, LevelAt, Lex, SpacedThen, Tight, Quiet;
    ComparedIsValid();
    ComparedScans();
    SpacedIsValid(COMPARED);
    SpacedIsMissed(COMPARED);
    assert "$ steps.a" + " == '$steps.a'" == "$ steps.a == '$steps.a'";
    LayoutLexes(SpacedThen(COMPARED));
    var c := CBin(Eq, CRef(Steps("a"), End), CLit(Str("$steps.a")));
    assert Spell(c, Eof) == TokensOf(SpacedThen(COMPARED));
    assert AstOf(c) == Binary(Eq, Ref(Reference(Steps("a"), [])), Lit(Str("$steps.a")));
    DerivationParses(c);
    ScanReadsLayout(SpacedThen(COMPARED));
  }
}
