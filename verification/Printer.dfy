/**
  A printer for expressions, and the round trip: printing with the fewest parentheses and
  then lexing and parsing gives the printed tree back.
 */
module Printer {
  import opened Ast
  import opened Grammar
  import opened GrammarTheorem
  import opened Layouts
  import opened LexerSpec
  import opened Machine
  import opened ParserSpec
  import opened Wrappers

  // ------------------------------------------------------------ trees to derivations

  function PathCst(p: seq<PathSegment>): CPath
  {
    if p == [] then End else Step(SegCst(p[0]), PathCst(p[1..]))
  }

  function SegCst(s: PathSegment): CSeg
  {
    match s
    case Field(name) => CField(name)
    case Index(n) => CIndex(n as real)
    case Wildcard => CWild
    case FilterEq(f, v) => CFilter(f, v)
  }

  /** The derivation of `e` at level `k` with parentheses only where the levels demand them. */
  function ToCst(e: Expression, k: nat): Cst
  {
    match e
    case Lit(l) => CLit(l)
    case Ref(r) => CRef(r.root, PathCst(r.path))
    case Not(x) =>
      var c := CNot(ToCst(x, UNARY));
      if k <= UNARY then c else CParen(c)
    case Binary(op, l, r) =>
      var c := CBin(op, ToCst(l, Precedence(op)), ToCst(r, Precedence(op) + 1));
      if k <= Precedence(op) then c else CParen(c)
  }

  /** Some numeral has this value. */
  ghost predicate Decimal(n: real)
  {
    exists m :: HasValue(m, n)
  }

  predicate HasValue(m: Numeral, n: real)
  {
    NumeralOk(m) && NumeralValue(m) == n
  }

  /** Names lex as identifiers, strings hold no quote, numbers have numerals, indices fit. */
  ghost predicate PrintableSeg(s: PathSegment)
  {
    match s
    case Field(name) => IsIdent(name)
    case Index(n) => n <= USIZE_MAX
    case Wildcard => true
    case FilterEq(f, v) => IsIdent(f) && All(NotQuote, v)
  }

  ghost predicate Printable(e: Expression)
  {
    match e
    case Lit(Str(s)) => All(NotQuote, s)
    case Lit(Number(n)) => Decimal(n)
    case Lit(_) => true
    case Ref(r) =>
      (r.root.Steps? ==> IsIdent(r.root.id)) && forall i | 0 <= i < |r.path| :: PrintableSeg(r.path[i])
    case Not(x) => Printable(x)
    case Binary(_, l, r) => Printable(l) && Printable(r)
  }

  /** The limits, as the printed form meets them. */
  predicate PrintsWithinLimits(e: Expression)
  {
    WithinLimits(ToCst(e, 0))
  }

  lemma {:induction false} PathCstMeans(p: seq<PathSegment>)
    requires forall i | 0 <= i < |p| :: PrintableSeg(p[i])
    ensures PathOk(PathCst(p)) && PathAst(PathCst(p)) == p
  {
    if p != [] {
      PathCstMeans(p[1..]);
      assert p == [p[0]] + p[1..];
      assert PrintableSeg(p[0]);
    }
  }

  lemma {:induction false} ToCstMeans(e: Expression, k: nat)
    requires k <= PRIMARY && Printable(e)
    ensures InLevel(ToCst(e, k), k) && AstOf(ToCst(e, k)) == e
  {
    match e
    case Lit(_) =>
    case Ref(r) => PathCstMeans(r.path);
    case Not(x) => ToCstMeans(x, UNARY);
    case Binary(op, l, r) => ToCstMeans(l, Precedence(op)); ToCstMeans(r, Precedence(op) + 1);
  }

  /** No derivation of the same tree uses fewer operators or nests less deeply. */
  lemma {:induction false} PrintedNestingIsLeast(c: Cst, k: nat)
    requires k <= PRIMARY && InLevel(c, k)
    ensures Ops(ToCst(AstOf(c), k)) == Ops(c) && Nesting(ToCst(AstOf(c), k)) <= Nesting(c)
    decreases c
  {
    match c
    case CLit(_) =>
    case CRef(_, _) =>
    case CParen(e) =>
      PrintedNestingIsLeast(e, 0);
      OneParenAtMost(AstOf(e), k);
    case CNot(e) => PrintedNestingIsLeast(e, UNARY);
    case CBin(op, l, r) => PrintedNestingIsLeast(l, Precedence(op)); PrintedNestingIsLeast(r, Precedence(op) + 1);
  }

  /** No derivation of the same tree at the same level has fewer parentheses. */
  lemma {:induction false} PrintedParensAreFewest(c: Cst, k: nat)
    requires k <= PRIMARY && InLevel(c, k)
    ensures Parens(ToCst(AstOf(c), k)) <= Parens(c)
    decreases c
  {
    match c
    case CLit(_) =>
    case CRef(_, _) =>
    case CParen(e) =>
      PrintedParensAreFewest(e, 0);
      OneParenAtMost(AstOf(e), k);
    case CNot(e) => PrintedParensAreFewest(e, UNARY);
    case CBin(op, l, r) => PrintedParensAreFewest(l, Precedence(op)); PrintedParensAreFewest(r, Precedence(op) + 1);
  }

  lemma {:induction false} OneParenAtMost(e: Expression, k: nat)
    ensures ToCst(e, k) == ToCst(e, 0) || ToCst(e, k) == CParen(ToCst(e, 0))
  {
  }

  // ------------------------------------------------------------ derivations to text

  ghost predicate Spellable(t: Token)
  {
    match t
    case TIdent(name) => IsIdent(name)
    case TString(s) => All(NotQuote, s)
    case TNumber(n) => Decimal(n)
    case TEof => false
    case _ => true
  }

  ghost predicate AllSpellable(ts: Tokens)
  {
    ts.Tok? ==> Spellable(ts.head) && AllSpellable(ts.rest)
  }

  lemma {:induction false} SpellableCons()
    ensures forall t, ts :: AllSpellable(Tok(t, ts)) <==> Spellable(t) && AllSpellable(ts)
  {
  }

  /** A spelling; for a number, any numeral with that value. */
  ghost function Spelling(t: Token): (w: string)
    requires Spellable(t)
    ensures Spells(w, t)
  {
    match t
    case TDollar => "$"
    case TDot => "."
    case TLBracket => "["
    case TRBracket => "]"
    case TLParen => "("
    case TRParen => ")"
    case TQuestion => "?"
    case TAt => "@"
    case TStar => "*"
    case TBang => "!"
    case TOp(op) => OpText(op)
    case TIdent(name) => name
    case TString(s) => "'" + s + "'"
    case TNumber(n) => var m :| HasValue(m, n); NumeralReread(m); NumeralText(m)
    case TTrue => "true"
    case TFalse => "false"
    case TNull => "null"
  }

  /** One space on each side of a binary operator, none elsewhere. */
  function GapBetween(a: Token, b: Token): string
  {
    if a.TOp? || b.TOp? then " " else ""
  }

  ghost function Written(prev: Token, ts: Tokens): Layout
    requires AllSpellable(ts)
    decreases ts
  {
    if ts.Eof? then Tail("")
    else Piece(GapBetween(prev, ts.head), Spelling(ts.head), ts.head, Written(ts.head, ts.rest))
  }

  ghost function Print(e: Expression): string
    requires Printable(e)
  {
    PrintedSpellable(e);
    Text(Written(TLParen, Spell(ToCst(e, 0), Eof)))
  }

  /** Two tokens that may stand side by side with nothing between them. */
  predicate MayTouch(a: Token, b: Token)
  {
    match a
    case TIdent(_) => b == TDot || b == TLBracket || b == TRParen
    case TNumber(_) => b == TRBracket || b == TRParen
    case TTrue | TFalse | TNull => b == TRParen
    case TQuestion => b == TLParen
    case _ => true
  }

  predicate WellSpaced(prev: Token, ts: Tokens)
    decreases ts
  {
    ts.Tok? ==> (GapBetween(prev, ts.head) != "" || MayTouch(prev, ts.head)) && WellSpaced(ts.head, ts.rest)
  }

  lemma {:induction false} WellSpacedCons()
    ensures forall prev, t, ts ::
      WellSpaced(prev, Tok(t, ts)) <==> (GapBetween(prev, t) != "" || MayTouch(prev, t)) && WellSpaced(t, ts)
  {
  }

  lemma {:induction false} WrittenValid(prev: Token, ts: Tokens)
    requires AllSpellable(ts) && WellSpaced(prev, ts)
    ensures Valid(Written(prev, ts)) && TokensOf(Written(prev, ts)) == ts
    decreases ts
  {
    hide Spells, Spelling, Stops;
    if ts.Tok? {
      WrittenValid(ts.head, ts.rest);
      WrittenStops(ts.head, ts.rest);
    }
  }

  lemma {:induction false} WrittenStops(t: Token, ts: Tokens)
    requires Spellable(t) && AllSpellable(ts) && WellSpaced(t, ts)
    ensures Stops(t, Spelling(t), Text(Written(t, ts)))
  {
    hide Spelling, Stops;
    if ts.Tok? {
      var gap, w, rest := GapBetween(t, ts.head), Spelling(ts.head), Text(Written(ts.head, ts.rest));
      assert gap + (w + rest) == gap + w + rest;
      if gap == "" {
        assert w + rest == gap + (w + rest);
        TouchStops(t, ts.head, rest);
      } else {
        SpaceStops(t, Spelling(t), gap + (w + rest));
      }
    } else {
      EndStops(t, Spelling(t));
    }
  }

  lemma {:induction false} EndStops(t: Token, w: string)
    ensures Stops(t, w, "")
  {
  }

  lemma {:induction false} SpaceStops(t: Token, w: string, after: string)
    requires after != "" && after[0] == ' '
    ensures Stops(t, w, after)
  {
  }

  lemma {:induction false} TouchStops(t: Token, next: Token, rest: string)
    requires Spellable(t) && Spellable(next) && !t.TOp? && !next.TOp? && MayTouch(t, next)
    ensures Stops(t, Spelling(t), Spelling(next) + rest)
  {
    hide Spelling, Spellable;
    SpellingStarts(next);
    assert (Spelling(next) + rest)[0] == Spelling(next)[0];
  }

  lemma {:induction false} SpellingStarts(t: Token)
    requires Spellable(t)
    ensures Spelling(t) != "" && (!t.TOp? ==> Spelling(t)[0] != '=')
    ensures t == TDot || t == TLBracket || t == TRBracket || t == TRParen || t == TLParen ==>
      !Is(IdentChar, Spelling(t)[0]) && Spelling(t)[0] != '?' && (Spelling(t)[0] == '.' ==> t == TDot)
  {
    hide IsNumeral, NumeralText, NumeralValue, NumeralAt, WordToken, All;
    if t.TNumber? {
      NumeralStarts(Spelling(t), t.n);
    }
  }

  lemma {:induction false} NumeralStarts(w: string, n: real)
    requires IsNumeral(w, n)
    ensures w != "" && w[0] != '='
  {
    hide NumeralText, NumeralValue, NumeralAt;
  }

  lemma {:induction false} PathSpaced(p: CPath, prev: Token, rest: Tokens)
    requires prev == TDollar || prev == TRBracket || prev.TIdent?
    requires Follow(rest, UNARY) && WellSpaced(TRParen, rest)
    ensures WellSpaced(prev, SpellPath(p, rest))
    decreases p
  {
    WellSpacedCons();
    if p.Step? {
      var last := if p.seg.CField? then TIdent(p.seg.name) else TRBracket;
      PathSpaced(p.next, last, rest);
    }
  }

  lemma {:induction false} SpellSpaced(c: Cst, prev: Token, rest: Tokens)
    requires prev == TLParen || prev == TBang || prev.TOp?
    requires Follow(rest, UNARY) && WellSpaced(TRParen, rest)
    ensures WellSpaced(prev, Spell(c, rest))
    decreases c
  {
    WellSpacedCons();
    match c
    case CLit(_) =>
    case CRef(root, p) =>
      if root == Implicit {
        PathSpaced(p, TDollar, rest);
      } else {
        PathSpaced(p, TIdent(if root.Steps? then root.id else RootName(root)), rest);
      }
    case CParen(e) => SpellSpaced(e, TLParen, Tok(TRParen, rest));
    case CNot(e) => SpellSpaced(e, TBang, rest);
    case CBin(op, l, r) =>
      SpellSpaced(r, TOp(op), rest);
      SpellSpaced(l, prev, Tok(TOp(op), Spell(r, rest)));
  }

  // ------------------------------------------------------------ what is spellable

  /** The digits of a natural number. */
  function NatText(n: nat): (w: string)
    ensures w != "" && All(Digit, w)
  {
    if n < 10 then ['0' + n as char] else NatText(n / 10) + ['0' + (n % 10) as char]
  }

  lemma {:induction false} NatTextValue(n: nat)
    ensures DigitsValue(NatText(n)) == n as real
  {
    var w := NatText(n);
    DigitTextValue(n % 10);
    if n < 10 {
      assert w[..0] == "";
    } else {
      NatTextValue(n / 10);
      assert w[..|w| - 1] == NatText(n / 10);
      assert n as real == 10.0 * (n / 10) as real + (n % 10) as real;
    }
  }

  lemma {:induction false} DigitTextValue(d: nat)
    requires d < 10
    ensures DigitValue('0' + d as char) == d as real
  {
  }

  lemma {:induction false} NatIsDecimal(n: nat)
    ensures Decimal(n as real)
  {
    var m := Numeral(false, NatText(n), None);
    NatTextValue(n);
    assert HasValue(m, n as real);
  }

  lemma {:induction false} PathSpellable(p: seq<PathSegment>, rest: Tokens)
    requires (forall i | 0 <= i < |p| :: PrintableSeg(p[i])) && AllSpellable(rest)
    ensures AllSpellable(SpellPath(PathCst(p), rest))
  {
    SpellableCons();
    if p != [] {
      PathSpellable(p[1..], rest);
      assert PrintableSeg(p[0]);
      if p[0].Index? {
        NatIsDecimal(p[0].n);
      }
      SegSpellable(p[0], SpellPath(PathCst(p[1..]), rest));
    }
  }

  lemma {:induction false} SegSpellable(s: PathSegment, rest: Tokens)
    requires PrintableSeg(s) && (s.Index? ==> Decimal(s.n as real)) && AllSpellable(rest)
    ensures AllSpellable(SpellSeg(SegCst(s), rest))
  {
    hide AllSpellable, Decimal;
    SpellableCons();
    if s.FilterEq? {
      assert AllSpellable(SpellTest(s.field, s.value, rest));
    }
  }

  lemma {:induction false} SpellSpellable(e: Expression, k: nat, rest: Tokens)
    requires Printable(e) && AllSpellable(rest)
    ensures AllSpellable(Spell(ToCst(e, k), rest))
    decreases e
  {
    SpellableCons();
    var ts := Tok(TRParen, rest);
    match e
    case Lit(_) =>
    case Ref(r) =>
      PathSpellable(r.path, rest);
      RootSpellable(r.root, SpellPath(PathCst(r.path), rest));
    case Not(x) =>
      SpellSpellable(x, UNARY, rest);
      SpellSpellable(x, UNARY, ts);
    case Binary(op, l, r) =>
      var p := Precedence(op);
      SpellSpellable(r, p + 1, rest);
      SpellSpellable(l, p, Tok(TOp(op), Spell(ToCst(r, p + 1), rest)));
      SpellSpellable(r, p + 1, ts);
      SpellSpellable(l, p, Tok(TOp(op), Spell(ToCst(r, p + 1), ts)));
  }

  lemma {:induction false} RootSpellable(root: Root, rest: Tokens)
    requires (root.Steps? ==> IsIdent(root.id)) && AllSpellable(rest)
    ensures AllSpellable(SpellRoot(root, rest))
  {
    SpellableCons();
    RootNamesAreIdents();
  }

  lemma {:induction false} RootNamesAreIdents()
    ensures forall r: Root | !r.Implicit? :: IsIdent(RootName(r))
  {
  }

  lemma {:induction false} PrintedSpellable(e: Expression)
    requires Printable(e)
    ensures AllSpellable(Spell(ToCst(e, 0), Eof))
  {
    SpellSpellable(e, 0, Eof);
  }

  // ------------------------------------------------------------ main results

  /** The whole pipeline on a text. */
  function ParseText(s: string): Option<Expression>
  {
    match Lex(s)
    case Err(_) => None
    case Ok(ts) =>
      match ParseTokens(ts)
      case Failed(_, _) => None
      case Parsed(e, _, _) => Some(e)
  }

  /** Printing then lexing and parsing returns the printed tree. */
  lemma {:induction false} RoundTrip(e: Expression)
    requires Printable(e) && PrintsWithinLimits(e)
    ensures ParseText(Print(e)) == Some(e)
  {
    var c := ToCst(e, 0);
    PrintedSpellable(e);
    SpellSpaced(c, TLParen, Eof);
    WrittenValid(TLParen, Spell(c, Eof));
    LayoutLexes(Written(TLParen, Spell(c, Eof)));
    ToCstMeans(e, 0);
    DerivationParses(c);
  }

  /** `s` is a layout of the derivation `c`, which means `e` and is within the limits. */
  ghost predicate Writes(l: Layout, c: Cst, s: string, e: Expression)
  {
    && Valid(l) && Text(l) == s && TokensOf(l) == Spell(c, Eof)
    && InLevel(c, 0) && AstOf(c) == e && WithinLimits(c)
  }

  /** A text parses to `e` exactly when it lays out a derivation of `e` within the limits. */
  lemma {:induction false} TextsOfExpression(s: string, e: Expression)
    ensures ParseText(s) == Some(e) <==> exists l, c :: Writes(l, c, s, e)
  {
    if ParseText(s) == Some(e) {
      var l := LexedLayout(s);
      var c := AcceptedDerivation(TokensOf(l));
      assert Writes(l, c, s, e);
    }
    if l, c :| Writes(l, c, s, e) {
      LayoutLexes(l);
      DerivationParses(c);
    }
  }

  /** The trees the parser can return at all. */
  lemma {:induction false} ParserRange(e: Expression)
    ensures (exists s :: ParseText(s) == Some(e)) <==> Printable(e) && PrintsWithinLimits(e)
  {
    if s :| ParseText(s) == Some(e) {
      var l := LexedLayout(s);
      var c := AcceptedDerivation(TokensOf(l));
      LayoutSpellable(l);
      DerivedPrintable(c, Eof);
      PrintedNestingIsLeast(c, 0);
    }
    if Printable(e) && PrintsWithinLimits(e) {
      RoundTrip(e);
    }
  }

  lemma {:induction false} LayoutSpellable(l: Layout)
    requires Valid(l)
    ensures AllSpellable(TokensOf(l))
  {
    hide Stops;
    if l.Piece? {
      LayoutSpellable(l.next);
      if l.token.TNumber? {
        assert HasValue(NumeralAt(l.lexeme), l.token.n);
      }
    }
  }

  lemma {:induction false} DerivedPrintable(c: Cst, rest: Tokens)
    requires AllSpellable(Spell(c, rest))
    ensures Printable(AstOf(c)) && AllSpellable(rest)
    decreases c
  {
    SpellableCons();
    match c
    case CLit(_) =>
    case CRef(root, p) =>
      assert AllSpellable(SpellPath(p, rest));
      PathPrintable(p, rest);
    case CParen(e) => DerivedPrintable(e, Tok(TRParen, rest));
    case CNot(e) => DerivedPrintable(e, rest);
    case CBin(op, l, r) =>
      DerivedPrintable(l, Tok(TOp(op), Spell(r, rest)));
      DerivedPrintable(r, rest);
  }

  lemma {:induction false} PathPrintable(p: CPath, rest: Tokens)
    requires AllSpellable(SpellPath(p, rest))
    ensures AllSpellable(rest) && forall i | 0 <= i < |PathAst(p)| :: PrintableSeg(PathAst(p)[i])
  {
    SpellableCons();
    if p.Step? {
      var ts := SpellPath(p.next, rest);
      assert AllSpellable(ts) && PrintableSeg(SegAst(p.seg)) by {
        if p.seg.CFilter? {
          assert AllSpellable(SpellTest(p.seg.field, p.seg.value, ts));
        }
      }
      PathPrintable(p.next, rest);
    }
  }
}
