/** The expression entry point: the lexer object, then the parser object. */
module Dsl {
  import opened Ast
  import opened Wrappers
  import L = Lexer
  import P = Parser
  import ParserSpec
  import LexerSpec
  import Printer

  datatype DslError = LexError(position: nat) | ParseError(kind: ParserSpec.ParseError, position: nat)

  /** The place in the text where these tokens begin: from there on it lexes to them, white space not included. */
  predicate PointsAt(src: string, position: nat, ts: Tokens)
  {
    && position <= |src|
    && LexerSpec.Lex(src[position..]) == Ok(ts)
    && !LexerSpec.Starts(LexerSpec.Space, src[position..])
  }

  /** The lexer's error or the parser's, each where it says; a parse error points at the start of the token at fault. */
  predicate Answers(src: string, r: Result<Expression, DslError>)
  {
    match LexerSpec.Lex(src)
    case Err(left) => left <= |src| && r == Err(LexError(|src| - left))
    case Ok(ts) => AnswersTokens(src, ts, r)
  }

  predicate AnswersTokens(src: string, ts: Tokens, r: Result<Expression, DslError>)
  {
    match ParserSpec.ParseTokens(ts)
    case Parsed(e, _, _) => r == Ok(e)
    case Failed(k, at) => r.Err? && r.error.ParseError? && r.error.kind == k && PointsAt(src, r.error.position, at)
  }

  /** A text either lexes and parses whole, or is answered with where it fails. */
  method ParseExpression(src: string) returns (r: Result<Expression, DslError>)
    ensures Answers(src, r)
    ensures r.Ok? <==> Printer.ParseText(src).Some?
    ensures r.Ok? ==> Printer.ParseText(src) == Some(r.value)
  {
    var lexer := new L.Lexer(src);
    var lexed := lexer.Tokenize();
    LexErrorInText(src);
    if lexed.Err? {
      return Err(LexError(lexed.error));
    }
    var parsed := P.ParseExpressionTokens(L.Kinds(lexed.value));
    if parsed.Err? {
      var at := parsed.error.at;
      assert L.StartsAt(src, L.Kinds(lexed.value), at, lexed.value[at].start);
      return Err(ParseError(parsed.error.kind, lexed.value[at].start));
    }
    return Ok(parsed.value);
  }

  lemma {:induction false} LexErrorInText(s: string)
    ensures LexerSpec.Lex(s).Err? ==> LexerSpec.Lex(s).error <= |s|
    decreases |s|
  {
    hide LexerSpec.LexToken;
    var s1 := s[LexerSpec.Span(LexerSpec.Space, s)..];
    if s1 != "" && LexerSpec.LexToken(s1).Lexed? {
      LexErrorInText(s1[LexerSpec.LexToken(s1).len..]);
    }
  }
}
