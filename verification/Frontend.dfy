/** `parseExpression`: the lexer and the parser together. */
module Frontend {
  import opened Results
  import opened Syntax
  import opened ParserSpec
  import Tokenizer
  import Parser

  /** The error column of a parser failure with `left` tokens to go. */
  function Located(tokens: seq<Token>, p: Parse<Expr>): Result<Expr, Error> {
    match p
    case Ok(e, _) => Success(e)
    case Err(reason, left) =>
      Failure(Error(reason, if 1 <= left <= |tokens| then Some(tokens[|tokens| - left].start) else None))
  }

  function ParseSource(src: string): Result<Expr, Error> {
    var tokens :- Tokenizer.Tokens(src);
    Located(tokens, ParseProgram(Kinds(tokens)))
  }

  method ParseExpression(src: string) returns (r: Result<Expr, Error>)
    ensures r == ParseSource(src)
  {
    var tokens :- Tokenizer.Tokenize(src);
    r := Parser.ParseTokens(tokens);
  }
}
