/**
 * A parse as the two scripts see it: tokens and comments. Everything the parser does beyond the
 * lexical grammar (which goal symbol applies, what counts as a syntax error, how code is cut into
 * typed tokens) is an arbitrary function of the code with its gaps, which is all section 12 of
 * ECMA-262 lets the syntactic grammar see of a source.
 */
module Parser {
  import opened Options
  import opened Regex
  import opened Lexer

  /** An entry of `ast.tokens`. */
  datatype Token = Token(kind: string, value: string)

  /** `tokens` is None for a syntax error. */
  datatype Language = Language(goal: seq<Item> -> Goal, tokens: seq<Item> -> Option<seq<Token>>)

  datatype Ast = Ast(elems: seq<Elem>, tokens: seq<Token>)

  function Parse(lang: Language, source: string): Option<Ast> {
    match Lex(source, lang.goal)
    case None => None
    case Some(es) =>
      match lang.tokens(ItemsOf(es, Touching))
      case None => None
      case Some(ts) => Some(Ast(es, ts))
  }
}
