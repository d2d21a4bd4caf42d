/** The input of the normalizer: the parse tree produced by the external bashlex parser,
    and the lexical collaborators the normalizer consults but does not define. */
module BashAst {
  import opened Wrappers

  /** One node of the raw parse tree. `hasParts` tells whether the node has a `parts`
      attribute at all, and `parts` is that list (empty when there is no attribute);
      `command` is `None` when the node carries no nested command. */
  datatype RawNode = RawNode(
    kind: string,
    word: string,
    pos: (int, int),
    hasParts: bool,
    parts: seq<RawNode>,
    command: Option<RawNode>)

  /** The exceptions the parser may raise: the five the entry point catches, and any other. */
  datatype ParseError =
    | MatchedPairError
    | ParsingError
    | NotImplementedError
    | IndexError
    | AttributeError
    | OtherParserException

  /** The outcome of one call of the external parser. */
  datatype ParseResult = Parsed(trees: seq<RawNode>) | ParseFailed(error: ParseError)

  /** The option test, the whitelist of head commands and the digit placeholder `_NUM`. */
  datatype Lexicon = Lexicon(isOption: string -> bool, headCommands: set<string>, num: string)
}
