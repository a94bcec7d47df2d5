/** The template parser of parser.go: an interpolation's expression text is
    handed to the PEG expression parser, whose grammar engine is outside this
    model and is the parameter parsePeg. */
module PegTemplate {
  import opened TemplateAst
  import opened Markup
  import opened WalkerSpec
  import opened WalkerProperties
  import opened MainTemplate
  import Walker

  /** parse of parser.go over a fresh tokenizer. */
  method Parse<Ast>(tz: Tokenizer, parsePeg: string -> Ast) returns (r: Parsed<Ast>)
    requires tz.Valid() && tz.pos == -1
    requires !WalkerSpec.Parse(tz.tokens, parsePeg).Hangs?
    modifies tz
    ensures r == WalkerSpec.Parse(tz.tokens, parsePeg)
  {
    r := Walker.Parse(tz, parsePeg);
  }

  /** parser.go builds the tree main.go builds, with each interpolation's
      property read replaced by the PEG parse of its name; it hangs and
      panics on the same inputs. */
  lemma SameTreeAsMain<Ast>(tokens: seq<HtmlToken>, parsePeg: string -> Ast)
    ensures WalkerSpec.Parse(tokens, parsePeg) ==
            MapParsed(WalkerSpec.Parse(tokens, ReadProperty), (read: PropertyRead) => parsePeg(read.name))
  {
    ParseMaps(tokens, ReadProperty, (read: PropertyRead) => parsePeg(read.name), parsePeg);
  }
}
