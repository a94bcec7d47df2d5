/** The template parser of main.go: an interpolation's expression text
    becomes a property read of that text. */
module MainTemplate {
  import opened TemplateAst
  import opened Markup
  import opened WalkerSpec
  import Walker

  /** PropertyRead{Name: text}. */
  function ReadProperty(text: string): PropertyRead {
    PropertyRead(text)
  }

  /** parse of main.go over a fresh tokenizer. */
  method Parse(tz: Tokenizer) returns (r: Parsed<PropertyRead>)
    requires tz.Valid() && tz.pos == -1
    requires !WalkerSpec.Parse(tz.tokens, ReadProperty).Hangs?
    modifies tz
    ensures r == WalkerSpec.Parse(tz.tokens, ReadProperty)
  {
    r := Walker.Parse(tz, ReadProperty);
  }
}
