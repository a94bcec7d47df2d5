/** The HTML tokenizer the walker reads from, as an abstract sequence of
    tokens behind a cursor. Only the token kinds the walker tells apart are
    kept; every other kind (doctype, self-closing tag) is OtherToken. */
module Markup {
  datatype Attr = Attr(key: string, val: string)

  datatype HtmlToken =
    | TextToken(data: string)
    | CommentToken(data: string)
    | StartTagToken(name: string, attrs: seq<Attr>)
    | EndTagToken(name: string)
    | OtherToken
    | EofToken

  /** The token at position p; before the first and past the last token the
      tokenizer reports the end of input. */
  function At(tokens: seq<HtmlToken>, p: int): (t: HtmlToken)
    ensures !(0 <= p < |tokens|) ==> t == EofToken
    ensures 0 <= p < |tokens| ==> t == tokens[p]
  {
    if 0 <= p < |tokens| then tokens[p] else EofToken
  }

  /** Two tokens of the same kind. */
  predicate SameKind(a: HtmlToken, b: HtmlToken) {
    a.TextToken? == b.TextToken? && a.CommentToken? == b.CommentToken? &&
    a.StartTagToken? == b.StartTagToken? && a.EndTagToken? == b.EndTagToken? &&
    a.OtherToken? == b.OtherToken? && a.EofToken? == b.EofToken?
  }

  /** A token's kind alone: what Next returns, and what Token gives when it
      has already handed out the current token's text, name and attributes
      (the tokenizer's Text and TagName move its data window past them on
      the first read, so a second read finds it empty). */
  function Blank(t: HtmlToken): (b: HtmlToken)
    ensures SameKind(b, t)
    ensures b.TextToken? ==> b.data == []
    ensures b.CommentToken? ==> b.data == []
    ensures b.StartTagToken? ==> b.name == [] && b.attrs == []
    ensures b.EndTagToken? ==> b.name == []
  {
    match t
    case TextToken(_) => TextToken([])
    case CommentToken(_) => CommentToken([])
    case StartTagToken(_, _) => StartTagToken([], [])
    case EndTagToken(_) => EndTagToken([])
    case _ => t
  }

  /** A tokenizer over a fixed token sequence; `pos` is the token that
      Next last read (-1 before the first call), and `read` says whether
      Token has handed that token out since. */
  class Tokenizer {
    const tokens: seq<HtmlToken>
    var pos: int
    var read: bool

    predicate Valid()
      reads this
    {
      -1 <= pos <= |tokens|
    }

    constructor (ts: seq<HtmlToken>)
      ensures Valid() && tokens == ts && pos == -1 && !read
    {
      tokens := ts;
      pos := -1;
      read := false;
    }

    /** The token the tokenizer stands on, with all its data. */
    function Current(): HtmlToken
      reads this
    {
      At(tokens, pos)
    }

    /** Moves to the next token and returns its kind; at the end of input it
        stays on the end. */
    method Next() returns (kind: HtmlToken)
      requires Valid()
      modifies this
      ensures Valid() && pos == (if old(pos) < |tokens| then old(pos) + 1 else old(pos)) && !read
      ensures kind == Blank(Current())
    {
      if pos < |tokens| {
        pos := pos + 1;
      }
      read := false;
      kind := Blank(At(tokens, pos));
    }

    /** The current token: in full on the first call after Next, its kind
        alone on every later call. */
    method Token() returns (t: HtmlToken)
      requires Valid()
      modifies this
      ensures Valid() && pos == old(pos) && read
      ensures t == if old(read) then Blank(Current()) else Current()
    {
      t := if read then Blank(At(tokens, pos)) else At(tokens, pos);
      read := true;
    }
  }
}
