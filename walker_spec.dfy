/** What walk and parse compute from the token sequence, as functions of the
    tokens and a cursor position. main.go and parser.go run the same walk;
    they differ only in how an interpolation's expression text becomes an
    expression, which is the parameter mk. WalkAt, ChildrenFrom and ParseFrom
    read every token once; the Reread functions model the child loop as the
    source writes it, reading each later child's token a second time. */
module WalkerSpec {
  import opened TemplateAst
  import opened Markup
  import opened TextSplit
  import opened BraceSplit
  import opened Bindings

  /** The node for a text token: a bound text when the text holds `{{`,
      otherwise the text itself. */
  function TextNodeOf<E>(data: string, mk: string -> E): Node<E> {
    if Contains(data, "{{") then BoundTextNode(WithSource(InterpolationOf(data, mk), data))
    else TextNode(data)
  }

  /** The result of walk at one token: the node and the position after it;
      Stuck when walk returns nil without moving (end tag, end of input or a
      token kind it does not handle); Hang when a loop inside it would spin
      on such a token for ever; Crash when an attribute panics. */
  datatype Walk<E> = Walked(node: Node<E>, next: int) | Stuck | Hang | Crash

  /** The result of a loop that walks tokens until a stop token: the nodes
      and the position of the stop token, or the failure that ended it. */
  datatype Run<E> = Ran(nodes: seq<Node<E>>, next: int) | RunHang | RunCrash

  function PrependRun<E>(n: Node<E>, r: Run<E>): Run<E> {
    match r
    case Ran(nodes, next) => Ran([n] + nodes, next)
    case RunHang => RunHang
    case RunCrash => RunCrash
  }

  /** walk at position p. */
  function WalkAt<E>(tokens: seq<HtmlToken>, p: int, mk: string -> E): (r: Walk<E>)
    requires 0 <= p <= |tokens|
    ensures r.Walked? ==> p < r.next <= |tokens|
    ensures r.Stuck? <==> !(At(tokens, p).TextToken? || At(tokens, p).CommentToken? || At(tokens, p).StartTagToken?)
    decreases |tokens| + 1 - p, 0
  {
    match At(tokens, p)
    case TextToken(data) => Walked(TextNodeOf(data, mk), p + 1)
    case CommentToken(data) => Walked(CommentNode(data), p + 1)
    case StartTagToken(name, attrs) =>
      (match ClassifyAll(attrs)
       case None => Crash
       case Some(lists) =>
         match ChildrenFrom(tokens, p + 1, mk)
         case Ran(children, q) =>
           Walked(ElementNode(Element(name, lists.attributes, lists.inputs, lists.outputs, lists.references, children)), q + 1)
         case RunHang => Hang
         case RunCrash => Crash)
    case _ => Stuck
  }

  /** The child loop of walk from position q: children up to the first end
      tag of any name, whose position is the result's next. */
  function ChildrenFrom<E>(tokens: seq<HtmlToken>, q: int, mk: string -> E): (r: Run<E>)
    requires 0 <= q <= |tokens|
    ensures r.Ran? ==> q <= r.next < |tokens| && At(tokens, r.next).EndTagToken?
    decreases |tokens| + 1 - q, 1
  {
    if At(tokens, q).EndTagToken? then Ran([], q)
    else
      match WalkAt(tokens, q, mk)
      case Walked(n, next) => PrependRun(n, ChildrenFrom(tokens, next, mk))
      case Stuck => RunHang
      case Hang => RunHang
      case Crash => RunCrash
  }

  /** The loop of parse from position p: nodes up to the end of input, whose
      position is the result's next. */
  function ParseFrom<E>(tokens: seq<HtmlToken>, p: int, mk: string -> E): (r: Run<E>)
    requires 0 <= p <= |tokens|
    ensures r.Ran? ==> p <= r.next <= |tokens| && At(tokens, r.next).EofToken?
    decreases |tokens| + 1 - p
  {
    if At(tokens, p).EofToken? then Ran([], p)
    else
      match WalkAt(tokens, p, mk)
      case Walked(n, next) => PrependRun(n, ParseFrom(tokens, next, mk))
      case Stuck => RunHang
      case Hang => RunHang
      case Crash => RunCrash
  }

  // ---------------------------------------------------------------------
  // The child loop as written

  /** walk handed tok, the token at p in full or its blank when the child
      loop has already read it. */
  function RereadWalkAt<E>(tokens: seq<HtmlToken>, p: int, tok: HtmlToken, mk: string -> E): (r: Walk<E>)
    requires 0 <= p <= |tokens| && SameKind(tok, At(tokens, p))
    ensures r.Walked? ==> p < r.next <= |tokens|
    ensures r.Stuck? <==> !(tok.TextToken? || tok.CommentToken? || tok.StartTagToken?)
    decreases |tokens| + 1 - p, 0
  {
    match tok
    case TextToken(data) => Walked(TextNodeOf(data, mk), p + 1)
    case CommentToken(data) => Walked(CommentNode(data), p + 1)
    case StartTagToken(name, attrs) =>
      (match ClassifyAll(attrs)
       case None => Crash
       case Some(lists) =>
         match RereadChildrenFrom(tokens, p + 1, true, mk)
         case Ran(children, q) =>
           Walked(ElementNode(Element(name, lists.attributes, lists.inputs, lists.outputs, lists.references, children)), q + 1)
         case RunHang => Hang
         case RunCrash => Crash)
    case _ => Stuck
  }

  /** The child loop as written: Next moves to the first child, whose token
      the loop reads in full; after each child the loop reads the next
      token only for its kind, so the read that hands it to walk is a
      second one and gets its blank. unread says the loop has not read the token at q yet. */
  function RereadChildrenFrom<E>(tokens: seq<HtmlToken>, q: int, unread: bool, mk: string -> E): (r: Run<E>)
    requires 0 <= q <= |tokens|
    ensures r.Ran? ==> q <= r.next < |tokens| && At(tokens, r.next).EndTagToken?
    decreases |tokens| + 1 - q, 1
  {
    if At(tokens, q).EndTagToken? then Ran([], q)
    else
      match RereadWalkAt(tokens, q, if unread then At(tokens, q) else Blank(At(tokens, q)), mk)
      case Walked(n, next) => PrependRun(n, RereadChildrenFrom(tokens, next, false, mk))
      case Stuck => RunHang
      case Hang => RunHang
      case Crash => RunCrash
  }

  /** The loop of parse over the walk as written; its own reads come first
      after each Next, so every top-level token is read in full. */
  function RereadParseFrom<E>(tokens: seq<HtmlToken>, p: int, mk: string -> E): (r: Run<E>)
    requires 0 <= p <= |tokens|
    ensures r.Ran? ==> p <= r.next <= |tokens| && At(tokens, r.next).EofToken?
    decreases |tokens| + 1 - p
  {
    if At(tokens, p).EofToken? then Ran([], p)
    else
      match RereadWalkAt(tokens, p, At(tokens, p), mk)
      case Walked(n, next) => PrependRun(n, RereadParseFrom(tokens, next, mk))
      case Stuck => RunHang
      case Hang => RunHang
      case Crash => RunCrash
  }

  /** The outcome of parse: the root, or the program hangs or panics. */
  datatype Parsed<E> = Parsed(root: Root<E>) | Hangs | Crashes

  /** parse: the first Next moves to the first token. */
  function Parse<E>(tokens: seq<HtmlToken>, mk: string -> E): Parsed<E> {
    match ParseFrom(tokens, 0, mk)
    case Ran(nodes, _) => Parsed(Root(nodes))
    case RunHang => Hangs
    case RunCrash => Crashes
  }

  /** parse over the walk as written. */
  function RereadParse<E>(tokens: seq<HtmlToken>, mk: string -> E): Parsed<E> {
    match RereadParseFrom(tokens, 0, mk)
    case Ran(nodes, _) => Parsed(Root(nodes))
    case RunHang => Hangs
    case RunCrash => Crashes
  }
}
