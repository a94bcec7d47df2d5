/** walk and parse over a tokenizer, appending nodes as they are built. The
    loops of the source spin for ever when they meet a token walk does not
    consume; these methods require that this does not happen (the Hang
    outcome of the specification). The child loop here reads each token
    once, so that walk gets every child's data. */
module Walker {
  import opened TemplateAst
  import opened Markup
  import opened TextSplit
  import opened BraceSplit
  import opened Bindings
  import opened WalkerSpec

  /** The nodes collected so far in front of what the rest of a loop yields. */
  function PrependAll<E>(nodes: seq<Node<E>>, r: Run<E>): Run<E> {
    match r
    case Ran(rest, next) => Ran(nodes + rest, next)
    case RunHang => RunHang
    case RunCrash => RunCrash
  }

  /** One turn of the child loop: the node walk built at q joins the nodes
      collected so far, and the loop goes on after it. */
  lemma ChildTurn<E>(tokens: seq<HtmlToken>, q: int, mk: string -> E, children: seq<Node<E>>, n: Node<E>, next: int)
    requires 0 <= q <= |tokens| && !At(tokens, q).EndTagToken? && WalkAt(tokens, q, mk) == Walked(n, next)
    ensures PrependAll(children + [n], ChildrenFrom(tokens, next, mk)) == PrependAll(children, ChildrenFrom(tokens, q, mk))
  {
    match ChildrenFrom(tokens, next, mk)
    case Ran(rest, _) =>
      assert children + [n] + rest == children + ([n] + rest);
    case RunHang =>
    case RunCrash =>
  }

  /** One turn of the top-level loop of parse, as ChildTurn. */
  lemma ParseTurn<E>(tokens: seq<HtmlToken>, q: int, mk: string -> E, nodes: seq<Node<E>>, n: Node<E>, next: int)
    requires 0 <= q <= |tokens| && !At(tokens, q).EofToken? && WalkAt(tokens, q, mk) == Walked(n, next)
    ensures PrependAll(nodes + [n], ParseFrom(tokens, next, mk)) == PrependAll(nodes, ParseFrom(tokens, q, mk))
  {
    match ParseFrom(tokens, next, mk)
    case Ran(rest, _) =>
      assert nodes + [n] + rest == nodes + ([n] + rest);
    case RunHang =>
    case RunCrash =>
  }

  /** walk: the node for the current token, the tokenizer left after it. */
  method Walk<E>(tz: Tokenizer, token: HtmlToken, mk: string -> E) returns (r: Walk<E>)
    requires tz.Valid() && 0 <= tz.pos && tz.read && token == tz.Current()
    requires !WalkAt(tz.tokens, tz.pos, mk).Hang?
    modifies tz
    ensures tz.Valid() && r == WalkAt(tz.tokens, old(tz.pos), mk)
    ensures r.Walked? ==> tz.pos == r.next && !tz.read
    ensures r.Stuck? ==> tz.pos == old(tz.pos) && tz.read
    decreases |tz.tokens| + 1 - tz.pos, 0
  {
    match token
    case TextToken(data) =>
      var _ := tz.Next();
      if Contains(data, "{{") {
        var interpolation := Interpolate(data, mk);
        return Walked(BoundTextNode(WithSource(interpolation, data)), tz.pos);
      }
      return Walked(TextNode(data), tz.pos);
    case CommentToken(data) =>
      var _ := tz.Next();
      return Walked(CommentNode(data), tz.pos);
    case StartTagToken(name, attrs) =>
      var lists := CollectBindings(attrs);
      if lists.None? {
        return Crash;
      }
      var _ := tz.Next();
      var children := WalkChildren(tz, mk);
      match children {
        case Ran(nodes, _) =>
          var _ := tz.Next();
          var element := Element(name, lists.value.attributes, lists.value.inputs, lists.value.outputs,
                                 lists.value.references, nodes);
          return Walked(ElementNode(element), tz.pos);
        case RunCrash =>
          return Crash;
        case RunHang =>
          assert false;
      }
    case _ =>
      return Stuck;
  }

  /** The child loop of walk, just after Next: read the current token once,
      walk it, until an end tag. */
  method WalkChildren<E>(tz: Tokenizer, mk: string -> E) returns (r: Run<E>)
    requires tz.Valid() && 0 <= tz.pos && !tz.read
    requires !ChildrenFrom(tz.tokens, tz.pos, mk).RunHang?
    modifies tz
    ensures tz.Valid() && r == ChildrenFrom(tz.tokens, old(tz.pos), mk)
    ensures r.Ran? ==> tz.pos == r.next
    decreases |tz.tokens| + 1 - tz.pos, 1
  {
    ghost var goal := ChildrenFrom(tz.tokens, tz.pos, mk);
    var token := tz.Token();
    var children: seq<Node<E>> := [];
    while !token.EndTagToken?
      invariant tz.Valid() && old(tz.pos) <= tz.pos && tz.read && token == tz.Current()
      invariant PrependAll(children, ChildrenFrom(tz.tokens, tz.pos, mk)) == goal
      decreases |tz.tokens| + 1 - tz.pos
    {
      ghost var at := tz.pos;
      var child := Walk(tz, token, mk);
      match child {
        case Walked(n, next) =>
          ChildTurn(tz.tokens, at, mk, children, n, next);
          children := children + [n];
        case Crash =>
          return RunCrash;
        case Stuck =>
          assert false;
        case Hang =>
          assert false;
      }
      token := tz.Token();
    }
    assert children + [] == children;
    return Ran(children, tz.pos);
  }

  /** parse: walk every token up to the end of input. */
  method Parse<E>(tz: Tokenizer, mk: string -> E) returns (r: Parsed<E>)
    requires tz.Valid() && tz.pos == -1
    requires !WalkerSpec.Parse(tz.tokens, mk).Hangs?
    modifies tz
    ensures r == WalkerSpec.Parse(tz.tokens, mk)
  {
    var _ := tz.Next();
    ghost var goal := ParseFrom(tz.tokens, 0, mk);
    var nodes: seq<Node<E>> := [];
    while true
      invariant tz.Valid() && 0 <= tz.pos && !tz.read
      invariant PrependAll(nodes, ParseFrom(tz.tokens, tz.pos, mk)) == goal
      decreases |tz.tokens| + 1 - tz.pos
    {
      var token := tz.Token();
      if token.EofToken? {
        break;
      }
      ghost var at := tz.pos;
      var node := Walk(tz, token, mk);
      match node {
        case Walked(n, next) =>
          ParseTurn(tz.tokens, at, mk, nodes, n, next);
          nodes := nodes + [n];
        case Crash =>
          return Crashes;
        case Stuck =>
          assert false;
        case Hang =>
          assert false;
      }
    }
    assert nodes + [] == nodes;
    return Parsed(Root(nodes));
  }

  // ---------------------------------------------------------------------
  // The child loop as written

  /** One turn of the child loop as written, as ChildTurn. */
  lemma RereadChildTurn<E>(tokens: seq<HtmlToken>, q: int, unread: bool, mk: string -> E,
                           children: seq<Node<E>>, n: Node<E>, next: int)
    requires 0 <= q <= |tokens| && !At(tokens, q).EndTagToken?
    requires RereadWalkAt(tokens, q, if unread then At(tokens, q) else Blank(At(tokens, q)), mk) == Walked(n, next)
    ensures PrependAll(children + [n], RereadChildrenFrom(tokens, next, false, mk)) ==
            PrependAll(children, RereadChildrenFrom(tokens, q, unread, mk))
  {
    match RereadChildrenFrom(tokens, next, false, mk)
    case Ran(rest, _) =>
      assert children + [n] + rest == children + ([n] + rest);
    case RunHang =>
    case RunCrash =>
  }

  /** One turn of the top-level loop of parse as written, as ChildTurn. */
  lemma RereadParseTurn<E>(tokens: seq<HtmlToken>, q: int, mk: string -> E, nodes: seq<Node<E>>, n: Node<E>, next: int)
    requires 0 <= q <= |tokens| && !At(tokens, q).EofToken?
    requires RereadWalkAt(tokens, q, At(tokens, q), mk) == Walked(n, next)
    ensures PrependAll(nodes + [n], RereadParseFrom(tokens, next, mk)) ==
            PrependAll(nodes, RereadParseFrom(tokens, q, mk))
  {
    match RereadParseFrom(tokens, next, mk)
    case Ran(rest, _) =>
      assert nodes + [n] + rest == nodes + ([n] + rest);
    case RunHang =>
    case RunCrash =>
  }

  /** walk as written: handed the token its caller read, in full or as its
      blank, it builds the node from that token. */
  method WalkAsWritten<E>(tz: Tokenizer, token: HtmlToken, mk: string -> E) returns (r: Walk<E>)
    requires tz.Valid() && 0 <= tz.pos && tz.read && SameKind(token, tz.Current())
    requires !RereadWalkAt(tz.tokens, tz.pos, token, mk).Hang?
    modifies tz
    ensures tz.Valid() && r == RereadWalkAt(tz.tokens, old(tz.pos), token, mk)
    ensures r.Walked? ==> tz.pos == r.next && !tz.read
    ensures r.Stuck? ==> tz.pos == old(tz.pos) && tz.read
    decreases |tz.tokens| + 1 - tz.pos, 0
  {
    match token
    case TextToken(data) =>
      var _ := tz.Next();
      if Contains(data, "{{") {
        var interpolation := Interpolate(data, mk);
        return Walked(BoundTextNode(WithSource(interpolation, data)), tz.pos);
      }
      return Walked(TextNode(data), tz.pos);
    case CommentToken(data) =>
      var _ := tz.Next();
      return Walked(CommentNode(data), tz.pos);
    case StartTagToken(name, attrs) =>
      var lists := CollectBindings(attrs);
      if lists.None? {
        return Crash;
      }
      var kind := tz.Next();
      var children := WalkChildrenAsWritten(tz, kind, mk);
      match children {
        case Ran(nodes, _) =>
          var _ := tz.Next();
          var element := Element(name, lists.value.attributes, lists.value.inputs, lists.value.outputs,
                                 lists.value.references, nodes);
          return Walked(ElementNode(element), tz.pos);
        case RunCrash =>
          return Crash;
        case RunHang =>
          assert false;
      }
    case _ =>
      return Stuck;
  }

  /** The child loop as written, entered with the kind Next returned: each
      turn reads the current token and walks it, then reads the next token
      again for its kind, so every later turn's first read is a second one. */
  method WalkChildrenAsWritten<E>(tz: Tokenizer, kind: HtmlToken, mk: string -> E) returns (r: Run<E>)
    requires tz.Valid() && 0 <= tz.pos && !tz.read && SameKind(kind, tz.Current())
    requires !RereadChildrenFrom(tz.tokens, tz.pos, true, mk).RunHang?
    modifies tz
    ensures tz.Valid() && r == RereadChildrenFrom(tz.tokens, old(tz.pos), true, mk)
    ensures r.Ran? ==> tz.pos == r.next
    decreases |tz.tokens| + 1 - tz.pos, 1
  {
    ghost var goal := RereadChildrenFrom(tz.tokens, tz.pos, true, mk);
    var tokenType := kind;
    var children: seq<Node<E>> := [];
    while !tokenType.EndTagToken?
      invariant tz.Valid() && old(tz.pos) <= tz.pos && SameKind(tokenType, tz.Current())
      invariant PrependAll(children, RereadChildrenFrom(tz.tokens, tz.pos, !tz.read, mk)) == goal
      decreases |tz.tokens| + 1 - tz.pos
    {
      ghost var at, unread := tz.pos, !tz.read;
      var token := tz.Token();
      var child := WalkAsWritten(tz, token, mk);
      match child {
        case Walked(n, next) =>
          RereadChildTurn(tz.tokens, at, unread, mk, children, n, next);
          children := children + [n];
        case Crash =>
          return RunCrash;
        case Stuck =>
          assert false;
        case Hang =>
          assert false;
      }
      tokenType := tz.Token();
    }
    assert children + [] == children;
    return Ran(children, tz.pos);
  }

  /** parse over walk as written. */
  method ParseAsWritten<E>(tz: Tokenizer, mk: string -> E) returns (r: Parsed<E>)
    requires tz.Valid() && tz.pos == -1
    requires !RereadParse(tz.tokens, mk).Hangs?
    modifies tz
    ensures r == RereadParse(tz.tokens, mk)
  {
    var _ := tz.Next();
    ghost var goal := RereadParseFrom(tz.tokens, 0, mk);
    var nodes: seq<Node<E>> := [];
    while true
      invariant tz.Valid() && 0 <= tz.pos && !tz.read
      invariant PrependAll(nodes, RereadParseFrom(tz.tokens, tz.pos, mk)) == goal
      decreases |tz.tokens| + 1 - tz.pos
    {
      var token := tz.Token();
      if token.EofToken? {
        break;
      }
      ghost var at := tz.pos;
      var node := WalkAsWritten(tz, token, mk);
      match node {
        case Walked(n, next) =>
          RereadParseTurn(tz.tokens, at, mk, nodes, n, next);
          nodes := nodes + [n];
        case Crash =>
          return Crashes;
        case Stuck =>
          assert false;
        case Hang =>
          assert false;
      }
    }
    assert nodes + [] == nodes;
    return Parsed(Root(nodes));
  }
}
