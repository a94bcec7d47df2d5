/** Properties of walk and parse: markup whose tags balance parses to exactly
    the tree it was written from, and the choice of expression maker only
    changes the expressions. */
module WalkerProperties {
  import opened TemplateAst
  import opened Markup
  import opened TextSplit
  import opened BraceSplit
  import opened Bindings
  import opened WalkerSpec

  // ---------------------------------------------------------------------
  // Balanced markup

  /** Markup as a tree: text, comments, and elements whose start tag is
      closed by an end tag (of any name, as walk does not compare them). */
  datatype Tree =
    | TextLeaf(data: string)
    | CommentLeaf(data: string)
    | Branch(name: string, attrs: seq<Attr>, children: seq<Tree>, endName: string)

  /** The tokens a tree is written as. */
  function TreeTokens(t: Tree): seq<HtmlToken>
    decreases t, 1
  {
    match t
    case TextLeaf(d) => [TextToken(d)]
    case CommentLeaf(d) => [CommentToken(d)]
    case Branch(name, attrs, children, endName) =>
      [StartTagToken(name, attrs)] + ForestTokens(children) + [EndTagToken(endName)]
  }

  function ForestTokens(ts: seq<Tree>): seq<HtmlToken>
    decreases ts, 0
  {
    if ts == [] then [] else TreeTokens(ts[0]) + ForestTokens(ts[1..])
  }

  /** No attribute of the tree panics. */
  predicate WellFormed(t: Tree)
    decreases t, 1
  {
    match t
    case Branch(_, attrs, children, _) => ClassifyAll(attrs).Some? && AllWellFormed(children)
    case _ => true
  }

  predicate AllWellFormed(ts: seq<Tree>)
    decreases ts, 0
  {
    ts == [] || (WellFormed(ts[0]) && AllWellFormed(ts[1..]))
  }

  /** The node a tree stands for. */
  function NodeOf<E>(t: Tree, mk: string -> E): Node<E>
    requires WellFormed(t)
    decreases t, 1
  {
    match t
    case TextLeaf(d) => TextNodeOf(d, mk)
    case CommentLeaf(d) => CommentNode(d)
    case Branch(name, attrs, children, _) =>
      var lists := ClassifyAll(attrs).value;
      ElementNode(Element(name, lists.attributes, lists.inputs, lists.outputs, lists.references, NodesOf(children, mk)))
  }

  function NodesOf<E>(ts: seq<Tree>, mk: string -> E): seq<Node<E>>
    requires AllWellFormed(ts)
    decreases ts, 0
  {
    if ts == [] then [] else [NodeOf(ts[0], mk)] + NodesOf(ts[1..], mk)
  }

  /** tokens holds the run `run` from position p on. */
  predicate HoldsAt(tokens: seq<HtmlToken>, p: int, run: seq<HtmlToken>) {
    0 <= p && p + |run| <= |tokens| && tokens[p..p + |run|] == run
  }

  lemma HoldsSplit(tokens: seq<HtmlToken>, p: int, a: seq<HtmlToken>, b: seq<HtmlToken>)
    requires HoldsAt(tokens, p, a + b)
    ensures HoldsAt(tokens, p, a) && HoldsAt(tokens, p + |a|, b)
  {
    assert tokens[p..p + |a|] == (a + b)[..|a|];
    assert tokens[p + |a|..p + |a| + |b|] == (a + b)[|a|..];
  }

  /** A tree is written starting with a text, a comment or a start tag. */
  lemma TreeStarts(t: Tree)
    ensures |TreeTokens(t)| > 0
    ensures var first := TreeTokens(t)[0]; first.TextToken? || first.CommentToken? || first.StartTagToken?
  {
  }

  /** A tree written at p is walked into its node, and walk stops right
      after it. */
  lemma {:induction false} WalkTree<E>(tokens: seq<HtmlToken>, p: int, t: Tree, mk: string -> E)
    requires WellFormed(t) && HoldsAt(tokens, p, TreeTokens(t))
    ensures WalkAt(tokens, p, mk) == Walked(NodeOf(t, mk), p + |TreeTokens(t)|)
    decreases t, 1
  {
    assert tokens[p] == TreeTokens(t)[0];
    match t
    case TextLeaf(_) =>
    case CommentLeaf(_) =>
    case Branch(name, attrs, children, endName) =>
      var inner := ForestTokens(children);
      HoldsSplit(tokens, p, [StartTagToken(name, attrs)] + inner, [EndTagToken(endName)]);
      HoldsSplit(tokens, p, [StartTagToken(name, attrs)], inner);
      assert tokens[p + 1 + |inner|] == EndTagToken(endName);
      ChildrenTrees(tokens, p + 1, children, mk);
  }

  /** The child loop walks a tree written at q into its node and goes on
      right after it. */
  lemma ChildrenStep<E>(tokens: seq<HtmlToken>, q: int, t: Tree, mk: string -> E, rest: Run<E>)
    requires WellFormed(t) && HoldsAt(tokens, q, TreeTokens(t))
    requires ChildrenFrom(tokens, q + |TreeTokens(t)|, mk) == rest
    ensures ChildrenFrom(tokens, q, mk) == PrependRun(NodeOf(t, mk), rest)
    decreases t, 2
  {
    WalkTree(tokens, q, t, mk);
    TreeStarts(t);
    assert At(tokens, q) == TreeTokens(t)[0];
  }

  /** The loop of parse walks a tree written at p into its node and goes on
      right after it. */
  lemma ParseStep<E>(tokens: seq<HtmlToken>, p: int, t: Tree, mk: string -> E, rest: Run<E>)
    requires WellFormed(t) && HoldsAt(tokens, p, TreeTokens(t))
    requires ParseFrom(tokens, p + |TreeTokens(t)|, mk) == rest
    ensures ParseFrom(tokens, p, mk) == PrependRun(NodeOf(t, mk), rest)
  {
    WalkTree(tokens, p, t, mk);
    TreeStarts(t);
    assert At(tokens, p) == TreeTokens(t)[0];
  }

  /** The first tree of a forest is written first, at p, and the rest after
      it. */
  lemma FirstTree(tokens: seq<HtmlToken>, p: int, ts: seq<Tree>)
    requires HoldsAt(tokens, p, ForestTokens(ts)) && ts != []
    ensures var first := TreeTokens(ts[0]);
            |ForestTokens(ts)| == |first| + |ForestTokens(ts[1..])| &&
            HoldsAt(tokens, p, first) && HoldsAt(tokens, p + |first|, ForestTokens(ts[1..]))
  {
    assert ForestTokens(ts) == TreeTokens(ts[0]) + ForestTokens(ts[1..]);
    HoldsSplit(tokens, p, TreeTokens(ts[0]), ForestTokens(ts[1..]));
  }

  /** Trees written at q and followed by an end tag are walked into their
      nodes by the child loop, which stops at that end tag. */
  lemma {:induction false} ChildrenTrees<E>(tokens: seq<HtmlToken>, q: int, ts: seq<Tree>, mk: string -> E)
    requires AllWellFormed(ts) && HoldsAt(tokens, q, ForestTokens(ts))
    requires q + |ForestTokens(ts)| < |tokens| && tokens[q + |ForestTokens(ts)|].EndTagToken?
    ensures ChildrenFrom(tokens, q, mk) == Ran(NodesOf(ts, mk), q + |ForestTokens(ts)|)
    decreases ts, 0
  {
    if ts != [] {
      FirstTree(tokens, q, ts);
      var first := TreeTokens(ts[0]);
      ChildrenTrees(tokens, q + |first|, ts[1..], mk);
      ChildrenStep(tokens, q, ts[0], mk, Ran(NodesOf(ts[1..], mk), q + |first| + |ForestTokens(ts[1..])|));
      assert NodesOf(ts, mk) == [NodeOf(ts[0], mk)] + NodesOf(ts[1..], mk);
    } else {
      assert At(tokens, q) == tokens[q];
    }
  }

  /** Trees written at p and followed by the end of input are walked into
      their nodes by the loop of parse. */
  lemma {:induction false} ParseTrees<E>(tokens: seq<HtmlToken>, p: int, ts: seq<Tree>, mk: string -> E)
    requires AllWellFormed(ts) && HoldsAt(tokens, p, ForestTokens(ts))
    requires At(tokens, p + |ForestTokens(ts)|).EofToken?
    ensures ParseFrom(tokens, p, mk) == Ran(NodesOf(ts, mk), p + |ForestTokens(ts)|)
    decreases ts
  {
    if ts != [] {
      FirstTree(tokens, p, ts);
      var first := TreeTokens(ts[0]);
      ParseTrees(tokens, p + |first|, ts[1..], mk);
      ParseStep(tokens, p, ts[0], mk, Ran(NodesOf(ts[1..], mk), p + |first| + |ForestTokens(ts[1..])|));
      assert NodesOf(ts, mk) == [NodeOf(ts[0], mk)] + NodesOf(ts[1..], mk);
    }
  }

  /** Markup whose tags balance and whose attributes do not panic parses,
      without hanging, to exactly the nodes of the trees it was written from. */
  lemma ParseBalanced<E>(ts: seq<Tree>, mk: string -> E)
    requires AllWellFormed(ts)
    ensures Parse(ForestTokens(ts), mk) == Parsed(Root(NodesOf(ts, mk)))
  {
    var tokens := ForestTokens(ts);
    assert HoldsAt(tokens, 0, tokens) by {
      assert tokens[0..|tokens|] == tokens;
    }
    assert At(tokens, |tokens|) == EofToken;
    ParseTrees(tokens, 0, ts, mk);
    assert ParseFrom(tokens, 0, mk) == Ran(NodesOf(ts, mk), |tokens|);
  }

  // ---------------------------------------------------------------------
  // The child loop as written

  /** A node built from a blank token: an empty text, an empty comment, or
      an element with an empty name and no attributes or bindings. */
  predicate BlankNode<E>(n: Node<E>) {
    n == TextNode([]) || n == CommentNode([]) ||
    (n.ElementNode? && n.element.name == [] && n.element.attributes == [] && n.element.inputs == [] &&
     n.element.outputs == [] && n.element.references == [])
  }

  /** walk handed the blank of a token builds a blank node. */
  lemma BlankWalk<E>(tokens: seq<HtmlToken>, q: int, mk: string -> E)
    requires 0 <= q <= |tokens|
    ensures var w := RereadWalkAt(tokens, q, Blank(At(tokens, q)), mk);
            w.Walked? ==> BlankNode(w.node)
  {
    var tok := Blank(At(tokens, q));
    if tok.TextToken? {
      assert !Contains(tok.data, "{{");
    } else if tok.StartTagToken? {
      assert ClassifyAll(tok.attrs) == Some(NoBindings);
    }
  }

  /** In the child loop as written, every child that walk gets from a second
      read is blank: all children after the first, and the first as well when
      the loop had read its token already. */
  lemma {:induction false} RereadBlanksLaterChildren<E>(tokens: seq<HtmlToken>, q: int, unread: bool, mk: string -> E)
    requires 0 <= q <= |tokens|
    ensures var r := RereadChildrenFrom(tokens, q, unread, mk);
            r.Ran? ==> forall k :: (if unread then 1 else 0) <= k < |r.nodes| ==> BlankNode(r.nodes[k])
    decreases |tokens| + 1 - q
  {
    if !At(tokens, q).EndTagToken? {
      var w := RereadWalkAt(tokens, q, if unread then At(tokens, q) else Blank(At(tokens, q)), mk);
      if w.Walked? {
        RereadBlanksLaterChildren(tokens, w.next, false, mk);
        if !unread {
          BlankWalk(tokens, q, mk);
        }
        var rest := RereadChildrenFrom(tokens, w.next, false, mk);
        if rest.Ran? {
          var nodes := [w.node] + rest.nodes;
          assert RereadChildrenFrom(tokens, q, unread, mk) == Ran(nodes, rest.next);
          assert forall k :: 1 <= k < |nodes| ==> nodes[k] == rest.nodes[k - 1];
        }
      }
    }
  }

  // ---------------------------------------------------------------------
  // Expression makers

  function MapNode<E, F>(n: Node<E>, g: E -> F): Node<F>
    decreases n, 1
  {
    match n
    case TextNode(v) => TextNode(v)
    case CommentNode(v) => CommentNode(v)
    case BoundTextNode(ws) =>
      BoundTextNode(WithSource(Interpolation(ws.ast.strings, MapSeq(ws.ast.expressions, g)), ws.source))
    case ElementNode(e) =>
      ElementNode(Element(e.name, e.attributes, e.inputs, e.outputs, e.references, MapNodes(e.children, g)))
  }

  function MapNodes<E, F>(ns: seq<Node<E>>, g: E -> F): seq<Node<F>>
    decreases ns, 0
  {
    if ns == [] then [] else [MapNode(ns[0], g)] + MapNodes(ns[1..], g)
  }

  function MapWalk<E, F>(w: Walk<E>, g: E -> F): Walk<F> {
    match w
    case Walked(n, next) => Walked(MapNode(n, g), next)
    case Stuck => Stuck
    case Hang => Hang
    case Crash => Crash
  }

  function MapRun<E, F>(r: Run<E>, g: E -> F): Run<F> {
    match r
    case Ran(ns, next) => Ran(MapNodes(ns, g), next)
    case RunHang => RunHang
    case RunCrash => RunCrash
  }

  function MapParsed<E, F>(r: Parsed<E>, g: E -> F): Parsed<F> {
    match r
    case Parsed(root) => Parsed(Root(MapNodes(root.nodes, g)))
    case Hangs => Hangs
    case Crashes => Crashes
  }

  /** A text node made with h is the one made with mk, mapped by g. */
  lemma TextNodeMaps<E, F>(data: string, mk: string -> E, g: E -> F, h: string -> F)
    requires forall s :: h(s) == g(mk(s))
    ensures TextNodeOf(data, h) == MapNode(TextNodeOf(data, mk), g)
  {
    var texts := SplitText(data).expressions;
    assert MapSeq(texts, h) == MapSeq(MapSeq(texts, mk), g);
  }

  lemma {:induction false} WalkAtMaps<E, F>(tokens: seq<HtmlToken>, p: int, mk: string -> E, g: E -> F, h: string -> F)
    requires forall s :: h(s) == g(mk(s))
    requires 0 <= p <= |tokens|
    ensures WalkAt(tokens, p, h) == MapWalk(WalkAt(tokens, p, mk), g)
    decreases |tokens| + 1 - p, 0
  {
    match At(tokens, p)
    case TextToken(data) =>
      TextNodeMaps(data, mk, g, h);
    case StartTagToken(_, attrs) =>
      if ClassifyAll(attrs).Some? {
        ChildrenFromMaps(tokens, p + 1, mk, g, h);
      }
    case _ =>
  }

  lemma {:induction false} ChildrenFromMaps<E, F>(tokens: seq<HtmlToken>, q: int, mk: string -> E, g: E -> F, h: string -> F)
    requires forall s :: h(s) == g(mk(s))
    requires 0 <= q <= |tokens|
    ensures ChildrenFrom(tokens, q, h) == MapRun(ChildrenFrom(tokens, q, mk), g)
    decreases |tokens| + 1 - q, 1
  {
    if !At(tokens, q).EndTagToken? {
      WalkAtMaps(tokens, q, mk, g, h);
      var w := WalkAt(tokens, q, mk);
      if w.Walked? {
        ChildrenFromMaps(tokens, w.next, mk, g, h);
      }
    }
  }

  lemma {:induction false} ParseFromMaps<E, F>(tokens: seq<HtmlToken>, p: int, mk: string -> E, g: E -> F, h: string -> F)
    requires forall s :: h(s) == g(mk(s))
    requires 0 <= p <= |tokens|
    ensures ParseFrom(tokens, p, h) == MapRun(ParseFrom(tokens, p, mk), g)
    decreases |tokens| + 1 - p
  {
    if !At(tokens, p).EofToken? {
      WalkAtMaps(tokens, p, mk, g, h);
      var w := WalkAt(tokens, p, mk);
      if w.Walked? {
        ParseFromMaps(tokens, w.next, mk, g, h);
      }
    }
  }

  /** Parsing with an expression maker h that is mk followed by g gives the
      parse with mk, every expression mapped by g: the same nodes, the same
      hangs and the same panics. */
  lemma ParseMaps<E, F>(tokens: seq<HtmlToken>, mk: string -> E, g: E -> F, h: string -> F)
    requires forall s :: h(s) == g(mk(s))
    ensures Parse(tokens, h) == MapParsed(Parse(tokens, mk), g)
  {
    ParseFromMaps(tokens, 0, mk, g, h);
  }
}
