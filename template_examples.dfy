/** The template walker on particular inputs, including the behaviours
    where it departs from what an Angular template parser would do. */
module TemplateExamples {
  import opened TemplateAst
  import opened Markup
  import opened TextSplit
  import opened BraceSplit
  import opened Bindings
  import opened WalkerSpec
  import opened WalkerProperties
  import MainTemplate

  /** `Hello {{name}}!` gives the literal `Hello ` and the expression `name`;
      the `!` after the last `}}` is dropped. */
  lemma HelloName()
    ensures SplitText("Hello {{name}}!") == Segments(["Hello "], ["name"])
  {
    var parts := [Part("Hello ", "name")];
    assert Render(parts[1..], "!") == "!";
    assert Render(parts, "!") == "Hello {{name}}!";
    assert PlainParts(parts, "!");
    RenderSplits(parts, "!");
    assert Literals(parts) == ["Hello "] && Expressions(parts) == ["name"];
  }

  /** The character after a single brace is skipped too: `a{b}c` keeps the
      literal `a` and an empty expression, and loses `b` and `c`. */
  lemma SingleBraces()
    ensures SplitText("a{b}c") == Segments(["a"], [""])
  {
    assert SplitFrom("", "") == Segments([], []);
    assert Drop("}c", 2) == "";
    assert SplitFrom("}c", "") == Segments([], [""]);
    assert Drop("{b}c", 2) == "}c";
    assert SplitFrom("{b}c", "a") == Segments(["a"], [""]);
    assert "a{b}c"[1..] == "{b}c" && "" + ['a'] == "a";
  }

  /** The node walk builds for `Hello {{name}}!` under main.go's maker. */
  lemma HelloNameNode()
    ensures TextNodeOf("Hello {{name}}!", MainTemplate.ReadProperty) ==
            BoundTextNode(WithSource(Interpolation(["Hello "], [PropertyRead("name")]), "Hello {{name}}!"))
  {
    HelloHasBraces();
    HelloName();
    assert MapSeq(["name"], MainTemplate.ReadProperty) == [PropertyRead("name")];
  }

  /** `Hello {{name}}!` holds an interpolation opener. */
  lemma HelloHasBraces()
    ensures Contains("Hello {{name}}!", "{{")
  {
    var parts := [Part("Hello ", "name")];
    assert Render(parts, "!") == "Hello {{name}}!";
    RenderContainsBraces(parts, "!");
  }

  /** A text token with an interpolation parses to a bound text. */
  lemma InterpolatedText()
    ensures var text := "Hello {{name}}!";
            WalkerSpec.Parse([TextToken(text)], MainTemplate.ReadProperty) ==
            Parsed(Root([BoundTextNode(WithSource(Interpolation(["Hello "], [PropertyRead("name")]), text))]))
  {
    var text := "Hello {{name}}!";
    var tokens := [TextToken(text)];
    HelloNameNode();
    assert ParseFrom(tokens, 1, MainTemplate.ReadProperty) == Ran([], 1);
    assert WalkAt(tokens, 0, MainTemplate.ReadProperty) == Walked(TextNodeOf(text, MainTemplate.ReadProperty), 1);
  }

  /** An element that is never closed makes parse spin on the end of input. */
  lemma UnclosedElementHangs<E>(mk: string -> E)
    ensures WalkerSpec.Parse([StartTagToken("div", [])], mk) == Hangs
  {
    var tokens := [StartTagToken("div", [])];
    assert ChildrenFrom(tokens, 1, mk) == RunHang;
  }

  /** An end tag with no element open makes parse spin on it. */
  lemma StrayEndTagHangs<E>(mk: string -> E)
    ensures WalkerSpec.Parse([EndTagToken("div")], mk) == Hangs
  {
  }

  /** Any end tag closes the innermost open element: `<a><b></a></b>` nests b
      in a. */
  lemma EndTagNamesIgnored<E>(mk: string -> E)
    ensures var tokens := [StartTagToken("a", []), StartTagToken("b", []), EndTagToken("a"), EndTagToken("b")];
            WalkerSpec.Parse(tokens, mk) ==
            Parsed(Root([ElementNode(Element("a", [], [], [], [], [ElementNode(Element("b", [], [], [], [], []))]))]))
  {
    var b := Branch("b", [], [], "a");
    var a := Branch("a", [], [b], "b");
    assert ForestTokens([]) == [];
    assert TreeTokens(b) == [StartTagToken("b", []), EndTagToken("a")];
    assert ForestTokens([b]) == TreeTokens(b);
    assert TreeTokens(a) == [StartTagToken("a", []), StartTagToken("b", []), EndTagToken("a"), EndTagToken("b")];
    assert ForestTokens([a]) == TreeTokens(a);
    assert WellFormed(b) && WellFormed(a);
    assert NodesOf([b], mk) == [ElementNode(Element("b", [], [], [], [], []))];
    ParseBalanced([a], mk);
  }

  /** `[class]="x"` panics: there is no segment after a dot. */
  lemma BareClassPanics()
    ensures ClassifyAll([Attr("[class]", "x")]) == None
  {
    BarePrefixPanics("class", "x");
    assert "[" + "class" + "]" == "[class]";
    PanicPropagates([Attr("[class]", "x")], 0);
  }

  /** An element with such an attribute makes parse panic. */
  lemma BareClassCrashes<E>(mk: string -> E)
    ensures WalkerSpec.Parse([StartTagToken("div", [Attr("[class]", "x")]), EndTagToken("div")], mk) == Crashes
  {
    BareClassPanics();
    var tokens := [StartTagToken("div", [Attr("[class]", "x")]), EndTagToken("div")];
    assert WalkAt(tokens, 0, mk) == Crash;
    assert ParseFrom(tokens, 0, mk) == RunCrash;
  }

  /** A reference keeps only the attribute's value; a plain attribute swaps
      key and value. */
  lemma ReferenceAndPlainAttribute()
    ensures ClassifyAll([Attr("#box", "ngModel"), Attr("id", "main")]) ==
            Some(BindingLists([TextAttribute("main", "id")], [], [], [Reference("", "ngModel")]))
  {
    var one := [Attr("#box", "ngModel")];
    var attrs := one + [Attr("id", "main")];
    assert one[..|one| - 1] == [];
    assert ClassifyAll([]) == Some(NoBindings);
    assert Classify(one[0]) == Bound(RefBinding(Reference("", "ngModel")));
    assert Add(NoBindings, RefBinding(Reference("", "ngModel"))) == BindingLists([], [], [], [Reference("", "ngModel")]);
    assert ClassifyAll(one) == Some(Add(NoBindings, RefBinding(Reference("", "ngModel"))));
    PlainKeySwapped("id", "main");
    assert attrs[..|attrs| - 1] == one && attrs[|attrs| - 1] == Attr("id", "main");
    assert attrs == [Attr("#box", "ngModel"), Attr("id", "main")];
    assert ClassifyAll(attrs) == Some(Add(BindingLists([], [], [], [Reference("", "ngModel")]),
                                          TextBinding(TextAttribute("main", "id"))));
    assert Add(BindingLists([], [], [], [Reference("", "ngModel")]), TextBinding(TextAttribute("main", "id")))
        == BindingLists([TextAttribute("main", "id")], [], [], [Reference("", "ngModel")]);
  }

  /** `<div>a<!--c--></div>`: the walk that reads each token once keeps the
      comment's text; the child loop as written hands walk the comment's
      blank, and the comment comes out empty. */
  lemma RereadLosesComment<E>(mk: string -> E)
    ensures var tokens := [StartTagToken("div", []), TextToken("a"), CommentToken("c"), EndTagToken("div")];
            WalkerSpec.Parse(tokens, mk) ==
              Parsed(Root([ElementNode(Element("div", [], [], [], [], [TextNode("a"), CommentNode("c")]))])) &&
            RereadParse(tokens, mk) ==
              Parsed(Root([ElementNode(Element("div", [], [], [], [], [TextNode("a"), CommentNode("")]))]))
  {
    var tokens := [StartTagToken("div", []), TextToken("a"), CommentToken("c"), EndTagToken("div")];
    assert ClassifyAll([]) == Some(NoBindings);
    assert TextNodeOf("a", mk) == TextNode("a") by {
      assert !Contains("a", "{{");
    }
    assert ChildrenFrom(tokens, 3, mk) == Ran([], 3);
    assert ChildrenFrom(tokens, 2, mk) == Ran([CommentNode("c")], 3);
    assert ChildrenFrom(tokens, 1, mk) == Ran([TextNode("a"), CommentNode("c")], 3);
    assert ParseFrom(tokens, 4, mk) == Ran([], 4);
    assert RereadChildrenFrom(tokens, 3, false, mk) == Ran([], 3);
    assert RereadChildrenFrom(tokens, 2, false, mk) == Ran([CommentNode("")], 3);
    assert RereadChildrenFrom(tokens, 1, true, mk) == Ran([TextNode("a"), CommentNode("")], 3);
    assert RereadParseFrom(tokens, 4, mk) == Ran([], 4);
  }
}
