/** Attribute classification in walk: the first one or two characters of an
    attribute's key decide whether it is a reference, an output, an input, a
    two-way binding or a plain attribute. A Go index or slice out of range
    (the program panics) is the AttrPanic outcome. */
module Bindings {
  import opened TemplateAst
  import opened Markup
  import opened TextSplit

  datatype Option<T> = None | Some(value: T)

  /** What one attribute adds to its element. */
  datatype Binding =
    | RefBinding(reference: Reference)
    | EventBinding(event: BoundEvent)
    | InputBinding(input: BoundAttribute)
    | TwoWayBinding(twoWayInput: BoundAttribute, twoWayOutput: BoundEvent)
    | TextBinding(attribute: TextAttribute)

  datatype Classified = Bound(binding: Binding) | AttrPanic

  /** The input value of a binding: a property read of the raw value. */
  function ReadOf(val: string): WithSource<PropertyRead> {
    WithSource(PropertyRead(val), val)
  }

  /** The binding type the first dot segment of an input name selects. */
  function TypeOfPrefix(prefix: string): BindingType {
    if prefix == "class" then Class
    else if prefix == "style" then Style
    else if prefix == "attr" then Attribute
    else Property
  }

  /** The binding of one attribute, or the panic the attribute causes. The
      kind of binding is decided by the key's first one or two characters. */
  function Classify(a: Attr): (c: Classified)
    ensures |a.key| == 0 ==> c == AttrPanic
    ensures c.Bound? && c.binding.RefBinding? <==> |a.key| > 0 && a.key[0] == '#'
    ensures c.Bound? && c.binding.TextBinding? <==> |a.key| > 0 && a.key[0] !in "#(["
    ensures c.Bound? && c.binding.EventBinding? ==> a.key[0] == '(' && '(' in a.val
    ensures c.Bound? && c.binding.InputBinding? ==> |a.key| >= 2 && a.key[0] == '[' && a.key[1] != '('
    ensures c.Bound? && c.binding.TwoWayBinding? <==> |a.key| >= 4 && a.key[..2] == "[("
  {
    var key := a.key;
    if |key| == 0 then AttrPanic
    else if key[0] == '#' then Bound(RefBinding(Reference("", a.val)))
    else if key[0] == '(' then
      if |key| < 2 then AttrPanic
      else
        var parts := Split(a.val, '(');
        if |parts| < 2 || |parts[1]| == 0 then AttrPanic
        else
          var call := MethodCall(parts[0], [PropertyRead(parts[1][..|parts[1]| - 1])]);
          Bound(EventBinding(BoundEvent(key[1..|key| - 1], Property, CallHandler(WithSource(call, a.val)))))
    else if key[0] == '[' then
      if |key| < 2 then AttrPanic
      else if key[1] != '(' then
        var name := key[1..|key| - 1];
        var segments := Split(name, '.');
        var bindingType := TypeOfPrefix(segments[0]);
        if bindingType == Property then Bound(InputBinding(BoundAttribute(name, Property, ReadOf(a.val))))
        else if |segments| < 2 then AttrPanic
        else Bound(InputBinding(BoundAttribute(segments[1], bindingType, ReadOf(a.val))))
      else if |key| < 4 then AttrPanic
      else
        var name := key[2..|key| - 2];
        var write := PropertyWrite(a.val, PropertyRead("$event"));
        Bound(TwoWayBinding(
          BoundAttribute(name, Property, ReadOf(a.val)),
          BoundEvent(name + "Change", Property, WriteHandler(WithSource(write, a.val + "=$event")))))
    else Bound(TextBinding(TextAttribute(a.val, key)))
  }

  /** The four lists of an element that attributes fill. */
  datatype BindingLists = BindingLists(
    attributes: seq<TextAttribute>,
    inputs: seq<BoundAttribute>,
    outputs: seq<BoundEvent>,
    references: seq<Reference>)

  const NoBindings := BindingLists([], [], [], [])

  /** The lists after appending one binding. */
  function Add(lists: BindingLists, b: Binding): BindingLists {
    match b
    case RefBinding(r) => lists.(references := lists.references + [r])
    case EventBinding(e) => lists.(outputs := lists.outputs + [e])
    case InputBinding(i) => lists.(inputs := lists.inputs + [i])
    case TwoWayBinding(i, e) => lists.(inputs := lists.inputs + [i], outputs := lists.outputs + [e])
    case TextBinding(t) => lists.(attributes := lists.attributes + [t])
  }

  /** The attribute loop of walk: the lists the attributes fill, in order, or
      None when one of them panics. */
  function ClassifyAll(attrs: seq<Attr>): Option<BindingLists> {
    if attrs == [] then Some(NoBindings)
    else
      match ClassifyAll(attrs[..|attrs| - 1])
      case None => None
      case Some(lists) =>
        match Classify(attrs[|attrs| - 1])
        case AttrPanic => None
        case Bound(b) => Some(Add(lists, b))
  }

  /** Walk's attribute loop, appending to the element's lists. */
  method CollectBindings(attrs: seq<Attr>) returns (r: Option<BindingLists>)
    ensures r == ClassifyAll(attrs)
  {
    var attributes: seq<TextAttribute> := [];
    var inputs: seq<BoundAttribute> := [];
    var outputs: seq<BoundEvent> := [];
    var references: seq<Reference> := [];
    for k := 0 to |attrs|
      invariant ClassifyAll(attrs[..k]) == Some(BindingLists(attributes, inputs, outputs, references))
    {
      assert attrs[..k + 1][..k] == attrs[..k];
      match Classify(attrs[k])
      case AttrPanic =>
        PanicPropagates(attrs, k);
        return None;
      case Bound(b) =>
        match b
        case RefBinding(ref) => references := references + [ref];
        case EventBinding(event) => outputs := outputs + [event];
        case InputBinding(input) => inputs := inputs + [input];
        case TwoWayBinding(input, event) =>
          inputs := inputs + [input];
          outputs := outputs + [event];
        case TextBinding(attribute) => attributes := attributes + [attribute];
    }
    assert attrs[..|attrs|] == attrs;
    r := Some(BindingLists(attributes, inputs, outputs, references));
  }

  /** One panicking attribute makes the whole loop panic. */
  lemma {:induction false} PanicPropagates(attrs: seq<Attr>, k: int)
    requires 0 <= k < |attrs| && Classify(attrs[k]) == AttrPanic
    ensures ClassifyAll(attrs) == None
    decreases |attrs|
  {
    if k < |attrs| - 1 {
      var front := attrs[..|attrs| - 1];
      assert front[k] == attrs[k];
      PanicPropagates(front, k);
    }
  }

  // ---------------------------------------------------------------------
  // Properties

  /** The attribute loop panics exactly when one attribute does. */
  lemma {:induction false} ClassifyAllSucceeds(attrs: seq<Attr>)
    ensures ClassifyAll(attrs).Some? <==> forall k :: 0 <= k < |attrs| ==> Classify(attrs[k]).Bound?
    decreases |attrs|
  {
    if attrs != [] {
      var front := attrs[..|attrs| - 1];
      ClassifyAllSucceeds(front);
      assert forall k :: 0 <= k < |front| ==> front[k] == attrs[k];
    }
  }

  /** Lists of a front part followed by those of a back part. */
  function Concat(x: Option<BindingLists>, y: Option<BindingLists>): Option<BindingLists> {
    if x.None? || y.None? then None
    else Some(BindingLists(
      x.value.attributes + y.value.attributes,
      x.value.inputs + y.value.inputs,
      x.value.outputs + y.value.outputs,
      x.value.references + y.value.references))
  }

  /** Every list keeps attribute order: classifying a + b appends what b
      adds to what a adds, list by list. */
  lemma {:induction false} ClassifyAllAppend(a: seq<Attr>, b: seq<Attr>)
    ensures ClassifyAll(a + b) == Concat(ClassifyAll(a), ClassifyAll(b))
    decreases |b|
  {
    if b == [] {
      assert a + b == a;
      var x := ClassifyAll(a);
      if x.Some? {
        assert x.value.attributes + [] == x.value.attributes;
        assert x.value.inputs + [] == x.value.inputs;
        assert x.value.outputs + [] == x.value.outputs;
        assert x.value.references + [] == x.value.references;
      }
    } else {
      var front := b[..|b| - 1];
      ClassifyAllAppend(a, front);
      assert (a + b)[..|a + b| - 1] == a + front;
      assert (a + b)[|a + b| - 1] == b[|b| - 1];
      var x, y, c := ClassifyAll(a), ClassifyAll(front), Classify(b[|b| - 1]);
      if x.Some? && y.Some? && c.Bound? {
        AddAfterConcat(x.value, y.value, c.binding);
      }
    }
  }

  lemma AddAfterConcat(x: BindingLists, y: BindingLists, b: Binding)
    ensures Add(Concat(Some(x), Some(y)).value, b) == Concat(Some(x), Some(Add(y, b))).value
  {
    match b
    case RefBinding(r) => assert x.references + y.references + [r] == x.references + (y.references + [r]);
    case EventBinding(e) => assert x.outputs + y.outputs + [e] == x.outputs + (y.outputs + [e]);
    case InputBinding(i) => assert x.inputs + y.inputs + [i] == x.inputs + (y.inputs + [i]);
    case TwoWayBinding(i, e) =>
      assert x.inputs + y.inputs + [i] == x.inputs + (y.inputs + [i]);
      assert x.outputs + y.outputs + [e] == x.outputs + (y.outputs + [e]);
    case TextBinding(t) => assert x.attributes + y.attributes + [t] == x.attributes + (y.attributes + [t]);
  }

  /** `(name)="handler(arg)"`: an output named name calling handler with a
      property read of arg, the raw value as its source. */
  lemma EventKey(name: string, handler: string, arg: string)
    requires '(' !in handler && '(' !in arg
    ensures var val := handler + "(" + arg + ")";
            Classify(Attr("(" + name + ")", val)) ==
            Bound(EventBinding(BoundEvent(name, Property,
              CallHandler(WithSource(MethodCall(handler, [PropertyRead(arg)]), val)))))
  {
    var val := handler + "(" + arg + ")";
    var key := "(" + name + ")";
    SplitAtFirst(handler, '(', arg + ")");
    assert val == handler + ['('] + (arg + ")");
    SplitWhole(arg + ")", '(');
    assert (arg + ")")[..|arg + ")"| - 1] == arg;
    assert key[1..|key| - 1] == name;
  }

  /** An output whose value has no `(` panics. */
  lemma EventWithoutCallPanics(key: string, val: string)
    requires |key| >= 2 && key[0] == '(' && '(' !in val
    ensures Classify(Attr(key, val)) == AttrPanic
  {
    SplitWhole(val, '(');
  }

  /** `#r="v"`: a reference with an empty name whose value is v, whatever
      follows the `#`. */
  lemma RefKey(key: string, val: string)
    requires |key| > 0 && key[0] == '#'
    ensures Classify(Attr(key, val)) == Bound(RefBinding(Reference("", val)))
  {
  }

  /** `[name]="v"` whose first dot segment is not a binding-type prefix (and
      which does not start a two-way binding): a property input named by the
      whole of name, dots included, reading v. */
  lemma PropertyKey(name: string, val: string)
    requires name == [] || name[0] != '('
    requires TypeOfPrefix(Split(name, '.')[0]) == Property
    ensures Classify(Attr("[" + name + "]", val)) == Bound(InputBinding(BoundAttribute(name, Property, ReadOf(val))))
  {
    var key := "[" + name + "]";
    assert key[1..|key| - 1] == name;
  }

  /** The three prefixes that select a binding type are plain words. */
  lemma PrefixIsWord(prefix: string)
    requires TypeOfPrefix(prefix) != Property
    ensures |prefix| > 0 && prefix[0] != '(' && '.' !in prefix
  {
  }

  /** An input key whose first dot segment is a binding-type prefix and
      which has a second segment: an input of that type named by the second. */
  lemma PrefixedInput(key: string, val: string)
    requires |key| >= 2 && key[0] == '[' && key[1] != '('
    requires var segments := Split(key[1..|key| - 1], '.');
             TypeOfPrefix(segments[0]) != Property && |segments| >= 2
    ensures var segments := Split(key[1..|key| - 1], '.');
            Classify(Attr(key, val)) ==
            Bound(InputBinding(BoundAttribute(segments[1], TypeOfPrefix(segments[0]), ReadOf(val))))
  {
  }

  /** `[class.x]`, `[style.x]`, `[attr.x]`: an input of that binding type
      named by the second dot segment of the key, so `[class.a.b]` names `a`
      and the rest is dropped. */
  lemma PrefixedKey(prefix: string, x: string, val: string)
    requires TypeOfPrefix(prefix) != Property
    ensures Classify(Attr("[" + prefix + "." + x + "]", val)) ==
            Bound(InputBinding(BoundAttribute(Split(x, '.')[0], TypeOfPrefix(prefix), ReadOf(val))))
  {
    var key := "[" + prefix + "." + x + "]";
    var name := prefix + "." + x;
    assert key[0] == '[' && key[1] != '(' && key[1..|key| - 1] == name by {
      PrefixIsWord(prefix);
      assert key[1] == prefix[0];
    }
    assert Split(name, '.') == [prefix] + Split(x, '.') by {
      PrefixIsWord(prefix);
      assert name == prefix + ['.'] + x;
      SplitAtFirst(prefix, '.', x);
    }
    PrefixedInput(key, val);
  }

  /** `[class]`, `[style]`, `[attr]` without a dot read a second segment that
      is not there, and the program panics. */
  lemma BarePrefixPanics(prefix: string, val: string)
    requires TypeOfPrefix(prefix) != Property
    ensures Classify(Attr("[" + prefix + "]", val)) == AttrPanic
  {
    PrefixIsWord(prefix);
    var key := "[" + prefix + "]";
    assert key[0] == '[' && key[1] == prefix[0];
    assert key[1..|key| - 1] == prefix;
    SplitWhole(prefix, '.');
  }

  /** `[(x)]="v"`: a property input x reading v and an output xChange writing
      `$event` to v. */
  lemma TwoWayKey(x: string, val: string)
    ensures Classify(Attr("[(" + x + ")]", val)) ==
            Bound(TwoWayBinding(
              BoundAttribute(x, Property, ReadOf(val)),
              BoundEvent(x + "Change", Property,
                WriteHandler(WithSource(PropertyWrite(val, PropertyRead("$event")), val + "=$event")))))
  {
    var key := "[(" + x + ")]";
    assert key[2..|key| - 2] == x;
  }

  /** Exactly the attributes on which the program panics: an empty key; an
      output key of one character, or whose value has no `(` or nothing
      between its first `(` and the next; an input key of one character, or a
      two-way key of fewer than four; or an input whose first dot segment is
      a binding-type prefix with no second segment. */
  lemma ClassifyPanics(a: Attr)
    ensures Classify(a) == AttrPanic <==>
              |a.key| == 0 ||
              (a.key[0] == '(' && (|a.key| < 2 || '(' !in a.val || Split(a.val, '(')[1] == [])) ||
              (a.key[0] == '[' &&
                (|a.key| < 2 || (a.key[1] == '(' && |a.key| < 4) ||
                 (a.key[1] != '(' && '.' !in a.key[1..|a.key| - 1] &&
                  TypeOfPrefix(a.key[1..|a.key| - 1]) != Property)))
  {
    if |a.key| >= 2 && a.key[0] == '[' && a.key[1] != '(' {
      var name := a.key[1..|a.key| - 1];
      if '.' !in name {
        SplitWhole(name, '.');
      }
    }
  }

  /** A plain attribute keeps the value as its name and the key as its value. */
  lemma PlainKeySwapped(key: string, val: string)
    requires |key| > 0 && key[0] !in "#(["
    ensures Classify(Attr(key, val)) == Bound(TextBinding(TextAttribute(val, key)))
  {
  }
}
