/** The interpolation splitter of walk: text holding `{{` is cut at braces
    into literal segments and expression texts. */
module BraceSplit {
  import opened TemplateAst
  import opened TextSplit

  predicate IsBrace(c: char) {
    c == '{' || c == '}'
  }

  predicate BraceFree(s: string) {
    forall k :: 0 <= k < |s| ==> !IsBrace(s[k])
  }

  /** The text without its first n characters (empty once n passes its end). */
  function Drop(s: string, n: nat): (r: string)
    ensures |r| == if n >= |s| then 0 else |s| - n
  {
    if n >= |s| then [] else s[n..]
  }

  /** Literal segments and expression texts, in text order. */
  datatype Segments = Segments(literals: seq<string>, expressions: seq<string>)

  /** The splitting loop over the rest of the text, `buff` holding the
      characters read since the last brace: a `{` closes a literal segment,
      a `}` closes an expression text, and the character after either brace
      is skipped. Whatever is still in `buff` at the end is dropped. */
  function SplitFrom(data: string, buff: string): (r: Segments)
    requires BraceFree(buff)
    ensures forall k :: 0 <= k < |r.literals| ==> BraceFree(r.literals[k])
    ensures forall k :: 0 <= k < |r.expressions| ==> BraceFree(r.expressions[k])
    decreases |data|
  {
    if data == [] then Segments([], [])
    else if data[0] == '{' then
      var rest := SplitFrom(Drop(data, 2), "");
      Segments([buff] + rest.literals, rest.expressions)
    else if data[0] == '}' then
      var rest := SplitFrom(Drop(data, 2), "");
      Segments(rest.literals, [buff] + rest.expressions)
    else SplitFrom(data[1..], buff + [data[0]])
  }

  /** The splitting loop of walk over a whole text. */
  function SplitText(data: string): Segments {
    SplitFrom(data, "")
  }

  /** Applies f to every element. */
  function MapSeq<A, B>(s: seq<A>, f: A -> B): (r: seq<B>)
    ensures |r| == |s| && forall k :: 0 <= k < |s| ==> r[k] == f(s[k])
  {
    seq(|s|, k requires 0 <= k < |s| => f(s[k]))
  }

  /** The interpolation built from a text, mk turning each expression text
      into an expression. */
  function InterpolationOf<E>(data: string, mk: string -> E): Interpolation<E> {
    var segs := SplitText(data);
    Interpolation(segs.literals, MapSeq(segs.expressions, mk))
  }

  /** Walk's splitting loop: the literal segments and the expressions it
      collects are those of InterpolationOf. */
  method Interpolate<E>(data: string, mk: string -> E) returns (interp: Interpolation<E>)
    ensures interp == InterpolationOf(data, mk)
  {
    var strings: seq<string> := [];
    var expressions: seq<E> := [];
    ghost var texts: seq<string> := [];
    var buff: string := "";
    var i := 0;
    while i < |data|
      invariant 0 <= i <= |data| + 1 && BraceFree(buff)
      invariant Prefixed(strings, texts, SplitFrom(Drop(data, i), buff)) == SplitText(data)
      invariant expressions == MapSeq(texts, mk)
      decreases |data| + 1 - i
    {
      SplitTurn(data, i, buff);
      if data[i] == '{' {
        PrefixedAssoc(strings, texts, [buff], [], SplitFrom(Drop(data, i + 2), ""));
        strings := strings + [buff];
        buff := "";
        i := i + 1;
      } else if data[i] == '}' {
        PrefixedAssoc(strings, texts, [], [buff], SplitFrom(Drop(data, i + 2), ""));
        texts := texts + [buff];
        expressions := expressions + [mk(buff)];
        buff := "";
        i := i + 1;
      } else {
        buff := buff + [data[i]];
      }
      i := i + 1;
    }
    interp := Interpolation(strings, expressions);
  }

  /** Segments found before the rest of the text, then the rest's. */
  function Prefixed(literals: seq<string>, expressions: seq<string>, rest: Segments): Segments {
    Segments(literals + rest.literals, expressions + rest.expressions)
  }

  lemma PrefixedAssoc(literals: seq<string>, expressions: seq<string>,
                      moreLiterals: seq<string>, moreExpressions: seq<string>, rest: Segments)
    ensures Prefixed(literals + moreLiterals, expressions + moreExpressions, rest) ==
            Prefixed(literals, expressions, Prefixed(moreLiterals, moreExpressions, rest))
  {
    assert literals + moreLiterals + rest.literals == literals + (moreLiterals + rest.literals);
    assert expressions + moreExpressions + rest.expressions == expressions + (moreExpressions + rest.expressions);
  }

  /** One turn of the splitting loop at position i. */
  lemma SplitTurn(data: string, i: int, buff: string)
    requires 0 <= i < |data| && BraceFree(buff)
    ensures data[i] == '{' ==> SplitFrom(Drop(data, i), buff) == Prefixed([buff], [], SplitFrom(Drop(data, i + 2), ""))
    ensures data[i] == '}' ==> SplitFrom(Drop(data, i), buff) == Prefixed([], [buff], SplitFrom(Drop(data, i + 2), ""))
    ensures !IsBrace(data[i]) ==> SplitFrom(Drop(data, i), buff) == SplitFrom(Drop(data, i + 1), buff + [data[i]])
  {
    DropStep(data, i);
  }

  lemma DropStep(data: string, i: int)
    requires 0 <= i < |data|
    ensures Drop(data, i) != [] && Drop(data, i)[0] == data[i]
    ensures Drop(data, i)[1..] == Drop(data, i + 1)
    ensures Drop(Drop(data, i), 2) == Drop(data, i + 2)
  {
  }

  // ---------------------------------------------------------------------
  // The splitter against the text it splits

  /** A literal followed by one `{{expression}}`. */
  datatype Part = Part(literal: string, expression: string)

  /** The text made of each part's literal and `{{expression}}`, then tail. */
  function Render(parts: seq<Part>, tail: string): string {
    if parts == [] then tail
    else parts[0].literal + "{{" + parts[0].expression + "}}" + Render(parts[1..], tail)
  }

  function Literals(parts: seq<Part>): seq<string> {
    if parts == [] then [] else [parts[0].literal] + Literals(parts[1..])
  }

  function Expressions(parts: seq<Part>): seq<string> {
    if parts == [] then [] else [parts[0].expression] + Expressions(parts[1..])
  }

  /** No brace inside a literal, an expression or the tail. */
  predicate PlainParts(parts: seq<Part>, tail: string) {
    BraceFree(tail) &&
    forall k :: 0 <= k < |parts| ==> BraceFree(parts[k].literal) && BraceFree(parts[k].expression)
  }

  /** A run without braces only grows the buffer. */
  lemma {:induction false} RawRun(a: string, x: string, buff: string)
    requires BraceFree(a) && BraceFree(buff)
    ensures SplitFrom(a + x, buff) == SplitFrom(x, buff + a)
    decreases |a|
  {
    if a == [] {
      assert a + x == x && buff + a == buff;
    } else {
      assert (a + x)[0] == a[0] && (a + x)[1..] == a[1..] + x;
      RawRun(a[1..], x, buff + [a[0]]);
      assert buff + [a[0]] + a[1..] == buff + a;
    }
  }

  /** Splitting a rendered text gives back its literals and expressions; the
      tail after the last `}}` is lost. */
  lemma {:induction false} RenderSplits(parts: seq<Part>, tail: string)
    requires PlainParts(parts, tail)
    ensures SplitText(Render(parts, tail)) == Segments(Literals(parts), Expressions(parts))
  {
    if parts == [] {
      RawRun(tail, [], "");
      assert tail + [] == tail;
    } else {
      var p := parts[0];
      var rest := Render(parts[1..], tail);
      var afterLiteral := "{{" + p.expression + "}}" + rest;
      var afterExpression := "}}" + rest;
      assert Render(parts, tail) == p.literal + afterLiteral;
      RawRun(p.literal, afterLiteral, "");
      assert "" + p.literal == p.literal;
      assert Drop(afterLiteral, 2) == p.expression + afterExpression;
      RawRun(p.expression, afterExpression, "");
      assert "" + p.expression == p.expression;
      assert Drop(afterExpression, 2) == rest;
      RenderSplits(parts[1..], tail);
    }
  }

  /** Walk's `{{` test: a rendered text holds `{{` exactly when it has a part. */
  lemma RenderContainsBraces(parts: seq<Part>, tail: string)
    requires PlainParts(parts, tail)
    ensures Contains(Render(parts, tail), "{{") <==> parts != []
  {
    var s := Render(parts, tail);
    if parts != [] {
      var k := |parts[0].literal|;
      assert s[k..k + 2] == "{{";
      assert OccursAt(s, "{{", k);
    } else {
      forall k | 0 <= k <= |s|
        ensures !OccursAt(s, "{{", k)
      {
        if k + 2 <= |s| {
          assert s[k..k + 2][0] == s[k] != '{';
        }
      }
    }
  }
}
