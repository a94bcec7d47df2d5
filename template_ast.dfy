/** The nodes the template walker builds (the struct types of main.go and
    parser.go). Both files declare the same types; they differ only in the
    type of an interpolation's expressions, which is the parameter E here. */
module TemplateAst {
  datatype TextAttribute = TextAttribute(name: string, value: string)

  /** A `#ref` attribute. The walker never fills in `name`. */
  datatype Reference = Reference(name: string, value: string)

  /** Angular's binding types, in the order of the Go constants. */
  datatype BindingType = Property | Attribute | Class | Style | Animation

  datatype PropertyRead = PropertyRead(name: string)
  datatype PropertyWrite = PropertyWrite(name: string, value: PropertyRead)
  datatype MethodCall = MethodCall(name: string, args: seq<PropertyRead>)

  /** An expression together with the attribute text it came from. */
  datatype WithSource<A> = WithSource(ast: A, source: string)

  datatype BoundAttribute = BoundAttribute(name: string, bindingType: BindingType, value: WithSource<PropertyRead>)

  /** The handler of an output: a method call for `(event)`, a property write
      for the output half of `[(x)]`. */
  datatype Handler = CallHandler(call: WithSource<MethodCall>) | WriteHandler(write: WithSource<PropertyWrite>)

  datatype BoundEvent = BoundEvent(name: string, bindingType: BindingType, handler: Handler)

  datatype Interpolation<E> = Interpolation(strings: seq<string>, expressions: seq<E>)

  datatype Node<E> =
    | TextNode(value: string)
    | CommentNode(value: string)
    | BoundTextNode(interpolation: WithSource<Interpolation<E>>)
    | ElementNode(element: Element<E>)

  datatype Element<E> = Element(
    name: string,
    attributes: seq<TextAttribute>,
    inputs: seq<BoundAttribute>,
    outputs: seq<BoundEvent>,
    references: seq<Reference>,
    children: seq<Node<E>>)

  datatype Root<E> = Root(nodes: seq<Node<E>>)
}
