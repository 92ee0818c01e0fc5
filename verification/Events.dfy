/** The events by which a tree of nodes is passed from one component to the next. */
module Events {
  import opened Options

  // The name of an element or attribute; an absent prefix or URI is the empty string.
  datatype Tag = Tag(prefix: string, uri: string, name: string)

  // A schema type.
  datatype TypeRef = TypeRef(uri: string, name: string)

  datatype Event =
    | StartDocument(documentUri: string, encoding: string)
    | EndDocument
    | StartElement(tag: Tag)
    | EndElement(tag: Tag, typed: Option<TypeRef>)
    | Text(value: string)
    | Comment(value: string)
    | ProcessingInstruction(target: string, value: string)
    | Attribute(tag: Tag, value: string, typed: Option<TypeRef>)
    | Namespace(prefix: string, uri: string)
}
