/** RDF nodes and statements, and their N-Quads text (nquads/nquads.go, nquads/literals.go). */
module NQuads {
  import opened Options
  import Turtle

  datatype Node =
    | IriNode(iri: string)
    | BlankNode(name: string)
    | LiteralNode(text: string, lang: string, typ: string)

  /** The predicate and the graph of a statement are IRIs; a statement of the default graph has none. */
  datatype Statement = Statement(subject: Node, verb: string, obj: Node, graph: Option<string>)

  const XSD_NAMESPACE := "http://www.w3.org/2001/XMLSchema#"
  const XSD_STRING := XSD_NAMESPACE + "string"

  /** The values a caller may hand to the writer: nodes, Go strings, URLs, booleans, integers (by their decimal
      digits), and values of any other type. */
  datatype Value =
    | Blank(name: string)
    | Iri(iri: string)
    | Literal(text: string, lang: string, typ: string)
    | PlainString(text: string)
    | LocString(text: string, lang: string)
    | TypedString(text: string, typ: string)
    | UrlValue(url: string)
    | Boolean(b: bool)
    | Integer(digits: string)
    | Unsupported

  function EncodeString(s: string): string {
    "\"" + Turtle.Escaped(s, Turtle.ESCAPE_STRING_MORE_CHARS) + "\""
  }

  function EncodeIri(iri: string): string {
    "<" + Turtle.Escaped(iri, Turtle.ESCAPE_IRI_CHARS) + ">"
  }

  function EncodeLocString(s: string, lang: string): string {
    EncodeString(s) + "@" + lang
  }

  function EncodeTypedString(s: string, typ: string): string {
    EncodeString(s) + "^^" + EncodeIri(typ)
  }

  function EncodeBlank(name: string): string {
    "_:" + name
  }

  function EncodeLiteral(text: string, lang: string, typ: string): string {
    if lang != "" then EncodeLocString(text, lang)
    else if typ == "" || typ == XSD_STRING then EncodeString(text)
    else EncodeTypedString(text, typ)
  }

  function EncodeAny(v: Value): string {
    match v
    case Literal(text, lang, typ) => EncodeLiteral(text, lang, typ)
    case Blank(name) => EncodeBlank(name)
    case Iri(iri) => EncodeIri(iri)
    case LocString(text, lang) => EncodeLocString(text, lang)
    case TypedString(text, typ) => EncodeTypedString(text, typ)
    case PlainString(text) => EncodeString(text)
    case UrlValue(url) => EncodeIri(url)
    case Boolean(b) => EncodeTypedString(if b then "true" else "false", XSD_NAMESPACE + "boolean")
    case Integer(digits) => EncodeTypedString(digits, XSD_NAMESPACE + "number")
    case Unsupported => ""
  }

  function EncodeIriOrBlank(v: Value): string {
    match v
    case Blank(name) => EncodeBlank(name)
    case Iri(iri) => EncodeIri(iri)
    case PlainString(iri) => EncodeIri(iri)
    case UrlValue(url) => EncodeIri(url)
    case _ => ""
  }
}
