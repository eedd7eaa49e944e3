/** The N-Quads writer (nquads/writer.go). */
module NQuadsWriter {
  import opened Replacements
  import opened NQuads

  /** One call of the writer. */
  datatype Call =
    | EmptyLine
    | Comment(comment: string)
    | Quad(subject: Value, verb: string, obj: Value, graph: string)
    | Triple(subject: Value, verb: string, obj: Value)

  datatype WriteError = NoError | InvalidSubject | InvalidObject

  function CallError(c: Call): WriteError {
    if c.EmptyLine? || c.Comment? then NoError
    else if EncodeIriOrBlank(c.subject) == "" then InvalidSubject
    else if EncodeAny(c.obj) == "" then InvalidObject
    else NoError
  }

  /** The text a call appends; a call that is refused appends nothing. */
  function CallText(c: Call): string {
    match c
    case EmptyLine => "\n"
    case Comment(comment) => "#" + Replace(comment, '\n', "\n#") + "\n"
    case Quad(s, v, o, g) =>
      if CallError(c) != NoError then ""
      else EncodeIriOrBlank(s) + " " + EncodeIri(v) + " " + EncodeAny(o) + " " + EncodeIri(g) + " .\n"
    case Triple(s, v, o) =>
      if CallError(c) != NoError then ""
      else EncodeIriOrBlank(s) + " " + EncodeIri(v) + " " + EncodeAny(o) + " .\n"
  }

  function Document(calls: seq<Call>): string {
    if calls == [] then "" else CallText(calls[0]) + Document(calls[1..])
  }

  lemma {:induction false} DocumentAppend(calls: seq<Call>, c: Call)
    ensures Document(calls + [c]) == Document(calls) + CallText(c)
  {
    if calls == [] {
      assert ([] + [c])[1..] == [];
    } else {
      assert (calls + [c])[1..] == calls[1..] + [c];
      DocumentAppend(calls[1..], c);
      Regroup(CallText(calls[0]), Document(calls[1..]), CallText(c));
    }
  }

  lemma Regroup(a: string, b: string, c: string)
    ensures (a + b) + c == a + (b + c)
  {
  }

  class NQuadWriter {
    var written: string

    constructor ()
      ensures written == ""
    {
      written := "";
    }

    method WriteEmptyLine()
      modifies this
      ensures written == old(written) + CallText(EmptyLine)
    {
      written := written + "\n";
    }

    method WriteComment(comment: string)
      modifies this
      ensures written == old(written) + CallText(Comment(comment))
    {
      written := written + ("#" + Replace(comment, '\n', "\n#") + "\n");
    }

    method WriteQuad(subject: Value, verb: string, obj: Value, graph: string) returns (e: WriteError)
      modifies this
      ensures e == CallError(Quad(subject, verb, obj, graph))
      ensures written == old(written) + CallText(Quad(subject, verb, obj, graph))
    {
      var s := EncodeIriOrBlank(subject);
      var p := EncodeIri(verb);
      var o := EncodeAny(obj);
      var g := EncodeIri(graph);
      if s == "" { return InvalidSubject; }
      if o == "" { return InvalidObject; }
      written := written + (s + " " + p + " " + o + " " + g + " .\n");
      e := NoError;
    }

    method WriteQuadIri(subject: Value, verb: string, obj: string, graph: string) returns (e: WriteError)
      modifies this
      ensures e == CallError(Quad(subject, verb, Iri(obj), graph))
      ensures written == old(written) + CallText(Quad(subject, verb, Iri(obj), graph))
    {
      var s := EncodeIriOrBlank(subject);
      var p := EncodeIri(verb);
      var o := EncodeIri(obj);
      var g := EncodeIri(graph);
      if s == "" { return InvalidSubject; }
      written := written + (s + " " + p + " " + o + " " + g + " .\n");
      e := NoError;
    }

    method WriteTriple(subject: Value, verb: string, obj: Value) returns (e: WriteError)
      modifies this
      ensures e == CallError(Triple(subject, verb, obj))
      ensures written == old(written) + CallText(Triple(subject, verb, obj))
    {
      var s := EncodeIriOrBlank(subject);
      var p := EncodeIri(verb);
      var o := EncodeAny(obj);
      if s == "" { return InvalidSubject; }
      if o == "" { return InvalidObject; }
      written := written + (s + " " + p + " " + o + " .\n");
      e := NoError;
    }

    method WriteTripleIri(subject: Value, verb: string, obj: string) returns (e: WriteError)
      modifies this
      ensures e == CallError(Triple(subject, verb, Iri(obj)))
      ensures written == old(written) + CallText(Triple(subject, verb, Iri(obj)))
    {
      var s := EncodeIriOrBlank(subject);
      var p := EncodeIri(verb);
      var o := EncodeIri(obj);
      if s == "" { return InvalidSubject; }
      written := written + (s + " " + p + " " + o + " .\n");
      e := NoError;
    }
  }
}
