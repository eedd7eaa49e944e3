/** Documents of the N-Quads writer, read back by the N-Quads reader (nquads/writer.go against nquads/reader.go). */
module NQuadsRoundTrip {
  import opened Options
  import opened Texts
  import opened Replacements
  import opened NQuads
  import opened NQuadsWriter
  import opened NQuadsReader
  import opened NQuadsEscape
  import Turtle

  // ---------------------------------------------------------------- what a value means, and when it is read back

  function SubjectNode(v: Value): Node
    requires EncodeIriOrBlank(v) != ""
  {
    match v
    case Blank(name) => BlankNode(name)
    case Iri(iri) => IriNode(iri)
    case PlainString(iri) => IriNode(iri)
    case UrlValue(url) => IriNode(url)
  }

  function ObjectNode(v: Value): Node
    requires EncodeAny(v) != ""
  {
    match v
    case Blank(name) => BlankNode(name)
    case Iri(iri) => IriNode(iri)
    case UrlValue(url) => IriNode(url)
    case Literal(text, lang, typ) => LiteralNode(text, lang, if lang == "" && typ == "" then XSD_STRING else typ)
    case PlainString(text) => LiteralNode(text, "", XSD_STRING)
    case LocString(text, lang) => LiteralNode(text, lang, "")
    case TypedString(text, typ) => LiteralNode(text, "", typ)
    case Boolean(b) => LiteralNode(if b then "true" else "false", "", XSD_NAMESPACE + "boolean")
    case Integer(digits) => LiteralNode(digits, "", XSD_NAMESPACE + "number")
  }

  predicate NoBlank(name: string) {
    forall i :: 0 <= i < |name| ==> !IsBlank(name[i])
  }

  ghost predicate SafeNode(n: Node) {
    match n
    case IriNode(iri) => SafeIri(iri)
    case BlankNode(name) => NoBlank(name)
    case LiteralNode(_, _, _) => true
  }

  /** An object that is printed with neither a language tag nor a type. */
  predicate PlainObject(v: Value) {
    match v
    case Literal(_, lang, typ) => lang == "" && (typ == "" || typ == XSD_STRING)
    case LocString(_, _) => false
    case TypedString(_, _) => false
    case Boolean(_) => false
    case Integer(_) => false
    case _ => true
  }

  predicate IsStatement(c: Call) {
    (c.Quad? || c.Triple?) && CallError(c) == NoError
  }

  function GraphOf(c: Call): Option<string>
    requires IsStatement(c)
  {
    if c.Quad? then Some(c.graph) else None
  }

  /** The statement a call stands for. */
  function Meaning(c: Call): Statement
    requires IsStatement(c)
  {
    Statement(SubjectNode(c.subject), c.verb, ObjectNode(c.obj), GraphOf(c))
  }

  /** The statements that are read back: no lossy character in an IRI, no blank in a blank node label, and no
      language tag or type on a literal. */
  ghost predicate Readable(c: Call)
    requires IsStatement(c)
  {
    && SafeNode(SubjectNode(c.subject)) && SafeIri(c.verb)
    && SafeNode(ObjectNode(c.obj)) && PlainObject(c.obj)
    && (c.Quad? ==> SafeIri(c.graph))
  }

  // ---------------------------------------------------------------- spaces

  lemma SkipSpace(s: string)
    ensures SkipSpaces(" " + s, false) == SkipSpaces(s, false)
  {
    assert (" " + s)[1..] == s;
  }

  lemma SkipNone(s: string)
    requires s != [] && s[0] != '#' && !IsBlank(s[0])
    ensures SkipSpaces(s, false) == Some(s)
  {
  }

  /** Every reading starts by skipping spaces. */
  lemma SkipFirst(s: string, t: string)
    requires SkipSpaces(s, false) == SkipSpaces(t, false)
    ensures ReadIri(s) == ReadIri(t) && ReadSubject(s) == ReadSubject(t)
    ensures ReadStatement(s) == ReadStatement(t)
  {
  }

  // ---------------------------------------------------------------- nodes

  lemma {:induction false} NameReads(name: string, rest: string)
    requires rest != [] && IsBlank(rest[0])
    ensures NoBlank(name) ==> ReadName(name + rest) == Got(name, rest)
    ensures !NoBlank(name) ==> ReadName(name + rest).Got? && ReadName(name + rest).value != name
    ensures !NoBlank(name) ==> |ReadName(name + rest).value| < |name|
  {
    if name == [] {
      assert name + rest == rest;
    } else {
      assert (name + rest)[1..] == name[1..] + rest;
      NameReads(name[1..], rest);
      assert name == [name[0]] + name[1..];
      assert forall i :: 0 <= i < |name[1..]| ==> name[1..][i] == name[i + 1];
      assert NoBlank(name) <==> !IsBlank(name[0]) && NoBlank(name[1..]) by {
        if !IsBlank(name[0]) && NoBlank(name[1..]) {
          forall i | 0 <= i < |name| ensures !IsBlank(name[i]) {
            assert i > 0 ==> name[i] == name[1..][i - 1];
          }
        }
      }
    }
  }

  lemma BlankReads(name: string, rest: string)
    requires rest != [] && IsBlank(rest[0])
    ensures var r := ReadBlank(EncodeBlank(name) + rest);
            && (NoBlank(name) ==> r == Got(Some(name), rest))
            && (!NoBlank(name) ==> r.Got? && r.value.Some? && r.value.value != name)
  {
    NameReads(name, rest);
    var t := EncodeBlank(name) + rest;
    assert t[..2] == "_:" && t[2..] == name + rest;
  }

  /** A written subject is read as a node, and as the node that was meant exactly when it is safe. */
  lemma SubjectReads(v: Value, rest: string)
    requires EncodeIriOrBlank(v) != "" && rest != [] && rest[0] == ' '
    ensures var r := ReadSubject(EncodeIriOrBlank(v) + rest);
            && (SafeNode(SubjectNode(v)) ==> r == Got(Some(SubjectNode(v)), rest))
            && (!SafeNode(SubjectNode(v)) ==> r.Got? && r.value.Some? && r.value.value != SubjectNode(v))
  {
    NodeReads(SubjectNode(v), rest);
  }

  lemma NodeReads(n: Node, rest: string)
    requires !n.LiteralNode? && rest != [] && rest[0] == ' '
    ensures var r := ReadSubject((if n.IriNode? then EncodeIri(n.iri) else EncodeBlank(n.name)) + rest);
            && (SafeNode(n) ==> r == Got(Some(n), rest))
            && (!SafeNode(n) ==> r.Got? && r.value.Some? && r.value.value != n)
  {
    if n.IriNode? {
      SkipNone(EncodeIri(n.iri) + rest);
      IriReads(n.iri, rest);
    } else {
      var t := EncodeBlank(n.name) + rest;
      SkipNone(t);
      assert ReadIri(t) == Got(None, t);
      BlankReads(n.name, rest);
    }
  }

  /** The text after a statement's object: a space, then a graph or the final dot, then more. */
  predicate AfterObject(rest: string) {
    |rest| >= 3 && rest[0] == ' ' && (rest[1] == '<' || rest[1] == '.')
  }

  lemma QuoteOpensNoNode(t: string)
    requires |t| >= 2 && t[0] == '\"'
    ensures ReadSubject(t) == Got(None, t)
  {
    SkipNone(t);
    assert ReadIri(t) == Got(None, t);
    assert ReadBlank(t) == Got(None, t);
  }

  lemma StringLength(s: string)
    ensures |EncodeString(s)| >= 2 && EncodeString(s)[0] == '\"'
  {
  }

  /** After a quoted text, the reader does what the suffix says. */
  lemma QuotedReads(s: string, suffix: string)
    ensures var r := ReadObject(EncodeString(s) + suffix);
            match ReadSuffix(suffix, s) case Failed(e) => r == Failed(e) case Got(n, rest) => r == Got(Some(n), rest)
  {
    var t := EncodeString(s) + suffix;
    StringLength(s);
    StringReads(s, suffix);
    SkipNone(t);
    QuoteOpensNoNode(t);
  }

  lemma PlainSuffix(s: string, rest: string)
    requires AfterObject(rest)
    ensures ReadSuffix(rest, s) == Got(LiteralNode(s, "", XSD_STRING), rest[1..])
  {
    assert rest == " " + rest[1..];
    SkipSpace(rest[1..]);
    SkipNone(rest[1..]);
  }

  lemma TaggedSuffix(s: string, lang: string, rest: string)
    requires AfterObject(rest)
    ensures ReadSuffix("@" + lang + rest, s).Failed?
  {
    var t := "@" + lang + rest;
    SkipNone(t);
    assert t[0] == '@' && !("^^" <= t);
  }

  lemma TypedSuffix(s: string, typ: string, rest: string)
    requires AfterObject(rest)
    ensures ReadSuffix("^^" + EncodeIri(typ) + rest, s) == Failed(ExpectedLiteralType)
  {
    var t := "^^" + EncodeIri(typ) + rest;
    assert t[..2] == "^^" && t[0] == '^';
    SkipNone(t);
    assert ReadIri(t) == Got(None, t);
  }

  lemma TaggedRefused(s: string, lang: string, rest: string)
    requires AfterObject(rest)
    ensures ReadObject(EncodeLocString(s, lang) + rest).Failed?
  {
    TaggedSuffix(s, lang, rest);
    QuotedReads(s, "@" + lang + rest);
    RegroupSuffix(EncodeString(s), "@", lang, rest);
  }

  lemma TypedRefused(s: string, typ: string, rest: string)
    requires AfterObject(rest)
    ensures ReadObject(EncodeTypedString(s, typ) + rest).Failed?
  {
    TypedSuffix(s, typ, rest);
    QuotedReads(s, "^^" + EncodeIri(typ) + rest);
    RegroupSuffix(EncodeString(s), "^^", EncodeIri(typ), rest);
  }

  lemma RegroupSuffix(a: string, b: string, c: string, d: string)
    ensures (a + b + c) + d == a + (b + c + d)
  {
  }

  /** A string with a language tag or a type is refused by the reader, whatever it is. */
  lemma SuffixedRefused(s: string, lang: string, typ: string, rest: string)
    requires AfterObject(rest)
    ensures ReadObject(EncodeLocString(s, lang) + rest).Failed?
    ensures ReadObject(EncodeTypedString(s, typ) + rest).Failed?
  {
    TaggedRefused(s, lang, rest);
    TypedRefused(s, typ, rest);
  }

  lemma PlainReads(s: string, rest: string)
    requires AfterObject(rest)
    ensures ReadObject(EncodeString(s) + rest) == Got(Some(LiteralNode(s, "", XSD_STRING)), rest[1..])
  {
    PlainSuffix(s, rest);
    QuotedReads(s, rest);
  }

  /** A written object is read as the node that was meant exactly when it is safe and plain. */
  lemma ObjectReads(v: Value, rest: string)
    requires EncodeAny(v) != "" && AfterObject(rest)
    ensures var r := ReadObject(EncodeAny(v) + rest);
            if SafeNode(ObjectNode(v)) && PlainObject(v)
            then r.Got? && r.value == Some(ObjectNode(v)) && (r.rest == rest || r.rest == rest[1..])
            else !(r.Got? && r.value == Some(ObjectNode(v)))
  {
    match v
    case Blank(name) => NodeReads(BlankNode(name), rest);
    case Iri(iri) => NodeReads(IriNode(iri), rest);
    case UrlValue(url) => NodeReads(IriNode(url), rest);
    case PlainString(text) => PlainReads(text, rest);
    case Literal(text, lang, typ) =>
      if lang != "" || (typ != "" && typ != XSD_STRING) {
        SuffixedRefused(text, lang, typ, rest);
      } else {
        PlainReads(text, rest);
      }
    case LocString(text, lang) => SuffixedRefused(text, lang, "", rest);
    case TypedString(text, typ) => SuffixedRefused(text, "", typ, rest);
    case Boolean(b) => SuffixedRefused(if b then "true" else "false", "", XSD_NAMESPACE + "boolean", rest);
    case Integer(digits) => SuffixedRefused(digits, "", XSD_NAMESPACE + "number", rest);
  }

  // ---------------------------------------------------------------- statements

  /** The text of a statement from its graph on. */
  function EndText(g: Option<string>, rest: string): string {
    match g
    case None => " .\n" + rest
    case Some(iri) => " " + (EncodeIri(iri) + (" .\n" + rest))
  }

  lemma DotReads(st: Statement, rest: string)
    ensures ReadDot(" .\n" + rest, st) == Got(st, "\n" + rest)
    ensures ReadDot(".\n" + rest, st) == Got(st, "\n" + rest)
    ensures ReadIri(".\n" + rest) == Got(None, ".\n" + rest)
    ensures ReadIri(" .\n" + rest) == Got(None, ".\n" + rest)
  {
    var t := ".\n" + rest;
    assert " .\n" + rest == " " + t;
    SkipSpace(t);
    SkipNone(t);
    assert t[1..] == "\n" + rest;
  }

  /** The graph and the final dot are read, with or without the space before them. */
  lemma EndReads(g: Option<string>, rest: string, s: string)
    requires s == EndText(g, rest) || s == EndText(g, rest)[1..]
    ensures AfterObject(EndText(g, rest))
    ensures var r := ReadIri(s);
            && r.Got?
            && (r.value == g <==> (g.Some? ==> SafeIri(g.value)))
            && forall st :: ReadDot(r.rest, st) == Got(st, "\n" + rest)
  {
    forall st
      ensures ReadDot(" .\n" + rest, st) == Got(st, "\n" + rest) && ReadDot(".\n" + rest, st) == Got(st, "\n" + rest)
    {
      DotReads(st, rest);
    }
    match g {
      case None =>
        assert (" .\n" + rest)[1..] == ".\n" + rest;
        DotReads(Statement(BlankNode(""), "", BlankNode(""), None), rest);
      case Some(iri) =>
        var t := EncodeIri(iri) + (" .\n" + rest);
        assert (" " + t)[1..] == t;
        SkipSpace(t);
        SkipFirst(" " + t, t);
        IriReads(iri, " .\n" + rest);
    }
  }

  /** A statement's text, nested so that each part is followed by the rest of the statement. */
  lemma StatementText(c: Call, rest: string)
    requires IsStatement(c)
    ensures CallText(c) + rest ==
            EncodeIriOrBlank(c.subject) +
              (" " + (EncodeIri(c.verb) + (" " + (EncodeAny(c.obj) + EndText(GraphOf(c), rest)))))
  {
    var s, v, o := EncodeIriOrBlank(c.subject), EncodeIri(c.verb), EncodeAny(c.obj);
    if c.Quad? {
      var g := EncodeIri(c.graph);
      RegroupQuad(s, v, o, g, rest);
    } else {
      RegroupTriple(s, v, o, rest);
    }
  }

  lemma RegroupTriple(s: string, v: string, o: string, rest: string)
    ensures (s + " " + v + " " + o + " .\n") + rest == s + (" " + (v + (" " + (o + (" .\n" + rest)))))
  {
  }

  lemma RegroupQuad(s: string, v: string, o: string, g: string, rest: string)
    ensures (s + " " + v + " " + o + " " + g + " .\n") + rest == s + (" " + (v + (" " + (o + (" " + (g + (" .\n" + rest)))))))
  {
  }

  /** What each part of a statement contributes to what is read. */
  lemma RestParts(s: string, subject: Node)
    requires ReadRest(s, subject).Got?
    ensures ReadRest(s, subject).value.subject == subject
    ensures var r := ReadIri(s); r.Got? && r.value == Some(ReadRest(s, subject).value.verb)
    ensures var r := ReadObject(ReadIri(s).rest); r.Got? && r.value == Some(ReadRest(s, subject).value.obj)
    ensures var r := ReadIri(ReadObject(ReadIri(s).rest).rest); r.Got? && r.value == ReadRest(s, subject).value.graph
  {
  }

  /** Everything after the subject is read as meant exactly when it is readable. */
  lemma RestReads(c: Call, rest: string, subject: Node)
    requires IsStatement(c)
    ensures var s := " " + (EncodeIri(c.verb) + (" " + (EncodeAny(c.obj) + EndText(GraphOf(c), rest))));
            var st := Statement(subject, c.verb, ObjectNode(c.obj), GraphOf(c));
            if SafeIri(c.verb) && SafeNode(ObjectNode(c.obj)) && PlainObject(c.obj) && (c.Quad? ==> SafeIri(c.graph))
            then ReadRest(s, subject) == Got(st, "\n" + rest)
            else !(ReadRest(s, subject).Got? && ReadRest(s, subject).value == st)
  {
    var end := EndText(GraphOf(c), rest);
    EndReads(GraphOf(c), rest, end);
    EndReads(GraphOf(c), rest, end[1..]);
    var s2 := EncodeAny(c.obj) + end;
    var s1 := EncodeIri(c.verb) + (" " + s2);
    var s := " " + s1;
    SkipSpace(s1);
    SkipFirst(s, s1);
    IriReads(c.verb, " " + s2);
    SkipSpace(s2);
    SpaceBeforeObject(s2);
    ObjectReads(c.obj, end);
    if ReadRest(s, subject).Got? {
      RestParts(s, subject);
    }
  }

  lemma SpaceBeforeObject(s: string)
    ensures ReadObject(" " + s) == ReadObject(s)
  {
    SkipSpace(s);
    SkipFirst(" " + s, s);
  }

  /** One written statement is read back as what it means exactly when it is readable. */
  lemma StatementReads(c: Call, rest: string)
    requires IsStatement(c)
    ensures var r := ReadStatement(CallText(c) + rest);
            if Readable(c) then r == Got(Some(Meaning(c)), "\n" + rest)
            else !(r.Got? && r.value == Some(Meaning(c)))
  {
    StatementText(c, rest);
    var s := " " + (EncodeIri(c.verb) + (" " + (EncodeAny(c.obj) + EndText(GraphOf(c), rest))));
    SubjectReads(c.subject, s);
    RestReads(c, rest, SubjectNode(c.subject));
    var subject := ReadSubject(EncodeIriOrBlank(c.subject) + s);
    var r := ReadStatement(CallText(c) + rest);
    if r.Got? && r.value.Some? {
      RestParts(subject.rest, subject.value.value);
    }
  }

  // ---------------------------------------------------------------- comments

  /** After a carriage return, the first character that is not a space, tab or carriage return is a line feed,
      a hash, or nothing. */
  predicate ClearAhead(c: string) {
    c == [] || c[0] == '\n' || c[0] == '#' || ((c[0] == ' ' || c[0] == '\t' || c[0] == '\r') && ClearAhead(c[1..]))
  }

  /** A comment whose carriage returns uncover nothing. */
  predicate CleanComment(c: string) {
    c == [] || ((c[0] == '\r' ==> ClearAhead(c[1..])) && CleanComment(c[1..]))
  }

  function CommentText(c: string): string {
    Replace(c, '\n', "\n#")
  }

  lemma {:induction false} NoReturnIsClean(c: string)
    requires '\r' !in c
    ensures CleanComment(c)
  {
    if c != [] {
      NoReturnIsClean(c[1..]);
    }
  }

  lemma NewlineSkips(tail: string)
    ensures SkipSpaces("\n#" + tail, true) == SkipSpaces(tail, true)
    ensures SkipSpaces("\n#" + tail, false) == SkipSpaces(tail, true)
  {
    assert ("\n#" + tail)[1..] == "#" + tail;
    assert ("#" + tail)[1..] == tail;
  }

  /** The text of a comment is skipped exactly when the comment is clean; otherwise the reader stops inside it. */
  lemma {:induction false} CommentTextSkips(c: string, rest: string, inComment: bool)
    ensures var t := SkipSpaces(CommentText(c) + "\n" + rest, inComment);
            if CleanComment(c) && (inComment || ClearAhead(c)) then t == SkipSpaces(rest, false)
            else t.Some? && |t.value| > |rest|
  {
    if c == [] {
      assert CommentText(c) + "\n" + rest == "\n" + rest;
      assert ("\n" + rest)[1..] == rest;
    } else {
      var tail := CommentText(c[1..]) + "\n" + rest;
      if c[0] == '\n' {
        assert CommentText(c) + "\n" + rest == "\n#" + tail;
        NewlineSkips(tail);
        CommentTextSkips(c[1..], rest, true);
      } else {
        assert CommentText(c) + "\n" + rest == [c[0]] + tail;
        assert ([c[0]] + tail)[1..] == tail;
        if inComment {
          CommentTextSkips(c[1..], rest, c[0] != '\r');
        } else if c[0] == '#' {
          CommentTextSkips(c[1..], rest, true);
        } else if IsBlank(c[0]) {
          CommentTextSkips(c[1..], rest, false);
        }
      }
    }
  }

  /** A written comment is skipped, whatever follows it, exactly when it is clean. */
  lemma CommentSkips(c: string, rest: string)
    ensures SkipSpaces(CallText(Comment(c)) + rest, false) == SkipSpaces(rest, false) <==> CleanComment(c)
  {
    var text := CommentText(c) + "\n" + rest;
    assert CallText(Comment(c)) + rest == "#" + text;
    assert ("#" + text)[1..] == text;
    CommentTextSkips(c, rest, true);
  }

  /** A carriage return in front of the line of a readable statement uncovers the statement. */
  lemma CommentUncovers(c: Call, line: string, rest: string)
    requires IsStatement(c) && Readable(c) && CallText(c) == line + "\n" && '\n' !in line
    ensures var (sts, end) := ReadAll(CallText(Comment("\r" + line)) + rest);
            sts == [Meaning(c)] + ReadAll(rest).0 && end == ReadAll(rest).1
  {
    hide Readable, IsStatement, ReadAll, CallText, SkipSpaces, Meaning;
    var text := CallText(Comment("\r" + line)) + rest;
    UncoveredText(line);
    assert text == "#" + ("\r" + (CallText(c) + rest));
    ReturnEndsComment(CallText(c) + rest);
    ReadAllSkips(text, CallText(c) + rest);
    ReadAllStatement(c, rest);
  }

  lemma UncoveredText(line: string)
    requires '\n' !in line
    ensures CallText(Comment("\r" + line)) == "#" + ("\r" + (line + "\n"))
  {
    ReplaceAbsent("\r" + line, '\n', "\n#");
  }

  lemma ReturnEndsComment(s: string)
    ensures SkipSpaces("#" + ("\r" + s), false) == SkipSpaces(s, false)
  {
    assert ("#" + ("\r" + s))[1..] == "\r" + s && ("\r" + s)[1..] == s;
  }

  /** A comment from which a statement is read. */
  lemma CommentBecomesStatement()
    ensures ReadAll(CallText(Comment("\r<a> <b> <c> ."))) == ([Statement(IriNode("a"), "b", IriNode("c"), None)], None)
  {
    hide ReadAll, CallText, Readable, Meaning, IsStatement, SkipSpaces;
    var c := Triple(Iri("a"), "b", Iri("c"));
    var text := CallText(Comment("\r<a> <b> <c> ."));
    PlainCall();
    CommentUncovers(c, "<a> <b> <c> .", "");
    assert "\r" + "<a> <b> <c> ." == "\r<a> <b> <c> .";
    assert text + "" == text;
    NothingToRead();
    assert ReadAll(text).0 == [Meaning(c)] + [] == [Meaning(c)] && ReadAll(text).1 == None;
  }

  lemma PlainCall()
    ensures var c := Triple(Iri("a"), "b", Iri("c"));
            && IsStatement(c) && Readable(c) && CallText(c) == "<a> <b> <c> ." + "\n"
            && Meaning(c) == Statement(IriNode("a"), "b", IriNode("c"), None)
  {
    hide EncodeIri, SafeIri;
    OneLetter("a");
    OneLetter("b");
    OneLetter("c");
  }

  lemma OneLetter(s: string)
    requires |s| == 1 && 'a' <= s[0] <= 'z'
    ensures EncodeIri(s) == "<" + s + ">" && SafeIri(s)
  {
    assert s[1..] == "";
    assert Turtle.Escaped("", Turtle.ESCAPE_IRI_CHARS) == "";
    assert s[0] !in Turtle.ESCAPE_IRI_CHARS;
    assert Turtle.EscapeChar(s[0], Turtle.ESCAPE_IRI_CHARS) == s;
  }

  lemma NothingToRead()
    ensures ReadAll("") == ([], None)
  {
  }

  // ---------------------------------------------------------------- documents

  /** The statements the accepted calls stand for, in order. */
  function Meanings(calls: seq<Call>): seq<Statement> {
    if calls == [] then []
    else (if IsStatement(calls[0]) then [Meaning(calls[0])] else []) + Meanings(calls[1..])
  }

  ghost predicate AllReadable(calls: seq<Call>) {
    forall i :: 0 <= i < |calls| && IsStatement(calls[i]) ==> Readable(calls[i])
  }

  ghost predicate CleanComments(calls: seq<Call>) {
    forall i :: 0 <= i < |calls| && calls[i].Comment? ==> CleanComment(calls[i].comment)
  }

  lemma ReadAllSkips(s: string, t: string)
    requires SkipSpaces(s, false) == SkipSpaces(t, false)
    ensures ReadAll(s) == ReadAll(t)
  {
    SkipFirst(s, t);
  }

  lemma NoStatementSkips(c: Call, rest: string)
    requires !IsStatement(c) && (c.Comment? ==> CleanComment(c.comment))
    ensures ReadAll(CallText(c) + rest) == ReadAll(rest)
  {
    match c {
      case EmptyLine => assert ("\n" + rest)[1..] == rest;
      case Comment(comment) => CommentSkips(comment, rest);
      case Quad(_, _, _, _) => assert "" + rest == rest;
      case Triple(_, _, _) => assert "" + rest == rest;
    }
    ReadAllSkips(CallText(c) + rest, rest);
  }

  lemma ReadAllStatement(c: Call, rest: string)
    requires IsStatement(c)
    ensures var (sts, end) := ReadAll(CallText(c) + rest);
            if Readable(c) then sts == [Meaning(c)] + ReadAll(rest).0 && end == ReadAll(rest).1
            else sts == [] || sts[0] != Meaning(c)
  {
    StatementReads(c, rest);
    assert ("\n" + rest)[1..] == rest;
    ReadAllSkips("\n" + rest, rest);
  }

  /** The whole document: the statements are read back in order, up to the end of the input, exactly when all
      of them are readable. */
  lemma {:induction false} DocumentRoundTrip(calls: seq<Call>)
    requires CleanComments(calls)
    ensures ReadAll(Document(calls)) == (Meanings(calls), None) <==> AllReadable(calls)
  {
    if calls == [] {
    } else {
      var c, more := calls[0], calls[1..];
      assert forall i :: 0 <= i < |more| ==> more[i] == calls[i + 1];
      DocumentRoundTrip(more);
      assert AllReadable(calls) <==> (IsStatement(c) ==> Readable(c)) && AllReadable(more) by {
        if (IsStatement(c) ==> Readable(c)) && AllReadable(more) {
          forall i | 0 <= i < |calls| && IsStatement(calls[i]) ensures Readable(calls[i]) {
            assert i > 0 ==> calls[i] == more[i - 1];
          }
        }
      }
      if !IsStatement(c) {
        NoStatementSkips(c, Document(more));
        assert [] + Meanings(more) == Meanings(more);
      } else {
        ReadAllStatement(c, Document(more));
        assert Meanings(calls)[0] == Meaning(c) && Meanings(calls)[1..] == Meanings(more);
        assert ([Meaning(c)] + ReadAll(Document(more)).0)[1..] == ReadAll(Document(more)).0;
      }
    }
  }

  /** The writer's object, then the reader's object, over any calls. */
  method WriteThenRead(calls: seq<Call>) returns (sts: seq<Statement>, end: Option<Error>)
    requires CleanComments(calls)
    ensures (sts, end) == (Meanings(calls), None) <==> AllReadable(calls)
  {
    hide CallText, CallError, Meanings, AllReadable, ReadAll;
    var w := new NQuadWriter();
    for i := 0 to |calls|
      invariant fresh(w) && w.written == Document(calls[..i])
    {
      match calls[i] {
        case EmptyLine => w.WriteEmptyLine();
        case Comment(comment) => w.WriteComment(comment);
        case Quad(s, v, o, g) => var _ := w.WriteQuad(s, v, o, g);
        case Triple(s, v, o) => var _ := w.WriteTriple(s, v, o);
      }
      DocumentAppend(calls[..i], calls[i]);
      assert calls[..i + 1] == calls[..i] + [calls[i]];
    }
    assert calls[..|calls|] == calls;
    var r := new Reader(w.written);
    sts, end := r.ReadStatements();
    DocumentRoundTrip(calls);
  }
}
