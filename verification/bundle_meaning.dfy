/** What the statements of a bundle mean, said of RDF terms and of the statements themselves (server2/bundle.go:160-268):
    which graphs are declared, which quads are to be inserted into them, and that the printed updates are these. */
module BundleMeaning {
  import opened Options
  import opened SparqlLiterals
  import opened SparqlTerms
  import opened SparqlDenote
  import opened SparqlUpdate
  import opened NQuads
  import opened BundleModel

  datatype RdfQuad = RdfQuad(graph: RdfTerm, subject: RdfTerm, verb: RdfTerm, obj: RdfTerm)

  /** What the four terms of a quad denote. */
  function QuadDenotes(q: Quad): Option<RdfQuad> {
    match (Denotes(q.graph), Denotes(q.subject), Denotes(q.verb), Denotes(q.obj))
    case (Some(g), Some(s), Some(p), Some(o)) => Some(RdfQuad(g, s, p, o))
    case _ => None
  }

  // ---------------------------------------------------------------- graphs

  /** The URL is the base, or stands below it: the same site, and the path of the base up to a slash. */
  predicate Under(base: Url, u: Url) {
    && base.scheme == u.scheme && base.opaquePart == u.opaquePart && base.user == u.user && base.host == u.host
    && base.path <= u.path
    && (base.path == "" || base.path == u.path || base.path[|base.path| - 1] == '/' || u.path[|base.path|] == '/')
  }

  lemma UnderIff(base: Url, u: Url)
    ensures IsSubUrl(base, u) <==> Under(base, u)
  {
    if base.path != "" && base.path <= u.path && |base.path| < |u.path| && u.path[|base.path|] == '/' {
      assert u.path[..|base.path| + 1] == base.path + "/";
    }
  }

  /** A statement of no graph that gives a name to a URL under the base. */
  predicate Declares(b: Base, st: Statement, name: string, url: Url) {
    && st.graph == None && st.verb == SW_RELATIVE_PATH
    && (st.subject == IriNode(name) || st.subject == BlankNode(name) || (st.subject.LiteralNode? && name == ""))
    && b.resolve(if st.obj.LiteralNode? then st.obj.text else "") == Some(url)
    && Under(b.url, url)
  }

  /** Before statement `i`, the last declaration of the name gave it this URL. */
  ghost predicate NamesUrl(b: Base, sts: seq<Statement>, i: nat, name: string, url: Url)
    requires i <= |sts|
  {
    exists j :: 0 <= j < i && Declares(b, sts[j], name, url)
                && forall k, other :: j < k < i ==> !Declares(b, sts[k], name, other)
  }

  lemma AcceptedIff(b: Base, st: Statement, name: string, url: Url)
    ensures Declares(b, st, name, url) <==> Accepted(b, st) == Some(url) && DeclaredName(st) == name
  {
    if b.resolve(RelativeUri(st)).Some? {
      UnderIff(b.url, b.resolve(RelativeUri(st)).value);
    }
  }

  lemma {:induction false} GraphUrlIff(b: Base, sts: seq<Statement>, name: string, url: Url)
    ensures GraphUrl(b, sts, name) == Some(url) <==> NamesUrl(b, sts, |sts|, name, url)
  {
    hide Declares, Accepted, DeclaredName;
    if sts != [] {
      var n := |sts| - 1;
      var front := sts[..n];
      GraphUrlIff(b, front, name, url);
      assert forall j :: 0 <= j < n ==> front[j] == sts[j];
      forall u ensures Declares(b, sts[n], name, u) <==> Accepted(b, sts[n]) == Some(u) && DeclaredName(sts[n]) == name {
        AcceptedIff(b, sts[n], name, u);
      }
      if NamesUrl(b, sts, |sts|, name, url) {
        var j :| 0 <= j < |sts| && Declares(b, sts[j], name, url) && forall k, other :: j < k < |sts| ==> !Declares(b, sts[k], name, other);
        if j < n {
          assert forall other :: !Declares(b, sts[n], name, other);
          assert forall u :: Accepted(b, sts[n]) == Some(u) ==> DeclaredName(sts[n]) != name;
        }
      }
      if GraphUrl(b, sts, name) == Some(url) {
        if Accepted(b, sts[n]).Some? && DeclaredName(sts[n]) == name {
          assert Declares(b, sts[n], name, url);
        } else {
          var j :| 0 <= j < n && Declares(b, front[j], name, url) && forall k, other :: j < k < n ==> !Declares(b, front[k], name, other);
          assert Declares(b, sts[j], name, url);
        }
      }
    }
  }

  // ---------------------------------------------------------------- terms

  /** An IRI of a statement: the URL it resolves to, as it is printed, or itself when it does not parse. */
  function IriTerm(b: Base, iri: string): RdfTerm {
    RdfTerm.Iri(Encoded(match b.resolve(iri) case None => iri case Some(u) => b.show(u)))
  }

  /** A node of a statement: a literal keeps its text, and its tag or else its type, unless that is the type of strings. */
  function NodeTerm(b: Base, node: Node): RdfTerm {
    match node
    case IriNode(iri) => IriTerm(b, iri)
    case BlankNode(name) => RdfTerm.Blank(name)
    case LiteralNode(text, lang, typ) =>
      if lang != "" then Tagged(text, lang)
      else if typ == "" || typ == XSD_STRING then Plain(text)
      else Typed(text, Encoded(typ))
  }

  lemma IriTextDenotes(b: Base, iri: string)
    requires IriOk(b, iri)
    ensures Denotes(IriText(b, iri)) == Some(IriTerm(b, iri))
  {
    IriDenotes(match b.resolve(iri) case None => iri case Some(u) => b.show(u));
  }

  /** The printed terms of a node denote what the node says. */
  lemma NodeDenotes(b: Base, node: Node)
    requires NodeOk(b, node)
    ensures Denotes(ObjectText(b, node)) == Some(NodeTerm(b, node))
    ensures !node.LiteralNode? ==> SubjectText(b, node).Some? && Denotes(SubjectText(b, node).value) == Some(NodeTerm(b, node))
  {
    hide Denotes, Encoded, IriLiteral, StringLiteral, IsTag, IsLabel;
    match node {
      case IriNode(iri) => IriTextDenotes(b, iri);
      case BlankNode(name) => BlankDenotes(name);
      case LiteralNode(text, lang, typ) =>
        StringDenotes(text);
        if lang != "" {
          TaggedDenotes(text, lang);
        } else if typ != XSD_STRING && typ != "" {
          TypedDenotes(text, typ);
        }
    }
  }

  // ---------------------------------------------------------------- quads

  /** Statement `i` is to be inserted as this quad. */
  ghost predicate Adds(b: Base, sts: seq<Statement>, i: nat, d: RdfQuad)
    requires i < |sts|
  {
    && !sts[i].subject.LiteralNode? && sts[i].graph.Some?
    && (exists url :: NamesUrl(b, sts, i, sts[i].graph.value, url) && d.graph == RdfTerm.Iri(Encoded(b.show(url))))
    && d.subject == NodeTerm(b, sts[i].subject) && d.verb == IriTerm(b, sts[i].verb) && d.obj == NodeTerm(b, sts[i].obj)
  }

  /** What is inserted denotes what is to be inserted. */
  lemma InsertedAdds(b: Base, sts: seq<Statement>, i: nat)
    requires WellFormed(b, sts) && i < |sts| && Inserted(b, sts, i)
    ensures QuadDenotes(QuadOf(b, sts, i)).Some? && Adds(b, sts, i, QuadDenotes(QuadOf(b, sts, i)).value)
  {
    hide Denotes, ObjectText, IriText, NodeOk, IriOk, UrlOk, Encoded, IriLiteral, Accepted, Declares, NamesUrl, NodeTerm, IriTerm;
    var st := sts[i];
    assert StatementOk(b, sts, i);
    var url := GraphUrl(b, sts[..i], st.graph.value).value;
    GraphDenotes(b, sts, i, url);
    NodeDenotes(b, st.subject);
    IriTextDenotes(b, st.verb);
    NodeDenotes(b, st.obj);
  }

  /** The graph of an inserted statement. */
  lemma GraphDenotes(b: Base, sts: seq<Statement>, i: nat, url: Url)
    requires WellFormed(b, sts) && i < |sts| && sts[i].graph.Some? && GraphUrl(b, sts[..i], sts[i].graph.value) == Some(url)
    ensures NamesUrl(b, sts, i, sts[i].graph.value, url)
    ensures Denotes(GraphText(b, url)) == Some(RdfTerm.Iri(Encoded(b.show(url))))
  {
    hide Denotes, Accepted, Declares, Encoded;
    var name := sts[i].graph.value;
    GraphUrlIff(b, sts[..i], name, url);
    NamesFront(b, sts, i, name, url);
    GraphUrlIsAccepted(b, sts[..i], name);
    var j :| 0 <= j < |sts[..i]| && Accepted(b, sts[..i][j]) == Some(url);
    assert sts[..i][j] == sts[j];
    assert StatementOk(b, sts, j);
    IriDenotes(b.show(url));
  }

  lemma NamesFront(b: Base, sts: seq<Statement>, i: nat, name: string, url: Url)
    requires i <= |sts|
    ensures NamesUrl(b, sts[..i], |sts[..i]|, name, url) <==> NamesUrl(b, sts, i, name, url)
  {
    hide Declares;
    var front := sts[..i];
    assert forall j :: 0 <= j < i ==> front[j] == sts[j];
    if NamesUrl(b, front, i, name, url) {
      var j :| 0 <= j < i && Declares(b, front[j], name, url) && forall k, other :: j < k < i ==> !Declares(b, front[k], name, other);
      assert Declares(b, sts[j], name, url);
    }
    if NamesUrl(b, sts, i, name, url) {
      var j :| 0 <= j < i && Declares(b, sts[j], name, url) && forall k, other :: j < k < i ==> !Declares(b, sts[k], name, other);
      assert Declares(b, front[j], name, url);
    }
  }

  /** What is to be inserted is inserted. */
  lemma AddsInserted(b: Base, sts: seq<Statement>, i: nat, d: RdfQuad)
    requires WellFormed(b, sts) && i < |sts| && Adds(b, sts, i, d)
    ensures Inserted(b, sts, i) && QuadDenotes(QuadOf(b, sts, i)) == Some(d)
  {
    hide Denotes, ObjectText, IriText, NodeOk, IriOk, UrlOk, Encoded, IriLiteral, Accepted, Declares, NamesUrl, NodeTerm, IriTerm;
    var st := sts[i];
    var url :| NamesUrl(b, sts, i, st.graph.value, url) && d.graph == RdfTerm.Iri(Encoded(b.show(url)));
    NamesFront(b, sts, i, st.graph.value, url);
    GraphUrlIff(b, sts[..i], st.graph.value, url);
    assert StatementOk(b, sts, i);
    assert Inserted(b, sts, i);
    GraphDenotes(b, sts, i, url);
    NodeDenotes(b, st.subject);
    IriTextDenotes(b, st.verb);
    NodeDenotes(b, st.obj);
  }

  // ---------------------------------------------------------------- the updates

  /** Some statement declared the graph. */
  ghost predicate GraphDeclared(b: Base, sts: seq<Statement>, g: RdfTerm) {
    exists i, name, url :: 0 <= i < |sts| && Declares(b, sts[i], name, url) && g == RdfTerm.Iri(Encoded(b.show(url)))
  }

  ghost predicate DropsGraph(us: seq<Update>, g: RdfTerm) {
    exists text :: Drop(text) in us && Denotes(text) == Some(g)
  }

  ghost predicate InsertsQuad(us: seq<Update>, d: RdfQuad) {
    exists q :: Insert(q) in us && QuadDenotes(q) == Some(d)
  }

  ghost predicate SomeAdds(b: Base, sts: seq<Statement>, d: RdfQuad) {
    exists i :: 0 <= i < |sts| && Adds(b, sts, i, d)
  }

  /** The drops are of the declared graphs, and the insertions of the quads to be inserted. */
  ghost predicate Carries(b: Base, sts: seq<Statement>, us: seq<Update>) {
    && (forall g :: DropsGraph(us, g) <==> GraphDeclared(b, sts, g))
    && (forall d :: InsertsQuad(us, d) <==> SomeAdds(b, sts, d))
  }

  lemma {:induction false} DropsAre(b: Base, sts: seq<Statement>, n: nat, u: Update)
    requires n <= |sts|
    ensures u in Drops(b, sts, n) <==>
              exists i :: 0 <= i < n && Accepted(b, sts[i]).Some? && u == Drop(GraphText(b, Accepted(b, sts[i]).value))
  {
    hide Accepted, GraphText;
    if n > 0 {
      DropsAre(b, sts, n - 1, u);
    }
  }

  lemma {:induction false} InsertsAre(b: Base, sts: seq<Statement>, n: nat, u: Update)
    requires n <= |sts|
    ensures u in Inserts(b, sts, n) <==> exists i :: 0 <= i < n && Inserted(b, sts, i) && u == Insert(QuadOf(b, sts, i))
  {
    hide Inserted, QuadOf;
    if n > 0 {
      InsertsAre(b, sts, n - 1, u);
    }
  }

  lemma DropCarried(b: Base, sts: seq<Statement>, t: RdfTerm)
    requires WellFormed(b, sts)
    ensures DropsGraph(Meant(b, sts), t) <==> GraphDeclared(b, sts, t)
  {
    hide Accepted, Declares, Denotes, Encoded, GraphText, UrlOk, Inserted, QuadOf, DeclaredName, Drops, Inserts;
    var us := Meant(b, sts);
    if g :| Drop(g) in us && Denotes(g) == Some(t) {
      DropsAre(b, sts, |sts|, Drop(g));
      InsertsAre(b, sts, |sts|, Drop(g));
      var i :| 0 <= i < |sts| && Accepted(b, sts[i]).Some? && g == GraphText(b, Accepted(b, sts[i]).value);
      var url := Accepted(b, sts[i]).value;
      AcceptedIff(b, sts[i], DeclaredName(sts[i]), url);
      UrlDenotes(b, sts, i, url);
    }
    if i, name, url :| 0 <= i < |sts| && Declares(b, sts[i], name, url) && t == RdfTerm.Iri(Encoded(b.show(url))) {
      AcceptedIff(b, sts[i], name, url);
      UrlDenotes(b, sts, i, url);
      DropsAre(b, sts, |sts|, Drop(GraphText(b, url)));
      assert Drop(GraphText(b, url)) in us;
    }
  }

  lemma UrlDenotes(b: Base, sts: seq<Statement>, i: nat, url: Url)
    requires WellFormed(b, sts) && i < |sts| && Accepted(b, sts[i]) == Some(url)
    ensures Denotes(GraphText(b, url)) == Some(RdfTerm.Iri(Encoded(b.show(url))))
  {
    hide Denotes, Encoded;
    assert StatementOk(b, sts, i);
    IriDenotes(b.show(url));
  }

  lemma InsertCarried(b: Base, sts: seq<Statement>, d: RdfQuad)
    requires WellFormed(b, sts)
    ensures InsertsQuad(Meant(b, sts), d) <==> SomeAdds(b, sts, d)
  {
    hide Accepted, Inserted, QuadOf, QuadDenotes, Adds, Drops, Inserts, WellFormed;
    var us := Meant(b, sts);
    if q :| Insert(q) in us && QuadDenotes(q) == Some(d) {
      DropsAre(b, sts, |sts|, Insert(q));
      InsertsAre(b, sts, |sts|, Insert(q));
      var i :| 0 <= i < |sts| && Inserted(b, sts, i) && q == QuadOf(b, sts, i);
      InsertedAdds(b, sts, i);
    }
    if i :| 0 <= i < |sts| && Adds(b, sts, i, d) {
      AddsInserted(b, sts, i, d);
      InsertsAre(b, sts, |sts|, Insert(QuadOf(b, sts, i)));
      assert Insert(QuadOf(b, sts, i)) in us;
    }
  }

  /** For well-formed statements the printed updates drop exactly the declared graphs and insert exactly the quads to be
      inserted. */
  lemma MeantCarries(b: Base, sts: seq<Statement>)
    requires WellFormed(b, sts)
    ensures Carries(b, sts, Meant(b, sts))
  {
    hide DropsGraph, GraphDeclared, InsertsQuad, SomeAdds, Meant, WellFormed;
    forall g
      ensures DropsGraph(Meant(b, sts), g) <==> GraphDeclared(b, sts, g)
    {
      DropCarried(b, sts, g);
    }
    forall d
      ensures InsertsQuad(Meant(b, sts), d) <==> SomeAdds(b, sts, d)
    {
      InsertCarried(b, sts, d);
    }
  }

  // ---------------------------------------------------------------- hashes and warnings

  /** Some statement in a graph that was declared before it names the hash. */
  ghost predicate AsksFor(b: Base, sts: seq<Statement>, h: string) {
    exists i, url :: 0 <= i < |sts| && sts[i].graph.Some? && NamesUrl(b, sts, i, sts[i].graph.value, url)
                     && sts[i].verb == SW_HASH && sts[i].obj == IriNode(h)
  }

  lemma WantedIff(b: Base, sts: seq<Statement>, h: string)
    ensures h in WantedHashes(b, sts) <==> AsksFor(b, sts, h)
  {
    hide NamesUrl;
    forall i | 0 <= i < |sts| && sts[i].graph.Some?
      ensures GraphUrl(b, sts[..i], sts[i].graph.value).Some? <==> exists url :: NamesUrl(b, sts, i, sts[i].graph.value, url)
    {
      NamedIff(b, sts, i);
    }
  }

  lemma NamedIff(b: Base, sts: seq<Statement>, i: nat)
    requires i < |sts| && sts[i].graph.Some?
    ensures GraphUrl(b, sts[..i], sts[i].graph.value).Some? <==> exists url :: NamesUrl(b, sts, i, sts[i].graph.value, url)
  {
    hide NamesUrl, GraphUrl;
    forall url ensures GraphUrl(b, sts[..i], sts[i].graph.value) == Some(url) <==> NamesUrl(b, sts, i, sts[i].graph.value, url) {
      GraphUrlIff(b, sts[..i], sts[i].graph.value, url);
      NamesFront(b, sts, i, sts[i].graph.value, url);
    }
    if GraphUrl(b, sts[..i], sts[i].graph.value).Some? {
      assert NamesUrl(b, sts, i, sts[i].graph.value, GraphUrl(b, sts[..i], sts[i].graph.value).value);
    }
  }

  /** What is logged about statement `i`: a declaration whose reference does not parse or leads outside the base, or any
      other statement of no declared graph. */
  ghost predicate Warns(b: Base, sts: seq<Statement>, i: nat, log: Log)
    requires i < |sts|
  {
    var st := sts[i];
    if st.graph == None && st.verb == SW_RELATIVE_PATH then
      match b.resolve(if st.obj.LiteralNode? then st.obj.text else "")
      case None => log == Unparsable(st)
      case Some(url) => !Under(b.url, url) && log == OutsideBase(st)
    else log == NotInserted(st) && (st.graph.Some? ==> forall url :: !NamesUrl(b, sts, i, st.graph.value, url))
  }

  ghost predicate WarnsSome(b: Base, sts: seq<Statement>, log: Log) {
    exists i :: 0 <= i < |sts| && Warns(b, sts, i, log)
  }

  lemma LogsOfAre(b: Base, sts: seq<Statement>, i: nat, log: Log)
    requires i < |sts|
    ensures log in LogsOf(b, sts, i) <==> Warns(b, sts, i, log)
  {
    hide NamesUrl, GraphUrl;
    if sts[i].graph.Some? {
      NamedIff(b, sts, i);
    }
    if b.resolve(RelativeUri(sts[i])).Some? {
      UnderIff(b.url, b.resolve(RelativeUri(sts[i])).value);
    }
  }

  lemma {:induction false} LogsAre(b: Base, sts: seq<Statement>, n: nat, log: Log)
    requires n <= |sts|
    ensures log in Logs(b, sts, n) <==> exists i :: 0 <= i < n && Warns(b, sts, i, log)
  {
    hide Warns, LogsOf;
    if n > 0 {
      LogsAre(b, sts, n - 1, log);
      LogsOfAre(b, sts, n - 1, log);
    }
  }
}
