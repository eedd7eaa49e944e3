/** What the statements of a bundle say to the store, and the text that is printed for them (server2/bundle.go:160-268). */
module BundleModel {
  import opened Options
  import opened SparqlLiterals
  import opened SparqlTerms
  import opened SparqlUpdate
  import opened SparqlText
  import opened UpdateLayout
  import opened NQuads

  const SW_NAMESPACE := "tag:mildred.fr," + "2015-05:SmartWeb#"
  const SW_RELATIVE_PATH := SW_NAMESPACE + "relativePath"
  const SW_HASH := SW_NAMESPACE + "hash"

  /** The parts of a URL that are compared; `user` is the address of the user information, which the
      source compares as a pointer, and `suffix` is the query and fragment. */
  datatype Url = Url(scheme: string, opaquePart: string, user: Option<nat>, host: string, path: string, suffix: string)

  /** The base URL, with the URL library's reference resolution and printing. */
  datatype Base = Base(url: Url, resolve: string -> Option<Url>, show: Url -> string)

  predicate HasPrefix(s: string, prefix: string) {
    prefix <= s
  }

  predicate IsSubUrl(base: Url, u: Url) {
    if base.scheme != u.scheme || base.opaquePart != u.opaquePart || base.user != u.user || base.host != u.host then false
    else if base.path == u.path || |base.path| == 0 then true
    else
      var basePath := if base.path[|base.path| - 1] != '/' then base.path + "/" else base.path;
      HasPrefix(u.path, basePath)
  }

  // ---------------------------------------------------------------- what one statement means

  predicate IsDeclaration(st: Statement) {
    st.graph.None? && st.verb == SW_RELATIVE_PATH
  }

  /** The name a declaration gives to its graph: an IRI or a blank node label. */
  function DeclaredName(st: Statement): string {
    match st.subject
    case IriNode(iri) => iri
    case BlankNode(name) => name
    case LiteralNode(_, _, _) => ""
  }

  /** The relative URI of a declaration; anything but a literal counts as the empty reference. */
  function RelativeUri(st: Statement): string {
    if st.obj.LiteralNode? then st.obj.text else ""
  }

  /** The URL of the graph a statement declares, when it is a declaration under the base URL. */
  function Accepted(b: Base, st: Statement): Option<Url> {
    if IsDeclaration(st) && b.resolve(RelativeUri(st)).Some? && IsSubUrl(b.url, b.resolve(RelativeUri(st)).value)
    then b.resolve(RelativeUri(st)) else None
  }

  function GraphText(b: Base, u: Url): string {
    IriLiteral(b.show(u))
  }

  function IriText(b: Base, iri: string): string {
    match b.resolve(iri)
    case None => IriLiteral(iri)
    case Some(u) => IriLiteral(b.show(u))
  }

  function ObjectText(b: Base, obj: Node): string {
    match obj
    case IriNode(iri) => IriText(b, iri)
    case BlankNode(name) => BlankLiteral(name)
    case LiteralNode(text, lang, typ) =>
      if lang != "" then LocStringLiteral(text, lang)
      else if typ != XSD_STRING && typ != "" then TypedStringLiteral(text, typ)
      else StringLiteral(text)
  }

  function SubjectText(b: Base, subject: Node): Option<string> {
    match subject
    case IriNode(iri) => Some(IriText(b, iri))
    case BlankNode(name) => Some(BlankLiteral(name))
    case LiteralNode(_, _, _) => None
  }

  // ---------------------------------------------------------------- what a list of statements means

  /** The URL of the last accepted declaration of a graph name. */
  function GraphUrl(b: Base, sts: seq<Statement>, name: string): Option<Url> {
    if sts == [] then None
    else
      var last := sts[|sts| - 1];
      if Accepted(b, last).Some? && DeclaredName(last) == name then Accepted(b, last)
      else GraphUrl(b, sts[..|sts| - 1], name)
  }

  /** Statement `i` is in a graph declared before it. */
  predicate InAcceptedGraph(b: Base, sts: seq<Statement>, i: nat)
    requires i < |sts|
  {
    sts[i].graph.Some? && GraphUrl(b, sts[..i], sts[i].graph.value).Some?
  }

  predicate Inserted(b: Base, sts: seq<Statement>, i: nat)
    requires i < |sts|
  {
    InAcceptedGraph(b, sts, i) && SubjectText(b, sts[i].subject).Some?
  }

  function QuadOf(b: Base, sts: seq<Statement>, i: nat): Quad
    requires i < |sts| && Inserted(b, sts, i)
  {
    Quad(GraphText(b, GraphUrl(b, sts[..i], sts[i].graph.value).value), SubjectText(b, sts[i].subject).value,
         IriText(b, sts[i].verb), ObjectText(b, sts[i].obj))
  }

  ghost function AcceptedGraphs(b: Base, sts: seq<Statement>): set<string> {
    set i | 0 <= i < |sts| && Accepted(b, sts[i]).Some? :: GraphText(b, Accepted(b, sts[i]).value)
  }

  ghost function InsertedQuads(b: Base, sts: seq<Statement>): set<Quad> {
    set i | 0 <= i < |sts| && Inserted(b, sts, i) :: QuadOf(b, sts, i)
  }

  ghost function WantedHashes(b: Base, sts: seq<Statement>): set<string> {
    set i | 0 <= i < |sts| && InAcceptedGraph(b, sts, i) && sts[i].verb == SW_HASH && sts[i].obj.IriNode? :: sts[i].obj.iri
  }

  datatype Log = Unparsable(st: Statement) | OutsideBase(st: Statement) | NotInserted(st: Statement)

  /** The updates that statement `i` adds to the text of deletions. */
  function DropsOf(b: Base, st: Statement): seq<Update> {
    if Accepted(b, st).Some? then [Drop(GraphText(b, Accepted(b, st).value))] else []
  }

  function InsertsOf(b: Base, sts: seq<Statement>, i: nat): seq<Update>
    requires i < |sts|
  {
    if Inserted(b, sts, i) then [Insert(QuadOf(b, sts, i))] else []
  }

  function LogsOf(b: Base, sts: seq<Statement>, i: nat): seq<Log>
    requires i < |sts|
  {
    if IsDeclaration(sts[i]) then
      if b.resolve(RelativeUri(sts[i])).None? then [Unparsable(sts[i])]
      else if Accepted(b, sts[i]).None? then [OutsideBase(sts[i])]
      else []
    else if InAcceptedGraph(b, sts, i) then [] else [NotInserted(sts[i])]
  }

  function Drops(b: Base, sts: seq<Statement>, n: nat): seq<Update>
    requires n <= |sts|
  {
    if n == 0 then [] else Drops(b, sts, n - 1) + DropsOf(b, sts[n - 1])
  }

  function Inserts(b: Base, sts: seq<Statement>, n: nat): seq<Update>
    requires n <= |sts|
  {
    if n == 0 then [] else Inserts(b, sts, n - 1) + InsertsOf(b, sts, n - 1)
  }

  function Logs(b: Base, sts: seq<Statement>, n: nat): seq<Log>
    requires n <= |sts|
  {
    if n == 0 then [] else Logs(b, sts, n - 1) + LogsOf(b, sts, n - 1)
  }

  /** Statements in an accepted graph whose subject is neither an IRI nor a blank node; they are passed over silently. */
  function Skipped(b: Base, sts: seq<Statement>, n: nat): nat
    requires n <= |sts|
  {
    if n == 0 then 0
    else Skipped(b, sts, n - 1) + if InAcceptedGraph(b, sts, n - 1) && !Inserted(b, sts, n - 1) then 1 else 0
  }

  /** The updates that the statements stand for: the deletions, then the insertions. */
  function Meant(b: Base, sts: seq<Statement>): seq<Update> {
    Drops(b, sts, |sts|) + Inserts(b, sts, |sts|)
  }

  /** The text that is sent to the store. */
  function BundleText(b: Base, sts: seq<Statement>): string {
    Spell(Joined(Drops(b, sts, |sts|), Inserts(b, sts, |sts|)))
  }

  // ---------------------------------------------------------------- when the text means the updates

  predicate UrlOk(b: Base, u: Url) {
    '\U{1B}' !in b.show(u)
  }

  predicate IriOk(b: Base, iri: string) {
    match b.resolve(iri)
    case None => '\U{1B}' !in iri
    case Some(u) => UrlOk(b, u)
  }

  /** The label is a BLANK_NODE_LABEL, the tag a LANGTAG, and no printed IRI has a U+001B. */
  predicate NodeOk(b: Base, node: Node) {
    match node
    case IriNode(iri) => IriOk(b, iri)
    case BlankNode(name) => IsLabel(name)
    case LiteralNode(_, lang, typ) =>
      if lang != "" then IsTag(lang) else typ != XSD_STRING && typ != "" ==> '\U{1B}' !in typ
  }

  predicate StatementOk(b: Base, sts: seq<Statement>, i: nat)
    requires i < |sts|
  {
    && (Accepted(b, sts[i]).Some? ==> UrlOk(b, Accepted(b, sts[i]).value))
    && (Inserted(b, sts, i) ==> NodeOk(b, sts[i].subject) && IriOk(b, sts[i].verb) && NodeOk(b, sts[i].obj))
  }

  /** Every term that is printed is one term of the language: see TermIsOneToken. */
  ghost predicate WellFormed(b: Base, sts: seq<Statement>) {
    forall i :: 0 <= i < |sts| ==> StatementOk(b, sts, i)
  }

  lemma TextsAreNotEmpty(b: Base, node: Node)
    ensures ObjectText(b, node) != ""
    ensures SubjectText(b, node).Some? ==> SubjectText(b, node).value != ""
  {
  }

  lemma TermsAreText(b: Base, u: Url, st: Statement)
    ensures GraphText(b, u) != "" && IriText(b, st.verb) != "" && ObjectText(b, st.obj) != ""
    ensures SubjectText(b, st.subject).Some? ==> SubjectText(b, st.subject).value != ""
  {
    TextsAreNotEmpty(b, st.obj);
    TextsAreNotEmpty(b, st.subject);
  }

  lemma IriIsOk(b: Base, iri: string)
    ensures OneTerm(IriText(b, iri)) <==> IriOk(b, iri)
  {
    IriIsTerm(match b.resolve(iri) case None => iri case Some(u) => b.show(u));
  }

  lemma NodeIsOk(b: Base, node: Node)
    ensures OneTerm(ObjectText(b, node)) <==> NodeOk(b, node)
    ensures SubjectText(b, node).Some? ==> (OneTerm(SubjectText(b, node).value) <==> NodeOk(b, node))
  {
    hide OneTerm, IsTag, IsLabel;
    match node {
      case IriNode(iri) => IriIsOk(b, iri);
      case BlankNode(name) => BlankIsTerm(name);
      case LiteralNode(text, lang, typ) =>
        StringIsTerm(text);
        TaggedIsTerm(text, lang);
        TypedIsTerm(text, typ);
    }
  }

  /** A printed term, before anything that cannot continue it, is read as exactly this term if and only if its label
      is a BLANK_NODE_LABEL, its tag a LANGTAG, and its IRI free of U+001B. */
  lemma TermIsOneToken(b: Base, node: Node, rest: string)
    requires Stops(rest)
    ensures ReadToken(ObjectText(b, node) + rest) == Some((Term(ObjectText(b, node)), rest)) <==> NodeOk(b, node)
    ensures SubjectText(b, node).Some? ==>
              (ReadToken(SubjectText(b, node).value + rest) == Some((Term(SubjectText(b, node).value), rest)) <==> NodeOk(b, node))
  {
    hide ReadToken, NodeOk, ObjectText, SubjectText, OneTerm;
    NodeIsOk(b, node);
    TextsAreNotEmpty(b, node);
    ReadsAsTerm(ObjectText(b, node), rest);
    if SubjectText(b, node).Some? {
      ReadsAsTerm(SubjectText(b, node).value, rest);
    }
  }

  /** A name has a URL just when some earlier declaration of it was accepted. */
  lemma {:induction false} GraphUrlIsAccepted(b: Base, sts: seq<Statement>, name: string)
    ensures GraphUrl(b, sts, name).Some? <==>
              exists i :: 0 <= i < |sts| && Accepted(b, sts[i]).Some? && DeclaredName(sts[i]) == name
    ensures GraphUrl(b, sts, name).Some? ==>
              exists i :: 0 <= i < |sts| && Accepted(b, sts[i]) == GraphUrl(b, sts, name) && DeclaredName(sts[i]) == name
  {
    if sts != [] {
      var n := |sts| - 1;
      GraphUrlIsAccepted(b, sts[..n], name);
      assert forall i :: 0 <= i < n ==> sts[..n][i] == sts[i];
      if Accepted(b, sts[n]).Some? && DeclaredName(sts[n]) == name {
        assert GraphUrl(b, sts, name) == Accepted(b, sts[n]);
      } else {
        assert GraphUrl(b, sts, name) == GraphUrl(b, sts[..n], name);
      }
    }
  }

  lemma DropsWhole(b: Base, sts: seq<Statement>, n: nat)
    requires n <= |sts|
    ensures AllWhole(Drops(b, sts, n)) <==>
              forall i :: 0 <= i < n && Accepted(b, sts[i]).Some? ==> UrlOk(b, Accepted(b, sts[i]).value)
  {
    hide Accepted, UrlOk, OneTerm, GraphText;
    if n > 0 {
      DropsWhole(b, sts, n - 1);
      AllWholeParts(Drops(b, sts, n - 1), DropsOf(b, sts[n - 1]));
      if Accepted(b, sts[n - 1]).Some? {
        AllWholeOne(Drop(GraphText(b, Accepted(b, sts[n - 1]).value)));
        UrlIsOk(b, Accepted(b, sts[n - 1]).value);
      }
    }
  }

  lemma UrlIsOk(b: Base, u: Url)
    ensures OneTerm(GraphText(b, u)) <==> UrlOk(b, u)
  {
    IriIsTerm(b.show(u));
  }

  /** The graph of an inserted quad was declared. */
  lemma InsertWhole(b: Base, sts: seq<Statement>, i: nat)
    requires i < |sts| && Inserted(b, sts, i)
    requires forall k :: 0 <= k < |sts| && Accepted(b, sts[k]).Some? ==> UrlOk(b, Accepted(b, sts[k]).value)
    ensures WholeQuad(QuadOf(b, sts, i)) <==> StatementOk(b, sts, i)
  {
    hide Accepted, UrlOk, OneTerm, IriOk, NodeOk, IriText, ObjectText, SubjectText, GraphText;
    GraphUrlIsAccepted(b, sts[..i], sts[i].graph.value);
    var j :| 0 <= j < i && Accepted(b, sts[..i][j]) == GraphUrl(b, sts[..i], sts[i].graph.value);
    assert sts[..i][j] == sts[j];
    UrlIsOk(b, GraphUrl(b, sts[..i], sts[i].graph.value).value);
    NodeIsOk(b, sts[i].subject);
    IriIsOk(b, sts[i].verb);
    NodeIsOk(b, sts[i].obj);
  }

  lemma {:induction false} InsertsWhole(b: Base, sts: seq<Statement>, n: nat)
    requires n <= |sts|
    requires forall k :: 0 <= k < |sts| && Accepted(b, sts[k]).Some? ==> UrlOk(b, Accepted(b, sts[k]).value)
    ensures AllWhole(Inserts(b, sts, n)) <==> forall i :: 0 <= i < n ==> StatementOk(b, sts, i)
  {
    hide Accepted, UrlOk, WholeQuad, Inserted, AllWhole, QuadOf, NodeOk, IriOk;
    AllWholeNone();
    if n > 0 {
      InsertsWhole(b, sts, n - 1);
      AllWholeParts(Inserts(b, sts, n - 1), InsertsOf(b, sts, n - 1));
      if Inserted(b, sts, n - 1) {
        AllWholeOne(Insert(QuadOf(b, sts, n - 1)));
        InsertWhole(b, sts, n - 1);
      }
    }
  }

  lemma MeantWhole(b: Base, sts: seq<Statement>)
    ensures AllWhole(Meant(b, sts)) <==> WellFormed(b, sts)
  {
    hide Accepted, UrlOk, Inserted, AllWhole;
    DropsWhole(b, sts, |sts|);
    AllWholeParts(Drops(b, sts, |sts|), Inserts(b, sts, |sts|));
    if AllWhole(Drops(b, sts, |sts|)) {
      InsertsWhole(b, sts, |sts|);
    } else if WellFormed(b, sts) {
      forall i | 0 <= i < |sts|
        ensures Accepted(b, sts[i]).Some? ==> UrlOk(b, Accepted(b, sts[i]).value)
      {
        assert StatementOk(b, sts, i);
      }
    }
  }

  lemma {:induction false} MeantPrintable(b: Base, sts: seq<Statement>, n: nat)
    requires n <= |sts|
    ensures AllPrintable(Drops(b, sts, n)) && AllPrintable(Inserts(b, sts, n))
  {
    hide Accepted, GraphText, IriText, ObjectText, SubjectText;
    if n > 0 {
      MeantPrintable(b, sts, n - 1);
      if Inserted(b, sts, n - 1) {
        TermsAreText(b, GraphUrl(b, sts[..n - 1], sts[n - 1].graph.value).value, sts[n - 1]);
      }
    }
  }

  /** The characters sent to the store mean the updates that the statements stand for, if and only if every printed
      term is well formed. */
  lemma BundleTextMeans(b: Base, sts: seq<Statement>)
    ensures ReadUpdate(BundleText(b, sts)) == Some(Meant(b, sts)) <==> WellFormed(b, sts)
  {
    hide ReadUpdate, AllWhole, AllPrintable, Drops, Inserts, WellFormed;
    MeantPrintable(b, sts, |sts|);
    MeantWhole(b, sts);
    JoinedTextMeans(Drops(b, sts, |sts|), Inserts(b, sts, |sts|));
  }
}
