/** What the walk of a directory writes into a bundle (cmd/swbundle/main.go:75-156, bundle/writer.go:54-99). */
module BundleWalk {
  import opened Options
  import opened NQuads
  import W = NQuadsWriter
  import opened NQuadsRoundTrip
  import opened BundleModel
  import opened BundleMeaning

  const SW_CHILD := SW_NAMESPACE + "child"
  const SW_CONTENT_TYPE := SW_NAMESPACE + "contentType"
  const SW_BASE_URI := SW_NAMESPACE + "baseUri"
  const SW_RELOCATABLE := SW_NAMESPACE + "RelocatableGraph"
  const RDF_TYPE := "http://www.w3.org/" + "1999/02/22-rdf-" + "syntax-ns#type"

  /** What the directory walk finds; a broken entry cannot be opened. Names hold no slash and are neither empty nor
      a dot name, so joining one to a directory path appends it. */
  datatype Tree = Directory(entries: seq<Entry>) | File(content: string) | Broken
  datatype Entry = Entry(name: string, tree: Tree)

  /** The library functions the walk relies on: the digest of a content in lower-case hexadecimal digits, and the
      type found for a path and a content. */
  datatype Library = Library(sha1: string -> string, mimeType: (string, string) -> string)

  /** A file of the archive, with the path it had. */
  datatype Stored = Stored(path: string, hash: string, content: string)

  function HashName(lib: Library, content: string): string {
    "sha1:" + lib.sha1(content)
  }

  // ---------------------------------------------------------------- what the walk emits

  /** The writer's calls, the files added to the archive, and whether the walk came to its end. */
  datatype Out = Out(calls: seq<W.Call>, files: seq<Stored>, ok: bool)

  function Declaration(path: string): W.Call {
    W.Triple(PlainString(path), SW_RELATIVE_PATH, PlainString(path))
  }

  function ChildCalls(path: string, parent: Option<string>): seq<W.Call> {
    match parent
    case None => []
    case Some(p) => [W.Quad(PlainString(p), SW_CHILD, Iri(path), p)]
  }

  /** The calls of InsertFile. */
  function InsertCalls(lib: Library, fullUri: string, name: string, content: string): seq<W.Call> {
    [W.EmptyLine, W.Comment(" " + name),
     W.Triple(PlainString(fullUri), SW_RELATIVE_PATH, PlainString(name)),
     W.Quad(PlainString(fullUri), SW_HASH, Iri(HashName(lib, content)), fullUri)]
  }

  function FileCalls(lib: Library, path: string, content: string): seq<W.Call> {
    InsertCalls(lib, path, path, content)
    + [W.Quad(PlainString(path), SW_CONTENT_TYPE, PlainString(lib.mimeType(path, content)), path)]
  }

  function Emits(lib: Library, tree: Tree, path: string, parent: Option<string>): Out
    decreases tree, if tree.Directory? then |tree.entries| + 1 else 0
  {
    match tree
    case Broken => Out([], [], false)
    case File(content) =>
      Out(ChildCalls(path, parent) + FileCalls(lib, path, content), [Stored(path, HashName(lib, content), content)], true)
    case Directory(entries) =>
      var p := if path != "" then path + "/" else path;
      var inside := EmitsFirst(lib, tree, p, |entries|);
      Out([Declaration(p)] + ChildCalls(p, parent) + inside.calls, inside.files, inside.ok)
  }

  /** The first entries of a directory, up to the first that fails. */
  function EmitsFirst(lib: Library, dir: Tree, path: string, n: nat): Out
    requires dir.Directory? && n <= |dir.entries|
    decreases dir, n
  {
    if n == 0 then Out([], [], true)
    else
      var before := EmitsFirst(lib, dir, path, n - 1);
      if !before.ok then before
      else
        var entry := dir.entries[n - 1];
        var last := Emits(lib, entry.tree, path + entry.name, Some(path));
        Out(before.calls + last.calls, before.files + last.files, last.ok)
  }

  function Preamble(baseUri: string): seq<W.Call> {
    [W.Comment(" Relocatable SmartWeb Graph"), W.Triple(PlainString(""), RDF_TYPE, Iri(SW_RELOCATABLE))]
    + if baseUri != "" then [W.Triple(PlainString(""), SW_BASE_URI, Iri(baseUri))] else []
  }

  function BundleCalls(lib: Library, tree: Tree, baseUri: string): seq<W.Call> {
    Preamble(baseUri) + Emits(lib, tree, "", None).calls
  }

  // ---------------------------------------------------------------- graphs are declared before they are used

  /** A statement that fits what was declared before it: its graph is among the declared ones, and a declaration names
      its own relative URI. */
  predicate Fits(declared: set<string>, st: Statement) {
    && st.subject.IriNode?
    && (st.graph.Some? ==> st.graph.value in declared)
    && (IsDeclaration(st) ==> RelativeUri(st) == st.subject.iri)
  }

  function Grown(declared: set<string>, st: Statement): set<string> {
    if IsDeclaration(st) then declared + {DeclaredName(st)} else declared
  }

  ghost predicate Closed(declared: set<string>, sts: seq<Statement>)
    decreases |sts|
  {
    sts == [] || (Fits(declared, sts[0]) && Closed(Grown(declared, sts[0]), sts[1..]))
  }

  function GrownAll(declared: set<string>, sts: seq<Statement>): set<string>
    decreases |sts|
  {
    if sts == [] then declared else GrownAll(Grown(declared, sts[0]), sts[1..])
  }

  lemma {:induction false} ClosedConcat(declared: set<string>, a: seq<Statement>, b: seq<Statement>)
    requires Closed(declared, a) && Closed(GrownAll(declared, a), b)
    ensures Closed(declared, a + b) && GrownAll(declared, a + b) == GrownAll(GrownAll(declared, a), b)
    decreases |a|
  {
    hide Fits, Grown;
    if a == [] {
      assert a + b == b;
    } else {
      assert (a + b)[1..] == a[1..] + b;
      ClosedConcat(Grown(declared, a[0]), a[1..], b);
    }
  }

  lemma {:induction false} GrownGrows(declared: set<string>, sts: seq<Statement>)
    ensures declared <= GrownAll(declared, sts)
    decreases |sts|
  {
    if sts != [] {
      GrownGrows(Grown(declared, sts[0]), sts[1..]);
    }
  }

  function MeaningOf(c: W.Call): seq<Statement> {
    if IsStatement(c) then [Meaning(c)] else []
  }

  lemma MeaningsStep(c: W.Call, more: seq<W.Call>)
    ensures Meanings([c] + more) == MeaningOf(c) + Meanings(more)
  {
    hide IsStatement, Meaning;
    assert ([c] + more)[1..] == more;
  }

  lemma {:induction false} MeaningsConcat(a: seq<W.Call>, b: seq<W.Call>)
    ensures Meanings(a + b) == Meanings(a) + Meanings(b)
    decreases |a|
  {
    if a == [] {
      assert a + b == b;
    } else {
      hide Meanings, MeaningOf;
      assert a == [a[0]] + a[1..] && a + b == [a[0]] + (a[1..] + b);
      MeaningsStep(a[0], a[1..]);
      MeaningsStep(a[0], a[1..] + b);
      MeaningsConcat(a[1..], b);
    }
  }

  lemma VerbsDiffer()
    ensures SW_CHILD != SW_RELATIVE_PATH && SW_HASH != SW_RELATIVE_PATH && SW_CONTENT_TYPE != SW_RELATIVE_PATH && SW_BASE_URI != SW_RELATIVE_PATH
    ensures SW_CHILD != SW_HASH && SW_CONTENT_TYPE != SW_HASH && RDF_TYPE != SW_RELATIVE_PATH
  {
    assert |SW_CHILD| == |SW_NAMESPACE| + 5 && |SW_HASH| == |SW_NAMESPACE| + 4 && |SW_CONTENT_TYPE| == |SW_NAMESPACE| + 11;
    assert |SW_BASE_URI| == |SW_NAMESPACE| + 7 && |SW_RELATIVE_PATH| == |SW_NAMESPACE| + 12;
    assert |RDF_TYPE| == 47 && |SW_NAMESPACE| == 32;
  }

  /** The statements of the calls that declare a path, or say something in a declared graph. */
  lemma DeclarationClosed(declared: set<string>, path: string)
    ensures Meanings([Declaration(path)]) == [Statement(IriNode(path), SW_RELATIVE_PATH, LiteralNode(path, "", XSD_STRING), None)]
    ensures Closed(declared, Meanings([Declaration(path)])) && GrownAll(declared, Meanings([Declaration(path)])) == declared + {path}
  {
    var st := Statement(IriNode(path), SW_RELATIVE_PATH, LiteralNode(path, "", XSD_STRING), None);
    assert [Declaration(path)][1..] == [];
    assert [st][1..] == [];
    assert Closed(declared + {path}, []);
  }

  lemma QuadClosed(declared: set<string>, graph: string, verb: string, obj: Value)
    requires graph in declared && (obj.Iri? || obj.PlainString?)
    ensures Meanings([W.Quad(PlainString(graph), verb, obj, graph)]) == [Statement(IriNode(graph), verb, ObjectNode(obj), Some(graph))]
    ensures var sts := Meanings([W.Quad(PlainString(graph), verb, obj, graph)]);
            Closed(declared, sts) && GrownAll(declared, sts) == declared
  {
    var c := W.Quad(PlainString(graph), verb, obj, graph);
    var st := Statement(IriNode(graph), verb, ObjectNode(obj), Some(graph));
    assert [c][1..] == [] && [st][1..] == [];
    assert Closed(declared, []);
  }

  lemma CallsClosed(declared: set<string>, a: seq<W.Call>, b: seq<W.Call>)
    requires Closed(declared, Meanings(a)) && Closed(GrownAll(declared, Meanings(a)), Meanings(b))
    ensures Closed(declared, Meanings(a + b))
    ensures GrownAll(declared, Meanings(a + b)) == GrownAll(GrownAll(declared, Meanings(a)), Meanings(b))
  {
    hide Closed, GrownAll, Meanings;
    MeaningsConcat(a, b);
    ClosedConcat(declared, Meanings(a), Meanings(b));
  }

  lemma ChildClosed(declared: set<string>, path: string, parent: Option<string>)
    requires parent.Some? ==> parent.value in declared
    ensures Closed(declared, Meanings(ChildCalls(path, parent))) && GrownAll(declared, Meanings(ChildCalls(path, parent))) == declared
  {
    match parent {
      case None =>
      case Some(p) => QuadClosed(declared, p, SW_CHILD, Iri(path));
    }
  }

  lemma FileClosed(lib: Library, declared: set<string>, path: string, content: string)
    ensures Closed(declared, Meanings(FileCalls(lib, path, content)))
  {
    hide Closed, GrownAll, Meanings;
    var now := declared + {path};
    var hash := W.Quad(PlainString(path), SW_HASH, Iri(HashName(lib, content)), path);
    var mime := W.Quad(PlainString(path), SW_CONTENT_TYPE, PlainString(lib.mimeType(path, content)), path);
    FileStatements(lib, path, content);
    DeclarationClosed(declared, path);
    QuadClosed(now, path, SW_HASH, Iri(HashName(lib, content)));
    QuadClosed(now, path, SW_CONTENT_TYPE, PlainString(lib.mimeType(path, content)));
    CallsClosed(declared, [Declaration(path)], [hash]);
    CallsClosed(declared, [Declaration(path)] + [hash], [mime]);
  }

  /** The blank line and the comment say nothing. */
  lemma FileStatements(lib: Library, path: string, content: string)
    ensures Meanings(FileCalls(lib, path, content)) ==
            Meanings([Declaration(path)] + [W.Quad(PlainString(path), SW_HASH, Iri(HashName(lib, content)), path)]
                     + [W.Quad(PlainString(path), SW_CONTENT_TYPE, PlainString(lib.mimeType(path, content)), path)])
  {
    hide Meanings;
    var said := [Declaration(path)] + [W.Quad(PlainString(path), SW_HASH, Iri(HashName(lib, content)), path)]
                + [W.Quad(PlainString(path), SW_CONTENT_TYPE, PlainString(lib.mimeType(path, content)), path)];
    assert FileCalls(lib, path, content) == [W.EmptyLine] + ([W.Comment(" " + path)] + said);
    MeaningsStep(W.EmptyLine, [W.Comment(" " + path)] + said);
    MeaningsStep(W.Comment(" " + path), said);
  }

  /** Each quad the walk emits names a graph declared earlier. */
  lemma {:induction false} TreeClosed(lib: Library, tree: Tree, path: string, parent: Option<string>, declared: set<string>)
    requires parent.Some? ==> parent.value in declared
    ensures Closed(declared, Meanings(Emits(lib, tree, path, parent).calls))
    decreases tree, if tree.Directory? then |tree.entries| + 1 else 0
  {
    hide Closed, GrownAll, Meanings, ChildCalls, FileCalls;
    match tree {
      case Broken => NothingClosed(declared);
      case File(content) =>
        ChildClosed(declared, path, parent);
        FileClosed(lib, declared, path, content);
        CallsClosed(declared, ChildCalls(path, parent), FileCalls(lib, path, content));
      case Directory(entries) =>
        var p := if path != "" then path + "/" else path;
        var inside := EmitsFirst(lib, tree, p, |entries|);
        DeclarationClosed(declared, p);
        ChildClosed(declared + {p}, p, parent);
        CallsClosed(declared, [Declaration(p)], ChildCalls(p, parent));
        FirstClosed(lib, tree, p, |entries|, declared + {p});
        CallsClosed(declared, [Declaration(p)] + ChildCalls(p, parent), inside.calls);
    }
  }

  lemma {:induction false} FirstClosed(lib: Library, dir: Tree, path: string, n: nat, declared: set<string>)
    requires dir.Directory? && n <= |dir.entries| && path in declared
    ensures Closed(declared, Meanings(EmitsFirst(lib, dir, path, n).calls))
    decreases dir, n
  {
    hide Closed, GrownAll, Meanings, Emits;
    if n == 0 {
      NothingClosed(declared);
    } else {
      FirstClosed(lib, dir, path, n - 1, declared);
      var before := EmitsFirst(lib, dir, path, n - 1);
      if before.ok {
        var entry := dir.entries[n - 1];
        GrownGrows(declared, Meanings(before.calls));
        TreeClosed(lib, entry.tree, path + entry.name, Some(path), GrownAll(declared, Meanings(before.calls)));
        CallsClosed(declared, before.calls, Emits(lib, entry.tree, path + entry.name, Some(path)).calls);
      }
    }
  }

  lemma NothingClosed(declared: set<string>)
    ensures Closed(declared, Meanings([]))
  {
  }

  function AboutBundle(baseUri: string): seq<Statement> {
    [Statement(IriNode(""), RDF_TYPE, IriNode(SW_RELOCATABLE), None)]
    + if baseUri != "" then [Statement(IriNode(""), SW_BASE_URI, IriNode(baseUri), None)] else []
  }

  lemma AboutClosed(baseUri: string)
    ensures Closed({}, AboutBundle(baseUri)) && GrownAll({}, AboutBundle(baseUri)) == {}
  {
    VerbsDiffer();
    hide RDF_TYPE, SW_RELATIVE_PATH, SW_BASE_URI;
    var said := AboutBundle(baseUri);
    assert Fits({}, said[0]) && Grown({}, said[0]) == {};
    if baseUri != "" {
      assert said[1..] == [said[1]] && [said[1]][1..] == [];
      assert Fits({}, said[1]) && Grown({}, said[1]) == {};
      assert Closed({}, [said[1]]) && GrownAll({}, [said[1]]) == {};
    } else {
      assert said[1..] == [];
    }
  }

  /** The comment and the triples about the bundle itself declare nothing. */
  lemma PreambleStatements(baseUri: string)
    ensures Meanings(Preamble(baseUri)) == AboutBundle(baseUri)
  {
    hide Meanings;
    var comment := W.Comment(" Relocatable SmartWeb Graph");
    var kind := W.Triple(PlainString(""), RDF_TYPE, Iri(SW_RELOCATABLE));
    var base := if baseUri != "" then [W.Triple(PlainString(""), SW_BASE_URI, Iri(baseUri))] else [];
    assert Preamble(baseUri) == [comment] + ([kind] + base);
    MeaningsStep(comment, [kind] + base);
    MeaningsStep(kind, base);
    NoMeanings();
    if baseUri != "" {
      assert base == [base[0]] + [];
      MeaningsStep(base[0], []);
    }
  }

  lemma NoMeanings()
    ensures Meanings([]) == []
  {
  }

  function BundleStatementsOf(lib: Library, tree: Tree, baseUri: string): seq<Statement> {
    Meanings(BundleCalls(lib, tree, baseUri))
  }

  /** The whole bundle, from nothing declared. */
  lemma BundleClosed(lib: Library, tree: Tree, baseUri: string)
    ensures Closed({}, BundleStatementsOf(lib, tree, baseUri))
  {
    hide Meanings, Emits, Preamble, Closed, GrownAll, AboutBundle;
    PreambleStatements(baseUri);
    AboutClosed(baseUri);
    TreeClosed(lib, tree, "", None, {});
    CallsClosed({}, Preamble(baseUri), Emits(lib, tree, "", None).calls);
  }

  // ---------------------------------------------------------------- what is inserted

  /** The name resolves to a URL under the base. */
  predicate UnderBase(b: Base, name: string) {
    b.resolve(name).Some? && Under(b.url, b.resolve(name).value)
  }

  /** In a closed list a graph in use was declared before. */
  lemma {:induction false} DeclaredBefore(declared: set<string>, sts: seq<Statement>, i: nat)
    requires Closed(declared, sts) && i < |sts|
    ensures sts[i].subject.IriNode? && (IsDeclaration(sts[i]) ==> RelativeUri(sts[i]) == DeclaredName(sts[i]))
    ensures sts[i].graph.Some? ==>
              sts[i].graph.value in declared || exists j :: 0 <= j < i && IsDeclaration(sts[j]) && DeclaredName(sts[j]) == sts[i].graph.value
    decreases |sts|
  {
    if i > 0 {
      var tail := sts[1..];
      DeclaredBefore(Grown(declared, sts[0]), tail, i - 1);
      assert tail[i - 1] == sts[i];
      if sts[i].graph.Some? && exists j :: 0 <= j < i - 1 && IsDeclaration(tail[j]) && DeclaredName(tail[j]) == sts[i].graph.value {
        var j :| 0 <= j < i - 1 && IsDeclaration(tail[j]) && DeclaredName(tail[j]) == sts[i].graph.value;
        assert sts[j + 1] == tail[j];
      }
    }
  }

  /** A statement of a closed list is inserted exactly when its graph's name resolves under the base. */
  lemma InsertedIff(b: Base, sts: seq<Statement>, i: nat)
    requires Closed({}, sts) && i < |sts| && sts[i].graph.Some?
    ensures Inserted(b, sts, i) <==> UnderBase(b, sts[i].graph.value)
    ensures InAcceptedGraph(b, sts, i) <==> UnderBase(b, sts[i].graph.value)
  {
    hide Closed;
    var g := sts[i].graph.value;
    forall u ensures IsSubUrl(b.url, u) <==> Under(b.url, u) {
      UnderIff(b.url, u);
    }
    DeclaredBefore({}, sts, i);
    GraphUrlIsAccepted(b, sts[..i], g);
    forall j | 0 <= j < i
      ensures sts[..i][j] == sts[j] && (IsDeclaration(sts[j]) ==> RelativeUri(sts[j]) == DeclaredName(sts[j]))
    {
      DeclaredBefore({}, sts, j);
    }
    if UnderBase(b, g) {
      var j :| 0 <= j < i && IsDeclaration(sts[j]) && DeclaredName(sts[j]) == g;
      assert Accepted(b, sts[..i][j]).Some?;
    }
  }

  /** For every directory tree: each quad of its bundle is inserted if and only if its graph's name resolves under the
      base; in particular all are when all names do. */
  lemma BundleInserts(b: Base, lib: Library, tree: Tree, baseUri: string, i: nat)
    requires i < |BundleStatementsOf(lib, tree, baseUri)| && BundleStatementsOf(lib, tree, baseUri)[i].graph.Some?
    ensures var sts := BundleStatementsOf(lib, tree, baseUri);
            Inserted(b, sts, i) <==> UnderBase(b, sts[i].graph.value)
  {
    hide BundleStatementsOf;
    BundleClosed(lib, tree, baseUri);
    InsertedIff(b, BundleStatementsOf(lib, tree, baseUri), i);
  }

  // ---------------------------------------------------------------- the files that are asked for

  /** The graph and the hash of a statement about a hash. */
  function HashPair(st: Statement): seq<(string, string)> {
    if st.graph.Some? && st.verb == SW_HASH && st.obj.IriNode? then [(st.graph.value, st.obj.iri)] else []
  }

  function HashPairs(sts: seq<Statement>): seq<(string, string)> {
    if sts == [] then [] else HashPair(sts[0]) + HashPairs(sts[1..])
  }

  function FilePairs(files: seq<Stored>): seq<(string, string)> {
    if files == [] then [] else [(files[0].path, files[0].hash)] + FilePairs(files[1..])
  }

  lemma {:induction false} HashPairsConcat(a: seq<Statement>, b: seq<Statement>)
    ensures HashPairs(a + b) == HashPairs(a) + HashPairs(b)
    decreases |a|
  {
    hide HashPair;
    if a == [] {
      assert a + b == b;
    } else {
      assert (a + b)[1..] == a[1..] + b;
      HashPairsConcat(a[1..], b);
    }
  }

  lemma {:induction false} FilePairsConcat(a: seq<Stored>, b: seq<Stored>)
    ensures FilePairs(a + b) == FilePairs(a) + FilePairs(b)
    decreases |a|
  {
    if a == [] {
      assert a + b == b;
    } else {
      assert (a + b)[1..] == a[1..] + b;
      FilePairsConcat(a[1..], b);
    }
  }

  /** The hashes of the calls' statements. */
  function CallPairs(calls: seq<W.Call>): seq<(string, string)> {
    HashPairs(Meanings(calls))
  }

  lemma CallPairsConcat(a: seq<W.Call>, b: seq<W.Call>)
    ensures CallPairs(a + b) == CallPairs(a) + CallPairs(b)
  {
    hide Meanings, HashPairs;
    MeaningsConcat(a, b);
    HashPairsConcat(Meanings(a), Meanings(b));
  }

  lemma SinglePair(st: Statement)
    ensures HashPairs([st]) == HashPair(st)
  {
    assert [st][1..] == [];
  }

  lemma DeclarationPairs(path: string)
    ensures CallPairs([Declaration(path)]) == []
  {
    DeclarationClosed({}, path);
    SinglePair(Statement(IriNode(path), SW_RELATIVE_PATH, LiteralNode(path, "", XSD_STRING), None));
  }

  lemma QuadPairs(graph: string, verb: string, obj: Value)
    requires obj.Iri? || obj.PlainString?
    ensures CallPairs([W.Quad(PlainString(graph), verb, obj, graph)]) ==
            if verb == SW_HASH && obj.Iri? then [(graph, obj.iri)] else []
  {
    hide Meanings;
    QuadClosed({graph}, graph, verb, obj);
    SinglePair(Statement(IriNode(graph), verb, ObjectNode(obj), Some(graph)));
  }

  lemma ChildPairs(path: string, parent: Option<string>)
    ensures CallPairs(ChildCalls(path, parent)) == []
  {
    match parent {
      case None =>
      case Some(p) =>
        VerbsDiffer();
        QuadPairs(p, SW_CHILD, Iri(path));
    }
  }

  lemma FileHashes(lib: Library, path: string, content: string)
    ensures CallPairs(FileCalls(lib, path, content)) == [(path, HashName(lib, content))]
  {
    hide Meanings, HashPairs;
    var hash := W.Quad(PlainString(path), SW_HASH, Iri(HashName(lib, content)), path);
    var mime := W.Quad(PlainString(path), SW_CONTENT_TYPE, PlainString(lib.mimeType(path, content)), path);
    FileStatements(lib, path, content);
    CallPairsConcat([Declaration(path)] + [hash], [mime]);
    CallPairsConcat([Declaration(path)], [hash]);
    DeclarationPairs(path);
    QuadPairs(path, SW_HASH, Iri(HashName(lib, content)));
    QuadPairs(path, SW_CONTENT_TYPE, PlainString(lib.mimeType(path, content)));
    VerbsDiffer();
  }

  /** The hash statements are those of the files put into the archive, in order. */
  lemma {:induction false} TreeHashes(lib: Library, tree: Tree, path: string, parent: Option<string>)
    ensures CallPairs(Emits(lib, tree, path, parent).calls) == FilePairs(Emits(lib, tree, path, parent).files)
    decreases tree, if tree.Directory? then |tree.entries| + 1 else 0
  {
    hide CallPairs, ChildCalls, FileCalls, Declaration;
    ChildPairs(path, parent);
    match tree {
      case Broken => NoPairs();
      case File(content) =>
        FileHashes(lib, path, content);
        CallPairsConcat(ChildCalls(path, parent), FileCalls(lib, path, content));
        assert [Stored(path, HashName(lib, content), content)][1..] == [];
      case Directory(entries) =>
        var p := if path != "" then path + "/" else path;
        var inside := EmitsFirst(lib, tree, p, |entries|);
        DeclarationPairs(p);
        ChildPairs(p, parent);
        FirstHashes(lib, tree, p, |entries|);
        CallPairsConcat([Declaration(p)], ChildCalls(p, parent));
        CallPairsConcat([Declaration(p)] + ChildCalls(p, parent), inside.calls);
    }
  }

  lemma NoPairs()
    ensures CallPairs([]) == [] && FilePairs([]) == []
  {
  }

  lemma {:induction false} FirstHashes(lib: Library, dir: Tree, path: string, n: nat)
    requires dir.Directory? && n <= |dir.entries|
    ensures CallPairs(EmitsFirst(lib, dir, path, n).calls) == FilePairs(EmitsFirst(lib, dir, path, n).files)
    decreases dir, n
  {
    hide CallPairs, Emits, FilePairs;
    if n == 0 {
      NoPairs();
    } else {
      FirstHashes(lib, dir, path, n - 1);
      var before := EmitsFirst(lib, dir, path, n - 1);
      if before.ok {
        var entry := dir.entries[n - 1];
        var last := Emits(lib, entry.tree, path + entry.name, Some(path));
        TreeHashes(lib, entry.tree, path + entry.name, Some(path));
        CallPairsConcat(before.calls, last.calls);
        FilePairsConcat(before.files, last.files);
      }
    }
  }

  lemma {:induction false} InPairs(sts: seq<Statement>, g: string, h: string)
    ensures (g, h) in HashPairs(sts) <==>
            exists i :: 0 <= i < |sts| && sts[i].graph == Some(g) && sts[i].verb == SW_HASH && sts[i].obj == IriNode(h)
    decreases |sts|
  {
    if sts != [] {
      var tail := sts[1..];
      InPairs(tail, g, h);
      assert forall i :: 0 <= i < |tail| ==> tail[i] == sts[i + 1];
      if exists i :: 0 <= i < |sts| && sts[i].graph == Some(g) && sts[i].verb == SW_HASH && sts[i].obj == IriNode(h) {
        var i :| 0 <= i < |sts| && sts[i].graph == Some(g) && sts[i].verb == SW_HASH && sts[i].obj == IriNode(h);
        assert i > 0 ==> tail[i - 1] == sts[i];
      }
    }
  }

  lemma {:induction false} InFilePairs(files: seq<Stored>, g: string, h: string)
    ensures (g, h) in FilePairs(files) <==> exists f :: f in files && f.path == g && f.hash == h
    decreases |files|
  {
    if files != [] {
      InFilePairs(files[1..], g, h);
    }
  }

  /** The hashes asked for are exactly those of the files whose paths resolve under the base. */
  lemma BundleWants(b: Base, lib: Library, tree: Tree, baseUri: string)
    ensures WantedHashes(b, BundleStatementsOf(lib, tree, baseUri)) ==
            set f | f in Emits(lib, tree, "", None).files && UnderBase(b, f.path) :: f.hash
  {
    hide Emits, Preamble, HashPairs, Meanings, Closed, InAcceptedGraph;
    var sts, files := BundleStatementsOf(lib, tree, baseUri), Emits(lib, tree, "", None).files;
    BundleClosed(lib, tree, baseUri);
    BundlePairs(lib, tree, baseUri);
    var wanted := set f | f in files && UnderBase(b, f.path) :: f.hash;
    forall h | h in WantedHashes(b, sts)
      ensures h in wanted
    {
      var i :| 0 <= i < |sts| && InAcceptedGraph(b, sts, i) && sts[i].verb == SW_HASH && sts[i].obj.IriNode? && sts[i].obj.iri == h;
      AcceptedHasGraph(b, sts, i);
      InsertedIff(b, sts, i);
      InPairs(sts, sts[i].graph.value, h);
      InFilePairs(files, sts[i].graph.value, h);
    }
    forall h | h in wanted
      ensures h in WantedHashes(b, sts)
    {
      var f :| f in files && UnderBase(b, f.path) && f.hash == h;
      InFilePairs(files, f.path, h);
      InPairs(sts, f.path, h);
      var i :| 0 <= i < |sts| && sts[i].graph == Some(f.path) && sts[i].verb == SW_HASH && sts[i].obj == IriNode(h);
      InsertedIff(b, sts, i);
    }
  }

  lemma AcceptedHasGraph(b: Base, sts: seq<Statement>, i: nat)
    requires i < |sts| && InAcceptedGraph(b, sts, i)
    ensures sts[i].graph.Some?
  {
  }

  lemma BundlePairs(lib: Library, tree: Tree, baseUri: string)
    ensures HashPairs(BundleStatementsOf(lib, tree, baseUri)) == FilePairs(Emits(lib, tree, "", None).files)
  {
    hide Emits, Preamble, HashPairs, Meanings;
    PreambleStatements(baseUri);
    AboutPairs(baseUri);
    CallPairsConcat(Preamble(baseUri), Emits(lib, tree, "", None).calls);
    TreeHashes(lib, tree, "", None);
  }

  lemma AboutPairs(baseUri: string)
    ensures HashPairs(AboutBundle(baseUri)) == []
  {
    var said := AboutBundle(baseUri);
    if baseUri != "" {
      assert said[1..] == [said[1]] && said[1..][1..] == [];
      SinglePair(said[1]);
    } else {
      assert said[1..] == [];
    }
  }
}
