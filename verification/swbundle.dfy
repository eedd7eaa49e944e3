/** Building a bundle from a directory (cmd/swbundle/main.go:75-156, bundle/writer.go:23-99), and importing it. */
module SwBundle {
  import opened Options
  import opened NQuads
  import Turtle
  import W = NQuadsWriter
  import R = NQuadsReader
  import opened NQuadsEscape
  import opened NQuadsRoundTrip
  import opened BundleModel
  import opened BundleStatements
  import opened SparqlText
  import opened BundleWalk
  import opened BundleTree

  // ---------------------------------------------------------------- the writer

  /** The entries of the archive for the files. */
  function Archived(files: seq<Stored>): seq<(string, string)> {
    if files == [] then [] else [(files[0].hash, files[0].content)] + Archived(files[1..])
  }

  lemma {:induction false} ArchivedConcat(a: seq<Stored>, b: seq<Stored>)
    ensures Archived(a + b) == Archived(a) + Archived(b)
    decreases |a|
  {
    if a == [] {
      assert a + b == b;
    } else {
      assert (a + b)[1..] == a[1..] + b;
      ArchivedConcat(a[1..], b);
    }
  }

  const MIME_TYPE := "application/smartweb-bundle+zip"

  /** The bundle writer: the statements of `graphs`, and the entries of the archive. */
  class Writer {
    const lib: Library
    const graphs: W.NQuadWriter
    var archive: seq<(string, string)>
    ghost var calls: seq<W.Call>

    ghost predicate Valid()
      reads this, graphs
    {
      graphs.written == W.Document(calls)
    }

    constructor (lib: Library, baseUri: string)
      ensures this.lib == lib && fresh(graphs) && Valid()
      ensures calls == Preamble(baseUri) && archive == [("mimetype", MIME_TYPE)]
    {
      hide W.CallText;
      this.lib := lib;
      archive := [("mimetype", MIME_TYPE)];
      var g := new W.NQuadWriter();
      graphs := g;
      calls := [];
      new;
      NoCalls();
      graphs.WriteComment(" Relocatable SmartWeb Graph");
      Note(W.Comment(" Relocatable SmartWeb Graph"));
      var _ := graphs.WriteTripleIri(PlainString(""), RDF_TYPE, SW_RELOCATABLE);
      Note(W.Triple(PlainString(""), RDF_TYPE, Iri(SW_RELOCATABLE)));
      if baseUri != "" {
        var _ := graphs.WriteTripleIri(PlainString(""), SW_BASE_URI, baseUri);
        Note(W.Triple(PlainString(""), SW_BASE_URI, Iri(baseUri)));
      }
    }

    /** Records a call that has just been made. */
    ghost method Note(c: W.Call)
      requires graphs.written == W.Document(calls) + W.CallText(c)
      modifies this`calls
      ensures Valid() && calls == old(calls) + [c]
    {
      W.DocumentAppend(calls, c);
      calls := calls + [c];
    }

    /** Adds a file to the archive under the name of its digest, and declares its graph. */
    method InsertFile(fullUri: string, name: string, content: string)
      requires Valid()
      modifies this`calls, this`archive, graphs
      ensures Valid() && calls == old(calls) + InsertCalls(lib, fullUri, name, content)
      ensures archive == old(archive) + [(HashName(lib, content), content)]
    {
      hide W.CallText, W.CallError;
      var sha1name := HashName(lib, content);
      archive := archive + [(sha1name, content)];
      graphs.WriteEmptyLine();
      Note(W.EmptyLine);
      graphs.WriteComment(" " + name);
      Note(W.Comment(" " + name));
      var _ := graphs.WriteTriple(PlainString(fullUri), SW_RELATIVE_PATH, PlainString(name));
      Note(W.Triple(PlainString(fullUri), SW_RELATIVE_PATH, PlainString(name)));
      var _ := graphs.WriteQuadIri(PlainString(fullUri), SW_HASH, sha1name, fullUri);
      Note(W.Quad(PlainString(fullUri), SW_HASH, Iri(sha1name), fullUri));
    }

    /** Links a path to its parent, inside the graph of the parent. */
    method LinkToParent(path: string, parent: Option<string>) returns (e: W.WriteError)
      requires Valid()
      modifies this`calls, graphs
      ensures Valid() && calls == old(calls) + ChildCalls(path, parent) && e == W.NoError
    {
      hide W.CallText;
      if parent.Some? {
        e := graphs.WriteQuadIri(PlainString(parent.value), SW_CHILD, path, parent.value);
        Note(W.Quad(PlainString(parent.value), SW_CHILD, Iri(path), parent.value));
      } else {
        e := W.NoError;
      }
    }

    /** A file: its link, its content, and its type. */
    method ReadFile(content: string, path: string, parent: Option<string>) returns (ok: bool)
      requires Valid()
      modifies this`calls, this`archive, graphs
      ensures Valid() && calls == old(calls) + (ChildCalls(path, parent) + FileCalls(lib, path, content)) && ok
      ensures archive == old(archive) + [(HashName(lib, content), content)]
    {
      hide Valid, InsertCalls, ChildCalls, EncodeAny;
      ghost var start := calls;
      var e := LinkToParent(path, parent);
      if e != W.NoError {
        return false;
      }
      InsertFile(path, path, content);
      ok := WriteContentType(path, content);
      RegroupCalls(start, ChildCalls(path, parent), InsertCalls(lib, path, path, content),
              [W.Quad(PlainString(path), SW_CONTENT_TYPE, PlainString(lib.mimeType(path, content)), path)]);
    }

    method WriteContentType(path: string, content: string) returns (ok: bool)
      requires Valid()
      modifies this`calls, graphs
      ensures Valid() && ok
      ensures calls == old(calls) + [W.Quad(PlainString(path), SW_CONTENT_TYPE, PlainString(lib.mimeType(path, content)), path)]
    {
      hide W.CallText;
      var e := graphs.WriteQuad(PlainString(path), SW_CONTENT_TYPE, PlainString(lib.mimeType(path, content)), path);
      Note(W.Quad(PlainString(path), SW_CONTENT_TYPE, PlainString(lib.mimeType(path, content)), path));
      return e == W.NoError;
    }

    /** Walks a directory tree; false is an error that ended the walk. */
    method ReadDir(tree: Tree, path: string, parent: Option<string>) returns (ok: bool)
      requires Valid()
      modifies this`calls, this`archive, graphs
      ensures var out := Emits(lib, tree, path, parent);
              && Valid() && calls == old(calls) + out.calls
              && archive == old(archive) + Archived(out.files) && ok == out.ok
      decreases tree, 1
    {
      hide Valid, Archived, ChildCalls, FileCalls, EmitsFirst, Declaration;
      NoneArchived();
      match tree {
        case Broken =>
          return false;
        case File(content) =>
          ok := ReadFile(content, path, parent);
          OneArchived(Stored(path, HashName(lib, content), content));
        case Directory(entries) =>
          var p := if path != "" then path + "/" else path;
          Declare(p);
          var e := LinkToParent(p, parent);
          if e != W.NoError {
            return false;
          }
          ok := ReadEntries(tree, p);
      }
    }

    /** The entries of a directory, up to the first that fails. */
    method ReadEntries(dir: Tree, path: string) returns (ok: bool)
      requires Valid() && dir.Directory?
      modifies this`calls, this`archive, graphs
      ensures var out := EmitsFirst(lib, dir, path, |dir.entries|);
              && Valid() && calls == old(calls) + out.calls
              && archive == old(archive) + Archived(out.files) && ok == out.ok
      decreases dir, 0
    {
      hide Valid, Archived, Emits;
      NoneArchived();
      var k := 0;
      while k < |dir.entries|
        invariant 0 <= k <= |dir.entries| && Valid()
        invariant var out := EmitsFirst(lib, dir, path, k);
                  calls == old(calls) + out.calls && archive == old(archive) + Archived(out.files) && out.ok
      {
        var entry := dir.entries[k];
        ghost var before, last := EmitsFirst(lib, dir, path, k), Emits(lib, entry.tree, path + entry.name, Some(path));
        ArchivedConcat(before.files, last.files);
        ok := ReadDir(entry.tree, path + entry.name, Some(path));
        if !ok {
          EmitsStop(lib, dir, path, k + 1, |dir.entries|);
          return;
        }
        k := k + 1;
      }
      return true;
    }

    method Declare(path: string)
      requires Valid()
      modifies this`calls, graphs
      ensures Valid() && calls == old(calls) + [Declaration(path)]
    {
      hide W.CallText;
      var _ := graphs.WriteTriple(PlainString(path), SW_RELATIVE_PATH, PlainString(path));
      Note(Declaration(path));
    }

    /** Finishes the archive with the statements. */
    method Close()
      requires Valid()
      modifies this`archive
      ensures archive == old(archive) + [("graphs.nq", W.Document(calls))]
    {
      archive := archive + [("graphs.nq", graphs.written)];
    }
  }

  lemma RegroupCalls(a: seq<W.Call>, b: seq<W.Call>, c: seq<W.Call>, d: seq<W.Call>)
    ensures a + b + c + d == a + (b + (c + d))
  {
  }

  lemma NoneArchived()
    ensures Archived([]) == []
  {
  }

  lemma OneArchived(f: Stored)
    ensures Archived([f]) == [(f.hash, f.content)]
  {
    assert [f][1..] == [];
  }

  /** After a failure the walk emits nothing more. */
  lemma {:induction false} EmitsStop(lib: Library, dir: Tree, path: string, k: nat, n: nat)
    requires dir.Directory? && k <= n <= |dir.entries| && !EmitsFirst(lib, dir, path, k).ok
    ensures EmitsFirst(lib, dir, path, n) == EmitsFirst(lib, dir, path, k)
    decreases n
  {
    hide Emits;
    if k < n {
      EmitsStop(lib, dir, path, k, n - 1);
    }
  }

  /** The whole program: the archive holds its type, the files of the tree, and the statements; it is closed even after an
      error, and there is one exactly when something in the tree is broken. */
  method WriteBundle(lib: Library, tree: Tree, baseUri: string) returns (ok: bool, archive: seq<(string, string)>)
    ensures archive == [("mimetype", MIME_TYPE)] + Archived(Emits(lib, tree, "", None).files)
                       + [("graphs.nq", W.Document(BundleCalls(lib, tree, baseUri)))]
    ensures Named(tree) ==>
              && (ok <==> forall names :: !Leads(tree, names, Broken))
              && |archive| >= 2 && archive[0].0 == "mimetype" && archive[|archive| - 1].0 == "graphs.nq"
              && (forall name, content :: (name, content) in archive[1..|archive| - 1] <==>
                    exists f :: Keeps(lib, tree, [], f) && name == f.hash && content == f.content)
    ensures PlainTree(lib, tree) && SafeIri(baseUri) ==>
              R.ReadAll(archive[|archive| - 1].1) == (BundleStatementsOf(lib, tree, baseUri), None)
  {
    hide Preamble, Emits, SafeIri, PlainTree, Keeps, Archived, R.ReadAll, W.Document, BundleStatementsOf, BundleCalls;
    var b := new Writer(lib, baseUri);
    ok := b.ReadDir(tree, "", None);
    PreambleThen(lib, tree, baseUri);
    b.Close();
    archive := b.archive;
    ghost var files := Emits(lib, tree, "", None).files;
    assert archive[1..|archive| - 1] == Archived(files);
    if Named(tree) {
      BundleKeeps(lib, tree);
      WholeIff(tree);
      forall name, content
        ensures (name, content) in Archived(files) <==> exists f :: Keeps(lib, tree, [], f) && name == f.hash && content == f.content
      {
        InArchive(files, name, content);
      }
    }
    if PlainTree(lib, tree) && SafeIri(baseUri) {
      BundleRead(lib, tree, baseUri);
    }
  }

  lemma PreambleThen(lib: Library, tree: Tree, baseUri: string)
    ensures BundleCalls(lib, tree, baseUri) == Preamble(baseUri) + Emits(lib, tree, "", None).calls
  {
  }

  lemma {:induction false} InArchive(files: seq<Stored>, name: string, content: string)
    ensures (name, content) in Archived(files) <==> exists f :: f in files && name == f.hash && content == f.content
  {
    if files != [] {
      InArchive(files[1..], name, content);
    }
  }

  lemma NoCalls()
    ensures W.Document([]) == ""
  {
  }

  // ---------------------------------------------------------------- from the archive back to statements

  /** Calls that are read back: see DocumentRoundTrip. */
  ghost predicate Legible(calls: seq<W.Call>) {
    AllReadable(calls) && CleanComments(calls)
  }

  lemma LegibleConcat(a: seq<W.Call>, b: seq<W.Call>)
    requires Legible(a) && Legible(b)
    ensures Legible(a + b)
  {
    hide Readable, IsStatement, CleanComment;
  }

  predicate Ordinary(c: char) {
    'a' <= c <= 'z' || 'A' <= c <= 'Z' || '0' <= c <= '9' || c in ":./#-,"
  }

  lemma OrdinaryIsKept(c: char)
    requires Ordinary(c)
    ensures !Lossy(c, Turtle.ESCAPE_IRI_CHARS)
  {
  }

  lemma OrdinaryIsSafe(s: string)
    requires forall k :: 0 <= k < |s| ==> Ordinary(s[k])
    ensures SafeIri(s)
  {
    hide Ordinary, Lossy;
    forall k | 0 <= k < |s|
      ensures !Lossy(s[k], Turtle.ESCAPE_IRI_CHARS)
    {
      OrdinaryIsKept(s[k]);
    }
  }

  lemma SafeConcat(a: string, b: string)
    requires SafeIri(a) && SafeIri(b)
    ensures SafeIri(a + b)
  {
    hide Lossy;
  }

  lemma SafeVerbs()
    ensures SafeIri(SW_RELATIVE_PATH) && SafeIri(SW_HASH) && SafeIri(SW_CHILD) && SafeIri(SW_CONTENT_TYPE)
    ensures SafeIri(SW_BASE_URI) && SafeIri(SW_RELOCATABLE) && SafeIri(RDF_TYPE) && SafeIri("/") && SafeIri("")
  {
    hide SafeIri;
    OrdinaryIsSafe("tag:mildred.fr,");
    OrdinaryIsSafe("2015-05:SmartWeb#");
    SafeConcat("tag:mildred.fr,", "2015-05:SmartWeb#");
    OrdinaryIsSafe("relativePath");
    SafeConcat(SW_NAMESPACE, "relativePath");
    OrdinaryIsSafe("hash");
    SafeConcat(SW_NAMESPACE, "hash");
    OrdinaryIsSafe("child");
    SafeConcat(SW_NAMESPACE, "child");
    OrdinaryIsSafe("contentType");
    SafeConcat(SW_NAMESPACE, "contentType");
    OrdinaryIsSafe("baseUri");
    SafeConcat(SW_NAMESPACE, "baseUri");
    OrdinaryIsSafe("RelocatableGraph");
    SafeConcat(SW_NAMESPACE, "RelocatableGraph");
    OrdinaryIsSafe("http://www.w3.org/");
    OrdinaryIsSafe("1999/02/22-rdf-");
    OrdinaryIsSafe("syntax-ns#type");
    SafeConcat("http://www.w3.org/", "1999/02/22-rdf-");
    SafeConcat("http://www.w3.org/" + "1999/02/22-rdf-", "syntax-ns#type");
    OrdinaryIsSafe("/");
    OrdinaryIsSafe("");
  }

  /** A name that survives: no lossy character, no carriage return. */
  ghost predicate PlainName(name: string) {
    SafeIri(name) && '\r' !in name
  }

  ghost predicate PlainTree(lib: Library, tree: Tree)
    decreases tree
  {
    match tree
    case Broken => true
    case File(content) => SafeIri(HashName(lib, content))
    case Directory(entries) => forall k :: 0 <= k < |entries| ==> PlainName(entries[k].name) && PlainTree(lib, entries[k].tree)
  }

  lemma DeclarationLegible(path: string)
    requires PlainName(path)
    ensures Legible([Declaration(path)])
  {
    hide SafeIri;
    SafeVerbs();
  }

  lemma QuadLegible(graph: string, verb: string, obj: Value)
    requires SafeIri(graph) && SafeIri(verb) && (obj.PlainString? || (obj.Iri? && SafeIri(obj.iri)))
    ensures Legible([W.Quad(PlainString(graph), verb, obj, graph)])
  {
    hide SafeIri;
  }

  lemma ChildLegible(path: string, parent: Option<string>)
    requires PlainName(path) && (parent.Some? ==> SafeIri(parent.value))
    ensures Legible(ChildCalls(path, parent))
  {
    hide SafeIri, Legible;
    SafeVerbs();
    match parent {
      case None => NothingLegible();
      case Some(p) => QuadLegible(p, SW_CHILD, Iri(path));
    }
  }

  lemma NothingLegible()
    ensures Legible([])
  {
  }

  lemma FileLegible(lib: Library, path: string, content: string)
    requires PlainName(path) && SafeIri(HashName(lib, content))
    ensures Legible(FileCalls(lib, path, content))
  {
    hide SafeIri, Legible, HashName;
    SafeVerbs();
    var hash := W.Quad(PlainString(path), SW_HASH, Iri(HashName(lib, content)), path);
    var mime := W.Quad(PlainString(path), SW_CONTENT_TYPE, PlainString(lib.mimeType(path, content)), path);
    CommentLegible(" " + path);
    DeclarationLegible(path);
    QuadLegible(path, SW_HASH, Iri(HashName(lib, content)));
    QuadLegible(path, SW_CONTENT_TYPE, PlainString(lib.mimeType(path, content)));
    LegibleConcat([W.EmptyLine, W.Comment(" " + path)], [Declaration(path)]);
    LegibleConcat([W.EmptyLine, W.Comment(" " + path)] + [Declaration(path)], [hash]);
    LegibleConcat([W.EmptyLine, W.Comment(" " + path)] + [Declaration(path)] + [hash], [mime]);
    assert FileCalls(lib, path, content) == [W.EmptyLine, W.Comment(" " + path)] + [Declaration(path)] + [hash] + [mime];
  }

  lemma CommentLegible(comment: string)
    requires '\r' !in comment
    ensures Legible([W.EmptyLine, W.Comment(comment)]) && Legible([W.Comment(comment)])
  {
    NoReturnIsClean(comment);
  }

  lemma {:induction false} TreeLegible(lib: Library, tree: Tree, path: string, parent: Option<string>)
    requires PlainTree(lib, tree) && PlainName(path) && (parent.Some? ==> SafeIri(parent.value))
    ensures Legible(Emits(lib, tree, path, parent).calls)
    decreases tree, if tree.Directory? then |tree.entries| + 1 else 0
  {
    hide SafeIri, Legible, ChildCalls, FileCalls, Declaration;
    match tree {
      case Broken => NothingLegible();
      case File(content) =>
        ChildLegible(path, parent);
        FileLegible(lib, path, content);
        LegibleConcat(ChildCalls(path, parent), FileCalls(lib, path, content));
      case Directory(entries) =>
        var p := if path != "" then path + "/" else path;
        SafeVerbs();
        SafeConcat(path, "/");
        DeclarationLegible(p);
        ChildLegible(p, parent);
        FirstLegible(lib, tree, p, |entries|);
        LegibleConcat([Declaration(p)], ChildCalls(p, parent));
        LegibleConcat([Declaration(p)] + ChildCalls(p, parent), EmitsFirst(lib, tree, p, |entries|).calls);
    }
  }

  lemma {:induction false} FirstLegible(lib: Library, dir: Tree, path: string, n: nat)
    requires dir.Directory? && n <= |dir.entries| && PlainTree(lib, dir) && PlainName(path)
    ensures Legible(EmitsFirst(lib, dir, path, n).calls)
    decreases dir, n
  {
    hide SafeIri, Legible, Emits;
    if n == 0 {
      NothingLegible();
    } else {
      FirstLegible(lib, dir, path, n - 1);
      var entry := dir.entries[n - 1];
      SafeConcat(path, entry.name);
      TreeLegible(lib, entry.tree, path + entry.name, Some(path));
      LegibleConcat(EmitsFirst(lib, dir, path, n - 1).calls, Emits(lib, entry.tree, path + entry.name, Some(path)).calls);
    }
  }

  lemma BundleLegible(lib: Library, tree: Tree, baseUri: string)
    requires PlainTree(lib, tree) && SafeIri(baseUri)
    ensures Legible(BundleCalls(lib, tree, baseUri))
  {
    hide SafeIri, Legible, Emits;
    SafeVerbs();
    PreambleLegible(baseUri);
    TreeLegible(lib, tree, "", None);
    LegibleConcat(Preamble(baseUri), Emits(lib, tree, "", None).calls);
  }

  lemma PreambleLegible(baseUri: string)
    requires SafeIri(baseUri)
    ensures Legible(Preamble(baseUri))
  {
    hide SafeIri, CleanComment;
    SafeVerbs();
    NoReturnIsClean(" Relocatable SmartWeb Graph");
  }

  /** From a directory to an update: the bundle's statements, read back from its text and classified. The statements are
      those of the places of the tree that are reached, and the hashes asked for those of its files whose paths resolve
      under the base. */
  method Publish(b: Base, lib: Library, tree: Tree, baseUri: string) returns (r: Result<Statements>)
    requires PlainTree(lib, tree) && SafeIri(baseUri)
    ensures var sts := BundleStatementsOf(lib, tree, baseUri);
            && r.Ok? && r.value.text == BundleText(b, sts)
            && (ReadUpdate(r.value.text) == Some(Meant(b, sts)) <==> WellFormed(b, sts))
            && (forall i :: 0 <= i < |sts| && sts[i].graph.Some? ==> (Inserted(b, sts, i) <==> UnderBase(b, sts[i].graph.value)))
    ensures Named(tree) ==>
              forall h :: h in r.value.wanted <==> exists f :: Keeps(lib, tree, [], f) && UnderBase(b, f.path) && h == f.hash
    ensures Named(tree) ==>
              forall st :: st in BundleStatementsOf(lib, tree, baseUri) <==>
                || st == Statement(IriNode(""), RDF_TYPE, IriNode(SW_RELOCATABLE), None)
                || (baseUri != "" && st == Statement(IriNode(""), SW_BASE_URI, IriNode(baseUri), None))
                || Says(lib, tree, [], st)
  {
    hide *;
    var ok, archive := WriteBundle(lib, tree, baseUri);
    BundleRead(lib, tree, baseUri);
    r := Classify(b, archive[|archive| - 1].1, BundleStatementsOf(lib, tree, baseUri));
    ghost var sts := BundleStatementsOf(lib, tree, baseUri);
    forall i | 0 <= i < |sts| && sts[i].graph.Some?
      ensures Inserted(b, sts, i) <==> UnderBase(b, sts[i].graph.value)
    {
      BundleInserts(b, lib, tree, baseUri, i);
    }
    if Named(tree) {
      forall h
        ensures h in r.value.wanted <==> exists f :: Keeps(lib, tree, [], f) && UnderBase(b, f.path) && h == f.hash
      {
        BundleWantsFiles(b, lib, tree, baseUri, h);
      }
      forall st
        ensures st in sts <==>
          || st == Statement(IriNode(""), RDF_TYPE, IriNode(SW_RELOCATABLE), None)
          || (baseUri != "" && st == Statement(IriNode(""), SW_BASE_URI, IriNode(baseUri), None))
          || Says(lib, tree, [], st)
      {
        BundleSays(lib, tree, baseUri, st);
      }
    }
  }

  /** Reads a text and makes the update of its statements. */
  method Classify(b: Base, text: string, ghost sts: seq<Statement>) returns (r: Result<Statements>)
    requires R.ReadAll(text) == (sts, None)
    ensures r.Ok? && r.value.text == BundleText(b, sts)
    ensures ReadUpdate(r.value.text) == Some(Meant(b, sts)) <==> WellFormed(b, sts)
    ensures r.value.wanted == WantedHashes(b, sts)
  {
    hide R.ReadAll, ReadUpdate, BundleText, Meant, WellFormed, WantedHashes, Logs;
    var reader := new R.Reader(text);
    var read, end := reader.ReadStatements();
    var items := seq(|read|, i requires 0 <= i < |read| => Item(read[i]));
    ItemsHold(items, read);
    r := MakeStatements(b, items);
  }

  lemma BundleRead(lib: Library, tree: Tree, baseUri: string)
    requires PlainTree(lib, tree) && SafeIri(baseUri)
    ensures R.ReadAll(W.Document(BundleCalls(lib, tree, baseUri))) == (BundleStatementsOf(lib, tree, baseUri), None)
  {
    BundleLegible(lib, tree, baseUri);
    hide BundleCalls;
    DocumentRoundTrip(BundleCalls(lib, tree, baseUri));
  }

  lemma {:induction false} ItemsHold(items: seq<Item>, sts: seq<Statement>)
    requires |items| == |sts| && forall i :: 0 <= i < |items| ==> items[i] == Item(sts[i])
    ensures StatementsOf(items) == sts && FirstError(items) == None
    decreases |items|
  {
    if items != [] {
      ItemsHold(items[1..], sts[1..]);
    }
  }
}
