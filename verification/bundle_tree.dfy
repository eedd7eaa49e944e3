/** What of a directory tree gets into its bundle: everything that the walk reaches (cmd/swbundle/main.go:75-156). */
module BundleTree {
  import opened Options
  import opened Texts
  import opened NQuads
  import opened NQuadsRoundTrip
  import opened BundleModel
  import opened BundleWalk
  import W = NQuadsWriter

  // ---------------------------------------------------------------- trees and names

  /** The names lead from the tree to the subtree. */
  ghost predicate Leads(tree: Tree, names: seq<string>, sub: Tree)
    decreases |names|
  {
    if names == [] then sub == tree
    else tree.Directory? && exists k :: 0 <= k < |tree.entries| && tree.entries[k].name == names[0]
                                        && Leads(tree.entries[k].tree, names[1..], sub)
  }

  /** No entry is broken, however deep. */
  ghost predicate Whole(tree: Tree) {
    match tree
    case Broken => false
    case File(_) => true
    case Directory(entries) => forall k :: 0 <= k < |entries| ==> Whole(entries[k].tree)
  }

  /** The names lead to the subtree, and nothing that the walk meets before it is broken. */
  ghost predicate Reaches(tree: Tree, names: seq<string>, sub: Tree)
    decreases |names|
  {
    if names == [] then sub == tree
    else tree.Directory? && exists k :: 0 <= k < |tree.entries| && tree.entries[k].name == names[0]
                                        && (forall j :: 0 <= j < k ==> Whole(tree.entries[j].tree))
                                        && Reaches(tree.entries[k].tree, names[1..], sub)
  }

  /** Every name is some text. */
  ghost predicate Named(tree: Tree) {
    tree.Directory? ==> forall k :: 0 <= k < |tree.entries| ==> tree.entries[k].name != "" && Named(tree.entries[k].tree)
  }

  lemma {:induction false} WholeIff(tree: Tree)
    ensures Whole(tree) <==> forall names :: !Leads(tree, names, Broken)
  {
    match tree {
      case Broken => assert Leads(tree, [], Broken);
      case File(_) => 
      case Directory(entries) =>
        forall k | 0 <= k < |entries|
          ensures Whole(entries[k].tree) <==> forall names :: !Leads(entries[k].tree, names, Broken)
        {
          WholeIff(entries[k].tree);
        }
        if k :| 0 <= k < |entries| && !Whole(entries[k].tree) {
          var names :| Leads(entries[k].tree, names, Broken);
          assert ([entries[k].name] + names)[1..] == names;
          assert Leads(tree, [entries[k].name] + names, Broken);
        }
    }
  }

  /** When nothing is broken, everything is reached. */
  lemma {:induction false} WholeReaches(tree: Tree, names: seq<string>, sub: Tree)
    requires Whole(tree)
    ensures Reaches(tree, names, sub) <==> Leads(tree, names, sub)
    decreases |names|
  {
    if names != [] && tree.Directory? {
      forall k | 0 <= k < |tree.entries|
        ensures Reaches(tree.entries[k].tree, names[1..], sub) <==> Leads(tree.entries[k].tree, names[1..], sub)
      {
        WholeReaches(tree.entries[k].tree, names[1..], sub);
      }
    }
  }

  // ---------------------------------------------------------------- what is said of a place

  /** The name of a directory. */
  function DirName(names: seq<string>): string {
    if names == [] then "" else Glue(names, "/") + "/"
  }

  /** What the bundle says of what stands at a place: that it is there, where it is from its own directory, and of a file
      its hash and its type. */
  ghost predicate SaysAt(lib: Library, names: seq<string>, sub: Tree, st: Statement) {
    !sub.Broken? &&
    var path := if sub.Directory? then DirName(names) else Glue(names, "/");
    || st == Statement(IriNode(path), SW_RELATIVE_PATH, LiteralNode(path, "", XSD_STRING), None)
    || (names != [] &&
        var dir := DirName(names[..|names| - 1]);
        st == Statement(IriNode(dir), SW_CHILD, IriNode(path), Some(dir)))
    || (sub.File? &&
        (|| st == Statement(IriNode(path), SW_HASH, IriNode("sha1:" + lib.sha1(sub.content)), Some(path))
         || st == Statement(IriNode(path), SW_CONTENT_TYPE, LiteralNode(lib.mimeType(path, sub.content), "", XSD_STRING), Some(path))))
  }

  /** A statement about some place that is reached from a tree which itself stands at `prefix`. */
  ghost predicate Says(lib: Library, tree: Tree, prefix: seq<string>, st: Statement) {
    exists names, sub :: Reaches(tree, names, sub) && SaysAt(lib, prefix + names, sub, st)
  }

  /** A file at a place, in the archive: under the name of its digest. */
  function StoredAt(lib: Library, names: seq<string>, content: string): Stored {
    Stored(Glue(names, "/"), "sha1:" + lib.sha1(content), content)
  }

  /** A file that is reached. */
  ghost predicate Keeps(lib: Library, tree: Tree, prefix: seq<string>, f: Stored) {
    exists names, content :: Reaches(tree, names, File(content)) && f == StoredAt(lib, prefix + names, content)
  }

  // ---------------------------------------------------------------- one level of a tree

  /** Of the first entries of a directory, those before which nothing is broken. */
  ghost predicate SaysFirst(lib: Library, dir: Tree, prefix: seq<string>, n: nat, st: Statement)
    requires dir.Directory? && n <= |dir.entries|
  {
    exists k :: 0 <= k < n && (forall j :: 0 <= j < k ==> Whole(dir.entries[j].tree))
                && Says(lib, dir.entries[k].tree, prefix + [dir.entries[k].name], st)
  }

  ghost predicate KeepsFirst(lib: Library, dir: Tree, prefix: seq<string>, n: nat, f: Stored)
    requires dir.Directory? && n <= |dir.entries|
  {
    exists k :: 0 <= k < n && (forall j :: 0 <= j < k ==> Whole(dir.entries[j].tree))
                && Keeps(lib, dir.entries[k].tree, prefix + [dir.entries[k].name], f)
  }

  lemma SaysInside(lib: Library, dir: Tree, prefix: seq<string>, st: Statement)
    requires dir.Directory? && SaysFirst(lib, dir, prefix, |dir.entries|, st)
    ensures Says(lib, dir, prefix, st)
  {
    hide SaysAt, Whole;
    var k :| 0 <= k < |dir.entries| && (forall j :: 0 <= j < k ==> Whole(dir.entries[j].tree))
             && Says(lib, dir.entries[k].tree, prefix + [dir.entries[k].name], st);
    var names, sub :| Reaches(dir.entries[k].tree, names, sub) && SaysAt(lib, prefix + [dir.entries[k].name] + names, sub, st);
    ReachesOn(dir, k, names, sub);
    assert prefix + ([dir.entries[k].name] + names) == prefix + [dir.entries[k].name] + names;
  }

  lemma SaysUnfold(lib: Library, tree: Tree, prefix: seq<string>, st: Statement)
    ensures Says(lib, tree, prefix, st) <==>
              SaysAt(lib, prefix, tree, st) || (tree.Directory? && SaysFirst(lib, tree, prefix, |tree.entries|, st))
  {
    hide SaysAt, Whole;
    assert prefix + [] == prefix;
    if SaysAt(lib, prefix, tree, st) {
      assert Reaches(tree, [], tree);
    }
    if tree.Directory? && SaysFirst(lib, tree, prefix, |tree.entries|, st) {
      SaysInside(lib, tree, prefix, st);
    }
    if Says(lib, tree, prefix, st) {
      var names, sub :| Reaches(tree, names, sub) && SaysAt(lib, prefix + names, sub, st);
      if names != [] {
        var k := ReachesStep(tree, names, sub);
        assert prefix + names == prefix + [tree.entries[k].name] + names[1..];
        assert Says(lib, tree.entries[k].tree, prefix + [tree.entries[k].name], st);
      }
    }
  }

  lemma ReachesOn(tree: Tree, k: nat, names: seq<string>, sub: Tree)
    requires tree.Directory? && k < |tree.entries| && (forall j :: 0 <= j < k ==> Whole(tree.entries[j].tree))
    requires Reaches(tree.entries[k].tree, names, sub)
    ensures Reaches(tree, [tree.entries[k].name] + names, sub)
  {
    assert ([tree.entries[k].name] + names)[1..] == names;
  }

  /** The first step on the way. */
  lemma ReachesStep(dir: Tree, names: seq<string>, sub: Tree) returns (k: nat)
    requires dir.Directory? && names != [] && Reaches(dir, names, sub)
    ensures k < |dir.entries| && dir.entries[k].name == names[0] && (forall j :: 0 <= j < k ==> Whole(dir.entries[j].tree))
    ensures Reaches(dir.entries[k].tree, names[1..], sub)
  {
    k :| 0 <= k < |dir.entries| && dir.entries[k].name == names[0]
         && (forall j :: 0 <= j < k ==> Whole(dir.entries[j].tree)) && Reaches(dir.entries[k].tree, names[1..], sub);
  }

  lemma NotHere(dir: Tree, content: string)
    requires dir.Directory?
    ensures !Reaches(dir, [], File(content))
  {
  }

  lemma KeepsInside(lib: Library, dir: Tree, prefix: seq<string>, f: Stored)
    requires dir.Directory?
    ensures Keeps(lib, dir, prefix, f) <==> KeepsFirst(lib, dir, prefix, |dir.entries|, f)
  {
    hide StoredAt, Whole, Reaches;
    if KeepsFirst(lib, dir, prefix, |dir.entries|, f) {
      var k :| 0 <= k < |dir.entries| && (forall j :: 0 <= j < k ==> Whole(dir.entries[j].tree))
               && Keeps(lib, dir.entries[k].tree, prefix + [dir.entries[k].name], f);
      var names, content :| Reaches(dir.entries[k].tree, names, File(content))
        && f == StoredAt(lib, prefix + [dir.entries[k].name] + names, content);
      ReachesOn(dir, k, names, File(content));
      assert prefix + ([dir.entries[k].name] + names) == prefix + [dir.entries[k].name] + names;
    }
    if Keeps(lib, dir, prefix, f) {
      var names, content :| Reaches(dir, names, File(content)) && f == StoredAt(lib, prefix + names, content);
      NotHere(dir, content);
      var k := ReachesStep(dir, names, File(content));
      assert prefix + names == prefix + [dir.entries[k].name] + names[1..];
      assert Keeps(lib, dir.entries[k].tree, prefix + [dir.entries[k].name], f);
    }
  }

  lemma KeepsFile(lib: Library, tree: Tree, prefix: seq<string>, f: Stored)
    requires !tree.Directory?
    ensures Keeps(lib, tree, prefix, f) <==> tree.File? && f == StoredAt(lib, prefix, tree.content)
  {
    hide StoredAt;
    assert prefix + [] == prefix;
    if tree.File? {
      assert Reaches(tree, [], tree);
    }
  }

  lemma KeepsUnfold(lib: Library, tree: Tree, prefix: seq<string>, f: Stored)
    ensures Keeps(lib, tree, prefix, f) <==>
              || (tree.File? && f == StoredAt(lib, prefix, tree.content))
              || (tree.Directory? && KeepsFirst(lib, tree, prefix, |tree.entries|, f))
  {
    hide Keeps, KeepsFirst, StoredAt;
    if tree.Directory? {
      KeepsInside(lib, tree, prefix, f);
    } else {
      KeepsFile(lib, tree, prefix, f);
    }
  }

  // ---------------------------------------------------------------- the walk is complete

  /** The directory in which a place stands. */
  function ParentOf(names: seq<string>): Option<string> {
    if names == [] then None else Some(DirName(names[..|names| - 1]))
  }

  ghost predicate AllNamed(names: seq<string>) {
    forall k :: 0 <= k < |names| ==> names[k] != ""
  }

  lemma {:induction false} GlueNext(names: seq<string>, name: string)
    requires AllNamed(names)
    ensures Glue(names + [name], "/") == DirName(names) + name
    ensures Glue(names, "/") == "" <==> names == []
  {
    if names != [] {
      assert (names + [name])[1..] == names[1..] + [name];
      GlueNext(names[1..], name);
    }
  }

  lemma ChildSays(path: string, parent: Option<string>)
    ensures Meanings(ChildCalls(path, parent)) ==
            match parent case None => [] case Some(dir) => [Statement(IriNode(dir), SW_CHILD, IriNode(path), Some(dir))]
  {
    match parent {
      case None => NoMeanings();
      case Some(dir) => QuadClosed({dir}, dir, SW_CHILD, Iri(path));
    }
  }

  lemma DirectorySays(lib: Library, names: seq<string>, sub: Tree, st: Statement)
    requires sub.Directory?
    ensures st in Meanings([Declaration(DirName(names))] + ChildCalls(DirName(names), ParentOf(names))) <==> SaysAt(lib, names, sub, st)
  {
    hide Meanings, ChildCalls, Declaration, DirName;
    DeclarationClosed({}, DirName(names));
    ChildSays(DirName(names), ParentOf(names));
    MeaningsConcat([Declaration(DirName(names))], ChildCalls(DirName(names), ParentOf(names)));
  }

  lemma FileSays(lib: Library, names: seq<string>, content: string, st: Statement)
    ensures var path := Glue(names, "/");
            st in Meanings(ChildCalls(path, ParentOf(names)) + FileCalls(lib, path, content)) <==> SaysAt(lib, names, File(content), st)
  {
    hide Meanings, ChildCalls, Declaration, DirName, Glue, FileCalls;
    var path := Glue(names, "/");
    var hash := W.Quad(PlainString(path), SW_HASH, Iri(HashName(lib, content)), path);
    var mime := W.Quad(PlainString(path), SW_CONTENT_TYPE, PlainString(lib.mimeType(path, content)), path);
    ChildSays(path, ParentOf(names));
    MeaningsConcat(ChildCalls(path, ParentOf(names)), FileCalls(lib, path, content));
    FileStatements(lib, path, content);
    MeaningsConcat([Declaration(path)] + [hash], [mime]);
    MeaningsConcat([Declaration(path)], [hash]);
    DeclarationClosed({}, path);
    QuadClosed({path}, path, SW_HASH, Iri(HashName(lib, content)));
    QuadClosed({path}, path, SW_CONTENT_TYPE, PlainString(lib.mimeType(path, content)));
  }

  /** The walk of a tree says exactly what there is to say of the places that are reached, keeps exactly the files, and
      comes to its end exactly when nothing is broken. */
  lemma {:induction false} WalkIsComplete(lib: Library, tree: Tree, names: seq<string>)
    requires Named(tree) && AllNamed(names)
    ensures var out := Emits(lib, tree, Glue(names, "/"), ParentOf(names));
            && (out.ok <==> Whole(tree))
            && (forall f :: f in out.files <==> Keeps(lib, tree, names, f))
            && (forall st :: st in Meanings(out.calls) <==> Says(lib, tree, names, st))
    decreases tree, if tree.Directory? then |tree.entries| + 1 else 0, 1
  {
    hide Says, Keeps, SaysFirst, KeepsFirst, SaysAt, Meanings, Glue, ChildCalls, FileCalls, EmitsFirst, Declaration, ParentOf;
    var path, parent := Glue(names, "/"), ParentOf(names);
    var out := Emits(lib, tree, path, parent);
    forall f ensures f in out.files <==> Keeps(lib, tree, names, f) {
      KeepsUnfold(lib, tree, names, f);
      if tree.Directory? {
        DirIsPath(names);
        EntriesAreComplete(lib, tree, names, |tree.entries|);
      }
    }
    forall st ensures st in Meanings(out.calls) <==> Says(lib, tree, names, st) {
      SaysUnfold(lib, tree, names, st);
      WalkSays(lib, tree, names, st);
    }
    if tree.Directory? {
      DirIsPath(names);
      EntriesAreComplete(lib, tree, names, |tree.entries|);
    }
  }

  lemma DirIsPath(names: seq<string>)
    requires AllNamed(names)
    ensures DirName(names) == if Glue(names, "/") != "" then Glue(names, "/") + "/" else Glue(names, "/")
  {
    GlueNext(names, "");
  }

  lemma WalkSays(lib: Library, tree: Tree, names: seq<string>, st: Statement)
    requires Named(tree) && AllNamed(names)
    ensures st in Meanings(Emits(lib, tree, Glue(names, "/"), ParentOf(names)).calls) <==>
              SaysAt(lib, names, tree, st) || (tree.Directory? && SaysFirst(lib, tree, names, |tree.entries|, st))
    decreases tree, if tree.Directory? then |tree.entries| + 1 else 0, 0
  {
    hide Says, SaysFirst, SaysAt, Meanings, Glue, ChildCalls, FileCalls, EmitsFirst, Declaration, ParentOf;
    match tree {
      case Broken => NothingSaid(lib, names, st);
      case File(content) => FileSays(lib, names, content, st);
      case Directory(entries) =>
        DirIsPath(names);
        var p := DirName(names);
        DirectorySays(lib, names, tree, st);
        EntriesAreComplete(lib, tree, names, |entries|);
        MeaningsConcat([Declaration(p)] + ChildCalls(p, ParentOf(names)), EmitsFirst(lib, tree, p, |entries|).calls);
    }
  }

  lemma NothingSaid(lib: Library, names: seq<string>, st: Statement)
    ensures !SaysAt(lib, names, Broken, st) && Meanings([]) == []
  {
  }

  lemma {:induction false} EntriesAreComplete(lib: Library, dir: Tree, names: seq<string>, n: nat)
    requires dir.Directory? && n <= |dir.entries| && Named(dir) && AllNamed(names)
    ensures var out := EmitsFirst(lib, dir, DirName(names), n);
            && (out.ok <==> forall k :: 0 <= k < n ==> Whole(dir.entries[k].tree))
            && (forall f :: f in out.files <==> KeepsFirst(lib, dir, names, n, f))
            && (forall st :: st in Meanings(out.calls) <==> SaysFirst(lib, dir, names, n, st))
    decreases dir, n
  {
    hide Says, Keeps, Meanings, Glue, Emits;
    if n > 0 {
      var before := EmitsFirst(lib, dir, DirName(names), n - 1);
      var entry := dir.entries[n - 1];
      EntriesAreComplete(lib, dir, names, n - 1);
      if before.ok {
        GlueNext(names, entry.name);
        assert (names + [entry.name])[..|names|] == names;
        WalkIsComplete(lib, entry.tree, names + [entry.name]);
        MeaningsConcat(before.calls, Emits(lib, entry.tree, DirName(names) + entry.name, Some(DirName(names))).calls);
      }
    } else {
      NoMeanings();
    }
  }

  // ---------------------------------------------------------------- the bundle

  /** The statements of a bundle: those about itself, and those about the places of the tree, each named by the path from
      the root. */
  lemma BundleSays(lib: Library, tree: Tree, baseUri: string, st: Statement)
    requires Named(tree)
    ensures st in BundleStatementsOf(lib, tree, baseUri) <==>
              || st == Statement(IriNode(""), RDF_TYPE, IriNode(SW_RELOCATABLE), None)
              || (baseUri != "" && st == Statement(IriNode(""), SW_BASE_URI, IriNode(baseUri), None))
              || Says(lib, tree, [], st)
  {
    hide Meanings, Emits, Preamble, Says;
    PreambleStatements(baseUri);
    MeaningsConcat(Preamble(baseUri), Emits(lib, tree, "", None).calls);
    WalkIsComplete(lib, tree, []);
  }

  /** The files of a bundle are the files of the tree that are reached. */
  lemma BundleKeeps(lib: Library, tree: Tree)
    requires Named(tree)
    ensures Emits(lib, tree, "", None).ok <==> Whole(tree)
    ensures forall f :: f in Emits(lib, tree, "", None).files <==> Keeps(lib, tree, [], f)
  {
    hide Meanings, Emits, Glue, Keeps, Says;
    assert Glue([], "/") == "" by { GlueNext([], ""); }
    WalkIsComplete(lib, tree, []);
  }

  /** The hashes asked for are those of the files of the tree whose paths resolve under the base. */
  lemma BundleWantsFiles(b: Base, lib: Library, tree: Tree, baseUri: string, h: string)
    requires Named(tree)
    ensures h in WantedHashes(b, BundleStatementsOf(lib, tree, baseUri)) <==>
              exists f :: Keeps(lib, tree, [], f) && UnderBase(b, f.path) && h == f.hash
  {
    hide Emits, Keeps, UnderBase, WantedHashes, BundleStatementsOf;
    BundleWants(b, lib, tree, baseUri);
    BundleKeeps(lib, tree);
  }
}
