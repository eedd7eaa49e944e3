/** The chain of parents of a URL and the links that PUT inserts (server2/server.go:122-126, 150-175). */
module UrlParents {
  import opened Options
  import opened Texts
  import opened Paths

  /** `origin` stands for the fields the function copies: scheme, user, host and opaque part. */
  datatype Url = Url(origin: string, path: string, rawQuery: string, fragment: string)

  function LastSlash(p: string): (i: int)
    ensures -1 <= i < |p| && (i >= 0 ==> p[i] == '/')
    ensures forall k :: i < k < |p| ==> p[k] != '/'
  {
    if p == "" then -1 else if p[|p| - 1] == '/' then |p| - 1 else LastSlash(p[..|p| - 1])
  }

  /** The directory of a path, as filepath.Dir on a system with slashes and no volumes. */
  function Dir(p: string): string {
    Clean(p[..LastSlash(p) + 1])
  }

  /** The path without one trailing slash. */
  function Bare(p: string): string
    requires p != ""
  {
    if p[|p| - 1] == '/' then p[..|p| - 1] else p
  }

  /** One round of the loop on a path that is not empty. */
  function Next(p: string): string
    requires p != ""
  {
    var dir := Dir(Bare(p));
    if dir != "/" then dir + "/" else dir
  }

  // ---------------------------------------------------------------- when the loop ends

  /** What is left up to the last slash. */
  function Head(p: string): string
    requires p != ""
  {
    Bare(p)[..LastSlash(Bare(p)) + 1]
  }

  lemma HeadShape(p: string)
    requires p != ""
    ensures Next(p) == if Clean(Head(p)) != "/" then Clean(Head(p)) + "/" else "/"
    ensures Rooted(p) && p != "/" ==> Rooted(Head(p)) && Head(p)[|Head(p)| - 1] == '/' && |Head(p)| < |p|
    ensures !Rooted(p) ==> !Rooted(Head(p))
  {
    hide Clean;
  }

  lemma CleanShort(head: string)
    requires Rooted(head) && head[|head| - 1] == '/'
    ensures Rooted(Clean(head)) && (Clean(head) == "/" || |Clean(head)| < |head|)
  {
    hide Kept, Glue;
    if |head| > 1 {
      var x := head[1..|head| - 1];
      assert head == "/" + x + "/";
      CleanInnerShort(x);
    } else {
      assert head == "/";
      KeptSlash();
    }
    GlueNothing();
  }

  /** From a rooted path other than the root the loop moves to a shorter rooted path. */
  lemma NextShorter(p: string)
    requires Rooted(p) && p != "/"
    ensures Rooted(Next(p)) && |Next(p)| < |p|
  {
    hide Clean, Head, Next;
    HeadShape(p);
    CleanShort(Head(p));
  }

  /** From a path that is neither empty nor rooted the loop moves to another such path. */
  lemma NextStaysRelative(p: string)
    requires p != "" && !Rooted(p)
    ensures Next(p) != "" && !Rooted(Next(p))
  {
    hide Kept, Glue, Head, Next;
    HeadShape(p);
    if Kept(Head(p)) != [] {
      GlueHead(Head(p));
    }
  }

  /** What cleaning keeps of a path that is not rooted does not start with a slash. */
  lemma GlueHead(head: string)
    requires !Rooted(head) && Kept(head) != []
    ensures Glue(Kept(head), "/") != "" && Glue(Kept(head), "/")[0] != '/'
  {
    KeptNormal(head);
    var kept := Kept(head);
    assert kept[0] != "" && '/' !in kept[0] && kept[0][0] in kept[0];
  }

  /** The path after some rounds of the loop, unless it has ended or failed before. */
  ghost function Rounds(p: string, n: nat): Option<string> {
    if n == 0 then Some(p)
    else
      match Rounds(p, n - 1)
      case None => None
      case Some(q) => if q == "/" || q == "" then None else Some(Next(q))
  }

  lemma {:induction false} RelativeForever(p: string, n: nat)
    requires p != "" && !Rooted(p)
    ensures var q := Rounds(p, n); q.Some? && q.value != "" && !Rooted(q.value)
  {
    hide Next;
    if n > 0 {
      RelativeForever(p, n - 1);
      NextStaysRelative(Rounds(p, n - 1).value);
    }
  }

  lemma {:induction false} RoundsShift(p: string, n: nat)
    requires p != "" && p != "/"
    ensures Rounds(p, n + 1) == Rounds(Next(p), n)
  {
    hide Next;
    if n > 0 {
      RoundsShift(p, n - 1);
    } else {
      assert Rounds(p, 0) == Some(p);
    }
  }

  lemma {:induction false} RootedArrives(p: string) returns (n: nat)
    requires Rooted(p)
    ensures Rounds(p, n) == Some("/")
    decreases |p|
  {
    hide Next;
    if p == "/" {
      n := 0;
    } else {
      NextShorter(p);
      var m := RootedArrives(Next(p));
      RoundsShift(p, m);
      n := m + 1;
    }
  }

  lemma {:induction false} EmptyStays(n: nat)
    ensures Rounds("", n) != Some("/")
  {
    if n > 0 {
      EmptyStays(n - 1);
      assert Rounds("", 0) == Some("");
      EmptyEnds(n);
    }
  }

  lemma {:induction false} EmptyEnds(n: nat)
    requires n > 0
    ensures Rounds("", n) == None
  {
    if n > 1 {
      EmptyEnds(n - 1);
    } else {
      assert Rounds("", 0) == Some("");
    }
  }

  /** The loop reaches the root if and only if the path is rooted: on the empty path it fails, and on any other
      relative path it never ends. */
  lemma EndsIffRooted(p: string)
    ensures (exists n :: Rounds(p, n) == Some("/")) <==> Rooted(p)
  {
    hide Rounds;
    if Rooted(p) {
      var n := RootedArrives(p);
    } else {
      forall n: nat
        ensures Rounds(p, n) != Some("/")
      {
        if p == "" {
          EmptyStays(n);
        } else {
          RelativeForever(p, n);
        }
      }
    }
  }

  // ---------------------------------------------------------------- the chain

  /** The paths of the loop, from the first that is visited. */
  function PathChain(p: string): seq<string>
    requires Rooted(p)
    decreases |p|
  {
    if p == "/" then [p] else NextShorter(p); [p] + PathChain(Next(p))
  }

  /** The URL, without its fragment, without its query, and its directories. */
  function Parents(u: Url): seq<Url>
    requires Rooted(u.path)
  {
    Stripped(u) + At(Plain(u), PathChain(u.path))
  }

  function Plain(u: Url): Url {
    u.(fragment := "", rawQuery := "")
  }

  /** The URL itself when it has a fragment, and without the fragment when it has a query. */
  function Stripped(u: Url): seq<Url> {
    (if u.fragment != "" then [u] else []) + (if u.rawQuery != "" then [u.(fragment := "")] else [])
  }

  function At(u: Url, paths: seq<string>): seq<Url> {
    if paths == [] then [] else [u.(path := paths[0])] + At(u, paths[1..])
  }

  method Urls(u: Url) returns (chain: seq<Url>)
    requires Rooted(u.path)
    ensures chain == Parents(u)
    ensures var bare := u.(fragment := "", rawQuery := "");
            var head := if u.fragment != "" && u.rawQuery != "" then [u, u.(fragment := ""), bare]
                        else if u.fragment != "" || u.rawQuery != "" then [u, bare] else [bare];
            head <= chain && |chain| - |head| == |PathChain(u.path)| - 1
            && forall k :: 0 <= k < |PathChain(u.path)| ==> chain[|head| - 1 + k] == bare.(path := PathChain(u.path)[k])
  {
    ParentsSpelled(u);
    hide Next, Rooted, PathChain, At;
    var parent := u;
    chain := [parent];
    if parent.fragment != "" {
      parent := parent.(fragment := "");
      chain := chain + [parent];
    }
    if parent.rawQuery != "" {
      parent := parent.(rawQuery := "");
      chain := chain + [parent];
    }
    ghost var before := Stripped(u);
    assert chain == before + [parent] && parent == Plain(u);
    while parent.path != "/"
      invariant Rooted(parent.path) && parent == Plain(u).(path := parent.path)
      invariant chain == before + [parent] && before + At(Plain(u), PathChain(parent.path)) == Parents(u)
      decreases |parent.path|
    {
      NextShorter(parent.path);
      ChainStep(Plain(u), parent.path);
      Regroup(before, [parent], At(Plain(u), PathChain(Next(parent.path))));
      before := before + [parent];
      parent := parent.(path := Next(parent.path));
      chain := chain + [parent];
    }
    ChainEnd(Plain(u));
  }

  lemma {:induction false} AtSpelled(u: Url, paths: seq<string>)
    ensures |At(u, paths)| == |paths| && forall k :: 0 <= k < |paths| ==> At(u, paths)[k] == u.(path := paths[k])
  {
    if paths != [] {
      AtSpelled(u, paths[1..]);
    }
  }

  lemma ParentsSpelled(u: Url)
    requires Rooted(u.path)
    ensures var chain, bare := Parents(u), u.(fragment := "", rawQuery := "");
            var head := if u.fragment != "" && u.rawQuery != "" then [u, u.(fragment := ""), bare]
                        else if u.fragment != "" || u.rawQuery != "" then [u, bare] else [bare];
            head <= chain && |chain| - |head| == |PathChain(u.path)| - 1
            && forall k :: 0 <= k < |PathChain(u.path)| ==> chain[|head| - 1 + k] == bare.(path := PathChain(u.path)[k])
  {
    hide Next;
    AtSpelled(Plain(u), PathChain(u.path));
    FirstPath(u.path);
  }

  lemma FirstPath(p: string)
    requires Rooted(p)
    ensures PathChain(p) != [] && PathChain(p)[0] == p
  {
    hide Next;
  }

  lemma Regroup(a: seq<Url>, b: seq<Url>, c: seq<Url>)
    ensures a + (b + c) == a + b + c
  {
  }

  lemma ChainStep(u: Url, p: string)
    requires Rooted(p) && p != "/"
    ensures Rooted(Next(p)) && At(u, PathChain(p)) == [u.(path := p)] + At(u, PathChain(Next(p)))
  {
    hide Next;
    NextShorter(p);
    AtCons(u, p, PathChain(Next(p)));
  }

  lemma ChainEnd(u: Url)
    ensures Rooted("/") && At(u, PathChain("/")) == [u.(path := "/")]
  {
    AtCons(u, "/", []);
  }

  lemma AtCons(u: Url, p: string, paths: seq<string>)
    ensures At(u, [p] + paths) == [u.(path := p)] + At(u, paths)
  {
    assert ([p] + paths)[1..] == paths;
  }

  // ---------------------------------------------------------------- the chain of a clean path

  function DirPath(pieces: seq<string>): string {
    if pieces == [] then "/" else "/" + Glue(pieces, "/") + "/"
  }

  lemma LastSlashAt(p: string, i: int)
    requires -1 <= i < |p| && (i >= 0 ==> p[i] == '/') && forall k :: i < k < |p| ==> p[k] != '/'
    ensures LastSlash(p) == i
  {
    var j := LastSlash(p);
  }

  lemma CleanDir(pieces: seq<string>)
    requires AllProper(pieces)
    ensures Clean(DirPath(pieces)) == if pieces == [] then "/" else "/" + Glue(pieces, "/")
  {
    GlueNothing();
    if pieces == [] {
      KeptSlash();
    } else {
      KeptInner(Glue(pieces, "/"));
      SplitGlue(pieces);
      assert [] + pieces == pieces;
      ResolveKeeps([], pieces, true);
    }
  }

  /** The round of a clean path of some names, with or without a trailing slash, drops the last name. */
  lemma NextOfClean(pieces: seq<string>, slash: bool)
    requires pieces != [] && AllProper(pieces)
    ensures var p := "/" + Glue(pieces, "/") + if slash then "/" else "";
            Rooted(p) && p != "/" && Next(p) == DirPath(pieces[..|pieces| - 1])
  {
    hide Clean, Glue, Head, Next, Rooted;
    var init, last := pieces[..|pieces| - 1], pieces[|pieces| - 1];
    assert Proper(last) && pieces == init + [last];
    HeadOfClean(init, last, slash);
    HeadShape("/" + Glue(pieces, "/") + if slash then "/" else "");
    CleanDir(init);
    GlueProper(init);
    if init != [] {
      assert ("/" + Glue(init, "/"))[1..] == Glue(init, "/") && "/"[1..] == "";
    }
  }

  lemma HeadOfClean(init: seq<string>, last: string, slash: bool)
    requires Proper(last)
    ensures var p := "/" + Glue(init + [last], "/") + if slash then "/" else "";
            Rooted(p) && p != "/" && Head(p) == DirPath(init)
  {
    hide Glue, DirPath;
    BareOfClean(init, last, slash);
    SlashEnds(init);
    var dir := DirPath(init);
    var bare := dir + last;
    assert bare[..|dir|] == dir && bare[|dir| - 1] == dir[|dir| - 1];
    assert forall k :: |dir| <= k < |bare| ==> bare[k] == last[k - |dir|] && bare[k] in last;
    LastSlashAt(bare, |dir| - 1);
  }

  lemma SlashEnds(pieces: seq<string>)
    ensures DirPath(pieces) != "" && DirPath(pieces)[|DirPath(pieces)| - 1] == '/'
  {
  }

  lemma GlueProper(pieces: seq<string>)
    requires AllProper(pieces)
    ensures pieces != [] ==> Glue(pieces, "/") != ""
  {
    if pieces != [] {
      assert Proper(pieces[0]);
    }
  }

  lemma BareOfClean(init: seq<string>, last: string, slash: bool)
    requires Proper(last)
    ensures var p := "/" + Glue(init + [last], "/") + if slash then "/" else "";
            Rooted(p) && p != "/" && Bare(p) == DirPath(init) + last
  {
    var all := "/" + Glue(init + [last], "/");
    if init == [] {
      assert init + [last] == [last];
    } else {
      GlueConcat(init, [last]);
    }
    assert all == DirPath(init) + last;
    assert all[|all| - 1] == last[|last| - 1];
    assert last[|last| - 1] in last;
    var p := all + if slash then "/" else "";
    assert p[..|all|] == all;
  }

  /** The directories above the first `n` names, the nearest first. */
  function Directories(pieces: seq<string>, n: nat): (r: seq<string>)
    requires n <= |pieces|
    ensures |r| == n + 1 && r[n] == "/"
    ensures forall i :: 0 <= i <= n ==> r[i] == DirPath(pieces[..n - i])
  {
    if n == 0 then [DirPath(pieces[..0])] else [DirPath(pieces[..n])] + Directories(pieces, n - 1)
  }

  /** A clean rooted path of k names has k + 1 entries: itself, and the directories above it down to the root. */
  lemma {:induction false} ChainOfClean(pieces: seq<string>, slash: bool)
    requires pieces != [] && AllProper(pieces)
    ensures var p := "/" + Glue(pieces, "/") + if slash then "/" else "";
            Rooted(p) && PathChain(p) == [p] + Directories(pieces, |pieces| - 1)
    decreases |pieces|
  {
    hide Next, Glue, PathChain, Rooted;
    var init := pieces[..|pieces| - 1];
    NextOfClean(pieces, slash);
    PathChainStep("/" + Glue(pieces, "/") + if slash then "/" else "");
    if init != [] {
      ChainOfClean(init, true);
      DirectoriesOf(pieces, init, |init| - 1);
    } else {
      PathChainRoot();
      assert pieces[..0] == [];
    }
  }

  /** The segments of a path but for its last one, with one slash at its end left out of account. */
  function Above(p: string): seq<string>
    requires p != ""
  {
    var parts := Split(if p[|p| - 1] == '/' then p[..|p| - 1] else p);
    parts[..|parts| - 1]
  }

  lemma SplitPlain(w: string)
    requires '/' !in w
    ensures Split(w) == [w]
  {
    SplitWord(w, "");
    assert w + "" == w;
  }

  lemma KeptHead(p: string)
    requires Rooted(p) && p != "/"
    ensures Kept(Head(p)) == Resolve([], Above(p), true)
  {
    hide Resolve, Split;
    var b := Bare(p);
    var i := LastSlash(b);
    assert b[0] == '/' && i >= 0;
    var a, w := b[..i], b[i + 1..];
    assert '/' !in w;
    assert b == a + "/" + w && Head(p) == a + "/";
    SplitJoin(a, w);
    SplitPlain(w);
    SplitEnd(a);
    assert Above(p) == Split(a);
    ResolveConcat([], Split(a), [""], true);
    ResolveBlank(Resolve([], Split(a), true));
  }

  lemma ResolveBlank(stack: seq<string>)
    ensures Resolve(stack, [""], true) == stack
  {
    assert [""][1..] == [];
  }

  /** The chain of any rooted path: the path as it is, and then the directories of what its segments but the last come
      to when dots and parents are resolved. */
  lemma ChainOfAny(p: string)
    requires Rooted(p) && p != "/"
    ensures var pieces := Resolve([], Above(p), true);
            AllProper(pieces) && PathChain(p) == [p] + Directories(pieces, |pieces|)
  {
    hide Next, Glue, PathChain, Kept, Head, Above, Resolve, Directories;
    var pieces := Resolve([], Above(p), true);
    KeptHead(p);
    KeptNormal(Head(p));
    HeadShape(p);
    GlueProper(pieces);
    PathChainStep(p);
    if pieces == [] {
      GlueNothing();
      PathChainRoot();
      NoDirectories();
    } else {
      assert Next(p) == "/" + Glue(pieces, "/") + "/";
      ChainOfClean(pieces, true);
      DirectoriesStep(pieces);
    }
  }

  lemma NoDirectories()
    ensures Directories([], 0) == ["/"]
  {
  }

  lemma DirectoriesStep(pieces: seq<string>)
    requires pieces != []
    ensures Directories(pieces, |pieces|) == [DirPath(pieces)] + Directories(pieces, |pieces| - 1)
  {
    assert pieces[..|pieces|] == pieces;
  }

  lemma PathChainStep(p: string)
    requires Rooted(p) && p != "/"
    ensures Rooted(Next(p)) && PathChain(p) == [p] + PathChain(Next(p))
  {
    hide Next;
    NextShorter(p);
  }

  lemma PathChainRoot()
    ensures Rooted("/") && PathChain("/") == ["/"]
  {
  }

  lemma {:induction false} DirectoriesOf(a: seq<string>, b: seq<string>, n: nat)
    requires n <= |a| && n <= |b| && a[..n] == b[..n]
    ensures Directories(a, n) == Directories(b, n)
    decreases n
  {
    if n > 0 {
      assert a[..n - 1] == a[..n][..n - 1] && b[..n - 1] == b[..n][..n - 1];
      DirectoriesOf(a, b, n - 1);
    } else {
      assert a[..0] == b[..0];
    }
  }

  // ---------------------------------------------------------------- the links

  /** The triples of PUT: each URL of the chain is the child of the next one. */
  method ParentLinks(urls: seq<Url>) returns (links: seq<(Url, Url)>)
    requires urls != []
    ensures links == Links(urls)
    ensures |links| == |urls| - 1
    ensures forall i :: 0 <= i < |links| ==> links[i].0 == urls[|urls| - 1 - i] && links[i].1 == urls[|urls| - 2 - i]
  {
    links := [];
    var i := |urls| - 1;
    while i > 0
      invariant 0 <= i < |urls| && links == Links(urls)[..|urls| - 1 - i]
    {
      links := links + [(urls[i], urls[i - 1])];
      i := i - 1;
    }
  }

  function Links(urls: seq<Url>): (links: seq<(Url, Url)>)
    requires urls != []
    ensures |links| == |urls| - 1
  {
    seq(|urls| - 1, i requires 0 <= i < |urls| - 1 => (urls[|urls| - 1 - i], urls[|urls| - 2 - i]))
  }

  /** Goes down along the chain. */
  function Measure(u: Url): nat {
    4 * |u.path| + (if u.rawQuery != "" then 2 else 0) + if u.fragment != "" then 1 else 0
  }

  lemma {:induction false} PathsDescend(u: Url, p: string)
    requires Rooted(p)
    ensures var c := At(u, PathChain(p));
            && c != [] && c[0] == u.(path := p) && c[|c| - 1] == u.(path := "/")
            && forall i, j :: 0 <= i < j < |c| ==> |c[i].path| > |c[j].path|
    ensures forall i :: 0 <= i < |At(u, PathChain(p))| ==> At(u, PathChain(p))[i] == u.(path := At(u, PathChain(p))[i].path)
    decreases |p|
  {
    hide Next, PathChain, At;
    if p == "/" {
      ChainEnd(u);
    } else {
      NextShorter(p);
      ChainStep(u, p);
      PathsDescend(u, Next(p));
      var c, tail := At(u, PathChain(p)), At(u, PathChain(Next(p)));
      assert forall i :: 1 <= i < |c| ==> c[i] == tail[i - 1];
      forall j | 1 <= j < |c|
        ensures |c[j].path| < |p|
      {
        assert |tail[j - 1].path| <= |tail[0].path|;
      }
    }
  }

  /** The chain starts at the URL, ends at the root without query and fragment, and never repeats a URL. */
  lemma ParentsDescend(u: Url)
    requires Rooted(u.path)
    ensures var c := Parents(u);
            && c != [] && c[0] == u && c[|c| - 1] == Plain(u).(path := "/")
            && forall i, j :: 0 <= i < j < |c| ==> Measure(c[i]) > Measure(c[j])
  {
    hide PathChain, At, Rooted;
    PathsDescend(Plain(u), u.path);
    var front, back := Stripped(u), At(Plain(u), PathChain(u.path));
    var c := front + back;
    forall i, j | 0 <= i < j < |c|
      ensures Measure(c[i]) > Measure(c[j])
    {
      if j >= |front| {
        var k := j - |front|;
        assert c[j] == back[k] && back[k] == Plain(u).(path := back[k].path);
        if i >= |front| {
          assert c[i] == back[i - |front|];
        } else {
          assert k > 0 ==> |back[k].path| < |back[0].path|;
        }
      }
    }
  }

  /** The links form one chain: from the root, each child is the parent of the next link, down to the URL itself; no
      URL appears twice. */
  lemma LinksConnect(u: Url)
    requires Rooted(u.path)
    ensures var c := Parents(u);
            var links := Links(c);
            && |links| == |c| - 1
            && (links != [] ==> links[0].0 == Plain(u).(path := "/") && links[|links| - 1].1 == u)
            && (links == [] ==> u == Plain(u).(path := "/"))
            && (forall i :: 0 <= i < |links| - 1 ==> links[i].1 == links[i + 1].0)
            && (forall i, j :: 0 <= i < j < |c| ==> c[i] != c[j])
  {
    hide Parents;
    ParentsDescend(u);
  }
}
