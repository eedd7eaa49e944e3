/** Slash-separated paths: splitting, and the cleaning of Go's path package. */
module Paths {
  import opened Texts

  /** The pieces between slashes; at least one. */
  function Split(s: string): (pieces: seq<string>)
    ensures pieces != []
  {
    if s == "" then [""]
    else
      var rest := Split(s[1..]);
      if s[0] == '/' then [""] + rest else [[s[0]] + rest[0]] + rest[1..]
  }

  lemma GlueNothing()
    ensures Glue([], "/") == ""
  {
  }

  lemma {:induction false} SplitWord(w: string, rest: string)
    requires '/' !in w
    ensures Split(w + rest) == [w + Split(rest)[0]] + Split(rest)[1..]
    decreases |w|
  {
    if w == "" {
      assert w + rest == rest && w + Split(rest)[0] == Split(rest)[0];
    } else {
      assert (w + rest)[1..] == w[1..] + rest;
      SplitWord(w[1..], rest);
      assert [w[0]] + (w[1..] + Split(rest)[0]) == w + Split(rest)[0];
    }
  }

  lemma SplitSlash(w: string, rest: string)
    requires '/' !in w
    ensures Split(w + "/" + rest) == [w] + Split(rest)
  {
    assert w + "/" + rest == w + ("/" + rest);
    assert ("/" + rest)[1..] == rest;
    SplitWord(w, "/" + rest);
    assert w + "" == w;
  }

  lemma {:induction false} SplitEnd(s: string)
    ensures Split(s + "/") == Split(s) + [""]
  {
    if s == "" {
      assert s + "/" == "/" && "/"[1..] == "";
      assert Split("/") == [""] + Split("");
    } else {
      assert (s + "/")[1..] == s[1..] + "/";
      SplitEnd(s[1..]);
      var rest := Split(s[1..]);
      assert (rest + [""])[0] == rest[0] && (rest + [""])[1..] == rest[1..] + [""];
    }
  }

  lemma {:induction false} SplitJoin(a: string, b: string)
    ensures Split(a + "/" + b) == Split(a) + Split(b)
    decreases |a|
  {
    if a == "" {
      SplitSlash("", b);
      assert "" + "/" + b == a + "/" + b;
    } else {
      hide Split;
      var whole, rest := a + "/" + b, Split(a[1..]);
      assert whole[0] == a[0] && whole[1..] == a[1..] + "/" + b;
      SplitJoin(a[1..], b);
      SplitStep(a);
      SplitStep(whole);
      FirstJoin(a[0], rest, Split(b));
    }
  }

  lemma FirstJoin(c: char, rest: seq<string>, more: seq<string>)
    requires rest != []
    ensures [""] + (rest + more) == ([""] + rest) + more
    ensures [[c] + (rest + more)[0]] + (rest + more)[1..] == ([[c] + rest[0]] + rest[1..]) + more
  {
  }

  lemma SplitStep(s: string)
    requires s != ""
    ensures var rest := Split(s[1..]);
            Split(s) == if s[0] == '/' then [""] + rest else [[s[0]] + rest[0]] + rest[1..]
  {
  }

  ghost predicate NoSlashes(pieces: seq<string>) {
    forall k :: 0 <= k < |pieces| ==> '/' !in pieces[k]
  }

  lemma {:induction false} SplitGlue(pieces: seq<string>)
    requires pieces != [] && NoSlashes(pieces)
    ensures Split(Glue(pieces, "/")) == pieces
    decreases |pieces|
  {
    if |pieces| == 1 {
      SplitWord(pieces[0], "");
      assert pieces[0] + "" == pieces[0];
    } else {
      SplitGlue(pieces[1..]);
      SplitSlash(pieces[0], Glue(pieces[1..], "/"));
      assert pieces == [pieces[0]] + pieces[1..];
    }
  }

  lemma {:induction false} GlueConcat(a: seq<string>, b: seq<string>)
    requires a != [] && b != []
    ensures Glue(a + b, "/") == Glue(a, "/") + "/" + Glue(b, "/")
    decreases |a|
  {
    assert (a + b)[1..] == a[1..] + b;
    if |a| > 1 {
      GlueConcat(a[1..], b);
      assert a[0] + "/" + (Glue(a[1..], "/") + "/" + Glue(b, "/")) == a[0] + "/" + Glue(a[1..], "/") + "/" + Glue(b, "/");
    } else {
      assert a[1..] + b == b;
    }
  }

  // ---------------------------------------------------------------- cleaning

  /** One piece after the pieces kept so far. */
  function Push(stack: seq<string>, piece: string, rooted: bool): seq<string> {
    if piece == "" || piece == "." then stack
    else if piece != ".." then stack + [piece]
    else if stack != [] && stack[|stack| - 1] != ".." then stack[..|stack| - 1]
    else if rooted then stack
    else stack + [piece]
  }

  function Resolve(stack: seq<string>, pieces: seq<string>, rooted: bool): seq<string>
    decreases |pieces|
  {
    if pieces == [] then stack else Resolve(Push(stack, pieces[0], rooted), pieces[1..], rooted)
  }

  predicate Rooted(p: string) {
    p != "" && p[0] == '/'
  }

  function Kept(p: string): seq<string> {
    Resolve([], Split(p), Rooted(p))
  }

  /** The shortest path equivalent to `p` by text alone. */
  function Clean(p: string): string {
    if Rooted(p) then "/" + Glue(Kept(p), "/") else if Kept(p) == [] then "." else Glue(Kept(p), "/")
  }

  /** A piece that names something. */
  predicate Proper(piece: string) {
    piece != "" && piece != "." && piece != ".." && '/' !in piece
  }

  ghost predicate AllProper(pieces: seq<string>) {
    forall k :: 0 <= k < |pieces| ==> Proper(pieces[k])
  }

  /** What cleaning keeps: names, and above them `..` when the path is not rooted. */
  ghost predicate Normal(stack: seq<string>, rooted: bool) {
    forall k :: 0 <= k < |stack| ==> Proper(stack[k]) || (!rooted && stack[k] == ".." && forall j :: 0 <= j < k ==> stack[j] == "..")
  }

  lemma {:induction false} SplitPieces(s: string)
    ensures NoSlashes(Split(s))
  {
    if s != "" {
      SplitPieces(s[1..]);
    }
  }

  lemma PushNormal(stack: seq<string>, piece: string, rooted: bool)
    requires Normal(stack, rooted) && '/' !in piece
    ensures Normal(Push(stack, piece, rooted), rooted)
  {
    if piece == ".." && !rooted && !(stack != [] && stack[|stack| - 1] != "..") {
      forall j | 0 <= j < |stack|
        ensures stack[j] == ".."
      {
        var last := |stack| - 1;
        assert stack[last] == ".." && !Proper(stack[last]);
      }
    }
  }

  lemma {:induction false} ResolveNormal(stack: seq<string>, pieces: seq<string>, rooted: bool)
    requires Normal(stack, rooted) && NoSlashes(pieces)
    ensures Normal(Resolve(stack, pieces, rooted), rooted)
    decreases |pieces|
  {
    if pieces != [] {
      PushNormal(stack, pieces[0], rooted);
      ResolveNormal(Push(stack, pieces[0], rooted), pieces[1..], rooted);
    }
  }

  lemma KeptNormal(p: string)
    ensures Normal(Kept(p), Rooted(p)) && NoSlashes(Kept(p))
  {
    SplitPieces(p);
    ResolveNormal([], Split(p), Rooted(p));
  }

  lemma {:induction false} ResolveConcat(stack: seq<string>, a: seq<string>, b: seq<string>, rooted: bool)
    ensures Resolve(stack, a + b, rooted) == Resolve(Resolve(stack, a, rooted), b, rooted)
    decreases |a|
  {
    if a == [] {
      assert a + b == b;
    } else {
      assert (a + b)[1..] == a[1..] + b;
      ResolveConcat(Push(stack, a[0], rooted), a[1..], b, rooted);
    }
  }

  /** Pieces that are already normal are kept as they are. */
  lemma {:induction false} ResolveKeeps(stack: seq<string>, pieces: seq<string>, rooted: bool)
    requires Normal(stack + pieces, rooted)
    ensures Resolve(stack, pieces, rooted) == stack + pieces
    decreases |pieces|
  {
    if pieces == [] {
      assert stack + [] == stack;
    } else {
      var k := |stack|;
      assert (stack + pieces)[k] == pieces[0];
      assert forall j :: 0 <= j < k ==> (stack + pieces)[j] == stack[j];
      assert stack + pieces == (stack + [pieces[0]]) + pieces[1..];
      ResolveKeeps(stack + [pieces[0]], pieces[1..], rooted);
    }
  }

  /** A slash at either end adds nothing to what is kept. */
  lemma KeptInner(x: string)
    ensures Kept("/" + x + "/") == Resolve([], Split(x), true)
  {
    var p := "/" + x + "/";
    assert p[0] == '/' && p[1..] == x + "/";
    SplitEnd(x);
    ResolveConcat([], [""] + Split(x), [""], true);
    assert [""] + (Split(x) + [""]) == [""] + Split(x) + [""];
    assert ([""] + Split(x))[1..] == Split(x);
  }

  /** The number of characters of the pieces, each with a slash. */
  function Weight(pieces: seq<string>): nat {
    if pieces == [] then 0 else |pieces[0]| + 1 + Weight(pieces[1..])
  }

  lemma {:induction false} WeightConcat(a: seq<string>, b: seq<string>)
    ensures Weight(a + b) == Weight(a) + Weight(b)
    decreases |a|
  {
    if a == [] {
      assert a + b == b;
    } else {
      assert (a + b)[1..] == a[1..] + b;
      WeightConcat(a[1..], b);
    }
  }

  lemma {:induction false} GlueWeight(pieces: seq<string>)
    requires pieces != []
    ensures |Glue(pieces, "/")| + 1 == Weight(pieces)
    decreases |pieces|
  {
    if |pieces| > 1 {
      GlueWeight(pieces[1..]);
    } else {
      assert Weight(pieces[1..]) == 0;
    }
  }

  lemma {:induction false} SplitWeight(s: string)
    ensures Weight(Split(s)) == |s| + 1
  {
    if s != "" {
      SplitWeight(s[1..]);
      var rest := Split(s[1..]);
      if s[0] != '/' {
        assert rest == [rest[0]] + rest[1..];
        var mine := [[s[0]] + rest[0]] + rest[1..];
        assert mine[1..] == rest[1..];
      } else {
        assert ([""] + rest)[1..] == rest;
      }
    } else {
      assert [""][1..] == [];
    }
  }

  /** Cleaning never adds characters. */
  lemma {:induction false} ResolveWeight(stack: seq<string>, pieces: seq<string>, rooted: bool)
    ensures Weight(Resolve(stack, pieces, rooted)) <= Weight(stack) + Weight(pieces)
    decreases |pieces|
  {
    if pieces != [] {
      ResolveWeight(Push(stack, pieces[0], rooted), pieces[1..], rooted);
      WeightConcat(stack, [pieces[0]]);
      assert [pieces[0]][1..] == [];
      if stack != [] {
        WeightConcat(stack[..|stack| - 1], [stack[|stack| - 1]]);
        assert stack == stack[..|stack| - 1] + [stack[|stack| - 1]];
      }
    }
  }

  /** Cleaning the inside of a path between slashes does not lengthen it. */
  lemma CleanInnerShort(x: string)
    ensures Kept("/" + x + "/") != [] ==> |Glue(Kept("/" + x + "/"), "/")| <= |x|
  {
    KeptInner(x);
    SplitWeight(x);
    ResolveWeight([], Split(x), true);
    if Kept("/" + x + "/") != [] {
      GlueWeight(Kept("/" + x + "/"));
    }
  }

  lemma KeptSlash()
    ensures Kept("/") == []
  {
    assert "/"[1..] == "" && Split("/") == [""] + [""];
    assert ([""] + [""])[1..] == [""] && [""][1..] == [];
  }

  // ---------------------------------------------------------------- paths below a directory

  /** What a join keeps: the first path, then the second. */
  lemma KeptJoin(p: string, q: string)
    requires p != ""
    ensures Rooted(p + "/" + q) == Rooted(p) && Kept(p + "/" + q) == Resolve(Kept(p), Split(q), Rooted(p))
  {
    SplitJoin(p, q);
    ResolveConcat([], Split(p), Split(q), Rooted(p));
    assert (p + "/" + q)[0] == p[0];
  }

  lemma KeptTrailing(p: string)
    requires p != ""
    ensures Rooted(p + "/") == Rooted(p) && Kept(p + "/") == Kept(p)
  {
    assert p + "/" + "" == p + "/";
    KeptJoin(p, "");
    assert [""][1..] == [];
  }

  lemma NormalExtends(stack: seq<string>, pieces: seq<string>, rooted: bool)
    requires Normal(stack, rooted) && AllProper(pieces)
    ensures Normal(stack + pieces, rooted)
  {
  }

  /** Cleaning is stable: what is kept of a cleaned path is what was kept of the path. */
  lemma KeptClean(p: string)
    ensures Clean(p) != "" && Rooted(Clean(p)) == Rooted(p) && Kept(Clean(p)) == Kept(p)
  {
    KeptNormal(p);
    var kept := Kept(p);
    assert [] + kept == kept;
    if kept == [] {
      if Rooted(p) {
        KeptSlash();
      } else {
        assert "."[1..] == "" && Split(".") == [['.'] + ""] + [""][1..];
        assert ['.'] + "" == "." && [""][1..] == [] && ["."] + [] == ["."] && ["."][1..] == [];
      }
    } else {
      SplitGlue(kept);
      ResolveKeeps([], kept, Rooted(p));
      if Rooted(p) {
        assert ("/" + Glue(kept, "/"))[1..] == Glue(kept, "/");
        assert ([""] + kept)[1..] == kept;
        assert Split("/" + Glue(kept, "/")) == [""] + kept;
      } else {
        assert kept[0] != "" && kept[0][0] in kept[0];
        assert Glue(kept, "/")[0] == kept[0][0];
      }
    }
  }
}
