/** The path algebra of file-system entries (server/filesystem.go:12-19, 62-68, 180-186, 224-273): where navigating by
    child names, parameters and directories puts the data of an entry. */
module FileSystem {
  import opened Options
  import opened Texts
  import opened Paths

  datatype FSEntry = FSEntry(pathDot: string, name: string, level: nat)

  function Create(p: string): FSEntry {
    FSEntry(Clean(p) + "/", "", 0)
  }

  predicate EndsInSlash(s: string) {
    s != "" && s[|s| - 1] == '/'
  }

  /** The directory of an entry. */
  function Opened(p: string): string {
    if EndsInSlash(p) then p else p + "dir/"
  }

  function Join(p: string, q: string): string {
    Clean(p + "/" + q)
  }

  function Child(e: FSEntry, name: string): FSEntry {
    var p := Opened(e.pathDot);
    var n := Clean("/" + name)[1..];
    if n == "" then FSEntry(p, e.name, e.level)
    else
      var elements := Split(n);
      var q := Join(p, Glue(elements, ".dir/")) + ".";
      FSEntry(if EndsInSlash(name) then q + "dir/" else q, elements[|elements| - 1], e.level + |elements|)
  }

  function Parameters(e: FSEntry): FSEntry {
    FSEntry(e.pathDot + "meta", "", e.level + 1)
  }

  function Dir(e: FSEntry): FSEntry {
    FSEntry(Opened(e.pathDot), e.name, e.level)
  }

  /** The file that holds the data of an entry, as the file system sees its path. */
  function DataFile(e: FSEntry): string {
    Clean(e.pathDot + "data")
  }

  // ---------------------------------------------------------------- places

  /** One level of the file tree: the name of a child, if any, and how often its parameters were asked for. */
  datatype Comp = Comp(piece: Option<string>, metas: nat)

  /** The levels from the base directory on; the last one is a file, the others are directories. */
  type Place = seq<Comp>

  const HERE := Comp(None, 0)

  function Metas(n: nat): string {
    if n == 0 then "" else "meta" + Metas(n - 1)
  }

  function Text(c: Comp): string {
    (if c.piece.Some? then c.piece.value + "." else "") + Metas(c.metas)
  }

  function Dirs(place: Place): seq<string> {
    if place == [] then [] else [Text(place[0]) + "dir"] + Dirs(place[1..])
  }

  function Front(place: Place): Place
    requires place != []
  {
    place[..|place| - 1]
  }

  function Last(place: Place): Comp
    requires place != []
  {
    place[|place| - 1]
  }

  /** The names on the way to a place, the last with the given ending. */
  function Names(place: Place, ending: string): seq<string>
    requires place != []
  {
    Dirs(Front(place)) + [Text(Last(place)) + ending]
  }

  ghost predicate Placed(place: Place) {
    && place != []
    && (forall i :: 0 <= i < |place| && place[i].piece.Some? ==> Proper(place[i].piece.value))
    && (forall i :: 0 <= i < |place| - 1 ==> place[i] != HERE)
  }

  /** A step of a navigation; the pieces are the segments of the child's name. */
  datatype Move = ToChild(pieces: seq<string>, slash: bool) | ToParameters | ToDir

  function NameOf(pieces: seq<string>, slash: bool): string {
    Glue(pieces, "/") + if slash then "/" else ""
  }

  function Moved(e: FSEntry, m: Move): FSEntry {
    match m
    case ToChild(pieces, slash) => Child(e, NameOf(pieces, slash))
    case ToParameters => Parameters(e)
    case ToDir => Dir(e)
  }

  function Navigate(e: FSEntry, moves: seq<Move>): FSEntry
    decreases |moves|
  {
    if moves == [] then e else Navigate(Moved(e, moves[0]), moves[1..])
  }

  function OpenedPlace(place: Place): Place
    requires place != []
  {
    if Last(place) == HERE then place else place + [HERE]
  }

  function Children(pieces: seq<string>): Place {
    if pieces == [] then [] else [Comp(Some(pieces[0]), 0)] + Children(pieces[1..])
  }

  function PlaceAfter(place: Place, m: Move): Place
    requires place != []
  {
    match m
    case ToChild(pieces, slash) =>
      if pieces == [] then OpenedPlace(place)
      else Front(OpenedPlace(place)) + Children(pieces) + if slash then [HERE] else []
    case ToParameters => Front(place) + [Last(place).(metas := Last(place).metas + 1)]
    case ToDir => OpenedPlace(place)
  }

  function PlaceOf(place: Place, moves: seq<Move>): Place
    requires place != []
    decreases |moves|
  {
    if moves == [] then place
    else
      ChildrenSize(moves[0]);
      PlaceOf(PlaceAfter(place, moves[0]), moves[1..])
  }

  lemma {:induction false} ChildrenAt(pieces: seq<string>)
    ensures |Children(pieces)| == |pieces|
    ensures forall k :: 0 <= k < |pieces| ==> Children(pieces)[k] == Comp(Some(pieces[k]), 0)
  {
    if pieces != [] {
      ChildrenAt(pieces[1..]);
    }
  }

  lemma ChildrenSize(m: Move)
    ensures m.ToChild? ==> |Children(m.pieces)| == |m.pieces|
  {
    if m.ToChild? {
      ChildrenAt(m.pieces);
    }
  }

  /** Names without slashes that are neither empty nor dot names. */
  ghost predicate PlainMove(m: Move) {
    m.ToChild? ==> AllProper(m.pieces)
  }

  ghost predicate PlainMoves(moves: seq<Move>) {
    forall i :: 0 <= i < |moves| ==> PlainMove(moves[i])
  }

  lemma PlacedAfter(place: Place, m: Move)
    requires Placed(place) && PlainMove(m)
    ensures Placed(PlaceAfter(place, m))
  {
    if m.ToChild? {
      ChildrenAt(m.pieces);
    }
  }

  // ---------------------------------------------------------------- different places have different names

  lemma {:induction false} MetasShape(n: nat)
    ensures |Metas(n)| == 4 * n && '.' !in Metas(n) && '/' !in Metas(n)
  {
    if n > 0 {
      MetasShape(n - 1);
    }
  }

  lemma TextInjective(c: Comp, d: Comp)
    requires Text(c) == Text(d)
    ensures c == d
  {
    hide Metas;
    MetasShape(c.metas);
    MetasShape(d.metas);
    TextDot(c);
    TextDot(d);
    var t := Text(c);
    if c.piece.Some? && d.piece.Some? {
      var i, j := |c.piece.value|, |d.piece.value|;
      assert t[i] == '.' && t[j] == '.' && t[..i] == c.piece.value && t[..j] == d.piece.value;
      assert forall k :: i < k < |t| ==> t[k] == Metas(c.metas)[k - i - 1] && t[k] in Metas(c.metas);
      assert forall k :: j < k < |t| ==> t[k] == Metas(d.metas)[k - j - 1] && t[k] in Metas(d.metas);
    }
  }

  lemma TextDot(c: Comp)
    ensures '.' in Text(c) <==> c.piece.Some?
  {
    MetasShape(c.metas);
    if c.piece.Some? {
      assert Text(c)[|c.piece.value|] == '.';
    }
  }

  lemma EndingInjective(a: string, b: string, ending: string)
    requires a + ending == b + ending
    ensures a == b
  {
    assert (a + ending)[..|a|] == a && (b + ending)[..|b|] == b;
  }

  lemma {:induction false} DirsInjective(a: Place, b: Place)
    requires Dirs(a) == Dirs(b)
    ensures a == b
    decreases |a|
  {
    hide Text;
    if a != [] && b != [] {
      assert Dirs(a)[0] == Dirs(b)[0] && Dirs(a)[1..] == Dirs(a[1..]) && Dirs(b)[1..] == Dirs(b[1..]);
      EndingInjective(Text(a[0]), Text(b[0]), "dir");
      TextInjective(a[0], b[0]);
      DirsInjective(a[1..], b[1..]);
    }
  }

  lemma NamesInjective(a: Place, b: Place, ending: string)
    requires a != [] && b != [] && Names(a, ending) == Names(b, ending)
    ensures a == b
  {
    hide Text, Dirs;
    var m, n := Names(a, ending), Names(b, ending);
    assert m[..|m| - 1] == Dirs(Front(a)) && n[..|n| - 1] == Dirs(Front(b));
    assert m[|m| - 1] == Text(Last(a)) + ending && n[|n| - 1] == Text(Last(b)) + ending;
    EndingInjective(Text(Last(a)), Text(Last(b)), ending);
    TextInjective(Last(a), Last(b));
    DirsInjective(Front(a), Front(b));
    assert a == Front(a) + [Last(a)] && b == Front(b) + [Last(b)];
  }

  lemma TextProper(c: Comp, ending: string)
    requires (c.piece.Some? ==> Proper(c.piece.value)) && ending in {"dir", "data"}
    ensures Proper(Text(c) + ending)
  {
    MetasShape(c.metas);
    assert ending[|ending| - 1] != '.' && '/' !in ending;
    var t := Text(c) + ending;
    assert t[|t| - 1] == ending[|ending| - 1];
  }

  lemma {:induction false} DirsProper(place: Place)
    requires forall i :: 0 <= i < |place| && place[i].piece.Some? ==> Proper(place[i].piece.value)
    ensures AllProper(Dirs(place))
  {
    if place != [] {
      TextProper(place[0], "dir");
      DirsProper(place[1..]);
    }
  }

  lemma NamesProper(place: Place)
    requires Placed(place)
    ensures AllProper(Names(place, "data")) && AllProper(Dirs(Front(place)))
  {
    hide Text;
    DirsProper(Front(place));
    TextProper(Last(place), "data");
  }

  // ---------------------------------------------------------------- where a navigation leads

  /** The base directory, as it stands before the names below it. */
  function Lead(base: string): string {
    if Kept(base) == [] then (if Rooted(base) then "/" else "") else Clean(base) + "/"
  }

  /** The two ways in which a path below the base directory may start: as Create writes it, and cleaned. */
  ghost predicate Starts(pre: string, base: string) {
    pre == Lead(base) || pre == Clean(base) + "/"
  }

  /** Names below the base directory, cleaned. */
  lemma CleanBelow(p: string, base: string, names: seq<string>)
    requires p != "" && Rooted(p) == Rooted(base) && Kept(p) == Kept(base) + names && names != []
    ensures Clean(p) == Lead(base) + Glue(names, "/")
  {
    if Kept(base) == [] {
      assert Kept(base) + names == names;
    } else {
      GlueConcat(Kept(base), names);
    }
  }

  lemma StartKept(pre: string, base: string)
    requires Starts(pre, base) && pre != ""
    ensures Rooted(pre) == Rooted(base) && Kept(pre) == Kept(base)
  {
    hide Kept, Clean;
    KeptClean(base);
    KeptTrailing(Clean(base));
    KeptSlash();
  }

  /** Pieces below the base directory, some of them empty. */
  lemma BelowKept(pre: string, base: string, y: string)
    requires Starts(pre, base) && y != "" && y[0] != '/'
    ensures Rooted(pre + y) == Rooted(base) && Kept(pre + y) == Resolve(Kept(base), Split(y), Rooted(base))
  {
    hide Resolve;
    KeptClean(base);
    if pre == Clean(base) + "/" {
      hide Kept, Clean;
      assert pre + y == Clean(base) + "/" + y;
      KeptJoin(Clean(base), y);
    } else if Rooted(base) {
      SlashKept(y);
    } else {
      assert "" + y == y;
    }
  }

  lemma SlashKept(y: string)
    ensures Kept("/" + y) == Resolve([], Split(y), true)
  {
    assert ("/" + y)[1..] == y && ([""] + Split(y))[1..] == Split(y);
  }

  lemma ResolveNames(base: string, names: seq<string>)
    requires AllProper(names)
    ensures Resolve(Kept(base), names, Rooted(base)) == Kept(base) + names
  {
    hide Resolve, Kept;
    KeptNormal(base);
    NormalExtends(Kept(base), names, Rooted(base));
    ResolveKeeps(Kept(base), names, Rooted(base));
  }

  lemma ProperNames(names: seq<string>)
    requires AllProper(names)
    ensures NoSlashes(names) && (names != [] ==> Glue(names, "/") != "" && Glue(names, "/")[0] != '/')
  {
    if names != [] {
      assert Proper(names[0]) && names[0][0] in names[0];
      assert Glue(names, "/")[0] == names[0][0];
    }
  }

  /** The entry stands at the place: its path is the base directory and the names of the place. */
  ghost predicate Stands(base: string, e: FSEntry, place: Place) {
    && Placed(place) && e.pathDot != ""
    && exists pre :: Starts(pre, base) && e.pathDot == pre + Glue(Names(place, ""), "/")
  }

  lemma StandsPlaced(base: string, e: FSEntry, place: Place)
    requires Stands(base, e, place)
    ensures place != []
  {
  }

  lemma DataBelow(base: string, e: FSEntry, place: Place)
    requires Stands(base, e, place)
    ensures DataFile(e) == Lead(base) + Glue(Names(place, "data"), "/")
  {
    hide Kept, Clean, Resolve, Glue, Names, Starts;
    var pre :| Starts(pre, base) && e.pathDot == pre + Glue(Names(place, ""), "/");
    var names := Names(place, "data");
    EndsWith(place, "", "data");
    assert "" + "data" == "data";
    assert e.pathDot + "data" == pre + Glue(names, "/");
    NamesProper(place);
    ProperNames(names);
    NamesSome(place, "data");
    BelowKept(pre, base, Glue(names, "/"));
    SplitGlue(names);
    ResolveNames(base, names);
    CleanBelow(pre + Glue(names, "/"), base, names);
  }

  lemma NamesSome(place: Place, ending: string)
    requires place != []
    ensures Names(place, ending) != []
  {
  }

  /** The ending comes last. */
  lemma EndsWith(place: Place, a: string, b: string)
    requires place != []
    ensures Glue(Names(place, a + b), "/") == Glue(Names(place, a), "/") + b
  {
    var dirs, t := Dirs(Front(place)), Text(Last(place));
    if dirs == [] {
      assert Names(place, a) == [t + a] && Names(place, a + b) == [t + (a + b)];
    } else {
      GlueConcat(dirs, [t + a]);
      GlueConcat(dirs, [t + (a + b)]);
    }
    assert t + (a + b) == (t + a) + b;
  }

  lemma {:induction false} DirsSnoc(place: Place, c: Comp)
    ensures Dirs(place + [c]) == Dirs(place) + [Text(c) + "dir"]
    decreases |place|
  {
    hide Text;
    if place == [] {
      assert [] + [c] == [c] && [c][1..] == [];
    } else {
      assert (place + [c])[1..] == place[1..] + [c];
      DirsSnoc(place[1..], c);
    }
  }

  lemma {:induction false} DirsConcat(a: Place, b: Place)
    ensures Dirs(a + b) == Dirs(a) + Dirs(b)
    decreases |a|
  {
    hide Text;
    if a == [] {
      assert a + b == b;
    } else {
      assert (a + b)[1..] == a[1..] + b;
      DirsConcat(a[1..], b);
    }
  }

  lemma TextHere(c: Comp)
    ensures Text(HERE) == "" && (c != HERE ==> Text(c) != "")
  {
    MetasShape(c.metas);
  }

  /** A path ends in a slash just when its place is a directory. */
  lemma SlashIffHere(base: string, e: FSEntry, place: Place)
    requires Stands(base, e, place)
    ensures EndsInSlash(e.pathDot) <==> Last(place) == HERE
  {
    hide Clean, Glue, Names, Text, Starts;
    var pre :| Starts(pre, base) && e.pathDot == pre + Glue(Names(place, ""), "/");
    var t := Text(Last(place));
    NamesText(place);
    StartEnds(pre, base);
    TextHere(Last(place));
    TextSlashless(Last(place));
    if Last(place) != HERE {
      assert e.pathDot[|e.pathDot| - 1] == t[|t| - 1] && t[|t| - 1] in t;
    } else if Front(place) == [] {
      assert e.pathDot == pre;
    }
  }

  /** The text of a place ends with the text of its last level, after a slash if there are others. */
  lemma NamesText(place: Place)
    requires place != []
    ensures Glue(Names(place, ""), "/") == (if Front(place) == [] then "" else Glue(Dirs(Front(place)), "/") + "/") + Text(Last(place))
  {
    hide Text;
    var dirs, t := Dirs(Front(place)), Text(Last(place));
    assert t + "" == t;
    if Front(place) != [] {
      GlueConcat(dirs, [t]);
    } else {
      assert dirs + [t] == [t];
    }
  }

  lemma StartEnds(pre: string, base: string)
    requires Starts(pre, base)
    ensures pre != "" ==> EndsInSlash(pre)
  {
    hide Clean, Kept;
  }

  lemma TextSlashless(c: Comp)
    requires c.piece.Some? ==> Proper(c.piece.value)
    ensures '/' !in Text(c)
  {
    MetasShape(c.metas);
  }

  lemma NamesOpened(place: Place)
    requires place != [] && Last(place) != HERE
    ensures Glue(Names(place + [HERE], ""), "/") == Glue(Names(place, ""), "/") + "dir/"
  {
    hide Text;
    TextHere(HERE);
    assert place == Front(place) + [Last(place)] && Front(place + [HERE]) == place && Last(place + [HERE]) == HERE;
    DirsSnoc(Front(place), Last(place));
    assert Text(HERE) + "" == "";
    assert Dirs(place) == Dirs(Front(place)) + [Text(Last(place)) + "dir"];
    assert Names(place + [HERE], "") == Names(place, "dir") + [""];
    GlueConcat(Names(place, "dir"), [""]);
    EndsWith(place, "", "dir");
    assert "" + "dir" == "dir" && Glue(Names(place, ""), "/") + "dir" + "/" + "" == Glue(Names(place, ""), "/") + "dir/";
  }

  lemma DirStands(base: string, e: FSEntry, place: Place)
    requires Stands(base, e, place)
    ensures Stands(base, Dir(e), OpenedPlace(place)) && EndsInSlash(Dir(e).pathDot)
  {
    hide Glue, Names, Starts;
    SlashIffHere(base, e, place);
    if Last(place) != HERE {
      var pre :| Starts(pre, base) && e.pathDot == pre + Glue(Names(place, ""), "/");
      NamesOpened(place);
      assert pre + Glue(Names(place, ""), "/") + "dir/" == pre + Glue(Names(place + [HERE], ""), "/");
    }
  }

  lemma {:induction false} MetasSnoc(n: nat)
    ensures Metas(n + 1) == Metas(n) + "meta"
  {
    if n > 0 {
      MetasSnoc(n - 1);
      assert "meta" + (Metas(n - 1) + "meta") == "meta" + Metas(n - 1) + "meta";
    } else {
      assert "meta" + "" == "" + "meta";
    }
  }

  lemma ParametersStand(base: string, e: FSEntry, place: Place)
    requires Stands(base, e, place)
    ensures Stands(base, Parameters(e), PlaceAfter(place, ToParameters))
  {
    hide Glue, Starts, Dirs;
    var pre :| Starts(pre, base) && e.pathDot == pre + Glue(Names(place, ""), "/");
    var next := PlaceAfter(place, ToParameters);
    PlacedAfter(place, ToParameters);
    MetasSnoc(Last(place).metas);
    EndsWith(place, "", "meta");
    assert Front(next) == Front(place);
    assert Text(Last(next)) + "" == Text(Last(place)) + ("" + "meta");
    assert Names(next, "") == Names(place, "" + "meta");
    assert pre + Glue(Names(place, ""), "/") + "meta" == pre + Glue(Names(next, ""), "/");
  }

  // ---------------------------------------------------------------- children

  /** The name of a child, cleaned: its pieces. */
  lemma CleanName(pieces: seq<string>, slash: bool)
    requires AllProper(pieces)
    ensures Clean("/" + NameOf(pieces, slash))[1..] == Glue(pieces, "/")
    ensures pieces != [] ==> (EndsInSlash(NameOf(pieces, slash)) <==> slash)
  {
    hide Kept;
    ProperNames(pieces);
    assert Normal(pieces, true) && [] + pieces == pieces;
    var g := Glue(pieces, "/");
    if pieces == [] {
      NothingKept(slash);
    } else {
      SplitGlue(pieces);
      if slash {
        assert "/" + (g + "/") == "/" + g + "/";
        KeptInner(g);
      } else {
        assert g + "" == g;
        SlashKept(g);
      }
      ResolveKeeps([], pieces, true);
      LastOfGlue(pieces);
    }
    assert ("/" + g)[1..] == g;
  }

  lemma NothingKept(slash: bool)
    ensures Kept("/" + NameOf([], slash)) == []
  {
    KeptSlash();
    if slash {
      KeptTrailing("/");
      assert "/" + ("" + "/") == "/" + "/";
    } else {
      assert "/" + ("" + "") == "/";
    }
  }

  lemma {:induction false} LastOfGlue(pieces: seq<string>)
    requires pieces != [] && AllProper(pieces)
    ensures Glue(pieces, "/") != "" && !EndsInSlash(Glue(pieces, "/"))
    decreases |pieces|
  {
    if |pieces| == 1 {
      assert Proper(pieces[0]) && pieces[0][|pieces[0]| - 1] in pieces[0];
    } else {
      LastOfGlue(pieces[1..]);
    }
  }

  /** The elements joined by ".dir/": directories, and a last name. */
  lemma {:induction false} JoinedNames(pieces: seq<string>)
    requires pieces != []
    ensures Glue(pieces, ".dir/") == Glue(Dirs(Children(pieces[..|pieces| - 1])) + [pieces[|pieces| - 1]], "/")
    decreases |pieces|
  {
    if |pieces| == 1 {
      assert pieces[..0] == [] && Dirs(Children(pieces[..0])) + [pieces[0]] == [pieces[0]];
    } else {
      var tail := pieces[1..];
      var init := pieces[..|pieces| - 1];
      JoinedNames(tail);
      assert init[1..] == tail[..|tail| - 1] && init[0] == pieces[0];
      var c := Comp(Some(pieces[0]), 0);
      assert Children(init) == [c] + Children(init[1..]);
      assert Dirs(Children(init)) == [Text(c) + "dir"] + Dirs(Children(init[1..])) by {
        assert ([c] + Children(init[1..]))[1..] == Children(init[1..]);
      }
      var names := Dirs(Children(init[1..])) + [tail[|tail| - 1]];
      GlueConcat([Text(c) + "dir"], names);
      assert Dirs(Children(init)) + [pieces[|pieces| - 1]] == [Text(c) + "dir"] + names;
      assert Text(c) + "dir" + "/" == pieces[0] + ".dir/";
    }
  }

  /** What is kept of the path of a directory: the base directory and the names of the place. */
  lemma OpenedKept(base: string, e: FSEntry, place: Place)
    requires Stands(base, e, place) && Last(place) == HERE
    ensures Rooted(e.pathDot) == Rooted(base) && Kept(e.pathDot) == Kept(base) + Dirs(Front(place))
  {
    hide Kept, Clean, Glue, Starts, Dirs, Resolve;
    var pre :| Starts(pre, base) && e.pathDot == pre + Glue(Names(place, ""), "/");
    var dirs := Dirs(Front(place));
    TextHere(HERE);
    assert Names(place, "") == dirs + [""];
    NamesProper(place);
    if dirs == [] {
      assert dirs + [""] == [""];
      GlueSingle("");
      assert pre + "" == pre && Kept(base) + [] == Kept(base);
      StartKept(pre, base);
    } else {
      ProperNames(dirs);
      GlueConcat(dirs, [""]);
      GlueSingle("");
      var y := Glue(dirs + [""], "/");
      assert y[0] == Glue(dirs, "/")[0];
      BelowKept(pre, base, y);
      SplitGlue(dirs + [""]);
      ResolveConcat(Kept(base), dirs, [""], Rooted(base));
      ResolveNames(base, dirs);
      ResolveEmpty(Kept(base) + dirs, Rooted(base));
    }
  }

  lemma GlueSingle(s: string)
    ensures Glue([s], "/") == s
  {
  }

  lemma ResolveEmpty(stack: seq<string>, rooted: bool)
    ensures Resolve(stack, [""], rooted) == stack
  {
    assert [""][1..] == [];
  }

  /** The names below the directory of a place on the way to a child. */
  function Way(place: Place, pieces: seq<string>): seq<string>
    requires place != [] && pieces != []
  {
    Dirs(Front(OpenedPlace(place))) + (Dirs(Children(pieces[..|pieces| - 1])) + [pieces[|pieces| - 1]])
  }

  lemma WayProper(place: Place, pieces: seq<string>)
    requires Placed(place) && pieces != [] && AllProper(pieces)
    ensures AllProper(Dirs(Front(OpenedPlace(place)))) && AllProper(Way(place, pieces))
    ensures AllProper(Dirs(Children(pieces[..|pieces| - 1])) + [pieces[|pieces| - 1]])
  {
    var init := pieces[..|pieces| - 1];
    ChildrenAt(init);
    DirsProper(Children(init));
    DirsProper(Front(OpenedPlace(place)));
  }

  lemma JoinKept(base: string, e: FSEntry, place: Place, pieces: seq<string>)
    requires Stands(base, e, place) && pieces != [] && AllProper(pieces)
    ensures Join(Opened(e.pathDot), Glue(pieces, ".dir/")) == Lead(base) + Glue(Way(place, pieces), "/")
  {
    hide Kept, Clean, Glue, Starts, Dirs, Resolve, Opened, Glue, Lead, Children, AllProper, Placed;
    StandsPlaced(base, e, place);
    var p, x := Opened(e.pathDot), Glue(pieces, ".dir/");
    var dirs := Dirs(Front(OpenedPlace(place)));
    var names := Dirs(Children(pieces[..|pieces| - 1])) + [pieces[|pieces| - 1]];
    DirStands(base, e, place);
    OpenedKept(base, Dir(e), OpenedPlace(place));
    KeptJoin(p, x);
    JoinedNames(pieces);
    WayProper(place, pieces);
    ProperNames(names);
    SplitGlue(names);
    ResolveConcat(Kept(base), dirs, names, Rooted(base));
    ResolveNames(base, dirs);
    ResolveNames(base, Way(place, pieces));
    CleanBelow(p + "/" + x, base, Way(place, pieces));
  }

  /** The name of a child and its dot. */
  lemma ChildNames(place: Place, pieces: seq<string>)
    requires place != [] && pieces != []
    ensures var next := PlaceAfter(place, ToChild(pieces, false));
            next != [] && Last(next) == Comp(Some(pieces[|pieces| - 1]), 0) && Glue(Names(next, ""), "/") == Glue(Way(place, pieces), "/") + "."
  {
    hide Dirs, Glue;
    var init, last := pieces[..|pieces| - 1], pieces[|pieces| - 1];
    ChildrenAt(pieces);
    ChildrenAt(init);
    var above := Front(OpenedPlace(place));
    var next := PlaceAfter(place, ToChild(pieces, false));
    assert Children(pieces) == Children(init) + [Comp(Some(last), 0)];
    assert next == above + Children(init) + [Comp(Some(last), 0)];
    assert Front(next) == above + Children(init);
    DirsConcat(above, Children(init));
    var front := Dirs(above) + Dirs(Children(init));
    assert Text(Comp(Some(last), 0)) + "" == last + ".";
    assert Names(next, "") == front + [last + "."];
    assert Way(place, pieces) == front + [last];
    GlueLast(front, last, ".");
  }

  lemma GlueLast(front: seq<string>, t: string, b: string)
    ensures Glue(front + [t + b], "/") == Glue(front + [t], "/") + b
  {
    if front == [] {
      assert front + [t + b] == [t + b] && front + [t] == [t];
    } else {
      GlueConcat(front, [t + b]);
      GlueConcat(front, [t]);
    }
  }

  /** A child without a trailing slash stands below the directory of the entry. */
  lemma ChildPath(base: string, e: FSEntry, place: Place, pieces: seq<string>)
    requires Stands(base, e, place) && pieces != [] && AllProper(pieces)
    ensures var next := PlaceAfter(place, ToChild(pieces, false));
            && Placed(next) && Child(e, NameOf(pieces, false)).pathDot == Lead(base) + Glue(Names(next, ""), "/")
            && Last(next) == Comp(Some(pieces[|pieces| - 1]), 0)
  {
    hide Kept, Clean, Glue, Names, Starts, Dirs, Glue, Opened, Resolve;
    var next := PlaceAfter(place, ToChild(pieces, false));
    PlacedAfter(place, ToChild(pieces, false));
    ChildrenAt(pieces);
    CleanName(pieces, false);
    ProperNames(pieces);
    SplitGlue(pieces);
    JoinKept(base, e, place, pieces);
    ChildNames(place, pieces);
  }

  lemma ChildStands(base: string, e: FSEntry, place: Place, pieces: seq<string>, slash: bool)
    requires Stands(base, e, place) && AllProper(pieces)
    ensures Stands(base, Child(e, NameOf(pieces, slash)), PlaceAfter(place, ToChild(pieces, slash)))
  {
    hide Clean, Glue, Names, Opened, Lead, Placed, Glue;
    StandsPlaced(base, e, place);
    CleanName(pieces, slash);
    ProperNames(pieces);
    if pieces == [] {
      GlueNothing();
      DirStands(base, e, place);
      assert Child(e, NameOf(pieces, slash)).pathDot == Dir(e).pathDot;
    } else {
      var next := PlaceAfter(place, ToChild(pieces, false));
      var plain := Child(e, NameOf(pieces, false));
      CleanName(pieces, false);
      ChildPath(base, e, place, pieces);
      ChildNames(place, pieces);
      assert Starts(Lead(base), base) && plain.pathDot != "";
      assert Stands(base, plain, next);
      if slash {
        ChildFields(e, pieces, true);
        SlashIffHere(base, plain, next);
        DirStands(base, plain, next);
        OpenedFile(plain.pathDot);
        assert PlaceAfter(place, ToChild(pieces, true)) == OpenedPlace(next);
      }
    }
  }

  lemma OpenedFile(p: string)
    ensures !EndsInSlash(p) ==> Opened(p) == p + "dir/"
  {
  }

  lemma MoveStands(base: string, e: FSEntry, place: Place, m: Move)
    requires Stands(base, e, place) && PlainMove(m)
    ensures Stands(base, Moved(e, m), PlaceAfter(place, m))
  {
    hide Stands, Child, Dir, Parameters;
    match m {
      case ToChild(pieces, slash) => ChildStands(base, e, place, pieces, slash);
      case ToParameters => ParametersStand(base, e, place);
      case ToDir => DirStands(base, e, place);
    }
  }

  lemma CreateStands(base: string)
    ensures Stands(base, Create(base), [HERE])
  {
    hide Clean;
    TextHere(HERE);
    assert Front([HERE]) == [] && Dirs([]) == [] && Text(HERE) + "" == "";
    assert Names([HERE], "") == [""];
    assert Clean(base) + "/" + "" == Clean(base) + "/";
    assert Starts(Clean(base) + "/", base);
  }

  lemma {:induction false} NavigateStands(base: string, e: FSEntry, place: Place, moves: seq<Move>)
    requires Stands(base, e, place) && PlainMoves(moves)
    ensures place != [] && PlaceOf(place, moves) != [] && Stands(base, Navigate(e, moves), PlaceOf(place, moves))
    decreases |moves|
  {
    hide Moved, PlaceAfter, PlainMove;
    if moves != [] {
      MoveStands(base, e, place, moves[0]);
      assert forall i :: 0 <= i < |moves[1..]| ==> moves[1..][i] == moves[i + 1];
      NavigateStands(base, Moved(e, moves[0]), PlaceAfter(place, moves[0]), moves[1..]);
    }
  }

  /** Two navigations from the base directory lead to the same data file if and only if they lead to the same place. */
  lemma SameFileIff(base: string, a: seq<Move>, b: seq<Move>)
    requires PlainMoves(a) && PlainMoves(b)
    ensures DataFile(Navigate(Create(base), a)) == DataFile(Navigate(Create(base), b))
            <==> PlaceOf([HERE], a) == PlaceOf([HERE], b)
  {
    hide Navigate, PlaceOf, DataFile, Create, Lead, Names, Glue, PlainMove;
    CreateStands(base);
    NavigateStands(base, Create(base), [HERE], a);
    NavigateStands(base, Create(base), [HERE], b);
    var p, q := PlaceOf([HERE], a), PlaceOf([HERE], b);
    DataBelow(base, Navigate(Create(base), a), p);
    DataBelow(base, Navigate(Create(base), b), q);
    NamesProper(p);
    NamesProper(q);
    var m, n := Names(p, "data"), Names(q, "data");
    NamesSome(p, "data");
    NamesSome(q, "data");
    ProperNames(m);
    ProperNames(n);
    SplitGlue(m);
    SplitGlue(n);
    var lead := Lead(base);
    if lead + Glue(m, "/") == lead + Glue(n, "/") {
      assert (lead + Glue(m, "/"))[|lead|..] == Glue(m, "/") && (lead + Glue(n, "/"))[|lead|..] == Glue(n, "/");
      NamesInjective(p, q, "data");
    }
  }

  /** Going down in two steps is going down in one: the same path, name and level. */
  lemma ChildComposes(base: string, moves: seq<Move>, a: seq<string>, b: seq<string>, slash: bool, last: bool)
    requires PlainMoves(moves) && a != [] && b != [] && AllProper(a) && AllProper(b)
    ensures var e := Navigate(Create(base), moves);
            Child(Child(e, NameOf(a, slash)), NameOf(b, last)) == Child(e, NameOf(a + b, last))
    ensures NameOf(a + b, last) == Glue(a, "/") + "/" + NameOf(b, last)
  {
    hide Navigate, PlaceOf, Create, Lead, Names, Glue, Child, PlainMove, PlaceAfter, NameOf;
    var e := Navigate(Create(base), moves);
    CreateStands(base);
    NavigateStands(base, Create(base), [HERE], moves);
    var place := PlaceOf([HERE], moves);
    ComposesAt(base, e, place, a, b, slash, last);
    NameConcat(a, b, last);
  }

  lemma NameConcat(a: seq<string>, b: seq<string>, last: bool)
    requires a != [] && b != []
    ensures NameOf(a + b, last) == Glue(a, "/") + "/" + NameOf(b, last)
  {
    hide Glue;
    GlueConcat(a, b);
    var g := Glue(a, "/") + "/";
    assert last ==> (g + Glue(b, "/")) + "/" == g + (Glue(b, "/") + "/");
  }

  /** The fields of a child other than its path. */
  lemma ChildFields(e: FSEntry, pieces: seq<string>, slash: bool)
    requires pieces != [] && AllProper(pieces)
    ensures var c := Child(e, NameOf(pieces, slash));
            && c.name == pieces[|pieces| - 1] && c.level == e.level + |pieces|
            && c.pathDot == if slash then Child(e, NameOf(pieces, false)).pathDot + "dir/" else Child(e, NameOf(pieces, false)).pathDot
  {
    hide Clean, Glue, Opened, Glue;
    CleanName(pieces, slash);
    CleanName(pieces, false);
    ProperNames(pieces);
    SplitGlue(pieces);
  }

  lemma ProperConcat(a: seq<string>, b: seq<string>)
    requires AllProper(a) && AllProper(b)
    ensures AllProper(a + b)
  {
  }

  lemma ComposesAt(base: string, e: FSEntry, place: Place, a: seq<string>, b: seq<string>, slash: bool, last: bool)
    requires Stands(base, e, place) && a != [] && b != [] && AllProper(a) && AllProper(b)
    ensures Child(Child(e, NameOf(a, slash)), NameOf(b, last)) == Child(e, NameOf(a + b, last))
  {
    hide Lead, Names, Glue, Child, NameOf, Stands, Placed, PlaceAfter, AllProper;
    StandsPlaced(base, e, place);
    var mid := Child(e, NameOf(a, slash));
    var via := PlaceAfter(place, ToChild(a, slash));
    ChildStands(base, e, place, a, slash);
    StandsPlaced(base, mid, via);
    ChildPath(base, mid, via, b);
    ProperConcat(a, b);
    ChildPath(base, e, place, a + b);
    SamePlace(place, a, b, slash);
    ChildFields(e, a, slash);
    ChildFields(mid, b, last);
    ChildFields(e, a + b, last);
  }

  lemma {:induction false} ChildrenConcat(a: seq<string>, b: seq<string>)
    ensures Children(a + b) == Children(a) + Children(b)
    decreases |a|
  {
    if a == [] {
      assert a + b == b;
    } else {
      assert (a + b)[1..] == a[1..] + b;
      ChildrenConcat(a[1..], b);
    }
  }

  lemma SamePlace(place: Place, a: seq<string>, b: seq<string>, slash: bool)
    requires place != [] && a != [] && b != []
    ensures var via := PlaceAfter(place, ToChild(a, slash));
            via != [] && PlaceAfter(via, ToChild(b, false)) == PlaceAfter(place, ToChild(a + b, false))
  {
    hide Children;
    ChildrenAt(a);
    ChildrenAt(b);
    ChildrenConcat(a, b);
    var above := Front(OpenedPlace(place)) + Children(a);
    var via := PlaceAfter(place, ToChild(a, slash));
    assert via == above + if slash then [HERE] else [];
    assert Last(above) == Comp(Some(a[|a| - 1]), 0);
    assert OpenedPlace(via) == above + [HERE];
    assert Front(OpenedPlace(via)) == above;
    assert above + Children(b) + [] == Front(OpenedPlace(place)) + Children(a + b) + [];
  }

  // ---------------------------------------------------------------- names of any form

  /** A step as a caller makes it: the name of a child is any text. */
  datatype Request = AskChild(name: string) | AskParameters | AskDir

  function Asked(e: FSEntry, q: Request): FSEntry {
    match q
    case AskChild(name) => Child(e, name)
    case AskParameters => Parameters(e)
    case AskDir => Dir(e)
  }

  function AskedAll(e: FSEntry, qs: seq<Request>): FSEntry
    decreases |qs|
  {
    if qs == [] then e else AskedAll(Asked(e, qs[0]), qs[1..])
  }

  /** The step in cleaned form: empty segments and dots dropped, a parent taking the segment before it away. */
  function MoveOf(q: Request): Move {
    match q
    case AskChild(name) => ToChild(Kept("/" + name), EndsInSlash(name))
    case AskParameters => ToParameters
    case AskDir => ToDir
  }

  function MovesOf(qs: seq<Request>): seq<Move> {
    if qs == [] then [] else [MoveOf(qs[0])] + MovesOf(qs[1..])
  }

  /** Whatever its name, a child is the one with the cleaned name. */
  lemma AnyChild(e: FSEntry, name: string)
    ensures AllProper(Kept("/" + name))
    ensures Child(e, name) == Child(e, NameOf(Kept("/" + name), EndsInSlash(name)))
  {
    hide Kept, Glue, Split, NameOf;
    var pieces := Kept("/" + name);
    KeptNormal("/" + name);
    CleanName(pieces, EndsInSlash(name));
    assert ("/" + Glue(pieces, "/"))[1..] == Glue(pieces, "/");
    if pieces == [] {
      GlueNothing();
    } else {
      ProperNames(pieces);
      LastOfGlue(pieces);
    }
  }

  lemma {:induction false} AskedIsNavigated(e: FSEntry, qs: seq<Request>)
    ensures PlainMoves(MovesOf(qs)) && AskedAll(e, qs) == Navigate(e, MovesOf(qs))
    decreases |qs|
  {
    hide Child, Kept, NameOf, Parameters, Dir;
    if qs != [] {
      if qs[0].AskChild? {
        AnyChild(e, qs[0].name);
      }
      AskedIsNavigated(Asked(e, qs[0]), qs[1..]);
    }
  }

  /** Two lists of requests, with names of any form, lead to the same file if and only if their cleaned forms lead to
      the same place. */
  lemma SameFileForAnyNames(base: string, a: seq<Request>, b: seq<Request>)
    ensures DataFile(AskedAll(Create(base), a)) == DataFile(AskedAll(Create(base), b))
            <==> PlaceOf([HERE], MovesOf(a)) == PlaceOf([HERE], MovesOf(b))
  {
    hide DataFile, Create, Navigate, AskedAll, MovesOf, PlaceOf, PlainMoves;
    AskedIsNavigated(Create(base), a);
    AskedIsNavigated(Create(base), b);
    SameFileIff(base, MovesOf(a), MovesOf(b));
  }

  /** How many levels a request goes down. */
  function Depth(q: Request): nat {
    match q
    case AskChild(name) => |Kept("/" + name)|
    case AskParameters => 1
    case AskDir => 0
  }

  function Depths(qs: seq<Request>): nat {
    if qs == [] then 0 else Depth(qs[0]) + Depths(qs[1..])
  }

  lemma ChildLevel(e: FSEntry, name: string)
    ensures Child(e, name).level == e.level + |Kept("/" + name)|
    ensures Kept("/" + name) != [] ==> Child(e, name).name == Kept("/" + name)[|Kept("/" + name)| - 1]
    ensures Kept("/" + name) == [] ==> Child(e, name).name == e.name
  {
    hide Kept, Glue, Split;
    var pieces := Kept("/" + name);
    KeptNormal("/" + name);
    assert ("/" + Glue(pieces, "/"))[1..] == Glue(pieces, "/");
    if pieces == [] {
      GlueNothing();
    } else {
      ProperNames(pieces);
      LastOfGlue(pieces);
      SplitGlue(pieces);
    }
  }

  /** The last child that was asked for gives its name; parameters have none. */
  function NameAfter(name: string, qs: seq<Request>): string
    decreases |qs|
  {
    if qs == [] then name
    else
      var last := qs[|qs| - 1];
      if last.AskParameters? then ""
      else if last.AskChild? && Kept("/" + last.name) != [] then Kept("/" + last.name)[|Kept("/" + last.name)| - 1]
      else NameAfter(name, qs[..|qs| - 1])
  }

  lemma {:induction false} NameAfterFirst(name: string, q: Request, qs: seq<Request>)
    ensures NameAfter(name, [q] + qs) == NameAfter(NameAfter(name, [q]), qs)
    decreases |qs|
  {
    hide Kept;
    if qs == [] {
      assert [q] + qs == [q];
    } else {
      var n := |qs| - 1;
      assert ([q] + qs)[..n + 1] == [q] + qs[..n];
      NameAfterFirst(name, q, qs[..n]);
    }
  }

  /** The level of an entry counts the names and the parameters on the way to it, and its name is the last one on the way,
      whatever the names look like. */
  lemma {:induction false} LevelIs(e: FSEntry, qs: seq<Request>)
    ensures AskedAll(e, qs).level == e.level + Depths(qs)
    ensures AskedAll(e, qs).name == NameAfter(e.name, qs)
    decreases |qs|
  {
    hide Child, Kept;
    if qs != [] {
      if qs[0].AskChild? {
        ChildLevel(e, qs[0].name);
      }
      LevelIs(Asked(e, qs[0]), qs[1..]);
      NameAfterFirst(e.name, qs[0], qs[1..]);
      assert qs == [qs[0]] + qs[1..] && [qs[0]][..0] == [];
    }
  }

  lemma ExamplePlace()
    ensures var a, b := "a", "b";
            PlaceOf([HERE], [ToChild([a, b], false), ToParameters]) == [Comp(Some("a"), 0), Comp(Some("b"), 1)]
    ensures Names([Comp(Some("a"), 0), Comp(Some("b"), 1)], "data") == ["a.dir", "b.metadata"]
  {
    var a, b := "a", "b";
    var moves := [ToChild([a, b], false), ToParameters];
    assert Children([]) == [];
    assert [a, b][1..] == [b] && [b][1..] == [];
    assert Children([b]) == [Comp(Some(b), 0)];
    assert Children([a, b]) == [Comp(Some(a), 0), Comp(Some(b), 0)];
    var place := PlaceAfter([HERE], moves[0]);
    assert place == [Comp(Some(a), 0), Comp(Some(b), 0)];
    assert moves[1..] == [ToParameters] && moves[1..][1..] == [];
    var next := PlaceAfter(place, ToParameters);
    assert next == [Comp(Some(a), 0), Comp(Some(b), 1)];
    assert PlaceOf(place, [ToParameters]) == next;
    assert Metas(0) == "" && Metas(1) == "meta" + "";
    assert Text(Comp(Some(a), 0)) == a + "." + "" == "a." && Text(Comp(Some(b), 1)) == b + "." + ("meta" + "") == "b.meta";
    assert Front(next) == [Comp(Some(a), 0)] && Front(next)[1..] == [] && Dirs([]) == [];
    assert "a." + "dir" == "a.dir" && "b.meta" + "data" == "b.metadata";
    assert Dirs(Front(next)) == ["a.dir"] + [];
  }

  lemma ExampleBase()
    ensures Lead("/srv") == "/srv/"
  {
    var s := "srv";
    var names := [s];
    assert AllProper(names);
    ProperNames(names);
    SplitGlue(names);
    assert Glue(names, "/") == s;
    var base := "/srv";
    assert base[1..] == s && Split(base) == [""] + names;
    assert ([""] + names)[1..] == names && names[1..] == [];
    assert Kept(base) == names;
  }

  /** Where the data of the parameters of `a/b` are. */
  lemma ParametersOfChild()
    ensures DataFile(Parameters(Child(Create("/srv"), "a/b"))) == "/srv/a.dir/b.metadata"
  {
    hide Clean, Navigate, Create, DataFile, Child, Kept, Names, PlaceOf;
    var e := Create("/srv");
    var a, b := "a", "b";
    var moves := [ToChild([a, b], false), ToParameters];
    CreateStands("/srv");
    assert AllProper([a, b]) && PlainMoves(moves);
    NavigateStands("/srv", e, [HERE], moves);
    ExamplePlace();
    ExampleBase();
    ExampleMoves(e, moves);
    DataBelow("/srv", Navigate(e, moves), PlaceOf([HERE], moves));
    assert Glue(["a.dir", "b.metadata"], "/") == "a.dir/b.metadata";
  }

  lemma ExampleMoves(e: FSEntry, moves: seq<Move>)
    requires moves == [ToChild(["a", "b"], false), ToParameters]
    ensures Navigate(e, moves) == Parameters(Child(e, "a/b"))
  {
    hide Child, Parameters;
    assert moves[1..] == [ToParameters] && moves[1..][1..] == [];
    var a, b := "a", "b";
    assert [a, b][1..] == [b];
    assert Glue([b], "/") == b && Glue([a, b], "/") == a + "/" + b;
    assert NameOf([a, b], false) == a + "/" + b + "" == "a/b";
    var child := Child(e, "a/b");
    assert Moved(e, moves[0]) == child && Moved(child, ToParameters) == Parameters(child);
    assert Navigate(Parameters(child), []) == Parameters(child);
    assert Navigate(child, [ToParameters]) == Parameters(child);
  }
}
