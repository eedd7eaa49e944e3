/** The path stack of the URL parser computes the path resolution of sections 5.2.3 and 5.2.4 of RFC 3986
    (webcomponents-lite.js:230-242, 397-438). */
module JUrlDots {
  import opened Options
  import opened Texts
  import opened JUrl
  import opened JUrlNormal
  import opened JUrlPreserve
  import opened JUrlFixpoint

  // ---------------------------------------------------------------- section 5.2.4, on texts

  /** The output buffer without its last segment and the slash before it. */
  function RemoveLast(out: string): string {
    if out == "" then "" else if out[|out| - 1] == '/' then out[..|out| - 1] else RemoveLast(out[..|out| - 1])
  }

  /** The length of the first path segment, with its initial slash. */
  function SegmentEnd(s: string, i: nat): (r: nat)
    requires i <= |s|
    ensures i <= r <= |s|
    decreases |s| - i
  {
    if i == |s| || s[i] == '/' then i else SegmentEnd(s, i + 1)
  }

  /** The loop of steps 2A to 2E. */
  function RemoveDots(s: string, out: string): string
    decreases |s|
  {
    if s == "" then out
    else if "../" <= s then RemoveDots(s[3..], out)
    else if "./" <= s then RemoveDots(s[2..], out)
    else if "/./" <= s then RemoveDots("/" + s[3..], out)
    else if s == "/." then RemoveDots("/", out)
    else if "/../" <= s then RemoveDots("/" + s[4..], RemoveLast(out))
    else if s == "/.." then RemoveDots("/", RemoveLast(out))
    else if s == "." || s == ".." then out
    else
      var n := SegmentEnd(s, 1);
      RemoveDots(s[n..], out + s[..n])
  }

  // ---------------------------------------------------------------- paths as texts

  /** A slash before each segment. */
  function PathText(path: seq<string>): string {
    if path == [] then "" else PathText(path[..|path| - 1]) + "/" + path[|path| - 1]
  }

  predicate NoSlash(s: string) {
    forall i :: 0 <= i < |s| ==> s[i] != '/'
  }

  ghost predicate NoSlashes(path: seq<string>) {
    forall i :: 0 <= i < |path| ==> NoSlash(path[i])
  }

  lemma {:induction false} RemoveLastSegment(front: string, segment: string)
    requires NoSlash(segment)
    ensures RemoveLast(front + "/" + segment) == front
    decreases |segment|
  {
    var out := front + "/" + segment;
    if segment == "" {
      assert out[..|out| - 1] == front;
    } else {
      assert out[..|out| - 1] == front + "/" + segment[..|segment| - 1];
      RemoveLastSegment(front, segment[..|segment| - 1]);
    }
  }

  lemma RemoveLastPath(path: seq<string>)
    requires NoSlashes(path)
    ensures RemoveLast(PathText(path)) == PathText(DropLast(path))
  {
    if path != [] {
      RemoveLastSegment(PathText(path[..|path| - 1]), path[|path| - 1]);
    }
  }

  lemma PathTextAppend(path: seq<string>, segment: string)
    ensures PathText(path + [segment]) == PathText(path) + "/" + segment
  {
    assert (path + [segment])[..|path|] == path;
  }

  // ---------------------------------------------------------------- one segment of section 5.2.4

  lemma {:induction false} FirstSegment(segment: string, rest: string, i: nat)
    requires NoSlash(segment) && (rest == "" || rest[0] == '/') && 1 <= i <= 1 + |segment|
    ensures SegmentEnd("/" + segment + rest, i) == 1 + |segment|
    decreases |segment| - i
  {
    var s := "/" + segment + rest;
    if i <= |segment| {
      assert s[i] == segment[i - 1];
      FirstSegment(segment, rest, i + 1);
    } else if rest != "" {
      assert s[i] == rest[0];
    }
  }

  /** An ordinary segment moves to the output. */
  lemma MovesSegment(segment: string, rest: string, out: string)
    requires NoSlash(segment) && segment != "." && segment != ".." && (rest == "" || rest[0] == '/')
    ensures RemoveDots("/" + segment + rest, out) == RemoveDots(rest, out + "/" + segment)
  {
    var s := "/" + segment + rest;
    NotDotted(segment, rest);
    FirstSegment(segment, rest, 1);
    assert s[..1 + |segment|] == "/" + segment;
    assert s[1 + |segment|..] == rest;
    assert out + ("/" + segment) == out + "/" + segment;
  }

  lemma NotDotted(segment: string, rest: string)
    requires NoSlash(segment) && segment != "." && segment != ".." && (rest == "" || rest[0] == '/')
    ensures var s := "/" + segment + rest;
            !("../" <= s) && !("./" <= s) && !("/./" <= s) && s != "/." && !("/../" <= s) && s != "/.." && s != "." && s != ".."
  {
    var s := "/" + segment + rest;
    assert s[0] == '/';
    assert forall k :: 0 <= k < |segment| ==> s[1 + k] == segment[k];
    assert rest != "" ==> s[1 + |segment|] == '/';
    assert |segment| == 1 ==> segment == [segment[0]];
    assert |segment| == 2 ==> segment == [segment[0], segment[1]];
    assert "/./"[1] == '.' && "/./"[2] == '/';
    assert "/../"[1] == '.' && "/../"[2] == '.' && "/../"[3] == '/';
  }

  lemma DropsDot(rest: string, out: string)
    requires rest == "" || rest[0] == '/'
    ensures RemoveDots("/." + rest, out) == RemoveDots(if rest == "" then "/" else rest, out)
  {
    var s := "/." + rest;
    assert s[0] == '/' && s[1] == '.';
    if rest == "" {
      assert s == "/.";
    } else {
      assert s[..3] == "/./";
      assert "/" + s[3..] == rest;
    }
  }

  lemma DropsDotDot(rest: string, out: string)
    requires rest == "" || rest[0] == '/'
    ensures RemoveDots("/.." + rest, out) == RemoveDots(if rest == "" then "/" else rest, RemoveLast(out))
  {
    var s := "/.." + rest;
    assert s[0] == '/' && s[1] == '.' && s[2] == '.';
    if rest == "" {
      assert s == "/..";
    } else {
      assert s[..4] == "/../";
      assert "/" + s[4..] == rest;
    }
  }

  lemma LastSlash(out: string)
    ensures RemoveDots("/", out) == out + "/"
  {
    FirstSegment("", "", 1);
    assert "/" + "" + "" == "/";
    assert "/"[1..] == "" && "/"[..1] == "/";
  }

  // ---------------------------------------------------------------- the stack against the texts

  /** What the parser does to its path for the segments of a text: each but the last is ended by a slash. */
  function AddSegments(scheme: string, path: seq<string>, segments: seq<string>): seq<string>
    decreases |segments|
  {
    if segments == [] then path
    else if |segments| == 1 then AddSegment(scheme, path, segments[0], false)
    else AddSegments(scheme, AddSegment(scheme, path, segments[0], true), segments[1..])
  }

  /** The segments with their percent-encoded dots decoded. */
  function Decoded(segments: seq<string>): seq<string> {
    if segments == [] then [] else [DotMapping(segments[0])] + Decoded(segments[1..])
  }

  lemma NoSlashDots(segment: string)
    requires NoSlash(segment)
    ensures NoSlash(DotMapping(segment))
  {
  }

  lemma AddSegmentIs(scheme: string, path: seq<string>, segment: string, slash: bool)
    requires scheme != "file"
    ensures var d := DotMapping(segment);
            AddSegment(scheme, path, segment, slash) ==
            if d == ".." then DropLast(path) + (if slash then [] else [""])
            else if d == "." then path + (if slash then [] else [""])
            else path + [d]
  {
  }

  lemma {:induction false} StackIsRemoveDots(scheme: string, path: seq<string>, segments: seq<string>)
    requires scheme != "file" && segments != [] && NoSlashes(segments) && NoSlashes(path)
    ensures PathText(AddSegments(scheme, path, segments)) == RemoveDots("/" + Glue(Decoded(segments), "/"), PathText(path))
    decreases |segments|
  {
    hide DotMapping, AddSegment, RemoveDots;
    var d := DotMapping(segments[0]);
    NoSlashDots(segments[0]);
    RemoveLastPath(path);
    if |segments| == 1 {
      assert Decoded(segments[1..]) == [];
      assert Glue(Decoded(segments), "/") == d;
      LastStep(scheme, path, segments[0]);
    } else {
      var rest := "/" + Glue(Decoded(segments[1..]), "/");
      assert |Decoded(segments)| > 1 && Decoded(segments)[0] == d && Decoded(segments)[1..] == Decoded(segments[1..]) by {
        assert Decoded(segments[1..]) != [];
      }
      assert "/" + Glue(Decoded(segments), "/") == "/" + d + rest;
      MiddleStep(scheme, path, segments[0], rest);
      assert forall i :: 0 <= i < |segments[1..]| ==> segments[1..][i] == segments[i + 1];
      StackIsRemoveDots(scheme, AddSegment(scheme, path, segments[0], true), segments[1..]);
    }
  }

  lemma LastStep(scheme: string, path: seq<string>, segment: string)
    requires scheme != "file" && NoSlash(DotMapping(segment)) && NoSlashes(path)
    ensures PathText(AddSegment(scheme, path, segment, false)) == RemoveDots("/" + DotMapping(segment), PathText(path))
  {
    hide DotMapping, AddSegment, RemoveDots, PathText, RemoveLast;
    var d := DotMapping(segment);
    AddSegmentIs(scheme, path, segment, false);
    RemoveLastPath(path);
    assert "/" + d == "/" + d + "";
    if d == ".." {
      DropsDotDot("", PathText(path));
      assert "/.." + "" == "/" + d;
      LastSlash(RemoveLast(PathText(path)));
      PathTextAppend(DropLast(path), "");
      assert PathText(DropLast(path)) + "/" + "" == PathText(DropLast(path)) + "/";
    } else if d == "." {
      DropsDot("", PathText(path));
      assert "/." + "" == "/" + d;
      LastSlash(PathText(path));
      PathTextAppend(path, "");
      assert PathText(path) + "/" + "" == PathText(path) + "/";
    } else {
      MovesSegment(d, "", PathText(path));
      RemoveNothing(PathText(path) + "/" + d);
      PathTextAppend(path, d);
    }
  }

  lemma RemoveNothing(out: string)
    ensures RemoveDots("", out) == out
  {
  }

  lemma MiddleStep(scheme: string, path: seq<string>, segment: string, rest: string)
    requires scheme != "file" && NoSlash(DotMapping(segment)) && NoSlashes(path) && rest != "" && rest[0] == '/'
    ensures RemoveDots("/" + DotMapping(segment) + rest, PathText(path)) == RemoveDots(rest, PathText(AddSegment(scheme, path, segment, true)))
    ensures NoSlashes(AddSegment(scheme, path, segment, true))
  {
    hide DotMapping, AddSegment, RemoveDots, PathText, RemoveLast;
    var d := DotMapping(segment);
    AddSegmentIs(scheme, path, segment, true);
    RemoveLastPath(path);
    if d == ".." {
      DropsDotDot(rest, PathText(path));
      assert "/.." + rest == "/" + d + rest;
      assert DropLast(path) + [] == DropLast(path);
    } else if d == "." {
      DropsDot(rest, PathText(path));
      assert "/." + rest == "/" + d + rest;
      assert path + [] == path;
    } else {
      MovesSegment(d, rest, PathText(path));
      PathTextAppend(path, d);
    }
  }

  /** The segments of an already normalised path move to the output. */
  lemma {:induction false} MovesPath(path: seq<string>, rest: string, out: string)
    requires SegmentsOk(path) && rest != "" && rest[0] == '/'
    ensures RemoveDots(PathText(path) + rest, out) == RemoveDots(rest, out + PathText(path))
    decreases |path|
  {
    hide RemoveDots, DotMapping;
    if path == [] {
      assert PathText(path) + rest == rest && out + PathText(path) == out;
    } else {
      var front, last := path[..|path| - 1], path[|path| - 1];
      SegmentIsPlain(last);
      MovesPath(front, "/" + last + rest, out);
      assert PathText(path) + rest == PathText(front) + ("/" + last + rest);
      MovesSegment(last, rest, out + PathText(front));
      assert out + PathText(front) + "/" + last == out + PathText(path);
    }
  }

  lemma SegmentIsPlain(segment: string)
    requires SegmentOk(segment)
    ensures NoSlash(segment) && segment != "." && segment != ".."
  {
  }

  lemma {:induction false} PathTextIsJoin(path: seq<string>)
    requires path != []
    ensures PathText(path) == "/" + Glue(path, "/")
    decreases |path|
  {
    if |path| == 1 {
      assert path[..0] == [];
      assert PathText(path) == "" + "/" + path[0];
    } else {
      PathTextIsJoin(path[..|path| - 1]);
      JoinAppend(path[..|path| - 1], path[|path| - 1]);
      assert path[..|path| - 1] + [path[|path| - 1]] == path;
    }
  }

  lemma {:induction false} JoinAppend(path: seq<string>, segment: string)
    requires path != []
    ensures Glue(path + [segment], "/") == Glue(path, "/") + "/" + segment
    decreases |path|
  {
    var all := path + [segment];
    assert all[1..] == path[1..] + [segment];
    if |path| == 1 {
      assert Glue(all, "/") == path[0] + "/" + Glue([segment], "/");
    } else {
      JoinAppend(path[1..], segment);
      assert Glue(all, "/") == path[0] + "/" + (Glue(path[1..], "/") + "/" + segment);
    }
  }

  // ---------------------------------------------------------------- the machine on a path

  /** The segments of a raw path: split at slashes of either kind, without tabs and newlines, escaped. */
  function SplitPath(raw: string, buffer: string): seq<string> {
    if raw == "" then [buffer]
    else if IsSlash(raw[0]) then [buffer] + SplitPath(raw[1..], "")
    else if IsTabOrNewline(raw[0]) then SplitPath(raw[1..], buffer)
    else SplitPath(raw[1..], buffer + PercentEscape(raw[0]))
  }

  lemma {:induction false} SplitHasNoSlash(raw: string, buffer: string)
    requires NoSlash(buffer)
    ensures NoSlashes(SplitPath(raw, buffer)) && SplitPath(raw, buffer) != []
    decreases |raw|
  {
    if raw != "" {
      if IsSlash(raw[0]) {
        SplitHasNoSlash(raw[1..], "");
      } else if IsTabOrNewline(raw[0]) {
        SplitHasNoSlash(raw[1..], buffer);
      } else {
        EscapedChars(raw[0]);
        SplitHasNoSlash(raw[1..], buffer + PercentEscape(raw[0]));
      }
    }
  }

  predicate PathChars(raw: string) {
    forall i :: 0 <= i < |raw| ==> raw[i] != '?' && raw[i] != '#'
  }

  function RunsOn(input: string, base: Option<Fields>, cfg: Config): Option<Fields>
    requires WellFormed(input, cfg)
  {
    Run(input, None, base, cfg)
  }

  lemma StepsOn(input: string, base: Option<Fields>, cfg: Config, next: Config)
    requires WellFormed(input, cfg) && Running(input, cfg) && OneStep(input, None, base, cfg) == Go(next)
    ensures WellFormed(input, next) && RunsOn(input, base, cfg) == RunsOn(input, base, next)
  {
    Progress(input, None, base, cfg);
  }

  /** The query and the fragment leave the path alone. */
  lemma {:induction false} PathKept(input: string, base: Option<Fields>, cfg: Config)
    requires WellFormed(input, cfg) && (cfg.state in {Query, Fragment} || cfg.cursor == |input| + 1) && !cfg.f.isInvalid
    ensures RunsOn(input, base, cfg).Some? && RunsOn(input, base, cfg).value.path == cfg.f.path
    ensures !RunsOn(input, base, cfg).value.isInvalid
    decreases Rank(cfg.state), |input| + 1 - cfg.cursor
  {
    hide DefaultPort, DotMapping, EncodeComponent, Lower, ToDecimal, ParseInt;
    if cfg.cursor <= |input| {
      Progress(input, None, base, cfg);
      var s := OneStep(input, None, base, cfg);
      PathKept(input, base, s.cfg);
    }
  }

  lemma RunsSegmentEnd(input: string, base: Option<Fields>, cfg: Config)
    requires WellFormed(input, cfg) && cfg.state == RelativePath && !cfg.f.isInvalid && cfg.cursor <= |input|
    requires At(input, cfg.cursor) in [None, Some('?'), Some('#')]
    ensures RunsOn(input, base, cfg).Some? && !RunsOn(input, base, cfg).value.isInvalid
    ensures RunsOn(input, base, cfg).value.path == AddSegment(cfg.f.scheme, cfg.f.path, cfg.buffer, false)
  {
    hide Run, AddSegment, EncodeComponent, DefaultPort, DotMapping, Lower, ToDecimal, ParseInt;
    var f1 := cfg.f.(path := AddSegment(cfg.f.scheme, cfg.f.path, cfg.buffer, false));
    var c := At(input, cfg.cursor);
    LastSegmentStep(c, cfg, f1);
    var next := if c == Some('?') then cfg.(state := Query, cursor := cfg.cursor + 1, buffer := "", f := f1.(query := "?"))
                else if c == Some('#') then cfg.(state := Fragment, cursor := cfg.cursor + 1, buffer := "", f := f1.(fragment := "#"))
                else cfg.(cursor := cfg.cursor + 1, buffer := "", f := f1);
    StepsOn(input, base, cfg, next);
    PathKept(input, base, next);
  }

  /** The path of the result is what the stack makes of the segments of the raw path. */
  lemma {:induction false} RunsPath(input: string, base: Option<Fields>, cfg: Config, raw: string)
    requires WellFormed(input, cfg) && cfg.state == RelativePath && !cfg.f.isInvalid
    requires Ahead(input, cfg.cursor, raw) && PathChars(raw)
    requires At(input, cfg.cursor + |raw|) in [None, Some('?'), Some('#')]
    ensures RunsOn(input, base, cfg).Some? && !RunsOn(input, base, cfg).value.isInvalid
    ensures RunsOn(input, base, cfg).value.path == AddSegments(cfg.f.scheme, cfg.f.path, SplitPath(raw, cfg.buffer))
    decreases |raw|
  {
    hide Run, AddSegment, EncodeComponent, DefaultPort, DotMapping, Lower, ToDecimal, ParseInt, PercentEscape, EscapeSafe;
    if raw == "" {
      RunsSegmentEnd(input, base, cfg);
    } else {
      AheadTail(input, cfg.cursor, raw);
      var c := raw[0];
      if IsSlash(c) {
        var next := cfg.(cursor := cfg.cursor + 1, buffer := "", f := cfg.f.(path := AddSegment(cfg.f.scheme, cfg.f.path, cfg.buffer, true)));
        StepsOn(input, base, cfg, next);
        RunsPath(input, base, next, raw[1..]);
        SplitNotEmpty(raw[1..], "");
        assert SplitPath(raw, cfg.buffer)[1..] == SplitPath(raw[1..], "");
      } else if IsTabOrNewline(c) {
        var next := cfg.(cursor := cfg.cursor + 1);
        StepsOn(input, base, cfg, next);
        RunsPath(input, base, next, raw[1..]);
      } else {
        var next := cfg.(cursor := cfg.cursor + 1, buffer := cfg.buffer + PercentEscape(c));
        StepsOn(input, base, cfg, next);
        RunsPath(input, base, next, raw[1..]);
      }
    }
  }

  lemma {:induction false} SplitNotEmpty(raw: string, buffer: string)
    ensures SplitPath(raw, buffer) != []
    decreases |raw|
  {
    if raw != "" && !IsSlash(raw[0]) {
      SplitNotEmpty(raw[1..], if IsTabOrNewline(raw[0]) then buffer else buffer + PercentEscape(raw[0]));
    }
  }

  // ---------------------------------------------------------------- references

  /** A letter, scheme characters, `n` in all, and a colon open the text. */
  ghost predicate SchemeIs(input: string, n: nat) {
    0 < n < |input| && input[n] == ':' && IsAlpha(input[0]) && forall i :: 0 < i < n ==> IsSchemeChar(input[i])
  }

  ghost predicate HasScheme(input: string) {
    exists n: nat :: SchemeIs(input, n)
  }

  /** A text without a scheme is read again from its start, against the base. */
  lemma {:induction false} RunsNoScheme(input: string, base: Option<Fields>, cfg: Config)
    requires WellFormed(input, cfg) && cfg.f == CLEARED && !cfg.seenAt && !cfg.seenBracket && !HasScheme(input)
    requires (cfg.state == SchemeStart && cfg.cursor == 0 && cfg.buffer == "") ||
             (cfg.state == Scheme && 0 < cfg.cursor <= |input| && IsAlpha(input[0]) && forall i :: 0 < i < cfg.cursor ==> IsSchemeChar(input[i]))
    ensures RunsOn(input, base, cfg) == RunsOn(input, base, Config(NoScheme, 0, "", false, false, CLEARED))
    decreases |input| - cfg.cursor
  {
    hide Run, DefaultPort, DotMapping, EncodeComponent, Lower, ToDecimal, ParseInt;
    var c := At(input, cfg.cursor);
    if cfg.state == SchemeStart && c.Some? && IsAlpha(c.value) {
      var next := cfg.(state := Scheme, cursor := 1, buffer := cfg.buffer + [LowerChar(c.value)]);
      StepsOn(input, base, cfg, next);
      RunsNoScheme(input, base, next);
    } else if cfg.state == Scheme && c.Some? && IsSchemeChar(c.value) {
      var next := cfg.(cursor := cfg.cursor + 1, buffer := cfg.buffer + [LowerChar(c.value)]);
      StepsOn(input, base, cfg, next);
      RunsNoScheme(input, base, next);
    } else {
      assert cfg.state == Scheme && c == Some(':') ==> SchemeIs(input, cfg.cursor);
      StepsOn(input, base, cfg, Config(NoScheme, 0, "", false, false, CLEARED));
    }
  }

  /** The part of a text before its query and fragment. */
  function BeforeQueryOf(s: string): string {
    if s == "" || s[0] == '?' || s[0] == '#' then "" else [s[0]] + BeforeQueryOf(s[1..])
  }

  lemma {:induction false} BeforeQueryIs(s: string)
    ensures |BeforeQueryOf(s)| <= |s| && s[..|BeforeQueryOf(s)|] == BeforeQueryOf(s) && PathChars(BeforeQueryOf(s))
    ensures At(s, |BeforeQueryOf(s)|) in [None, Some('?'), Some('#')]
  {
    if !(s == "" || s[0] == '?' || s[0] == '#') {
      BeforeQueryIs(s[1..]);
      assert s == [s[0]] + s[1..];
    }
  }

  /** The state in which the reference is compared with the base. */
  lemma RunsToRelative(input: string, b: Fields)
    requires Normal(b) && !HasScheme(input)
    ensures var next := Config(Relative, 0, "", false, false, CLEARED);
            WellFormed(input, next) && Parse(input, None, Some(b), CLEARED) == RunsOn(input, Some(b), next)
  {
    hide Run, DotMapping, EncodeComponent, Lower, ToDecimal, ParseInt;
    RunsNoScheme(input, Some(b), Config(SchemeStart, 0, "", false, false, CLEARED));
    StepsOn(input, Some(b), Config(NoScheme, 0, "", false, false, CLEARED), Config(Relative, 0, "", false, false, CLEARED));
  }

  lemma RunsFromRelative(input: string, b: Fields)
    requires Normal(b) && input != "" && !IsEnd(input[0])
    ensures var cfg := Config(Relative, 0, "", false, false, CLEARED);
            var next := Config(RelativePath, 0, "", false, false, CopyAuthority(Based(CLEARED, b), b).(path := DropLast(b.path)));
            WellFormed(input, cfg) && WellFormed(input, next) && RunsOn(input, Some(b), cfg) == RunsOn(input, Some(b), next)
  {
    hide Run, DefaultPort, DotMapping, EncodeComponent, Lower, ToDecimal, ParseInt;
    var cfg := Config(Relative, 0, "", false, false, CLEARED);
    RelativeStep(input, b, cfg);
    StepsOn(input, Some(b), cfg, Config(RelativePath, 0, "", false, false, CopyAuthority(Based(CLEARED, b), b).(path := DropLast(b.path))));
  }

  lemma RunsFromSlash(input: string, b: Fields)
    requires Normal(b) && input != "" && IsSlash(input[0]) && (|input| == 1 || !IsSlash(input[1]))
    ensures var cfg := Config(Relative, 0, "", false, false, CLEARED);
            var next := Config(RelativePath, 1, "", false, false, CopyAuthority(Based(CLEARED, b), b));
            WellFormed(input, cfg) && WellFormed(input, next) && RunsOn(input, Some(b), cfg) == RunsOn(input, Some(b), next)
  {
    hide Run, DefaultPort, DotMapping, EncodeComponent, Lower, ToDecimal, ParseInt;
    var cfg := Config(Relative, 0, "", false, false, CLEARED);
    RelativeStep(input, b, cfg);
    var c1 := Config(RelativeSlash, 1, "", false, false, Based(CLEARED, b));
    StepsOn(input, Some(b), cfg, c1);
    StepsOn(input, Some(b), c1, Config(RelativePath, 1, "", false, false, CopyAuthority(Based(CLEARED, b), b)));
  }

  lemma {:induction false} AddSegmentsNotEmpty(scheme: string, path: seq<string>, segments: seq<string>)
    requires segments != []
    ensures AddSegments(scheme, path, segments) != []
    decreases |segments|
  {
    hide DotMapping;
    if |segments| > 1 {
      AddSegmentsNotEmpty(scheme, AddSegment(scheme, path, segments[0], true), segments[1..]);
    }
  }

  lemma NormalHasNoSlash(path: seq<string>)
    requires SegmentsOk(path)
    ensures NoSlashes(path)
  {
    forall i | 0 <= i < |path|
      ensures NoSlash(path[i])
    {
      SegmentIsPlain(path[i]);
    }
  }

  /** The path of a reference that starts with a segment: the base path up to its last slash, followed by the
      reference, with the dot segments removed. */
  lemma ResolvesRelativePath(input: string, b: Fields)
    requires Normal(b) && !HasScheme(input) && input != "" && !IsEnd(input[0])
    ensures var r := Parse(input, None, Some(b), CLEARED);
            var reference := Glue(Decoded(SplitPath(BeforeQueryOf(input), "")), "/");
            && r.Some? && !r.value.isInvalid && r.value.path != []
            && "/" + Glue(r.value.path, "/") == RemoveDots(PathText(DropLast(b.path)) + "/" + reference, "")
  {
    hide Run, RemoveDots, DotMapping, EncodeComponent, Lower, ToDecimal, ParseInt, PercentEscape, AddSegments;
    RunsToRelative(input, b);
    RunsFromRelative(input, b);
    var raw := BeforeQueryOf(input);
    BeforeQueryIs(input);
    var front := DropLast(b.path);
    var cfg := Config(RelativePath, 0, "", false, false, CopyAuthority(Based(CLEARED, b), b).(path := front));
    RunsPath(input, Some(b), cfg, raw);
    var segments := SplitPath(raw, "");
    SplitHasNoSlash(raw, "");
    NormalHasNoSlash(front);
    StackIsRemoveDots(b.scheme, front, segments);
    AddSegmentsNotEmpty(b.scheme, front, segments);
    PathTextIsJoin(AddSegments(b.scheme, front, segments));
    var rest := "/" + Glue(Decoded(segments), "/");
    MovesPath(front, rest, "");
    assert PathText(front) + rest == PathText(front) + "/" + Glue(Decoded(segments), "/");
    assert "" + PathText(front) == PathText(front);
  }

  /** The path of a reference that starts with one slash: the reference itself, with the dot segments removed. */
  lemma ResolvesAbsolutePath(input: string, b: Fields)
    requires Normal(b) && !HasScheme(input) && input != "" && IsSlash(input[0]) && (|input| == 1 || !IsSlash(input[1]))
    ensures var r := Parse(input, None, Some(b), CLEARED);
            var reference := Glue(Decoded(SplitPath(BeforeQueryOf(input[1..]), "")), "/");
            && r.Some? && !r.value.isInvalid && r.value.path != []
            && "/" + Glue(r.value.path, "/") == RemoveDots("/" + reference, "")
  {
    hide Run, RemoveDots, DotMapping, EncodeComponent, Lower, ToDecimal, ParseInt, PercentEscape, AddSegments;
    RunsToRelative(input, b);
    RunsFromSlash(input, b);
    var raw := BeforeQueryOf(input[1..]);
    BeforeQueryIs(input[1..]);
    assert forall k :: 0 <= k < |raw| ==> input[1 + k] == input[1..][k] == input[1..][..|raw|][k];
    var cfg := Config(RelativePath, 1, "", false, false, CopyAuthority(Based(CLEARED, b), b));
    RunsPath(input, Some(b), cfg, raw);
    var segments := SplitPath(raw, "");
    SplitHasNoSlash(raw, "");
    StackIsRemoveDots(b.scheme, [], segments);
    AddSegmentsNotEmpty(b.scheme, [], segments);
    PathTextIsJoin(AddSegments(b.scheme, [], segments));
  }
}
