/** The path of every URL that is parsed, with a base or without: the target path of section 5.2.2 of RFC 3986, after
    remove_dot_segments (webcomponents-lite.js:176-436). */
module JUrlResolve {
  import opened Options
  import opened Texts
  import opened JUrl
  import opened JUrlNormal
  import opened JUrlPreserve
  import opened JUrlDots
  import opened JUrlThrows

  // ---------------------------------------------------------------- the path, read off the text

  function SkipSlashes(s: string): (r: string)
    ensures |r| <= |s|
  {
    if s != "" && IsSlash(s[0]) then SkipSlashes(s[1..]) else s
  }

  /** What follows an authority. */
  function SkipAuthority(s: string): (r: string)
    ensures |r| <= |s|
  {
    if s == "" || IsEnd(s[0]) then s else SkipAuthority(s[1..])
  }

  function AfterSlash(s: string): string {
    if s != "" && IsSlash(s[0]) then s[1..] else s
  }

  /** The segments before the query and the fragment, escaped, with encoded dots decoded. */
  function PathOfText(s: string): string {
    Glue(Decoded(SplitPath(BeforeQueryOf(s), "")), "/")
  }

  /** The path after an authority. */
  function AuthorityPath(s: string): string {
    RemoveDots("/" + PathOfText(AfterSlash(SkipAuthority(SkipSlashes(s)))), "")
  }

  /** The path of a relative reference. */
  function ReferencePath(b: Fields, s: string): string {
    if s == "" || s[0] == '?' || s[0] == '#' then PathText(b.path)
    else if !IsSlash(s[0]) then RemoveDots(PathText(DropLast(b.path)) + "/" + PathOfText(s), "")
    else if |s| > 1 && IsSlash(s[1]) then AuthorityPath(s)
    else RemoveDots("/" + PathOfText(s[1..]), "")
  }

  /** A run ends with an invalid URL, or with this path. */
  predicate HasPath(r: Option<Fields>, path: string) {
    r.Some? && (r.value.isInvalid || (r.value.path != [] && "/" + Glue(r.value.path, "/") == path))
  }

  // ---------------------------------------------------------------- the end of a run

  /** From the start of a path on, the path of the result is what remove_dot_segments makes of the text, put after
      what is there already. */
  lemma RunsToPath(input: string, base: Option<Fields>, cfg: Config)
    requires WellFormed(input, cfg) && cfg.state == RelativePath && cfg.cursor <= |input| && cfg.buffer == ""
    requires !cfg.f.isInvalid && cfg.f.scheme != "file" && SegmentsOk(cfg.f.path)
    ensures HasPath(RunsOn(input, base, cfg), RemoveDots(PathText(cfg.f.path) + "/" + PathOfText(input[cfg.cursor..]), ""))
  {
    hide Run, RemoveDots, DotMapping, EncodeComponent, Lower, ToDecimal, ParseInt, PercentEscape, AddSegments, SegmentsOk;
    var s := input[cfg.cursor..];
    var raw := BeforeQueryOf(s);
    BeforeQueryIs(s);
    assert forall k :: 0 <= k < |raw| ==> input[cfg.cursor + k] == s[k] == s[..|raw|][k];
    assert At(input, cfg.cursor + |raw|) == At(s, |raw|);
    RunsPath(input, base, cfg, raw);
    var path, segments := cfg.f.path, SplitPath(raw, "");
    SplitHasNoSlash(raw, "");
    NormalHasNoSlash(path);
    StackIsRemoveDots(cfg.f.scheme, path, segments);
    AddSegmentsNotEmpty(cfg.f.scheme, path, segments);
    PathTextIsJoin(AddSegments(cfg.f.scheme, path, segments));
    var rest := "/" + Glue(Decoded(segments), "/");
    MovesPath(path, rest, "");
    assert PathText(path) + rest == PathText(path) + "/" + Glue(Decoded(segments), "/");
    assert "" + PathText(path) == PathText(path);
  }

  lemma RunsFromPathStart(input: string, base: Option<Fields>, cfg: Config)
    requires WellFormed(input, cfg) && cfg.state == RelativePathStart && cfg.cursor <= |input| && cfg.buffer == ""
    requires !cfg.f.isInvalid && cfg.f.scheme != "file" && cfg.f.path == []
    ensures HasPath(RunsOn(input, base, cfg), RemoveDots("/" + PathOfText(AfterSlash(input[cfg.cursor..])), ""))
  {
    hide Run, RemoveDots, PathOfText, HasPath, DefaultPort, DotMapping, EncodeComponent, Lower, ToDecimal, ParseInt;
    var slash := SlashAt(At(input, cfg.cursor));
    var next := cfg.(state := RelativePath, cursor := cfg.cursor + if slash then 1 else 0);
    StepsOn(input, base, cfg, next);
    RunsToPath(input, base, next);
    assert input[next.cursor..] == AfterSlash(input[cfg.cursor..]);
    assert PathText([]) + "/" == "/";
  }

  // ---------------------------------------------------------------- the authority

  /** The fields before the path is reached. */
  predicate Pathless(f: Fields) {
    !f.isInvalid && f.scheme != "file" && f.path == []
  }

  lemma {:induction false} SkipsPast(a: string, s: string)
    requires forall k :: 0 <= k < |a| ==> !IsEnd(a[k])
    ensures SkipAuthority(a + s) == SkipAuthority(s)
  {
    if a == "" {
      assert a + s == s;
    } else {
      assert (a + s)[1..] == a[1..] + s;
      SkipsPast(a[1..], s);
    }
  }

  lemma RunsInvalid(input: string, base: Option<Fields>, cfg: Config)
    requires WellFormed(input, cfg) && cfg.f == INVALID
    ensures RunsOn(input, base, cfg) == Some(INVALID)
  {
  }

  /** The rest of a run that stands in an authority. */
  ghost predicate EndsWell(input: string, base: Option<Fields>, cfg: Config, s: string)
    requires WellFormed(input, cfg)
  {
    HasPath(RunsOn(input, base, cfg), RemoveDots("/" + PathOfText(AfterSlash(SkipAuthority(s))), ""))
  }

  /** A round that ends a host or a port: the path starts here, unless the host was empty. */
  lemma RunsEnd(input: string, base: Option<Fields>, cfg: Config, next: Config)
    requires WellFormed(input, cfg) && Running(input, cfg) && OneStep(input, None, base, cfg) == Go(next)
    requires next.cursor == cfg.cursor && EndsAt(At(input, cfg.cursor)) && next.buffer == ""
    requires next.f == INVALID || (Pathless(next.f) && next.state == RelativePathStart)
    ensures EndsWell(input, base, cfg, input[cfg.cursor..])
  {
    hide Run, OneStep, RemoveDots, PathOfText;
    StepsOn(input, base, cfg, next);
    if next.f == INVALID {
      RunsInvalid(input, base, next);
    } else {
      assert SkipAuthority(input[cfg.cursor..]) == input[cfg.cursor..];
      RunsFromPathStart(input, base, next);
    }
  }

  /** A round that takes a character of the authority. */
  lemma RunsPast(input: string, base: Option<Fields>, cfg: Config, next: Config)
    requires WellFormed(input, cfg) && Running(input, cfg) && OneStep(input, None, base, cfg) == Go(next)
    requires next.cursor == cfg.cursor + 1 && !EndsAt(At(input, cfg.cursor)) && WellFormed(input, next)
    requires next.f == INVALID || EndsWell(input, base, next, input[next.cursor..])
    ensures EndsWell(input, base, cfg, input[cfg.cursor..])
  {
    hide Run, OneStep, RemoveDots, PathOfText;
    StepsOn(input, base, cfg, next);
    if next.f == INVALID {
      RunsInvalid(input, base, next);
    } else {
      assert input[cfg.cursor..][1..] == input[next.cursor..];
    }
  }

  lemma {:induction false} RunsPort(input: string, base: Option<Fields>, cfg: Config)
    requires WellFormed(input, cfg) && cfg.state == Port && cfg.cursor <= |input| && Pathless(cfg.f)
    ensures EndsWell(input, base, cfg, input[cfg.cursor..])
    decreases |input| - cfg.cursor
  {
    hide Run, EndsWell, DefaultPort, ToDecimal, ParseInt;
    Progress(input, None, base, cfg);
    var next := OneStep(input, None, base, cfg).cfg;
    if EndsAt(At(input, cfg.cursor)) {
      RunsEnd(input, base, cfg, next);
    } else {
      if next.f != INVALID {
        RunsPort(input, base, next);
      }
      RunsPast(input, base, cfg, next);
    }
  }

  lemma {:induction false} RunsHost(input: string, base: Option<Fields>, cfg: Config)
    requires WellFormed(input, cfg) && cfg.state == Host && cfg.cursor <= |input| && Pathless(cfg.f)
    ensures EndsWell(input, base, cfg, input[cfg.cursor..])
    decreases |input| - cfg.cursor
  {
    hide Run, EndsWell, Lower;
    Progress(input, None, base, cfg);
    var next := OneStep(input, None, base, cfg).cfg;
    if EndsAt(At(input, cfg.cursor)) {
      RunsEnd(input, base, cfg, next);
    } else {
      if next.f != INVALID && next.state == Port {
        RunsPort(input, base, next);
      } else if next.f != INVALID {
        RunsHost(input, base, next);
      }
      RunsPast(input, base, cfg, next);
    }
  }

  /** The authority, seen from the start of its buffer. */
  lemma {:induction false} RunsAuthority(input: string, base: Option<Fields>, cfg: Config)
    requires WellFormed(input, cfg) && cfg.state == Authority && Pathless(cfg.f)
    requires forall k :: 0 <= k < |cfg.buffer| ==> !IsEnd(cfg.buffer[k])
    ensures EndsWell(input, base, cfg, input[cfg.cursor..])
    decreases |input| - cfg.cursor
  {
    hide Run, EndsWell, AddCredentials;
    Progress(input, None, base, cfg);
    var next := OneStep(input, None, base, cfg).cfg;
    if EndsAt(At(input, cfg.cursor)) {
      StepsOn(input, base, cfg, next);
      RunsHost(input, base, next);
      RewindsTo(input, base, cfg, next);
    } else {
      RunsAuthority(input, base, next);
      RunsPast(input, base, cfg, next);
    }
  }

  /** Going back over the buffer does not change where the authority ends. */
  lemma RewindsTo(input: string, base: Option<Fields>, cfg: Config, next: Config)
    requires WellFormed(input, cfg) && cfg.state == Authority && WellFormed(input, next)
    requires forall k :: 0 <= k < |cfg.buffer| ==> !IsEnd(cfg.buffer[k])
    requires next.cursor == cfg.cursor - |cfg.buffer| && RunsOn(input, base, cfg) == RunsOn(input, base, next)
    requires EndsWell(input, base, next, input[next.cursor..])
    ensures EndsWell(input, base, cfg, input[cfg.cursor..])
  {
    hide Run, RemoveDots, PathOfText;
    assert input[next.cursor..] == cfg.buffer + input[cfg.cursor..];
    SkipsPast(cfg.buffer, input[cfg.cursor..]);
  }

  /** The slashes before an authority. */
  lemma {:induction false} RunsSlashes(input: string, base: Option<Fields>, cfg: Config)
    requires WellFormed(input, cfg) && cfg.cursor <= |input| && Pathless(cfg.f)
    requires cfg.state in {AuthorityFirstSlash, AuthoritySecondSlash, AuthorityIgnoreSlashes}
    ensures EndsWell(input, base, cfg, SkipSlashes(input[cfg.cursor..]))
    decreases Rank(cfg.state), |input| - cfg.cursor
  {
    hide Run, RemoveDots, PathOfText, HasPath;
    Progress(input, None, base, cfg);
    var next := OneStep(input, None, base, cfg).cfg;
    StepsOn(input, base, cfg, next);
    if next.state == Authority {
      RunsAuthority(input, base, next);
    } else {
      assert next.cursor == cfg.cursor + 1 ==> input[cfg.cursor..][1..] == input[next.cursor..];
      RunsSlashes(input, base, next);
    }
  }

  // ---------------------------------------------------------------- references

  /** The fields before anything was taken from the base. */
  predicate Unbased(f: Fields, b: Fields) {
    Pathless(f) && (f.scheme == "" || f.scheme == b.scheme)
  }

  /** The text is a reference against the base from here on. */
  lemma RunsReference(input: string, b: Fields, cfg: Config)
    requires WellFormed(input, cfg) && cfg.state == Relative && cfg.cursor <= |input| && Normal(b) && Unbased(cfg.f, b)
    ensures HasPath(RunsOn(input, Some(b), cfg), ReferencePath(b, input[cfg.cursor..]))
  {
    hide Run, RemoveDots, PathOfText, HasPath, AuthorityPath, StepRelative, RelativeRest, SegmentsOk, RunsOn;
    hide DefaultPort, DotMapping, EncodeComponent, Lower, ToDecimal, ParseInt;
    RelativeStep(input, b, cfg);
    Progress(input, None, Some(b), cfg);
    var s, c := input[cfg.cursor..], At(input, cfg.cursor);
    if c.None? || c == Some('?') || c == Some('#') {
      RunsSamePath(input, b, cfg);
    } else if IsSlash(c.value) {
      var next := cfg.(f := Based(cfg.f, b), state := RelativeSlash, cursor := cfg.cursor + 1);
      StepsOn(input, Some(b), cfg, next);
      RunsOneSlash(input, b, next);
      assert s[1..] == input[next.cursor..];
    } else {
      var next := cfg.(f := CopyAuthority(Based(cfg.f, b), b).(path := DropLast(b.path)), state := RelativePath);
      StepsOn(input, Some(b), cfg, next);
      FrontIsOk(b.path);
      RunsToPath(input, Some(b), next);
    }
  }

  lemma FrontIsOk(path: seq<string>)
    requires SegmentsOk(path)
    ensures SegmentsOk(DropLast(path))
  {
    hide SegmentOk;
  }

  /** No path in the reference: that of the base stays. */
  lemma RunsSamePath(input: string, b: Fields, cfg: Config)
    requires WellFormed(input, cfg) && cfg.state == Relative && cfg.cursor <= |input| && Normal(b) && Unbased(cfg.f, b)
    requires At(input, cfg.cursor) in [None, Some('?'), Some('#')]
    ensures HasPath(RunsOn(input, Some(b), cfg), PathText(b.path))
  {
    hide DefaultPort, DotMapping, EncodeComponent, Lower, ToDecimal, ParseInt, StepRelative, RelativeRest, SegmentsOk;
    RelativeStep(input, b, cfg);
    Progress(input, None, Some(b), cfg);
    NormalHasNoSlash(b.path);
    PathTextIsJoin(b.path);
    if cfg.cursor < |input| {
      PathKept(input, Some(b), OneStep(input, None, Some(b), cfg).cfg);
    }
  }

  lemma RunsOneSlash(input: string, b: Fields, cfg: Config)
    requires WellFormed(input, cfg) && cfg.state == RelativeSlash && 0 < cfg.cursor <= |input| && Normal(b)
    requires Pathless(cfg.f) && cfg.f.scheme == b.scheme && IsSlash(input[cfg.cursor - 1])
    ensures HasPath(RunsOn(input, Some(b), cfg),
                    if SlashAt(At(input, cfg.cursor)) then AuthorityPath(input[cfg.cursor - 1..])
                    else RemoveDots("/" + PathOfText(input[cfg.cursor..]), ""))
  {
    hide Run, RemoveDots, PathOfText, HasPath;
    var s := input[cfg.cursor - 1..];
    assert s[1..] == input[cfg.cursor..];
    if SlashAt(At(input, cfg.cursor)) {
      var next := cfg.(state := AuthorityIgnoreSlashes, cursor := cfg.cursor + 1);
      StepsOn(input, Some(b), cfg, next);
      RunsSlashes(input, Some(b), next);
      assert s[1..][1..] == input[next.cursor..];
      assert SkipSlashes(s) == SkipSlashes(s[1..]) == SkipSlashes(input[next.cursor..]);
    } else {
      var next := cfg.(f := CopyAuthority(cfg.f, b), state := RelativePath);
      StepsOn(input, Some(b), cfg, next);
      RunsToPath(input, Some(b), next);
      assert PathText([]) + "/" == "/";
    }
  }

  /** A text without a scheme, against a base in normal form: what a reference resolves to. */
  lemma ReferenceResolves(input: string, b: Fields)
    requires Normal(b) && !HasScheme(input)
    ensures HasPath(Parse(input, None, Some(b), CLEARED), ReferencePath(b, input))
  {
    hide Run, ReferencePath, HasPath;
    RunsToRelative(input, b);
    RunsReference(input, b, Config(Relative, 0, "", false, false, CLEARED));
    assert input[0..] == input;
  }

  /** A text with a scheme whose URLs have an authority: an absolute URL, or a reference when the base has the same
      scheme and no two slashes follow. */
  lemma SchemeResolves(input: string, base: Option<Fields>, n: nat)
    requires SchemeIs(input, n) && NonFile(Lower(input[..n])) && BaseOk(base)
    ensures var s := input[n + 1..];
            HasPath(Parse(input, None, base, CLEARED),
                    if base.Some? && base.value.scheme == Lower(input[..n]) && !("//" <= s) then ReferencePath(base.value, s)
                    else AuthorityPath(s))
  {
    hide Run, ReferencePath, AuthorityPath, HasPath, DefaultPort, Lower;
    var scheme := Lower(input[..n]);
    LowerNothing(input);
    RunsScheme(input, base, Config(SchemeStart, 0, "", false, false, CLEARED), n);
    ReadsColonOf(input, base, n, scheme);
    var cfg := AfterColon(n, scheme, base);
    if cfg.state == AuthorityFirstSlash {
      RunsSlashes(input, base, cfg);
      AuthorityPathIs(input[n + 1..]);
    } else {
      RunsAfterSame(input, base.value, cfg);
    }
  }

  lemma AuthorityPathIs(s: string)
    ensures AuthorityPath(s) == RemoveDots("/" + PathOfText(AfterSlash(SkipAuthority(SkipSlashes(s)))), "")
  {
  }

  /** After a scheme that is also that of the base. */
  lemma RunsAfterSame(input: string, b: Fields, cfg: Config)
    requires WellFormed(input, cfg) && cfg.state == RelativeOrAuthority && cfg.cursor <= |input| && Normal(b) && Unbased(cfg.f, b)
    ensures var s := input[cfg.cursor..];
            HasPath(RunsOn(input, Some(b), cfg), if "//" <= s then AuthorityPath(s) else ReferencePath(b, s))
  {
    hide Run, ReferencePath, HasPath, RemoveDots, PathOfText;
    var s := input[cfg.cursor..];
    assert "//" <= s <==> At(input, cfg.cursor) == Some('/') && At(input, cfg.cursor + 1) == Some('/');
    if "//" <= s {
      var next := cfg.(state := AuthorityIgnoreSlashes, cursor := cfg.cursor + 1);
      StepsOn(input, Some(b), cfg, next);
      RunsSlashes(input, Some(b), next);
      assert s[1..] == input[next.cursor..];
    } else {
      var next := cfg.(state := Relative);
      StepsOn(input, Some(b), cfg, next);
      RunsReference(input, b, next);
    }
  }
}
