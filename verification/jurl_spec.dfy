/** What the URL parser makes of a text, part by part: the components of section 3 of RFC 3986, read off the text, and
    those that section 5.2.2 takes from the base (webcomponents-lite.js:109-457). */
module JUrlSpec {
  import opened Options
  import opened Texts
  import opened JUrl
  import opened JUrlNormal
  import opened JUrlPreserve
  import opened JUrlFixpoint
  import opened JUrlDots
  import opened JUrlThrows
  import opened JUrlResolve

  // ---------------------------------------------------------------- the end of a text

  function Untabbed(s: string): string {
    if s == "" then "" else (if IsTabOrNewline(s[0]) then "" else [s[0]]) + Untabbed(s[1..])
  }

  /** The text up to a hash, escaped. */
  function QueryChars(s: string): string {
    if s == "" || s[0] == '#' then "" else (if IsTabOrNewline(s[0]) then "" else PercentEscapeQuery(s[0])) + QueryChars(s[1..])
  }

  /** From the first question mark before any hash. */
  function QueryOf(s: string): string {
    if s == "" || s[0] == '#' then "" else if s[0] == '?' then "?" + QueryChars(s[1..]) else QueryOf(s[1..])
  }

  /** From the first hash on. */
  function FragmentOf(s: string): string {
    if s == "" then "" else if s[0] == '#' then "#" + Untabbed(s[1..]) else FragmentOf(s[1..])
  }

  lemma Tail(input: string, i: nat)
    requires i < |input|
    ensures input[i..] != "" && input[i..][0] == input[i] && input[i..][1..] == input[i + 1..]
  {
  }

  lemma RunPast(input: string, base: Option<Fields>, cfg: Config)
    requires WellFormed(input, cfg) && cfg.cursor == |input| + 1
    ensures RunsOn(input, base, cfg) == Some(cfg.f)
  {
  }

  /** The rounds of the last states. */
  lemma StepIs(input: string, base: Option<Fields>, cfg: Config)
    requires WellFormed(input, cfg) && Running(input, cfg)
    ensures var s, c := OneStep(input, None, base, cfg), At(input, cfg.cursor);
            && (cfg.state == Fragment ==> s == StepFragment(c, cfg))
            && (cfg.state == Query ==> s == StepQuery(c, None, cfg))
            && (cfg.state == RelativePath ==> s == StepRelativePath(c, None, cfg))
  {
    hide StepSchemeStart, StepScheme, StepSchemeData, StepNoScheme, StepRelativeOrAuthority, StepRelative, StepRelativeSlash;
    hide StepAuthorityFirstSlash, StepAuthoritySecondSlash, StepAuthorityIgnoreSlashes, StepAuthority, StepFileHost, StepHost;
    hide StepPort, StepRelativePathStart, StepRelativePath, StepQuery, StepFragment;
  }

  lemma Assoc(a: string, b: string, c: string)
    ensures a + (b + c) == (a + b) + c && a + "" == a
  {
  }

  lemma UntabbedIs(s: string)
    requires s != ""
    ensures Untabbed(s) == (if IsTabOrNewline(s[0]) then "" else [s[0]]) + Untabbed(s[1..])
  {
  }

  lemma UntabbedStep(front: string, s: string)
    requires s != ""
    ensures front + Untabbed(s) == (if IsTabOrNewline(s[0]) then front else front + [s[0]]) + Untabbed(s[1..])
  {
    hide Untabbed;
    UntabbedIs(s);
    Assoc(front, if IsTabOrNewline(s[0]) then "" else [s[0]], Untabbed(s[1..]));
  }

  lemma {:induction false} RunsFragment(input: string, base: Option<Fields>, cfg: Config)
    requires WellFormed(input, cfg) && cfg.state == Fragment && cfg.cursor <= |input| && !cfg.f.isInvalid
    ensures RunsOn(input, base, cfg) == Some(cfg.f.(fragment := cfg.f.fragment + Untabbed(input[cfg.cursor..])))
    decreases |input| - cfg.cursor
  {
    hide Run, OneStep, Untabbed;
    StepIs(input, base, cfg);
    if cfg.cursor < |input| {
      var c := input[cfg.cursor];
      var f := if IsTabOrNewline(c) then cfg.f else cfg.f.(fragment := cfg.f.fragment + [c]);
      var next := cfg.(cursor := cfg.cursor + 1, f := f);
      StepsOn(input, base, cfg, next);
      RunsFragment(input, base, next);
      Tail(input, cfg.cursor);
      UntabbedStep(cfg.f.fragment, input[cfg.cursor..]);
    } else {
      var next := cfg.(cursor := cfg.cursor + 1);
      StepsOn(input, base, cfg, next);
      RunPast(input, base, next);
      NothingLeft(input[cfg.cursor..]);
      assert cfg.f.fragment + "" == cfg.f.fragment;
    }
  }

  lemma NothingLeft(s: string)
    requires s == ""
    ensures Untabbed(s) == "" && QueryChars(s) == "" && QueryOf(s) == "" && FragmentOf(s) == ""
  {
  }

  lemma QueryIs(s: string)
    requires s != "" && s[0] != '#'
    ensures QueryChars(s) == (if IsTabOrNewline(s[0]) then "" else PercentEscapeQuery(s[0])) + QueryChars(s[1..])
    ensures FragmentOf(s) == FragmentOf(s[1..])
  {
    hide PercentEscapeQuery;
  }

  lemma QueryStep(front: string, s: string)
    requires s != "" && s[0] != '#'
    ensures front + QueryChars(s) == (if IsTabOrNewline(s[0]) then front else front + PercentEscapeQuery(s[0])) + QueryChars(s[1..])
    ensures FragmentOf(s) == FragmentOf(s[1..])
  {
    hide QueryChars, FragmentOf, PercentEscapeQuery;
    QueryIs(s);
    Assoc(front, if IsTabOrNewline(s[0]) then "" else PercentEscapeQuery(s[0]), QueryChars(s[1..]));
  }

  lemma HashStep(s: string)
    requires s != "" && s[0] == '#'
    ensures QueryChars(s) == "" && QueryOf(s) == "" && FragmentOf(s) == "#" + Untabbed(s[1..]) && BeforeQueryOf(s) == ""
  {
  }

  /** A query ends at a hash. */
  lemma QueryAtHash(input: string, base: Option<Fields>, cfg: Config)
    requires WellFormed(input, cfg) && cfg.state == Query && At(input, cfg.cursor) == Some('#') && !cfg.f.isInvalid && cfg.f.fragment == ""
    ensures var s := input[cfg.cursor..];
            RunsOn(input, base, cfg) == Some(cfg.f.(query := cfg.f.query + QueryChars(s), fragment := FragmentOf(s)))
  {
    hide Run, OneStep, QueryChars, FragmentOf, Untabbed;
    StepIs(input, base, cfg);
    Tail(input, cfg.cursor);
    var next := cfg.(cursor := cfg.cursor + 1, state := Fragment, f := cfg.f.(fragment := "#"));
    StepsOn(input, base, cfg, next);
    RunsFragment(input, base, next);
    HashStep(input[cfg.cursor..]);
    assert cfg.f.query + "" == cfg.f.query;
  }

  lemma QueryAtEnd(input: string, base: Option<Fields>, cfg: Config)
    requires WellFormed(input, cfg) && cfg.state == Query && cfg.cursor == |input| && !cfg.f.isInvalid && cfg.f.fragment == ""
    ensures var s := input[cfg.cursor..];
            RunsOn(input, base, cfg) == Some(cfg.f.(query := cfg.f.query + QueryChars(s), fragment := FragmentOf(s)))
  {
    hide Run, OneStep, QueryChars, FragmentOf, Untabbed;
    StepIs(input, base, cfg);
    var next := cfg.(cursor := cfg.cursor + 1);
    StepsOn(input, base, cfg, next);
    RunPast(input, base, next);
    NothingLeft(input[cfg.cursor..]);
    assert cfg.f.query + "" == cfg.f.query;
  }

  lemma {:induction false} RunsQuery(input: string, base: Option<Fields>, cfg: Config)
    requires WellFormed(input, cfg) && cfg.state == Query && cfg.cursor <= |input| && !cfg.f.isInvalid && cfg.f.fragment == ""
    ensures var s := input[cfg.cursor..];
            RunsOn(input, base, cfg) == Some(cfg.f.(query := cfg.f.query + QueryChars(s), fragment := FragmentOf(s)))
    decreases |input| - cfg.cursor
  {
    hide Run, OneStep, PercentEscapeQuery, QueryChars, FragmentOf, Untabbed;
    if cfg.cursor == |input| {
      QueryAtEnd(input, base, cfg);
    } else if input[cfg.cursor] == '#' {
      QueryAtHash(input, base, cfg);
    } else {
      StepIs(input, base, cfg);
      Tail(input, cfg.cursor);
      var c := input[cfg.cursor];
      var f := if IsTabOrNewline(c) then cfg.f else cfg.f.(query := cfg.f.query + PercentEscapeQuery(c));
      var next := cfg.(cursor := cfg.cursor + 1, f := f);
      StepsOn(input, base, cfg, next);
      RunsQuery(input, base, next);
      QueryStep(cfg.f.query, input[cfg.cursor..]);
    }
  }

  /** The fields of a URL once its authority is known, its path begun and the rest of the text read. */
  function WithRest(f: Fields, path: seq<string>, s: string): Fields {
    f.(path := path, query := QueryOf(s), fragment := FragmentOf(s))
  }

  lemma {:induction false} RunsRest(input: string, base: Option<Fields>, cfg: Config)
    requires WellFormed(input, cfg) && cfg.state == RelativePath && cfg.cursor <= |input| && !cfg.f.isInvalid
    requires cfg.f.query == "" && cfg.f.fragment == ""
    ensures var s := input[cfg.cursor..];
            RunsOn(input, base, cfg) ==
            Some(WithRest(cfg.f, AddSegments(cfg.f.scheme, cfg.f.path, SplitPath(BeforeQueryOf(s), cfg.buffer)), s))
    decreases |input| - cfg.cursor
  {
    hide Run, AddSegment, PercentEscape, QueryChars, Untabbed, DotMapping, OneStep, QueryOf, FragmentOf, BeforeQueryOf;
    StepIs(input, base, cfg);
    var s := input[cfg.cursor..];
    var c := At(input, cfg.cursor);
    if c.None? || c == Some('#') || c == Some('?') {
      LastSegmentRest(input, base, cfg);
    } else {
      Tail(input, cfg.cursor);
      var next := if IsSlash(c.value)
        then cfg.(cursor := cfg.cursor + 1, buffer := "", f := cfg.f.(path := AddSegment(cfg.f.scheme, cfg.f.path, cfg.buffer, true)))
        else cfg.(cursor := cfg.cursor + 1, buffer := if IsTabOrNewline(c.value) then cfg.buffer else cfg.buffer + PercentEscape(c.value));
      StepsOn(input, base, cfg, next);
      RunsRest(input, base, next);
      BeforeQueryStep(s);
      SplitNotEmpty(BeforeQueryOf(s[1..]), "");
      if IsSlash(c.value) {
        assert SplitPath(BeforeQueryOf(s), cfg.buffer)[1..] == SplitPath(BeforeQueryOf(s[1..]), "");
      }
    }
  }

  /** The end of the path: what is in the buffer is its last segment. */
  lemma LastSegmentRest(input: string, base: Option<Fields>, cfg: Config)
    requires WellFormed(input, cfg) && cfg.state == RelativePath && cfg.cursor <= |input| && !cfg.f.isInvalid
    requires cfg.f.query == "" && cfg.f.fragment == "" && At(input, cfg.cursor) in [None, Some('?'), Some('#')]
    ensures var s := input[cfg.cursor..];
            && BeforeQueryOf(s) == ""
            && RunsOn(input, base, cfg) == Some(WithRest(cfg.f, AddSegment(cfg.f.scheme, cfg.f.path, cfg.buffer, false), s))
  {
    hide Run, AddSegment, QueryChars, Untabbed, OneStep;
    StepIs(input, base, cfg);
    var s, c := input[cfg.cursor..], At(input, cfg.cursor);
    var f := cfg.f.(path := AddSegment(cfg.f.scheme, cfg.f.path, cfg.buffer, false));
    if c.Some? {
      Tail(input, cfg.cursor);
    }
    if c == Some('?') {
      var next := cfg.(state := Query, cursor := cfg.cursor + 1, buffer := "", f := f.(query := "?"));
      StepsOn(input, base, cfg, next);
      RunsQuery(input, base, next);
    } else if c == Some('#') {
      var next := cfg.(state := Fragment, cursor := cfg.cursor + 1, buffer := "", f := f.(fragment := "#"));
      StepsOn(input, base, cfg, next);
      RunsFragment(input, base, next);
    } else {
      var next := cfg.(cursor := cfg.cursor + 1, buffer := "", f := f);
      StepsOn(input, base, cfg, next);
      RunPast(input, base, next);
    }
  }

  lemma BeforeQueryStep(s: string)
    requires s != "" && s[0] != '?' && s[0] != '#'
    ensures BeforeQueryOf(s) != "" && BeforeQueryOf(s)[0] == s[0] && BeforeQueryOf(s)[1..] == BeforeQueryOf(s[1..])
    ensures QueryOf(s) == QueryOf(s[1..]) && FragmentOf(s) == FragmentOf(s[1..])
  {
  }

  // ---------------------------------------------------------------- the authority

  /** The text before the first slash, question mark or hash. */
  function AuthorityOf(s: string): (a: string)
    ensures |a| <= |s|
  {
    if s == "" || IsEnd(s[0]) then "" else [s[0]] + AuthorityOf(s[1..])
  }

  lemma {:induction false} AuthorityIs(s: string)
    ensures s == AuthorityOf(s) + s[|AuthorityOf(s)|..] && SkipAuthority(s) == s[|AuthorityOf(s)|..]
    ensures forall k :: 0 <= k < |AuthorityOf(s)| ==> !IsEnd(AuthorityOf(s)[k])
    ensures |AuthorityOf(s)| < |s| ==> IsEnd(s[|AuthorityOf(s)|])
  {
    if s != "" && !IsEnd(s[0]) {
      AuthorityIs(s[1..]);
      assert s == [s[0]] + s[1..];
      assert s[|AuthorityOf(s)|..] == s[1..][|AuthorityOf(s[1..])|..];
    }
  }

  /** What follows the last at sign. */
  function AfterLastAt(a: string): (h: string)
    ensures |h| <= |a| && '@' !in h
  {
    if a == "" then "" else if '@' in a[1..] then AfterLastAt(a[1..]) else if a[0] == '@' then a[1..] else a
  }

  /** What stands before the last at sign. Each earlier at sign is taken out, and `%40` put after the text that follows
      it: `tail` is what is still to be put at the next at sign. */
  function UserText(a: string, tail: string): string {
    if '@' !in a then ""
    else if a[0] == '@' then tail + UserText(a[1..], "%40")
    else [a[0]] + UserText(a[1..], tail)
  }

  lemma AtIn(buffer: string, a: string)
    ensures '@' in buffer + ("@" + a)
  {
    assert (buffer + ("@" + a))[|buffer|] == '@';
  }

  lemma {:induction false} AtAhead(buffer: string, a: string, tail: string)
    requires '@' !in buffer
    ensures AfterLastAt(buffer + ("@" + a)) == AfterLastAt(a)
    ensures UserText(buffer + ("@" + a), tail) == (buffer + tail) + UserText(a, "%40")
  {
    var s := buffer + ("@" + a);
    AtIn(buffer, a);
    if buffer == "" {
      assert s == "@" + a && s[1..] == a;
      NoAtHere(a);
      assert buffer + tail == tail;
    } else {
      assert s[1..] == buffer[1..] + ("@" + a) && s[0] == buffer[0];
      AtIn(buffer[1..], a);
      AtAhead(buffer[1..], a, tail);
      assert buffer + tail == [buffer[0]] + (buffer[1..] + tail);
      Assoc([buffer[0]], buffer[1..] + tail, UserText(a, "%40"));
    }
  }

  lemma {:induction false} NoAtHere(a: string)
    ensures '@' !in a ==> AfterLastAt(a) == a && forall tail :: UserText(a, tail) == ""
  {
  }

  lemma AuthorityStep(s: string)
    requires s != ""
    ensures IsEnd(s[0]) ==> AuthorityOf(s) == ""
    ensures !IsEnd(s[0]) ==> AuthorityOf(s) == [s[0]] + AuthorityOf(s[1..])
  {
  }

  lemma AuthorityStepIs(input: string, base: Option<Fields>, cfg: Config)
    requires WellFormed(input, cfg) && Running(input, cfg) && cfg.state == Authority
    ensures OneStep(input, None, base, cfg) == StepAuthority(At(input, cfg.cursor), cfg)
  {
    hide StepAuthority;
  }

  /** Where the parser is when it has read the credentials of the authority `a`, which ends at `end`. */
  function AtHost(cfg: Config, a: string, end: nat): Config
    requires |a| <= end
  {
    var (u, p) := AddCredentials(UserText(a, if cfg.seenAt then "%40" else ""), cfg.f.username, cfg.f.password);
    Config(Host, end - |AfterLastAt(a)|, "", cfg.seenAt || '@' in a, false, cfg.f.(username := u, password := p))
  }

  lemma AtSignTo(cfg: Config, rest: string, end: nat)
    requires '@' !in cfg.buffer && |cfg.buffer| + 1 + |rest| <= end
    ensures var (u, p) := AddCredentials(if cfg.seenAt then cfg.buffer + "%40" else cfg.buffer, cfg.f.username, cfg.f.password);
            AtHost(cfg, cfg.buffer + ("@" + rest), end) ==
            AtHost(cfg.(cursor := cfg.cursor + 1, seenAt := true, buffer := "", f := cfg.f.(username := u, password := p)), rest, end)
  {
    hide UserText, AfterLastAt, AddCredentials;
    var tail := if cfg.seenAt then "%40" else "";
    AtAhead(cfg.buffer, rest, tail);
    AtIn(cfg.buffer, rest);
    assert cfg.buffer + "" == cfg.buffer;
    AddConcat(cfg.buffer + tail, UserText(rest, "%40"), cfg.f.username, cfg.f.password);
  }

  lemma NoAtTo(cfg: Config, end: nat)
    requires '@' !in cfg.buffer && |cfg.buffer| <= end
    ensures AtHost(cfg, cfg.buffer, end) == cfg.(state := Host, cursor := end - |cfg.buffer|, buffer := "", seenBracket := false)
  {
    hide UserText, AfterLastAt, AddCredentials;
    NoAtHere(cfg.buffer);
    NoCredentials(cfg.f.username, cfg.f.password);
  }

  ghost predicate ReadsCredentials(input: string, base: Option<Fields>, cfg: Config)
    requires WellFormed(input, cfg) && cfg.cursor <= |input| && |cfg.buffer| <= cfg.cursor
  {
    var rest := AuthorityOf(input[cfg.cursor..]);
    var next := AtHost(cfg, cfg.buffer + rest, cfg.cursor + |rest|);
    WellFormed(input, next) && RunsOn(input, base, cfg) == RunsOn(input, base, next)
  }

  ghost predicate InAuthority(input: string, cfg: Config) {
    && WellFormed(input, cfg) && cfg.state == Authority && cfg.cursor <= |input| && !cfg.f.isInvalid && !cfg.seenBracket
    && '@' !in cfg.buffer
  }

  /** The configuration after an at-sign. */
  function AfterAtSign(cfg: Config): Config {
    var (u, p) := AddCredentials(if cfg.seenAt then cfg.buffer + "%40" else cfg.buffer, cfg.f.username, cfg.f.password);
    cfg.(cursor := cfg.cursor + 1, seenAt := true, buffer := "", f := cfg.f.(username := u, password := p))
  }

  lemma AtSignRest(input: string, cfg: Config)
    requires InAuthority(input, cfg) && At(input, cfg.cursor) == Some('@')
    ensures var rest := AuthorityOf(input[cfg.cursor + 1..]);
            cfg.buffer + AuthorityOf(input[cfg.cursor..]) == cfg.buffer + ("@" + rest)
  {
    Tail(input, cfg.cursor);
    AuthorityStep(input[cfg.cursor..]);
  }

  lemma CredentialsAtSign(input: string, base: Option<Fields>, cfg: Config)
    requires InAuthority(input, cfg) && At(input, cfg.cursor) == Some('@')
    ensures var next := AfterAtSign(cfg);
            InAuthority(input, next) && (ReadsCredentials(input, base, next) ==> ReadsCredentials(input, base, cfg))
  {
    hide Run, RunsOn, OneStep, UserText, AfterLastAt, AddCredentials, AuthorityOf, AtHost;
    var next := AfterAtSign(cfg);
    AuthorityStepIs(input, base, cfg);
    StepsOn(input, base, cfg, next);
    AtSignRest(input, cfg);
    var rest := AuthorityOf(input[next.cursor..]);
    assert "" + rest == rest;
    AtSignTo(cfg, rest, next.cursor + |rest|);
  }

  lemma CredentialsEnd(input: string, base: Option<Fields>, cfg: Config)
    requires InAuthority(input, cfg) && EndsAt(At(input, cfg.cursor))
    ensures ReadsCredentials(input, base, cfg)
  {
    hide Run, RunsOn, OneStep, UserText, AfterLastAt, AddCredentials, AuthorityOf, AtHost;
    AuthorityStepIs(input, base, cfg);
    AuthorityEnds(input, cfg.cursor);
    assert cfg.buffer + "" == cfg.buffer;
    NoAtTo(cfg, cfg.cursor);
    StepsOn(input, base, cfg, cfg.(cursor := cfg.cursor - |cfg.buffer|, buffer := "", state := Host));
  }

  lemma AuthorityEnds(input: string, i: nat)
    requires i <= |input| && EndsAt(At(input, i))
    ensures AuthorityOf(input[i..]) == ""
  {
  }

  lemma CredentialsGoOn(input: string, base: Option<Fields>, cfg: Config)
    requires InAuthority(input, cfg) && !EndsAt(At(input, cfg.cursor)) && At(input, cfg.cursor) != Some('@')
    ensures var next := cfg.(cursor := cfg.cursor + 1, buffer := cfg.buffer + [input[cfg.cursor]]);
            InAuthority(input, next) && (ReadsCredentials(input, base, next) ==> ReadsCredentials(input, base, cfg))
  {
    hide Run, RunsOn, OneStep, AuthorityOf, AtHost;
    var next := cfg.(cursor := cfg.cursor + 1, buffer := cfg.buffer + [input[cfg.cursor]]);
    AuthorityStepIs(input, base, cfg);
    StepsOn(input, base, cfg, next);
    Tail(input, cfg.cursor);
    var s := input[cfg.cursor..];
    AuthorityStep(s);
    Assoc(cfg.buffer, [input[cfg.cursor]], AuthorityOf(s[1..]));
    SameTo(cfg, next, cfg.buffer + AuthorityOf(s), cfg.cursor + |AuthorityOf(s)|);
  }

  /** From the authority on: the credentials are read off, and the host is read from behind the last at sign. */
  lemma {:induction false} RunsCredentials(input: string, base: Option<Fields>, cfg: Config)
    requires InAuthority(input, cfg)
    ensures ReadsCredentials(input, base, cfg)
    decreases |input| - cfg.cursor
  {
    hide ReadsCredentials, AddCredentials;
    if At(input, cfg.cursor) == Some('@') {
      CredentialsAtSign(input, base, cfg);
      RunsCredentials(input, base, AfterAtSign(cfg));
    } else if EndsAt(At(input, cfg.cursor)) {
      CredentialsEnd(input, base, cfg);
    } else {
      CredentialsGoOn(input, base, cfg);
      RunsCredentials(input, base, cfg.(cursor := cfg.cursor + 1, buffer := cfg.buffer + [input[cfg.cursor]]));
    }
  }

  lemma SameTo(cfg: Config, next: Config, a: string, end: nat)
    requires |a| <= end && next.seenAt == cfg.seenAt && next.f == cfg.f
    ensures AtHost(cfg, a, end) == AtHost(next, a, end)
  {
  }

  lemma NoCredentials(u: string, p: Option<string>)
    ensures AddCredentials("", u, p) == (u, p)
  {
  }

  // ---------------------------------------------------------------- what credentials are

  /** The text escaped, without tabs and line feeds. */
  function Escaped(s: string): string {
    if s == "" then "" else (if IsTabOrNewline(s[0]) then "" else PercentEscape(s[0])) + Escaped(s[1..])
  }

  function BeforeColon(s: string): string {
    if s == "" || s[0] == ':' then "" else [s[0]] + BeforeColon(s[1..])
  }

  /** What follows the first colon, if there is one. */
  function AfterColonOf(s: string): Option<string> {
    if s == "" then None else if s[0] == ':' then Some(s[1..]) else AfterColonOf(s[1..])
  }

  lemma {:induction false} PasswordIs(t: string, u: string, p: string)
    ensures AddCredentials(t, u, Some(p)) == (u, Some(p + Escaped(t)))
    decreases |t|
  {
    hide PercentEscape;
    if t == "" {
      assert p + "" == p;
    } else if IsTabOrNewline(t[0]) {
      PasswordIs(t[1..], u, p);
      assert "" + Escaped(t[1..]) == Escaped(t[1..]);
    } else {
      PasswordIs(t[1..], u, p + PercentEscape(t[0]));
      Assoc(p, PercentEscape(t[0]), Escaped(t[1..]));
    }
  }

  /** The user name is the escaped text before the first colon, and the password that after it. */
  lemma {:induction false} CredentialsAre(t: string, u: string)
    ensures AddCredentials(t, u, None) ==
            (u + Escaped(BeforeColon(t)), match AfterColonOf(t) case None => None case Some(rest) => Some(Escaped(rest)))
    decreases |t|
  {
    hide PercentEscape;
    if t == "" {
      assert u + "" == u;
    } else if IsTabOrNewline(t[0]) {
      CredentialsAre(t[1..], u);
      assert BeforeColon(t)[1..] == BeforeColon(t[1..]);
      assert "" + Escaped(BeforeColon(t[1..])) == Escaped(BeforeColon(t[1..]));
    } else if t[0] == ':' {
      PasswordIs(t[1..], u, "");
      assert u + "" == u && "" + Escaped(t[1..]) == Escaped(t[1..]);
    } else {
      CredentialsAre(t[1..], u + PercentEscape(t[0]));
      assert BeforeColon(t)[1..] == BeforeColon(t[1..]);
      Assoc(u, PercentEscape(t[0]), Escaped(BeforeColon(t[1..])));
    }
  }

  // ---------------------------------------------------------------- the host and the port

  /** The fields with the path, the query and the fragment of the text behind the authority. */
  function WithPath(f: Fields, s: string): Fields {
    WithRest(f, AddSegments(f.scheme, [], SplitPath(BeforeQueryOf(AfterSlash(s)), "")), s)
  }

  lemma RunsStart(input: string, base: Option<Fields>, cfg: Config)
    requires WellFormed(input, cfg) && cfg.state == RelativePathStart && cfg.cursor <= |input| && cfg.buffer == ""
    requires !cfg.f.isInvalid && cfg.f.path == [] && cfg.f.query == "" && cfg.f.fragment == ""
    ensures RunsOn(input, base, cfg) == Some(WithPath(cfg.f, input[cfg.cursor..]))
  {
    hide Run, AddSegments, SplitPath, BeforeQueryOf, QueryChars, Untabbed;
    var slash := SlashAt(At(input, cfg.cursor));
    var next := cfg.(state := RelativePath, cursor := cfg.cursor + if slash then 1 else 0);
    StepsOn(input, base, cfg, next);
    RunsRest(input, base, next);
    assert input[next.cursor..] == AfterSlash(input[cfg.cursor..]);
  }

  /** The digits without leading zeros. */
  function Stripped(digits: string): string {
    if |digits| > 1 && digits[0] == '0' then Stripped(digits[1..]) else digits
  }

  /** The default port of a scheme, as it is written. */
  function DefaultText(scheme: string): string {
    if scheme == "ftp" then "21"
    else if scheme == "gopher" then "70"
    else if scheme == "http" || scheme == "ws" then "80"
    else if scheme == "https" || scheme == "wss" then "443"
    else "0"
  }

  /** A port without leading zeros, and none when it is the default. */
  function PortText(scheme: string, digits: string): string {
    if digits == "" || Stripped(digits) == DefaultText(scheme) then "" else Stripped(digits)
  }

  predicate AllDigits(s: string) {
    forall k :: 0 <= k < |s| ==> IsDigit(s[k])
  }

  lemma {:induction false} ParseIntStripped(d: string)
    requires AllDigits(d)
    ensures AllDigits(Stripped(d)) && ParseInt(Stripped(d)) == ParseInt(d)
    decreases |d|
  {
    if |d| > 1 && d[0] == '0' {
      LeadingZero(d);
      ParseIntStripped(d[1..]);
    }
  }

  lemma {:induction false} LeadingZero(d: string)
    requires AllDigits(d) && d != "" && d[0] == '0'
    ensures AllDigits(d[1..]) && ParseInt(d[1..]) == ParseInt(d)
    decreases |d|
  {
    if |d| > 1 {
      var n := |d| - 1;
      LeadingZero(d[..n]);
      assert d[1..][..n - 1] == d[..n][1..];
    } else {
      assert d[..0] == "" && d[1..] == "";
    }
  }

  lemma {:induction false} DecimalIsStripped(d: string)
    requires AllDigits(d) && d != "" && (|d| > 1 ==> d[0] != '0')
    ensures ToDecimal(ParseInt(d)) == d && (|d| > 1 ==> ParseInt(d) >= 10)
    decreases |d|
  {
    var n := |d| - 1;
    if n == 0 {
      assert d[..0] == "" && ParseInt(d[..0]) == 0;
      assert d == [d[0]];
    } else {
      DecimalIsStripped(d[..n]);
      assert d == d[..n] + [d[n]];
      assert ParseInt(d[..n]) >= 1 by { Positive(d[..n]); }
    }
  }

  lemma Positive(d: string)
    requires AllDigits(d) && d != "" && d[0] != '0' && (|d| > 1 ==> ParseInt(d) >= 10)
    ensures ParseInt(d) >= 1
  {
    if |d| == 1 {
      assert d[..0] == "";
    }
  }

  lemma {:induction false} StrippedForm(d: string)
    ensures (d != "" ==> Stripped(d) != "") && (|Stripped(d)| > 1 ==> Stripped(d)[0] != '0')
    decreases |d|
  {
    if |d| > 1 && d[0] == '0' {
      StrippedForm(d[1..]);
    }
  }

  lemma DefaultIs(scheme: string)
    requires NonFile(scheme)
    ensures DefaultPort(scheme).Some? && ToDecimal(DefaultPort(scheme).value) == DefaultText(scheme)
  {
    assert ToDecimal(21) == ToDecimal(2) + "1" && ToDecimal(70) == ToDecimal(7) + "0" && ToDecimal(80) == ToDecimal(8) + "0";
    assert ToDecimal(443) == ToDecimal(44) + "3" && ToDecimal(44) == ToDecimal(4) + "4";
  }

  /** A port is kept without leading zeros, unless it is the default. */
  lemma PortIs(f: Fields, digits: string)
    requires AllDigits(digits) && f.port == "" && NonFile(f.scheme)
    ensures SetPort(f, digits) == f.(port := PortText(f.scheme, digits))
  {
    hide ToDecimal, ParseInt, DefaultPort, DefaultText, NonFile, Stripped;
    if digits != "" {
      var d := Stripped(digits);
      ParseIntStripped(digits);
      StrippedForm(digits);
      DecimalIsStripped(d);
      DefaultIs(f.scheme);
      DecimalRoundTrip(DefaultPort(f.scheme).value);
    }
  }

  /** The fields behind a port. */
  function WithPort(f: Fields, digits: string, rest: string): Fields {
    if AllDigits(digits) then WithPath(f.(port := PortText(f.scheme, digits)), rest) else INVALID
  }

  ghost predicate Hosted(f: Fields) {
    !f.isInvalid && f.path == [] && f.query == "" && f.fragment == "" && f.port == "" && NonFile(f.scheme)
  }

  lemma {:induction false} RunsPortTo(input: string, base: Option<Fields>, cfg: Config)
    requires WellFormed(input, cfg) && cfg.state == Port && cfg.cursor <= |input| && Hosted(cfg.f)
    ensures var s := input[cfg.cursor..];
            RunsOn(input, base, cfg) == Some(WithPort(cfg.f, cfg.buffer + Untabbed(AuthorityOf(s)), SkipAuthority(s)))
    decreases |input| - cfg.cursor
  {
    hide Run, OneStep, WithPath, PortText, AuthorityOf, SkipAuthority, Untabbed;
    PortStepIs(input, base, cfg);
    var s, c := input[cfg.cursor..], At(input, cfg.cursor);
    if EndsAt(c) {
      PortEnds(input, base, cfg);
    } else {
      Tail(input, cfg.cursor);
      PortStep(cfg.buffer, s);
      if IsDigit(c.value) || IsTabOrNewline(c.value) {
        var next := cfg.(cursor := cfg.cursor + 1, buffer := if IsDigit(c.value) then cfg.buffer + [c.value] else cfg.buffer);
        StepsOn(input, base, cfg, next);
        RunsPortTo(input, base, next);
      } else {
        var next := cfg.(cursor := cfg.cursor + 1, f := INVALID);
        StepsOn(input, base, cfg, next);
        RunsInvalid(input, base, next);
        NotDigits(cfg.buffer, c.value, Untabbed(AuthorityOf(s[1..])));
      }
    }
  }

  lemma PortStepIs(input: string, base: Option<Fields>, cfg: Config)
    requires WellFormed(input, cfg) && Running(input, cfg) && cfg.state == Port
    ensures OneStep(input, None, base, cfg) == StepPort(At(input, cfg.cursor), None, cfg)
  {
    hide StepPort;
  }

  lemma NotDigits(a: string, c: char, b: string)
    requires !IsDigit(c)
    ensures !AllDigits(a + ([c] + b))
  {
    assert (a + ([c] + b))[|a|] == c;
  }

  lemma PortStep(front: string, s: string)
    requires s != "" && !IsEnd(s[0])
    ensures Untabbed(AuthorityOf(s)) == (if IsTabOrNewline(s[0]) then "" else [s[0]]) + Untabbed(AuthorityOf(s[1..]))
    ensures front + Untabbed(AuthorityOf(s)) ==
            (if IsTabOrNewline(s[0]) then front else front + [s[0]]) + Untabbed(AuthorityOf(s[1..]))
    ensures SkipAuthority(s) == SkipAuthority(s[1..])
  {
    var a := AuthorityOf(s);
    assert a == [s[0]] + AuthorityOf(s[1..]) && a[1..] == AuthorityOf(s[1..]);
    UntabbedIs(a);
    UntabbedStep(front, a);
  }

  lemma PortEnds(input: string, base: Option<Fields>, cfg: Config)
    requires WellFormed(input, cfg) && cfg.state == Port && cfg.cursor <= |input| && Hosted(cfg.f) && EndsAt(At(input, cfg.cursor))
    ensures var s := input[cfg.cursor..];
            RunsOn(input, base, cfg) == Some(WithPort(cfg.f, cfg.buffer + Untabbed(AuthorityOf(s)), SkipAuthority(s)))
  {
    hide Run, OneStep, WithPath, PortText, SetPort, ParseInt;
    PortStepIs(input, base, cfg);
    AuthorityEnds(input, cfg.cursor);
    var s := input[cfg.cursor..];
    assert SkipAuthority(s) == s && Untabbed("") == "" && cfg.buffer + "" == cfg.buffer;
    PortIs(cfg.f, cfg.buffer);
    var next := cfg.(f := cfg.f.(port := PortText(cfg.f.scheme, cfg.buffer)), buffer := "", state := RelativePathStart);
    StepsOn(input, base, cfg, next);
    RunsStart(input, base, next);
  }

  /** Where the host ends: before the first colon outside of brackets. */
  function HostLength(a: string, inside: bool): (n: nat)
    ensures n <= |a|
  {
    if a == "" || (a[0] == ':' && !inside) then 0
    else 1 + HostLength(a[1..], if a[0] == '[' then true else if a[0] == ']' then false else inside)
  }

  /** The fields behind an authority without credentials: an empty host makes the URL invalid. */
  function WithHost(f: Fields, host: string, port: string, rest: string): Fields {
    if host == "" then INVALID
    else if port == "" then WithPath(f.(host := Lower(host)), rest)
    else WithPort(f.(host := Lower(host)), Untabbed(port[1..]), rest)
  }

  function HostResult(cfg: Config, s: string): Fields {
    var a := AuthorityOf(s);
    var n := HostLength(a, cfg.seenBracket);
    WithHost(cfg.f, cfg.buffer + Untabbed(a[..n]), a[n..], SkipAuthority(s))
  }

  lemma HostStepIs(input: string, base: Option<Fields>, cfg: Config)
    requires WellFormed(input, cfg) && Running(input, cfg) && cfg.state == Host
    ensures OneStep(input, None, base, cfg) == StepHost(At(input, cfg.cursor), None, cfg)
  {
    hide StepHost;
  }

  lemma HostEnds(input: string, base: Option<Fields>, cfg: Config)
    requires WellFormed(input, cfg) && cfg.state == Host && cfg.cursor <= |input| && Hosted(cfg.f) && EndsAt(At(input, cfg.cursor))
    ensures RunsOn(input, base, cfg) == Some(HostResult(cfg, input[cfg.cursor..]))
  {
    hide Run, OneStep, WithPath, WithPort, Lower;
    HostStepIs(input, base, cfg);
    AuthorityEnds(input, cfg.cursor);
    var s := input[cfg.cursor..];
    assert SkipAuthority(s) == s && Untabbed("") == "" && cfg.buffer + "" == cfg.buffer;
    assert HostLength("", cfg.seenBracket) == 0 && ""[..0] == "" && ""[0..] == "";
    var next := cfg.(f := SetHost(cfg.f, cfg.buffer), buffer := "", state := RelativePathStart);
    StepsOn(input, base, cfg, next);
    if cfg.buffer == "" {
      RunsInvalid(input, base, next);
    } else {
      RunsStart(input, base, next);
    }
  }

  lemma HostColon(input: string, base: Option<Fields>, cfg: Config)
    requires WellFormed(input, cfg) && cfg.state == Host && cfg.cursor < |input| && Hosted(cfg.f)
    requires input[cfg.cursor] == ':' && !cfg.seenBracket
    ensures RunsOn(input, base, cfg) == Some(HostResult(cfg, input[cfg.cursor..]))
  {
    hide Run, OneStep, WithPath, WithPort, Lower, AuthorityOf, SkipAuthority;
    HostStepIs(input, base, cfg);
    Tail(input, cfg.cursor);
    var s := input[cfg.cursor..];
    AuthorityStep(s);
    var a, rest := AuthorityOf(s), AuthorityOf(s[1..]);
    assert a == ":" + rest && a[..0] == "" && a[0..] == a && a[1..] == rest;
    assert Untabbed("") == "" && cfg.buffer + "" == cfg.buffer;
    PortStep("", s);
    var next := cfg.(f := SetHost(cfg.f, cfg.buffer), buffer := "", state := Port, cursor := cfg.cursor + 1);
    StepsOn(input, base, cfg, next);
    if cfg.buffer == "" {
      RunsInvalid(input, base, next);
    } else {
      RunsPortTo(input, base, next);
      assert "" + Untabbed(rest) == Untabbed(rest);
    }
  }

  lemma HostGoesOn(cfg: Config, s: string)
    requires s != "" && !IsEnd(s[0]) && !(s[0] == ':' && !cfg.seenBracket)
    ensures var next := if IsTabOrNewline(s[0]) then cfg.(cursor := cfg.cursor + 1)
                        else cfg.(cursor := cfg.cursor + 1, buffer := cfg.buffer + [s[0]],
                                  seenBracket := if s[0] == '[' then true else if s[0] == ']' then false else cfg.seenBracket);
            HostResult(cfg, s) == HostResult(next, s[1..])
  {
    hide AuthorityOf, SkipAuthority, WithHost, Untabbed;
    AuthorityStep(s);
    PortStep("", s);
    var a, rest := AuthorityOf(s), AuthorityOf(s[1..]);
    var inside := if s[0] == '[' then true else if s[0] == ']' then false else cfg.seenBracket;
    assert a[0] == s[0] && a[1..] == rest;
    var n := HostLength(rest, inside);
    assert HostLength(a, cfg.seenBracket) == n + 1;
    assert a[..n + 1][1..] == rest[..n] && a[n + 1..] == rest[n..];
    UntabbedStep(cfg.buffer, a[..n + 1]);
  }

  lemma {:induction false} RunsHostTo(input: string, base: Option<Fields>, cfg: Config)
    requires WellFormed(input, cfg) && cfg.state == Host && cfg.cursor <= |input| && Hosted(cfg.f)
    ensures RunsOn(input, base, cfg) == Some(HostResult(cfg, input[cfg.cursor..]))
    decreases |input| - cfg.cursor
  {
    hide Run, OneStep, HostResult;
    var c := At(input, cfg.cursor);
    if EndsAt(c) {
      HostEnds(input, base, cfg);
    } else if c == Some(':') && !cfg.seenBracket {
      HostColon(input, base, cfg);
    } else {
      HostStepIs(input, base, cfg);
      Tail(input, cfg.cursor);
      HostGoesOn(cfg, input[cfg.cursor..]);
      var next := if IsTabOrNewline(c.value) then cfg.(cursor := cfg.cursor + 1)
                  else cfg.(cursor := cfg.cursor + 1, buffer := cfg.buffer + [c.value],
                            seenBracket := if c.value == '[' then true else if c.value == ']' then false else cfg.seenBracket);
      StepsOn(input, base, cfg, next);
      RunsHostTo(input, base, next);
    }
  }

  // ---------------------------------------------------------------- a whole authority

  /** The fields of a URL of this scheme whose authority is at the start of the text. */
  function AuthorityFields(scheme: string, s: string): Fields {
    var a := AuthorityOf(s);
    var user := UserText(a, "");
    var h := AfterLastAt(a);
    var n := HostLength(h, false);
    var f := CLEARED.(scheme := scheme, isRelative := true, username := Escaped(BeforeColon(user)),
                      password := match AfterColonOf(user) case None => None case Some(p) => Some(Escaped(p)));
    WithHost(f, Untabbed(h[..n]), h[n..], SkipAuthority(s))
  }

  /** The text behind the last at sign, in the whole text. */
  lemma {:induction false} AfterAt(a: string)
    ensures a[|a| - |AfterLastAt(a)|..] == AfterLastAt(a)
  {
    if a != "" && '@' in a[1..] {
      AfterAt(a[1..]);
    }
  }

  lemma {:induction false} AuthorityTail(s: string, k: nat)
    requires k <= |AuthorityOf(s)|
    ensures AuthorityOf(s[k..]) == AuthorityOf(s)[k..] && SkipAuthority(s[k..]) == SkipAuthority(s)
    decreases k
  {
    if k > 0 {
      assert s[1..][k - 1..] == s[k..];
      assert AuthorityOf(s)[1..] == AuthorityOf(s[1..]);
      AuthorityTail(s[1..], k - 1);
    } else {
      assert s[0..] == s && AuthorityOf(s)[0..] == AuthorityOf(s);
    }
  }

  lemma RunsWholeAuthority(input: string, base: Option<Fields>, cfg: Config)
    requires WellFormed(input, cfg) && cfg.state == Authority && cfg.cursor <= |input| && cfg.buffer == ""
    requires !cfg.seenAt && !cfg.seenBracket && NonFile(cfg.f.scheme) && cfg.f == CLEARED.(scheme := cfg.f.scheme, isRelative := true)
    ensures RunsOn(input, base, cfg) == Some(AuthorityFields(cfg.f.scheme, input[cfg.cursor..]))
  {
    hide Run, RunsOn, AuthorityOf, AfterLastAt, UserText, AddCredentials, BeforeColon, AfterColonOf, Escaped, HostLength, WithHost;
    hide SkipAuthority, Untabbed, NonFile;
    var s := input[cfg.cursor..];
    var a := AuthorityOf(s);
    RunsCredentials(input, base, cfg);
    assert "" + a == a;
    var next := AtHost(cfg, a, cfg.cursor + |a|);
    RunsHostTo(input, base, next);
    AfterAt(a);
    AuthorityTail(s, |a| - |AfterLastAt(a)|);
    assert input[next.cursor..] == s[|a| - |AfterLastAt(a)|..];
    CredentialsAre(UserText(a, ""), "");
    var h := AfterLastAt(a);
    NothingBefore(Escaped(BeforeColon(UserText(a, ""))), Untabbed(h[..HostLength(h, false)]));
  }

  lemma NothingBefore(a: string, b: string)
    ensures "" + a == a && "" + b == b
  {
  }

  lemma {:induction false} RunsSlashesTo(input: string, base: Option<Fields>, cfg: Config)
    requires WellFormed(input, cfg) && cfg.cursor <= |input| && cfg.buffer == "" && !cfg.seenAt && !cfg.seenBracket
    requires cfg.state in {AuthorityFirstSlash, AuthoritySecondSlash, AuthorityIgnoreSlashes}
    requires NonFile(cfg.f.scheme) && cfg.f == CLEARED.(scheme := cfg.f.scheme, isRelative := true)
    ensures RunsOn(input, base, cfg) == Some(AuthorityFields(cfg.f.scheme, SkipSlashes(input[cfg.cursor..])))
    decreases Rank(cfg.state), |input| - cfg.cursor
  {
    hide Run, AuthorityFields, NonFile;
    Progress(input, None, base, cfg);
    var next := OneStep(input, None, base, cfg).cfg;
    StepsOn(input, base, cfg, next);
    if next.state == Authority {
      RunsWholeAuthority(input, base, next);
    } else {
      assert next.cursor == cfg.cursor + 1 ==> input[cfg.cursor..][1..] == input[next.cursor..];
      RunsSlashesTo(input, base, next);
    }
  }

  // ---------------------------------------------------------------- references

  /** The text opens an authority: two slashes of either kind. */
  predicate OpensAuthority(s: string) {
    |s| > 1 && IsSlash(s[0]) && IsSlash(s[1])
  }

  /** What section 5.2.2 of RFC 3986 makes of a reference `s` without authority: scheme, authority and, when the reference
      has no path, path of the base; the query of the base when the reference has neither path nor query. */
  ghost predicate Resolves(r: Option<Fields>, b: Fields, s: string) {
    && r.Some?
    && r.value.scheme == b.scheme && r.value.schemeData == "" && r.value.isRelative && !r.value.isInvalid
    && r.value.username == b.username && r.value.password == b.password && r.value.host == b.host && r.value.port == b.port
    && r.value.path != [] && "/" + Glue(r.value.path, "/") == ReferencePath(b, s)
    && (s == "" || s[0] == '?' || s[0] == '#' ==> r.value.path == b.path)
    && r.value.query == (if s == "" || s[0] == '#' then b.query else QueryOf(s))
    && r.value.fragment == FragmentOf(s)
  }

  ghost predicate AtReference(input: string, b: Fields, cfg: Config) {
    && WellFormed(input, cfg) && cfg.state == Relative && cfg.cursor <= |input| && cfg.buffer == "" && Normal(b)
    && !cfg.seenAt && !cfg.seenBracket && (cfg.f == CLEARED || cfg.f == CLEARED.(scheme := b.scheme, isRelative := true))
  }

  lemma RelativeStepIs(input: string, b: Fields, cfg: Config)
    requires WellFormed(input, cfg) && Running(input, cfg) && cfg.state == Relative
    ensures OneStep(input, None, Some(b), cfg) == StepRelative(input, Some(b), cfg)
  {
    hide StepRelative;
  }

  lemma SamePathResolves(b: Fields, s: string, f: Fields)
    requires Normal(b) && (s == "" || s[0] == '?' || s[0] == '#')
    requires f == b.(query := if s == "" || s[0] == '#' then b.query else QueryOf(s), fragment := FragmentOf(s))
    ensures Resolves(Some(f), b, s)
  {
    hide QueryOf, FragmentOf;
    NormalHasNoSlash(b.path);
    PathTextIsJoin(b.path);
  }

  lemma BaseIs(f: Fields, b: Fields)
    requires Normal(b) && (f == CLEARED || f == CLEARED.(scheme := b.scheme, isRelative := true))
    ensures CopyAuthority(Based(f, b), b).(path := b.path) == b.(query := "", fragment := "")
  {
  }

  /** No path in the reference. */
  lemma ReferenceWithoutPath(input: string, b: Fields, cfg: Config)
    requires AtReference(input, b, cfg) && At(input, cfg.cursor) in [None, Some('?'), Some('#')]
    ensures Resolves(RunsOn(input, Some(b), cfg), b, input[cfg.cursor..])
  {
    hide Run, OneStep, StepRelative, RelativeRest, QueryChars, Untabbed, Resolves, CopyAuthority, Based;
    RelativeStep(input, b, cfg);
    RelativeStepIs(input, b, cfg);
    BaseIs(cfg.f, b);
    var c := At(input, cfg.cursor);
    var s := input[cfg.cursor..];
    if c.None? {
      NothingLeft(s);
      Breaks(input, Some(b), cfg, b.(fragment := ""));
      SamePathResolves(b, s, b.(fragment := ""));
    } else {
      Tail(input, cfg.cursor);
      if c == Some('?') {
        var next := cfg.(f := b.(query := "?", fragment := ""), state := Query, cursor := cfg.cursor + 1);
        StepsOn(input, Some(b), cfg, next);
        RunsQuery(input, Some(b), next);
        SamePathResolves(b, s, b.(query := QueryOf(s), fragment := FragmentOf(s)));
      } else {
        HashStep(s);
        var next := cfg.(f := b.(fragment := "#"), state := Fragment, cursor := cfg.cursor + 1);
        StepsOn(input, Some(b), cfg, next);
        RunsFragment(input, Some(b), next);
        SamePathResolves(b, s, b.(fragment := FragmentOf(s)));
      }
    }
  }

  lemma Breaks(input: string, base: Option<Fields>, cfg: Config, f: Fields)
    requires WellFormed(input, cfg) && Running(input, cfg) && OneStep(input, None, base, cfg) == Break(f)
    ensures RunsOn(input, base, cfg) == Some(f)
  {
  }

  /** A reference that starts with a segment. */
  lemma ReferenceFromSegment(input: string, b: Fields, cfg: Config)
    requires AtReference(input, b, cfg) && cfg.cursor < |input| && !IsEnd(input[cfg.cursor])
    ensures Resolves(RunsOn(input, Some(b), cfg), b, input[cfg.cursor..])
  {
    hide Run, OneStep, StepRelative, RelativeRest, QueryChars, Untabbed, QueryOf, FragmentOf, AddSegments, SplitPath, ReferencePath;
    RunsReference(input, b, cfg);
    RelativeStep(input, b, cfg);
    RelativeStepIs(input, b, cfg);
    var next := cfg.(f := CopyAuthority(Based(cfg.f, b), b).(path := DropLast(b.path)), state := RelativePath);
    StepsOn(input, Some(b), cfg, next);
    RunsRest(input, Some(b), next);
  }

  lemma SlashStepIs(input: string, b: Fields, cfg: Config)
    requires WellFormed(input, cfg) && Running(input, cfg) && cfg.state == RelativeSlash
    ensures OneStep(input, None, Some(b), cfg) == StepRelativeSlash(At(input, cfg.cursor), Some(b), cfg)
  {
    hide StepRelativeSlash;
  }

  /** A reference that starts with one slash. */
  lemma ReferenceFromSlash(input: string, b: Fields, cfg: Config)
    requires AtReference(input, b, cfg) && cfg.cursor < |input| && IsSlash(input[cfg.cursor]) && !SlashAt(At(input, cfg.cursor + 1))
    ensures Resolves(RunsOn(input, Some(b), cfg), b, input[cfg.cursor..])
  {
    hide Run, OneStep, StepRelative, RelativeRest, QueryChars, Untabbed, AddSegments, SplitPath, ReferencePath;
    RunsReference(input, b, cfg);
    RelativeStep(input, b, cfg);
    RelativeStepIs(input, b, cfg);
    var slash := cfg.(f := Based(cfg.f, b), state := RelativeSlash, cursor := cfg.cursor + 1);
    StepsOn(input, Some(b), cfg, slash);
    SlashStepIs(input, b, slash);
    var next := slash.(f := CopyAuthority(slash.f, b), state := RelativePath);
    StepsOn(input, Some(b), slash, next);
    RunsRest(input, Some(b), next);
    Tail(input, cfg.cursor);
  }

  /** A reference with an authority. */
  lemma ReferenceWithAuthority(input: string, b: Fields, cfg: Config)
    requires AtReference(input, b, cfg) && OpensAuthority(input[cfg.cursor..])
    ensures RunsOn(input, Some(b), cfg) == Some(AuthorityFields(b.scheme, SkipSlashes(input[cfg.cursor..])))
  {
    hide Run, OneStep, StepRelative, RelativeRest, AuthorityFields;
    RelativeStep(input, b, cfg);
    RelativeStepIs(input, b, cfg);
    var s := input[cfg.cursor..];
    Tail(input, cfg.cursor);
    Tail(input, cfg.cursor + 1);
    var slash := cfg.(f := Based(cfg.f, b), state := RelativeSlash, cursor := cfg.cursor + 1);
    StepsOn(input, Some(b), cfg, slash);
    SlashStepIs(input, b, slash);
    var next := slash.(state := AuthorityIgnoreSlashes, cursor := slash.cursor + 1);
    StepsOn(input, Some(b), slash, next);
    RunsSlashesTo(input, Some(b), next);
    assert SkipSlashes(s) == SkipSlashes(s[1..]) == SkipSlashes(s[1..][1..]);
  }

  /** From the relative state on. */
  lemma RunsReferenceTo(input: string, b: Fields, cfg: Config)
    requires AtReference(input, b, cfg)
    ensures var s := input[cfg.cursor..];
            if OpensAuthority(s) then RunsOn(input, Some(b), cfg) == Some(AuthorityFields(b.scheme, SkipSlashes(s)))
            else Resolves(RunsOn(input, Some(b), cfg), b, s)
  {
    hide Resolves, AuthorityFields, NonFile, Normal;
    var c := At(input, cfg.cursor);
    var s := input[cfg.cursor..];
    if c.None? || c == Some('?') || c == Some('#') {
      ReferenceWithoutPath(input, b, cfg);
    } else if !IsSlash(c.value) {
      ReferenceFromSegment(input, b, cfg);
    } else if OpensAuthority(s) {
      ReferenceWithAuthority(input, b, cfg);
    } else {
      assert |s| > 1 ==> s[1] == input[cfg.cursor + 1];
      ReferenceFromSlash(input, b, cfg);
    }
  }

  // ---------------------------------------------------------------- every text

  /** A text without a scheme, against a base in normal form. */
  lemma ReferenceComponents(input: string, b: Fields)
    requires Normal(b) && !HasScheme(input)
    ensures var r := Parse(input, None, Some(b), CLEARED);
            if OpensAuthority(input) then r == Some(AuthorityFields(b.scheme, SkipSlashes(input))) else Resolves(r, b, input)
  {
    hide Run, Resolves, AuthorityFields;
    RunsToRelative(input, b);
    RunsReferenceTo(input, b, Config(Relative, 0, "", false, false, CLEARED));
    assert input[0..] == input;
  }

  /** A text with a scheme whose URLs have an authority: an absolute URL, or a reference when the base has the same scheme
      and no two slashes follow. */
  lemma SchemeComponents(input: string, base: Option<Fields>, n: nat)
    requires SchemeIs(input, n) && NonFile(Lower(input[..n])) && BaseOk(base)
    ensures var s, scheme := input[n + 1..], Lower(input[..n]);
            var r := Parse(input, None, base, CLEARED);
            if base.Some? && base.value.scheme == scheme && !OpensAuthority(s) then Resolves(r, base.value, s)
            else r == Some(AuthorityFields(scheme, SkipSlashes(s)))
  {
    hide Run, Resolves, AuthorityFields, DefaultPort, Lower;
    var scheme := Lower(input[..n]);
    LowerNothing(input);
    RunsScheme(input, base, Config(SchemeStart, 0, "", false, false, CLEARED), n);
    ReadsColonOf(input, base, n, scheme);
    var cfg := AfterColon(n, scheme, base);
    if cfg.state == AuthorityFirstSlash {
      RunsSlashesTo(input, base, cfg);
    } else {
      SameSchemeComponents(input, base.value, cfg);
    }
  }

  lemma SameSchemeComponents(input: string, b: Fields, cfg: Config)
    requires WellFormed(input, cfg) && cfg.state == RelativeOrAuthority && cfg.cursor <= |input| && Normal(b) && cfg.buffer == ""
    requires !cfg.seenAt && !cfg.seenBracket && cfg.f == CLEARED.(scheme := b.scheme, isRelative := true)
    ensures var s := input[cfg.cursor..];
            if OpensAuthority(s) then RunsOn(input, Some(b), cfg) == Some(AuthorityFields(b.scheme, SkipSlashes(s)))
            else Resolves(RunsOn(input, Some(b), cfg), b, s)
  {
    hide Run, Resolves, AuthorityFields, NonFile;
    var s := input[cfg.cursor..];
    if At(input, cfg.cursor) == Some('/') && At(input, cfg.cursor + 1) == Some('/') {
      var next := cfg.(state := AuthorityIgnoreSlashes, cursor := cfg.cursor + 1);
      StepsOn(input, Some(b), cfg, next);
      RunsSlashesTo(input, Some(b), next);
      assert s[1..] == input[next.cursor..];
    } else {
      var next := cfg.(state := Relative);
      StepsOn(input, Some(b), cfg, next);
      RunsReferenceTo(input, b, next);
    }
  }
}
