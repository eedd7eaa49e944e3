/** What the URL parser makes of a text whose scheme has no authority, and of a file URL (webcomponents-lite.js:165-177,
    199-266, 326-343). */
module JUrlFile {
  import opened Options
  import opened Texts
  import opened JUrl
  import opened JUrlNormal
  import opened JUrlDots
  import opened JUrlThrows
  import opened JUrlResolve
  import opened JUrlSpec

  // ---------------------------------------------------------------- no authority

  lemma DataStepIs(input: string, base: Option<Fields>, cfg: Config)
    requires WellFormed(input, cfg) && Running(input, cfg) && cfg.state == SchemeData
    ensures OneStep(input, None, base, cfg) == StepSchemeData(At(input, cfg.cursor), cfg)
  {
    hide StepSchemeData;
  }

  lemma EscapedStep(front: string, s: string)
    requires s != "" && s[0] != '?' && s[0] != '#'
    ensures front + Escaped(BeforeQueryOf(s)) ==
            (if IsTabOrNewline(s[0]) then front else front + PercentEscape(s[0])) + Escaped(BeforeQueryOf(s[1..]))
    ensures FragmentOf(s) == FragmentOf(s[1..]) && FirstMark(s) == FirstMark(s[1..])
  {
    hide PercentEscape;
    BeforeQueryStep(s);
    Assoc(front, if IsTabOrNewline(s[0]) then "" else PercentEscape(s[0]), Escaped(BeforeQueryOf(s[1..])));
  }

  lemma {:induction false} RunsDataTo(input: string, base: Option<Fields>, cfg: Config)
    requires WellFormed(input, cfg) && cfg.state == SchemeData && cfg.cursor <= |input| && !cfg.f.isInvalid && cfg.f.fragment == ""
    ensures var s := input[cfg.cursor..];
            RunsOn(input, base, cfg) == if FirstMark(s) == Some('?') then None
              else Some(cfg.f.(schemeData := cfg.f.schemeData + Escaped(BeforeQueryOf(s)), fragment := FragmentOf(s)))
    decreases |input| - cfg.cursor
  {
    hide Run, OneStep, PercentEscape, Escaped, BeforeQueryOf, FragmentOf, Untabbed;
    DataStepIs(input, base, cfg);
    var s, c := input[cfg.cursor..], At(input, cfg.cursor);
    Assoc(cfg.f.schemeData, "", "");
    if c.None? {
      var next := cfg.(cursor := cfg.cursor + 1);
      StepsOn(input, base, cfg, next);
      RunPast(input, base, next);
      NoData(s);
    } else {
      Tail(input, cfg.cursor);
      if c == Some('?') {
        Throws_(input, base, cfg);
      } else if c == Some('#') {
        var next := cfg.(f := cfg.f.(fragment := "#"), state := Fragment, cursor := cfg.cursor + 1);
        StepsOn(input, base, cfg, next);
        RunsFragment(input, base, next);
        HashStep(s);
        NoData("");
      } else {
        var f := if IsTabOrNewline(c.value) then cfg.f else cfg.f.(schemeData := cfg.f.schemeData + PercentEscape(c.value));
        var next := cfg.(f := f, cursor := cfg.cursor + 1);
        StepsOn(input, base, cfg, next);
        RunsDataTo(input, base, next);
        EscapedStep(cfg.f.schemeData, s);
      }
    }
  }

  lemma NoData(s: string)
    requires s == ""
    ensures Escaped(BeforeQueryOf(s)) == "" && Escaped("") == "" && FragmentOf(s) == ""
  {
  }

  lemma Throws_(input: string, base: Option<Fields>, cfg: Config)
    requires WellFormed(input, cfg) && Running(input, cfg) && OneStep(input, None, base, cfg) == Throw
    ensures RunsOn(input, base, cfg) == None
  {
  }

  /** A scheme without authority: the rest of the text up to a hash is its data. */
  lemma OpaqueComponents(input: string, base: Option<Fields>, n: nat)
    requires SchemeIs(input, n) && !IsRelativeScheme(Lower(input[..n]))
    ensures var s := input[n + 1..];
            Parse(input, None, base, CLEARED) ==
            if FirstMark(s) == Some('?') then None
            else Some(CLEARED.(scheme := Lower(input[..n]), schemeData := Escaped(BeforeQueryOf(s)), fragment := FragmentOf(s)))
  {
    hide Run, DefaultPort, Lower, Escaped;
    var scheme := Lower(input[..n]);
    LowerNothing(input);
    FileIsRelative();
    RunsScheme(input, base, Config(SchemeStart, 0, "", false, false, CLEARED), n);
    ReadsColonOf(input, base, n, scheme);
    RunsDataTo(input, base, AfterColon(n, scheme, base));
    Assoc("", Escaped(BeforeQueryOf(input[n + 1..])), "");
    assert "" + Escaped(BeforeQueryOf(input[n + 1..])) == Escaped(BeforeQueryOf(input[n + 1..]));
  }

  // ---------------------------------------------------------------- file URLs

  predicate IsDriveLetter(h: string) {
    |h| == 2 && IsAlpha(h[0]) && (h[1] == ':' || h[1] == '|')
  }

  /** A file URL whose host is at the start of the text: a drive letter in its place is the first segment of the path. */
  function FileAt(f: Fields, host: string, rest: string): Fields {
    if IsDriveLetter(host) then WithRest(f, AddSegments("file", [], SplitPath(BeforeQueryOf(rest), host)), rest)
    else WithPath(if host == "" then f else f.(host := Lower(host)), rest)
  }

  ghost predicate IsFile(f: Fields) {
    f == CLEARED.(scheme := "file", isRelative := true)
  }

  lemma FileHostStepIs(input: string, base: Option<Fields>, cfg: Config)
    requires WellFormed(input, cfg) && Running(input, cfg) && cfg.state == FileHost
    ensures OneStep(input, None, base, cfg) == StepFileHost(At(input, cfg.cursor), cfg)
  {
    hide StepFileHost;
  }

  lemma FileHostEnds(input: string, base: Option<Fields>, cfg: Config)
    requires WellFormed(input, cfg) && cfg.state == FileHost && cfg.cursor <= |input| && IsFile(cfg.f) && EndsAt(At(input, cfg.cursor))
    ensures RunsOn(input, base, cfg) == Some(FileAt(cfg.f, cfg.buffer, input[cfg.cursor..]))
  {
    hide Run, OneStep, Lower, AddSegments, SplitPath, BeforeQueryOf, QueryOf, FragmentOf;
    FileHostStepIs(input, base, cfg);
    if IsDriveLetter(cfg.buffer) {
      var next := cfg.(state := RelativePath);
      StepsOn(input, base, cfg, next);
      RunsRest(input, base, next);
    } else if cfg.buffer == "" {
      var next := cfg.(state := RelativePathStart);
      StepsOn(input, base, cfg, next);
      RunsStart(input, base, next);
    } else {
      var next := cfg.(f := cfg.f.(host := Lower(cfg.buffer)), buffer := "", state := RelativePathStart);
      StepsOn(input, base, cfg, next);
      RunsStart(input, base, next);
    }
  }

  lemma {:induction false} RunsFileHost(input: string, base: Option<Fields>, cfg: Config)
    requires WellFormed(input, cfg) && cfg.state == FileHost && cfg.cursor <= |input| && IsFile(cfg.f)
    ensures var s := input[cfg.cursor..];
            RunsOn(input, base, cfg) == Some(FileAt(cfg.f, cfg.buffer + Untabbed(AuthorityOf(s)), SkipAuthority(s)))
    decreases |input| - cfg.cursor
  {
    hide Run, OneStep, FileAt, AuthorityOf, SkipAuthority, Untabbed;
    var s, c := input[cfg.cursor..], At(input, cfg.cursor);
    if EndsAt(c) {
      FileHostEnds(input, base, cfg);
      AuthorityEnds(input, cfg.cursor);
      NothingSkipped(s);
      Assoc(cfg.buffer, "", "");
    } else {
      FileHostStepIs(input, base, cfg);
      Tail(input, cfg.cursor);
      PortStep(cfg.buffer, s);
      var next := cfg.(cursor := cfg.cursor + 1, buffer := if IsTabOrNewline(c.value) then cfg.buffer else cfg.buffer + [c.value]);
      StepsOn(input, base, cfg, next);
      RunsFileHost(input, base, next);
    }
  }

  lemma NothingSkipped(s: string)
    requires s == "" || IsEnd(s[0])
    ensures SkipAuthority(s) == s && Untabbed("") == ""
  {
  }

  /** The file URL of a text after `file:`, or of a reference against a file URL; None is an exception. */
  function FileFields(base: Option<Fields>, s: string): Option<Fields> {
    var f := CLEARED.(scheme := "file", isRelative := true);
    if OpensAuthority(s) then Some(FileAt(f, Untabbed(AuthorityOf(s[2..])), SkipAuthority(s[2..])))
    else if s != "" && IsSlash(s[0]) then Some(WithRest(f, AddSegments("file", [], SplitPath(BeforeQueryOf(s[1..]), "")), s))
    else if DriveLetterAt(s, 0) then Some(WithRest(f, AddSegments("file", [], SplitPath(BeforeQueryOf(s), "")), s))
    else
      match base
      case None => None
      case Some(b) =>
        var g := f.(host := b.host, port := b.port, username := b.username, password := b.password);
        if s == "" || s[0] == '#' then Some(g.(path := b.path, query := b.query, fragment := FragmentOf(s)))
        else if s[0] == '?' then Some(g.(path := b.path, query := QueryOf(s), fragment := FragmentOf(s)))
        else Some(WithRest(g, AddSegments("file", DropLast(b.path), SplitPath(BeforeQueryOf(s), "")), s))
  }

  ghost predicate AtFile(input: string, base: Option<Fields>, cfg: Config) {
    && WellFormed(input, cfg) && cfg.state == Relative && cfg.cursor <= |input| && cfg.buffer == ""
    && (IsFile(cfg.f) || (cfg.f == CLEARED && base.Some? && base.value.scheme == "file"))
  }

  lemma FileStepIs(input: string, base: Option<Fields>, cfg: Config)
    requires AtFile(input, base, cfg)
    ensures OneStep(input, None, base, cfg) == RelativeRest(input, base, cfg.(f := CLEARED.(scheme := "file", isRelative := true)))
  {
    hide RelativeRest;
  }

  lemma FileSlash(input: string, base: Option<Fields>, cfg: Config)
    requires AtFile(input, base, cfg) && SlashAt(At(input, cfg.cursor))
    ensures RunsOn(input, base, cfg) == FileFields(base, input[cfg.cursor..])
  {
    hide Run, OneStep, FileAt, AuthorityOf, SkipAuthority, Untabbed, AddSegments, SplitPath, BeforeQueryOf, QueryChars;
    var s := input[cfg.cursor..];
    FileStepIs(input, base, cfg);
    Tail(input, cfg.cursor);
    var slash := cfg.(f := CLEARED.(scheme := "file", isRelative := true), state := RelativeSlash, cursor := cfg.cursor + 1);
    StepsOn(input, base, cfg, slash);
    FileSlashStepIs(input, base, slash);
    if SlashAt(At(input, slash.cursor)) {
      Tail(input, slash.cursor);
      var next := slash.(state := FileHost, cursor := slash.cursor + 1);
      StepsOn(input, base, slash, next);
      RunsFileHost(input, base, next);
      assert s[2..] == input[next.cursor..];
      Assoc("", Untabbed(AuthorityOf(s[2..])), "");
      assert "" + Untabbed(AuthorityOf(s[2..])) == Untabbed(AuthorityOf(s[2..]));
    } else {
      assert |s| > 1 ==> s[1] == input[slash.cursor];
      var next := slash.(state := RelativePath);
      StepsOn(input, base, slash, next);
      RunsRest(input, base, next);
    }
  }

  lemma FileSlashStepIs(input: string, base: Option<Fields>, cfg: Config)
    requires WellFormed(input, cfg) && Running(input, cfg) && cfg.state == RelativeSlash
    ensures OneStep(input, None, base, cfg) == StepRelativeSlash(At(input, cfg.cursor), base, cfg)
  {
    hide StepRelativeSlash;
  }

  lemma FileSegment(input: string, base: Option<Fields>, cfg: Config)
    requires AtFile(input, base, cfg) && cfg.cursor < |input| && !IsEnd(input[cfg.cursor])
    ensures RunsOn(input, base, cfg) == FileFields(base, input[cfg.cursor..])
  {
    hide Run, OneStep, AddSegments, SplitPath, BeforeQueryOf, QueryOf, FragmentOf;
    var s := input[cfg.cursor..];
    var f := CLEARED.(scheme := "file", isRelative := true);
    FileStepIs(input, base, cfg);
    Tail(input, cfg.cursor);
    DriveLetterIn(input, cfg.cursor);
    if DriveLetterAt(s, 0) {
      var next := cfg.(f := f, state := RelativePath);
      StepsOn(input, base, cfg, next);
      RunsRest(input, base, next);
    } else if base.None? {
      Throws_(input, base, cfg);
    } else {
      var next := cfg.(f := CopyAuthority(f, base.value).(path := DropLast(base.value.path)), state := RelativePath);
      StepsOn(input, base, cfg, next);
      RunsRest(input, base, next);
    }
  }

  lemma FileQuery(input: string, base: Option<Fields>, cfg: Config)
    requires AtFile(input, base, cfg) && base.Some? && At(input, cfg.cursor) == Some('?')
    ensures RunsOn(input, base, cfg) == FileFields(base, input[cfg.cursor..])
  {
    hide Run, OneStep, AddSegments, SplitPath, BeforeQueryOf, QueryChars, Untabbed, DriveLetterAt;
    var f := CopyAuthority(CLEARED.(scheme := "file", isRelative := true), base.value);
    FileStepIs(input, base, cfg);
    Tail(input, cfg.cursor);
    var next := cfg.(f := f.(path := base.value.path, query := "?"), state := Query, cursor := cfg.cursor + 1);
    StepsOn(input, base, cfg, next);
    RunsQuery(input, base, next);
    NoDrive(input[cfg.cursor..]);
  }

  lemma FileFragment(input: string, base: Option<Fields>, cfg: Config)
    requires AtFile(input, base, cfg) && base.Some? && At(input, cfg.cursor) == Some('#')
    ensures RunsOn(input, base, cfg) == FileFields(base, input[cfg.cursor..])
  {
    hide Run, OneStep, AddSegments, SplitPath, BeforeQueryOf, QueryChars, Untabbed, DriveLetterAt;
    var f := CopyAuthority(CLEARED.(scheme := "file", isRelative := true), base.value);
    FileStepIs(input, base, cfg);
    Tail(input, cfg.cursor);
    var next := cfg.(f := f.(path := base.value.path, query := base.value.query, fragment := "#"), state := Fragment, cursor := cfg.cursor + 1);
    StepsOn(input, base, cfg, next);
    RunsFragment(input, base, next);
    NoDrive(input[cfg.cursor..]);
  }

  lemma NoDrive(s: string)
    requires s == "" || IsEnd(s[0])
    ensures !DriveLetterAt(s, 0)
  {
  }

  lemma FileWithoutPath(input: string, base: Option<Fields>, cfg: Config)
    requires AtFile(input, base, cfg) && At(input, cfg.cursor) in [None, Some('?'), Some('#')]
    ensures RunsOn(input, base, cfg) == FileFields(base, input[cfg.cursor..])
  {
    hide Run, OneStep, AddSegments, SplitPath, BeforeQueryOf, QueryChars, Untabbed, DriveLetterAt;
    var s := input[cfg.cursor..];
    NoDrive(s);
    if base.None? {
      FileStepIs(input, base, cfg);
      Throws_(input, base, cfg);
    } else if At(input, cfg.cursor) == Some('?') {
      FileQuery(input, base, cfg);
    } else if At(input, cfg.cursor) == Some('#') {
      FileFragment(input, base, cfg);
    } else {
      FileStepIs(input, base, cfg);
      var f := CopyAuthority(CLEARED.(scheme := "file", isRelative := true), base.value);
      NothingLeft(s);
      Breaks(input, base, cfg, f.(path := base.value.path, query := base.value.query));
    }
  }

  lemma RunsFile(input: string, base: Option<Fields>, cfg: Config)
    requires AtFile(input, base, cfg)
    ensures RunsOn(input, base, cfg) == FileFields(base, input[cfg.cursor..])
  {
    hide FileFields, IsFile;
    var c := At(input, cfg.cursor);
    if SlashAt(c) {
      FileSlash(input, base, cfg);
    } else if c.Some? && !IsEnd(c.value) {
      FileSegment(input, base, cfg);
    } else {
      FileWithoutPath(input, base, cfg);
    }
  }

  /** A file URL, with a base or without, every field of it. */
  lemma FileComponents(input: string, base: Option<Fields>, n: nat)
    requires SchemeIs(input, n) && Lower(input[..n]) == "file"
    ensures Parse(input, None, base, CLEARED) == FileFields(base, input[n + 1..])
  {
    hide Run, DefaultPort, Lower, FileFields;
    LowerNothing(input);
    FileIsRelative();
    RunsScheme(input, base, Config(SchemeStart, 0, "", false, false, CLEARED), n);
    ReadsColonOf(input, base, n, "file");
    RunsFile(input, base, AfterColon(n, "file", base));
  }

  /** A text without a scheme: against a file URL, and where there is nothing to resolve it against. */
  lemma SchemelessComponents(input: string, base: Option<Fields>)
    requires !HasScheme(input) && (base.None? || !NonFile(base.value.scheme))
    ensures Parse(input, None, base, CLEARED) ==
            if base.Some? && base.value.scheme == "file" then FileFields(base, input) else Some(INVALID)
  {
    hide Run, DefaultPort, FileFields;
    FileIsRelative();
    var cfg := Config(NoScheme, 0, "", false, false, CLEARED);
    RunsNoScheme(input, base, Config(SchemeStart, 0, "", false, false, CLEARED));
    if base.Some? && base.value.scheme == "file" {
      StepsOn(input, base, cfg, cfg.(state := Relative));
      RunsFile(input, base, cfg.(state := Relative));
      assert input[0..] == input;
    } else {
      var next := cfg.(f := INVALID, cursor := 1);
      StepsOn(input, base, cfg, next);
      RunsInvalid(input, base, next);
    }
  }

  /** The path of a file URL is that of any other, but for a drive letter at its start, whose bar becomes a colon. */
  lemma FileSegmentIs(path: seq<string>, buffer: string, slash: bool)
    ensures AddSegment("file", path, buffer, slash) ==
            if path == [] && |buffer| == 2 && IsAlpha(buffer[0]) && buffer[1] == '|' then [[buffer[0], ':']]
            else AddSegment("http", path, buffer, slash)
  {
    hide DotMapping;
    ShortMapping(buffer);
  }

  lemma ShortMapping(buffer: string)
    ensures DotMapping(buffer) == buffer || DotMapping(buffer) == "." || DotMapping(buffer) == ".."
    ensures |buffer| == 2 && IsAlpha(buffer[0]) ==> DotMapping(buffer) == buffer && buffer != ".."
  {
    if |buffer| == 2 {
      assert Lower(buffer[1..][1..]) == "";
      assert |Lower(buffer[1..])| == 1;
      assert |Lower(buffer)| == 2;
    }
  }

  // ---------------------------------------------------------------- dots

  /** A percent-encoded dot, in either case of its letter. */
  predicate IsDotCode(s: string) {
    |s| == 3 && s[0] == '%' && s[1] == '2' && (s[2] == 'e' || s[2] == 'E')
  }

  /** The text with each percent-encoded dot written as a dot. */
  function Dotted(s: string): string {
    if |s| >= 3 && IsDotCode(s[..3]) then "." + Dotted(s[3..]) else if s == "" then "" else [s[0]] + Dotted(s[1..])
  }

  lemma DottedOne(s: string)
    ensures Dotted(s) == "" <==> s == ""
    ensures Dotted(s) == "." <==> s == "." || IsDotCode(s)
  {
    assert |s| == 3 ==> s[..3] == s;
    if |s| >= 3 && IsDotCode(s[..3]) {
      DottedNone(s[3..]);
    } else if s != "" {
      DottedNone(s[1..]);
      assert s == [s[0]] + s[1..];
    }
  }

  lemma DottedNone(s: string)
    ensures Dotted(s) == "" <==> s == ""
  {
  }

  lemma TwoDots(c: char, s: string)
    ensures [c] + s == ".." <==> c == '.' && s == "."
  {
    var two := "..";
    assert ([c] + s)[1..] == s && ([c] + s)[0] == c;
    assert two[1..] == "." && two[0] == '.' && two == [two[0]] + two[1..];
  }

  lemma DottedTwo(s: string)
    ensures Dotted(s) == ".." <==>
              || s == ".."
              || (|s| == 4 && ((s[0] == '.' && IsDotCode(s[1..])) || (IsDotCode(s[..3]) && s[3] == '.')))
              || (|s| == 6 && IsDotCode(s[..3]) && IsDotCode(s[3..]))
  {
    if |s| >= 3 && IsDotCode(s[..3]) {
      DottedOne(s[3..]);
      TwoDots('.', Dotted(s[3..]));
      assert s[3..] == "." <==> |s| == 4 && s[3] == '.';
    } else if s != "" {
      DottedOne(s[1..]);
      TwoDots(s[0], Dotted(s[1..]));
      TwoDots(s[0], s[1..]);
      assert s == [s[0]] + s[1..];
    }
  }

  lemma {:induction false} LowerAt(s: string, k: nat)
    requires k < |s|
    ensures |Lower(s)| == |s| && Lower(s)[k] == LowerChar(s[k])
    decreases k
  {
    LowerSize(s);
    if k > 0 {
      LowerAt(s[1..], k - 1);
    }
  }

  lemma {:induction false} LowerSize(s: string)
    ensures |Lower(s)| == |s|
  {
    if s != "" {
      LowerSize(s[1..]);
    }
  }

  lemma LowerIs(s: string, t: string)
    ensures Lower(s) == t <==> |s| == |t| && forall k :: 0 <= k < |s| ==> LowerChar(s[k]) == t[k]
  {
    hide Lower, LowerChar;
    LowerSize(s);
    forall k | 0 <= k < |s|
      ensures Lower(s)[k] == LowerChar(s[k])
    {
      LowerAt(s, k);
    }
  }

  lemma LowerMarks(c: char)
    ensures LowerChar(c) == '%' <==> c == '%'
    ensures LowerChar(c) == '2' <==> c == '2'
    ensures LowerChar(c) == '.' <==> c == '.'
    ensures LowerChar(c) == 'e' <==> c == 'e' || c == 'E'
  {
  }

  lemma AllMarks()
    ensures forall c :: LowerChar(c) == '%' <==> c == '%'
    ensures forall c :: LowerChar(c) == '2' <==> c == '2'
    ensures forall c :: LowerChar(c) == '.' <==> c == '.'
    ensures forall c :: LowerChar(c) == 'e' <==> c == 'e' || c == 'E'
  {
    forall c: char
      ensures LowerChar(c) == '%' <==> c == '%'
      ensures LowerChar(c) == '2' <==> c == '2'
      ensures LowerChar(c) == '.' <==> c == '.'
      ensures LowerChar(c) == 'e' <==> c == 'e' || c == 'E'
    {
      LowerMarks(c);
    }
  }

  lemma LowerCodes(s: string)
    ensures Lower(s) == "%2e" <==> IsDotCode(s)
    ensures Lower(s) == ".%2e" <==> |s| == 4 && s[0] == '.' && IsDotCode(s[1..])
    ensures Lower(s) == "%2e." <==> |s| == 4 && IsDotCode(s[..3]) && s[3] == '.'
  {
    hide Lower, LowerChar;
    AllMarks();
    LowerIs(s, "%2e");
    LowerIs(s, ".%2e");
    LowerIs(s, "%2e.");
  }

  lemma LowerTwoCodes(s: string)
    ensures Lower(s) == "%2e%2e" <==> |s| == 6 && IsDotCode(s[..3]) && IsDotCode(s[3..])
  {
    hide Lower, LowerChar;
    AllMarks();
    LowerIs(s, "%2e%2e");
  }

  /** A segment is taken for a dot segment if and only if its dots, decoded, are one or two and nothing else. */
  lemma DotMappingIs(s: string)
    ensures DotMapping(s) == if Dotted(s) == "." || Dotted(s) == ".." then Dotted(s) else s
  {
    hide Lower, Dotted, IsDotCode;
    LowerCodes(s);
    LowerTwoCodes(s);
    DottedOne(s);
    DottedTwo(s);
  }

  // ---------------------------------------------------------------- escapes

  /** The bytes that a text of percent-encodings stands for, when it is one. */
  function Bytes(s: string): Option<seq<nat>> {
    if s == "" then Some([])
    else if |s| < 3 || s[0] != '%' || HexOf(s[1]).None? || HexOf(s[2]).None? then None
    else
      match Bytes(s[3..])
      case None => None
      case Some(more) => Some([16 * HexOf(s[1]).value + HexOf(s[2]).value] + more)
  }

  function HexOf(c: char): Option<nat> {
    if '0' <= c <= '9' then Some(c as nat - '0' as nat) else if 'A' <= c <= 'F' then Some(c as nat - 'A' as nat + 10) else None
  }

  predicate Trails(n: nat) {
    0x80 <= n < 0xC0
  }

  /** The code point of the bytes of one character in UTF-8 (section 3 of RFC 3629). */
  function CodePoint(b: seq<nat>): Option<nat> {
    if |b| == 1 && b[0] < 0x80 then Some(b[0])
    else if |b| == 2 && 0xC0 <= b[0] < 0xE0 && Trails(b[1]) then Some((b[0] - 0xC0) * 0x40 + (b[1] - 0x80))
    else if |b| == 3 && 0xE0 <= b[0] < 0xF0 && Trails(b[1]) && Trails(b[2]) then
      Some(((b[0] - 0xE0) * 0x40 + (b[1] - 0x80)) * 0x40 + (b[2] - 0x80))
    else if |b| == 4 && 0xF0 <= b[0] < 0xF8 && Trails(b[1]) && Trails(b[2]) && Trails(b[3]) then
      Some((((b[0] - 0xF0) * 0x40 + (b[1] - 0x80)) * 0x40 + (b[2] - 0x80)) * 0x40 + (b[3] - 0x80))
    else None
  }

  lemma ByteReads(n: nat, rest: string)
    requires n < 256
    ensures Bytes(PercentByte(n) + rest) == match Bytes(rest) case None => None case Some(more) => Some([n] + more)
  {
    assert (PercentByte(n) + rest)[3..] == rest;
    HexReads(n / 16);
    HexReads(n % 16);
  }

  lemma HexReads(n: nat)
    requires n < 16
    ensures HexOf(HexDigit(n)) == Some(n)
  {
  }

  /** In a path, a user name or a password, a printable character of ASCII stands for itself, but for six; any other is written
      as the percent-encoded bytes of its UTF-8 form. In a query the question mark stands for itself too. */
  lemma EscapesAre(c: char)
    ensures var plain := '!' <= c <= '~' && c !in "\"#<>?`";
            if plain then PercentEscape(c) == [c]
            else var b := Bytes(PercentEscape(c)); b.Some? && CodePoint(b.value) == Some(c as nat)
    ensures PercentEscapeQuery(c) == if c == '?' then "?" else PercentEscape(c)
  {
    hide EncodeComponent, Bytes, CodePoint;
    EscapeIsUtf8(c);
  }

  /** What is escaped is written as the percent-encoded bytes of its UTF-8 form. */
  lemma EscapeIsUtf8(c: char)
    ensures var b := Bytes(EncodeComponent(c)); b.Some? && CodePoint(b.value) == Some(c as nat)
  {
    hide PercentByte, HexOf, Bytes, CodePoint;
    var n := c as nat;
    CodePoints(n);
    if n < 0x80 {
      One(n);
    } else if n < 0x800 {
      Two(0xC0 + n / 0x40, 0x80 + n % 0x40);
    } else if n < 0x1_0000 {
      Three(0xE0 + n / 0x1000, 0x80 + n / 0x40 % 0x40, 0x80 + n % 0x40);
    } else {
      Four(0xF0 + n / 0x4_0000, 0x80 + n / 0x1000 % 0x40, 0x80 + n / 0x40 % 0x40, 0x80 + n % 0x40);
    }
  }

  lemma CodePoints(n: nat)
    requires n < 0x11_0000
    ensures n < 0x80 ==> CodePoint([n]) == Some(n)
    ensures 0x80 <= n < 0x800 ==> 0xC0 + n / 0x40 < 256 && CodePoint([0xC0 + n / 0x40, 0x80 + n % 0x40]) == Some(n)
    ensures 0x800 <= n < 0x1_0000 ==>
              0xE0 + n / 0x1000 < 256 && CodePoint([0xE0 + n / 0x1000, 0x80 + n / 0x40 % 0x40, 0x80 + n % 0x40]) == Some(n)
    ensures 0x1_0000 <= n ==>
              && 0xF0 + n / 0x4_0000 < 256
              && CodePoint([0xF0 + n / 0x4_0000, 0x80 + n / 0x1000 % 0x40, 0x80 + n / 0x40 % 0x40, 0x80 + n % 0x40]) == Some(n)
  {
    var a := n / 0x40;
    var b := a / 0x40;
    assert n / 0x1000 == b && n / 0x4_0000 == b / 0x40;
    assert n == a * 0x40 + n % 0x40 && a == b * 0x40 + a % 0x40 && b == b / 0x40 * 0x40 + b % 0x40;
  }

  lemma One(a: nat)
    requires a < 256
    ensures Bytes(PercentByte(a)) == Some([a])
  {
    hide PercentByte;
    ByteReads(a, "");
    assert PercentByte(a) + "" == PercentByte(a) && Bytes("") == Some([]);
    assert [a] + [] == [a];
  }

  lemma Two(a: nat, b: nat)
    requires a < 256 && b < 256
    ensures Bytes(PercentByte(a) + PercentByte(b)) == Some([a, b])
  {
    hide PercentByte;
    ByteReads(b, "");
    ByteReads(a, PercentByte(b) + "");
    assert PercentByte(a) + (PercentByte(b) + "") == PercentByte(a) + PercentByte(b);
    assert Bytes("") == Some([]);
    assert [a] + ([b] + []) == [a, b];
  }

  lemma Three(a: nat, b: nat, c: nat)
    requires a < 256 && b < 256 && c < 256
    ensures Bytes(PercentByte(a) + PercentByte(b) + PercentByte(c)) == Some([a, b, c])
  {
    hide PercentByte, Bytes;
    Two(b, c);
    ByteReads(a, PercentByte(b) + PercentByte(c));
    assert PercentByte(a) + (PercentByte(b) + PercentByte(c)) == PercentByte(a) + PercentByte(b) + PercentByte(c);
    assert [a] + [b, c] == [a, b, c];
  }

  lemma Four(a: nat, b: nat, c: nat, d: nat)
    requires a < 256 && b < 256 && c < 256 && d < 256
    ensures Bytes(PercentByte(a) + PercentByte(b) + PercentByte(c) + PercentByte(d)) == Some([a, b, c, d])
  {
    hide PercentByte, Bytes;
    Three(b, c, d);
    ByteReads(a, PercentByte(b) + PercentByte(c) + PercentByte(d));
    assert PercentByte(a) + (PercentByte(b) + PercentByte(c) + PercentByte(d))
           == PercentByte(a) + PercentByte(b) + PercentByte(c) + PercentByte(d);
    assert [a] + [b, c, d] == [a, b, c, d];
  }

  // ---------------------------------------------------------------- the trimmed text

  ghost predicate AllTrimmed(s: string) {
    forall k :: 0 <= k < |s| ==> s[k] in " \t\r\n\U{0C}"
  }

  lemma TrimmedIs(c: char)
    ensures IsTrimmed(c) <==> c in " \t\r\n\U{0C}"
  {
    var t := " \t\r\n\U{0C}";
    assert t[0] == ' ' && t[1] == '\t' && t[2] == '\r' && t[3] == '\n' && t[4] == '\U{0C}';
  }

  lemma TrimmedAdded(s: string, c: char)
    requires AllTrimmed(s) && IsTrimmed(c)
    ensures AllTrimmed([c] + s) && AllTrimmed(s + [c])
  {
    TrimmedIs(c);
  }

  lemma {:induction false} LeftTrimmed(s: string) returns (a: string)
    ensures s == a + TrimLeft(s) && AllTrimmed(a)
    ensures TrimLeft(s) != "" ==> !IsTrimmed(TrimLeft(s)[0])
  {
    hide IsTrimmed, AllTrimmed;
    a := "";
    NothingTrimmed();
    if s != "" && IsTrimmed(s[0]) {
      var rest := LeftTrimmed(s[1..]);
      a := [s[0]] + rest;
      TrimmedAdded(rest, s[0]);
      assert s == [s[0]] + s[1..];
    }
  }

  lemma NothingTrimmed()
    ensures AllTrimmed("")
  {
  }

  lemma {:induction false} RightTrimmed(s: string) returns (b: string)
    ensures s == TrimRight(s) + b && AllTrimmed(b)
    ensures TrimRight(s) != "" ==> !IsTrimmed(TrimRight(s)[|TrimRight(s)| - 1])
    decreases |s|
  {
    hide IsTrimmed, AllTrimmed;
    b := "";
    NothingTrimmed();
    if s != "" && IsTrimmed(s[|s| - 1]) {
      var rest := RightTrimmed(s[..|s| - 1]);
      b := rest + [s[|s| - 1]];
      TrimmedAdded(rest, s[|s| - 1]);
      assert s == s[..|s| - 1] + [s[|s| - 1]];
    }
  }

  /** The text that is parsed is the given text without the white space at its ends. */
  lemma TrimIs(url: string)
    ensures exists a, b :: url == a + TrimRight(TrimLeft(url)) + b && AllTrimmed(a) && AllTrimmed(b)
    ensures var t := TrimRight(TrimLeft(url));
            t != "" ==> t[0] !in " \t\r\n\U{0C}" && t[|t| - 1] !in " \t\r\n\U{0C}"
  {
    var a := LeftTrimmed(url);
    var b := RightTrimmed(TrimLeft(url));
    var t := TrimRight(TrimLeft(url));
    assert url == a + t + b;
    if t != "" {
      TrimmedIs(t[0]);
      TrimmedIs(t[|t| - 1]);
    }
    assert TrimRight(TrimLeft(url)) != "" ==> TrimLeft(url)[0] == TrimRight(TrimLeft(url))[0];
  }

  // ---------------------------------------------------------------- every text, every base

  /** What a text and a base make of a URL: all its fields, whatever the scheme. A base with an authority is in normal form,
      as every URL is that was parsed. */
  ghost predicate Made(r: Option<Fields>, input: string, base: Option<Fields>) {
    && (!HasScheme(input) && base.Some? && NonFile(base.value.scheme) && Normal(base.value) ==>
          if OpensAuthority(input) then r == Some(AuthorityFields(base.value.scheme, SkipSlashes(input)))
          else Resolves(r, base.value, input))
    && (!HasScheme(input) && !(base.Some? && NonFile(base.value.scheme)) ==>
          r == if base.Some? && base.value.scheme == "file" then FileFields(base, input) else Some(INVALID))
    && forall n: nat :: SchemeIs(input, n) ==> MadeOf(r, Lower(input[..n]), input[n + 1..], base)
  }

  /** The same of a text with a scheme. */
  ghost predicate MadeOf(r: Option<Fields>, scheme: string, s: string, base: Option<Fields>) {
    if scheme == "file" then r == FileFields(base, s)
    else if !NonFile(scheme) then
      r == if FirstMark(s) == Some('?') then None
           else Some(CLEARED.(scheme := scheme, schemeData := Escaped(BeforeQueryOf(s)), fragment := FragmentOf(s)))
    else BaseOk(base) ==>
      if base.Some? && base.value.scheme == scheme && !OpensAuthority(s) then Resolves(r, base.value, s)
      else r == Some(AuthorityFields(scheme, SkipSlashes(s)))
  }

  lemma ParseMakes(input: string, base: Option<Fields>)
    ensures Made(Parse(input, None, base, CLEARED), input, base)
  {
    hide Parse, Resolves, AuthorityFields, FileFields, DefaultPort, Lower, Normal;
    FileIsRelative();
    if !HasScheme(input) {
      if base.Some? && NonFile(base.value.scheme) && Normal(base.value) {
        ReferenceComponents(input, base.value);
      }
      if !(base.Some? && NonFile(base.value.scheme)) {
        SchemelessComponents(input, base);
      }
    }
    forall n: nat | SchemeIs(input, n)
      ensures MadeOf(Parse(input, None, base, CLEARED), Lower(input[..n]), input[n + 1..], base)
    {
      var scheme := Lower(input[..n]);
      if scheme == "file" {
        FileComponents(input, base, n);
      } else if !NonFile(scheme) {
        OpaqueComponents(input, base, n);
      } else if BaseOk(base) {
        SchemeComponents(input, base, n);
      }
    }
  }
}
