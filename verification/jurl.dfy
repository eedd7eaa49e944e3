/** The URL parser jURL of webcomponents-lite.js (lines 68-490), as a state machine on values.

    Strings are sequences of Unicode characters; lower-casing changes ASCII letters only. */
module JUrl {
  import opened Options
  import opened Texts

  datatype State =
    | SchemeStart
    | Scheme
    | SchemeData
    | NoScheme
    | RelativeOrAuthority
    | Relative
    | RelativeSlash
    | AuthorityFirstSlash
    | AuthoritySecondSlash
    | AuthorityIgnoreSlashes
    | Authority
    | FileHost
    | Host
    | Hostname
    | Port
    | RelativePathStart
    | RelativePath
    | Query
    | Fragment

  /** The fields of a URL object. */
  datatype Fields = Fields(
    scheme: string, schemeData: string, username: string, password: Option<string>, host: string, port: string,
    path: seq<string>, query: string, fragment: string, isInvalid: bool, isRelative: bool)

  const CLEARED := Fields("", "", "", None, "", "", [], "", "", false, false)

  const INVALID := CLEARED.(isInvalid := true)

  // ---------------------------------------------------------------- characters

  predicate IsSchemeChar(c: char) {
    IsAlpha(c) || IsDigit(c) || c == '+' || c == '-' || c == '.'
  }

  predicate IsSlash(c: char) {
    c == '/' || c == '\\'
  }

  /** The characters that end an authority, a host or a port. */
  predicate IsEnd(c: char) {
    IsSlash(c) || c == '?' || c == '#'
  }

  predicate IsTabOrNewline(c: char) {
    c == '\t' || c == '\n' || c == '\r'
  }

  function LowerChar(c: char): char {
    if 'A' <= c <= 'Z' then ((c as int) + 32) as char else c
  }

  function Lower(s: string): string {
    if s == [] then [] else [LowerChar(s[0])] + Lower(s[1..])
  }

  function PercentByte(n: nat): string
    requires n < 256
  {
    ['%', HexDigit(n / 16), HexDigit(n % 16)]
  }

  /** encodeURIComponent of one character that it does not leave alone: its UTF-8 bytes. */
  function EncodeComponent(c: char): string {
    var n := c as nat;
    if n < 0x80 then PercentByte(n)
    else if n < 0x800 then PercentByte(0xC0 + n / 0x40) + PercentByte(0x80 + n % 0x40)
    else if n < 0x1_0000 then
      PercentByte(0xE0 + n / 0x1000) + PercentByte(0x80 + n / 0x40 % 0x40) + PercentByte(0x80 + n % 0x40)
    else
      PercentByte(0xF0 + n / 0x4_0000) + PercentByte(0x80 + n / 0x1000 % 0x40)
      + PercentByte(0x80 + n / 0x40 % 0x40) + PercentByte(0x80 + n % 0x40)
  }

  /** Characters that percentEscapeQuery leaves alone. */
  predicate QuerySafe(c: char) {
    ' ' < c < '\U{7F}' && c != '\"' && c != '#' && c != '<' && c != '>' && c != '`'
  }

  /** Characters that percentEscape leaves alone. */
  predicate EscapeSafe(c: char) {
    QuerySafe(c) && c != '?'
  }

  function PercentEscape(c: char): string {
    if EscapeSafe(c) then [c] else EncodeComponent(c)
  }

  function PercentEscapeQuery(c: char): string {
    if QuerySafe(c) then [c] else EncodeComponent(c)
  }

  /** The default port of a scheme whose URLs have an authority; other schemes have none. */
  function DefaultPort(scheme: string): Option<nat> {
    if scheme == "ftp" then Some(21)
    else if scheme == "file" then Some(0)
    else if scheme == "gopher" then Some(70)
    else if scheme == "http" then Some(80)
    else if scheme == "https" then Some(443)
    else if scheme == "ws" then Some(80)
    else if scheme == "wss" then Some(443)
    else None
  }

  predicate IsRelativeScheme(scheme: string) {
    DefaultPort(scheme).Some?
  }

  /** Dot segments, some of them percent-encoded. */
  function DotMapping(segment: string): string {
    var s := Lower(segment);
    if s == "%2e" then "."
    else if s == ".%2e" || s == "%2e." || s == "%2e%2e" then ".."
    else segment
  }

  function ParseInt(digits: string): nat
    requires forall i :: 0 <= i < |digits| ==> IsDigit(digits[i])
  {
    if digits == [] then 0
    else
      assert IsDigit(digits[|digits| - 1]);
      10 * ParseInt(digits[..|digits| - 1]) + (digits[|digits| - 1] as nat - '0' as nat)
  }

  function ToDecimal(n: nat): string {
    if n < 10 then [('0' as nat + n) as char] else ToDecimal(n / 10) + [('0' as nat + n % 10) as char]
  }

  // ---------------------------------------------------------------- the machine

  /** The local variables of the parser and the fields of the object. */
  datatype Config = Config(state: State, cursor: nat, buffer: string, seenAt: bool, seenBracket: bool, f: Fields)

  /** One round of the loop: go on, leave the loop, or fail with an exception. */
  datatype Step = Go(cfg: Config) | Break(f: Fields) | Throw

  function At(input: string, i: nat): Option<char> {
    if i < |input| then Some(input[i]) else None
  }

  predicate EndsAt(c: Option<char>) {
    c.None? || IsEnd(c.value)
  }

  predicate SlashAt(c: Option<char>) {
    c.Some? && IsSlash(c.value)
  }

  /** The end of a round: the cursor moves by one. */
  function Advance(cfg: Config): Step {
    Go(cfg.(cursor := cfg.cursor + 1))
  }

  function StepSchemeStart(c: Option<char>, ov: Option<State>, cfg: Config): Step {
    if c.Some? && IsAlpha(c.value) then Advance(cfg.(buffer := cfg.buffer + [LowerChar(c.value)], state := Scheme))
    else if ov.None? then Go(cfg.(buffer := "", state := NoScheme))
    else Break(cfg.f)
  }

  function StepScheme(c: Option<char>, ov: Option<State>, base: Option<Fields>, cfg: Config): Step {
    if c.Some? && IsSchemeChar(c.value) then Advance(cfg.(buffer := cfg.buffer + [LowerChar(c.value)]))
    else if c == Some(':') then
      var f := cfg.f.(scheme := cfg.buffer);
      if ov.Some? then Break(f)
      else
        var f' := if IsRelativeScheme(f.scheme) then f.(isRelative := true) else f;
        var next := if f'.scheme == "file" then Relative
                    else if f'.isRelative && base.Some? && base.value.scheme == f'.scheme then RelativeOrAuthority
                    else if f'.isRelative then AuthorityFirstSlash
                    else SchemeData;
        Advance(cfg.(f := f', buffer := "", state := next))
    else if ov.None? then Go(cfg.(buffer := "", cursor := 0, state := NoScheme))
    else Break(cfg.f)
  }

  /** A question mark here assigns an undeclared variable in strict mode. */
  function StepSchemeData(c: Option<char>, cfg: Config): Step {
    if c == Some('?') then Throw
    else if c == Some('#') then Advance(cfg.(f := cfg.f.(fragment := "#"), state := Fragment))
    else if c.Some? && !IsTabOrNewline(c.value) then
      Advance(cfg.(f := cfg.f.(schemeData := cfg.f.schemeData + PercentEscape(c.value))))
    else Advance(cfg)
  }

  function StepNoScheme(base: Option<Fields>, cfg: Config): Step {
    if base.None? || !IsRelativeScheme(base.value.scheme) then Advance(cfg.(f := INVALID))
    else Go(cfg.(state := Relative))
  }

  function StepRelativeOrAuthority(c: Option<char>, next: Option<char>, cfg: Config): Step {
    if c == Some('/') && next == Some('/') then Advance(cfg.(state := AuthorityIgnoreSlashes))
    else Go(cfg.(state := Relative))
  }

  function CopyAuthority(f: Fields, b: Fields): Fields {
    f.(host := b.host, port := b.port, username := b.username, password := b.password)
  }

  /** A Windows drive letter at the cursor of a file URL. */
  predicate DriveLetterAt(input: string, i: nat) {
    && At(input, i).Some? && IsAlpha(input[i])
    && (At(input, i + 1) == Some(':') || At(input, i + 1) == Some('|'))
    && EndsAt(At(input, i + 2))
  }

  function DropLast(path: seq<string>): seq<string> {
    if path == [] then [] else path[..|path| - 1]
  }

  /** Every branch that reads the base fails with an exception when there is none. */
  function StepRelative(input: string, base: Option<Fields>, cfg: Config): Step {
    var f := cfg.f.(isRelative := true);
    if f.scheme == "file" then RelativeRest(input, base, cfg.(f := f))
    else if base.None? then Throw
    else RelativeRest(input, base, cfg.(f := f.(scheme := base.value.scheme)))
  }

  /** The relative state once the scheme is that of the base. */
  function RelativeRest(input: string, base: Option<Fields>, cfg: Config): Step {
    var c := At(input, cfg.cursor);
    if c.Some? && IsSlash(c.value) then Advance(cfg.(state := RelativeSlash))
    else if c.Some? && c.value != '?' && c.value != '#' then
      if cfg.f.scheme == "file" && DriveLetterAt(input, cfg.cursor) then Go(cfg.(state := RelativePath))
      else if base.None? then Throw
      else Go(cfg.(f := CopyAuthority(cfg.f, base.value).(path := DropLast(base.value.path)), state := RelativePath))
    else if base.None? then Throw
    else
      var f2 := CopyAuthority(cfg.f, base.value).(path := base.value.path);
      if c.None? then Break(f2.(query := base.value.query))
      else if c.value == '?' then Advance(cfg.(f := f2.(query := "?"), state := Query))
      else Advance(cfg.(f := f2.(query := base.value.query, fragment := "#"), state := Fragment))
  }

  function StepRelativeSlash(c: Option<char>, base: Option<Fields>, cfg: Config): Step {
    if SlashAt(c) then
      Advance(cfg.(state := if cfg.f.scheme == "file" then FileHost else AuthorityIgnoreSlashes))
    else if cfg.f.scheme == "file" then Go(cfg.(state := RelativePath))
    else if base.None? then Throw
    else Go(cfg.(f := CopyAuthority(cfg.f, base.value), state := RelativePath))
  }

  function StepAuthorityFirstSlash(c: Option<char>, cfg: Config): Step {
    if c == Some('/') then Advance(cfg.(state := AuthoritySecondSlash))
    else Go(cfg.(state := AuthorityIgnoreSlashes))
  }

  function StepAuthoritySecondSlash(c: Option<char>, cfg: Config): Step {
    if c == Some('/') then Advance(cfg.(state := AuthorityIgnoreSlashes))
    else Go(cfg.(state := AuthorityIgnoreSlashes))
  }

  function StepAuthorityIgnoreSlashes(c: Option<char>, cfg: Config): Step {
    if !SlashAt(c) then Go(cfg.(state := Authority)) else Advance(cfg)
  }

  /** The buffer before an at sign, split at its first colon into the user name and the password. */
  function AddCredentials(buffer: string, username: string, password: Option<string>): (string, Option<string>) {
    if buffer == [] then (username, password)
    else if IsTabOrNewline(buffer[0]) then AddCredentials(buffer[1..], username, password)
    else if buffer[0] == ':' && password.None? then AddCredentials(buffer[1..], username, Some(""))
    else
      match password
      case Some(p) => AddCredentials(buffer[1..], username, Some(p + PercentEscape(buffer[0])))
      case None => AddCredentials(buffer[1..], username + PercentEscape(buffer[0]), None)
  }

  function StepAuthority(c: Option<char>, cfg: Config): Step
    requires |cfg.buffer| <= cfg.cursor
  {
    if c == Some('@') then
      var (u, p) := AddCredentials(if cfg.seenAt then cfg.buffer + "%40" else cfg.buffer, cfg.f.username, cfg.f.password);
      Advance(cfg.(seenAt := true, buffer := "", f := cfg.f.(username := u, password := p)))
    else if EndsAt(c) then Go(cfg.(cursor := cfg.cursor - |cfg.buffer|, buffer := "", state := Host))
    else Advance(cfg.(buffer := cfg.buffer + [c.value]))
  }

  /** The host is lower-cased; an empty one makes the URL invalid. */
  function SetHost(f: Fields, buffer: string): Fields {
    if buffer == "" then INVALID else f.(host := Lower(buffer))
  }

  function StepFileHost(c: Option<char>, cfg: Config): Step {
    if EndsAt(c) then
      if |cfg.buffer| == 2 && IsAlpha(cfg.buffer[0]) && (cfg.buffer[1] == ':' || cfg.buffer[1] == '|') then
        Go(cfg.(state := RelativePath))
      else if |cfg.buffer| == 0 then Go(cfg.(state := RelativePathStart))
      else Go(cfg.(f := SetHost(cfg.f, cfg.buffer), buffer := "", state := RelativePathStart))
    else if IsTabOrNewline(c.value) then Advance(cfg)
    else Advance(cfg.(buffer := cfg.buffer + [c.value]))
  }

  function StepHost(c: Option<char>, ov: Option<State>, cfg: Config): Step {
    if c == Some(':') && !cfg.seenBracket then
      var f := SetHost(cfg.f, cfg.buffer);
      if ov == Some(Hostname) then Break(f) else Advance(cfg.(f := f, buffer := "", state := Port))
    else if EndsAt(c) then
      var f := SetHost(cfg.f, cfg.buffer);
      if ov.Some? then Break(f) else Go(cfg.(f := f, buffer := "", state := RelativePathStart))
    else if IsTabOrNewline(c.value) then Advance(cfg)
    else
      Advance(cfg.(seenBracket := if c.value == '[' then true else if c.value == ']' then false else cfg.seenBracket,
                   buffer := cfg.buffer + [c.value]))
  }

  /** A port equal to the default of the scheme is not kept. */
  function SetPort(f: Fields, digits: string): Fields
    requires forall i :: 0 <= i < |digits| ==> IsDigit(digits[i])
  {
    if digits == "" || Some(ParseInt(digits)) == DefaultPort(f.scheme) then f
    else f.(port := ToDecimal(ParseInt(digits)))
  }

  function StepPort(c: Option<char>, ov: Option<State>, cfg: Config): Step
    requires forall i :: 0 <= i < |cfg.buffer| ==> IsDigit(cfg.buffer[i])
  {
    if c.Some? && IsDigit(c.value) then Advance(cfg.(buffer := cfg.buffer + [c.value]))
    else if EndsAt(c) || ov.Some? then
      var f := SetPort(cfg.f, cfg.buffer);
      if ov.Some? then Break(f) else Go(cfg.(f := f, buffer := "", state := RelativePathStart))
    else if IsTabOrNewline(c.value) then Advance(cfg)
    else Advance(cfg.(f := INVALID))
  }

  function StepRelativePathStart(c: Option<char>, cfg: Config): Step {
    if SlashAt(c) then Advance(cfg.(state := RelativePath)) else Go(cfg.(state := RelativePath))
  }

  /** What the segment in the buffer does to the path; `slash` tells whether a slash ended it. */
  function AddSegment(scheme: string, path: seq<string>, buffer: string, slash: bool): seq<string> {
    var segment := DotMapping(buffer);
    if segment == ".." then DropLast(path) + (if slash then [] else [""])
    else if segment == "." then path + (if slash then [] else [""])
    else if scheme == "file" && path == [] && |segment| == 2 && IsAlpha(segment[0]) && segment[1] == '|' then
      path + [[segment[0], ':']]
    else path + [segment]
  }

  function StepRelativePath(c: Option<char>, ov: Option<State>, cfg: Config): Step {
    if c.None? || IsSlash(c.value) || (ov.None? && (c.value == '?' || c.value == '#')) then
      var f := cfg.f.(path := AddSegment(cfg.f.scheme, cfg.f.path, cfg.buffer, SlashAt(c)));
      if c == Some('?') then Advance(cfg.(buffer := "", f := f.(query := "?"), state := Query))
      else if c == Some('#') then Advance(cfg.(buffer := "", f := f.(fragment := "#"), state := Fragment))
      else Advance(cfg.(buffer := "", f := f))
    else if IsTabOrNewline(c.value) then Advance(cfg)
    else Advance(cfg.(buffer := cfg.buffer + PercentEscape(c.value)))
  }

  function StepQuery(c: Option<char>, ov: Option<State>, cfg: Config): Step {
    if ov.None? && c == Some('#') then Advance(cfg.(f := cfg.f.(fragment := "#"), state := Fragment))
    else if c.Some? && !IsTabOrNewline(c.value) then
      Advance(cfg.(f := cfg.f.(query := cfg.f.query + PercentEscapeQuery(c.value))))
    else Advance(cfg)
  }

  function StepFragment(c: Option<char>, cfg: Config): Step {
    if c.Some? && !IsTabOrNewline(c.value) then Advance(cfg.(f := cfg.f.(fragment := cfg.f.fragment + [c.value])))
    else Advance(cfg)
  }

  // ---------------------------------------------------------------- the loop ends

  /** The states in the order in which the machine can only go down. */
  function Rank(s: State): nat {
    match s
    case SchemeStart => 18
    case Scheme => 17
    case NoScheme => 16
    case RelativeOrAuthority => 15
    case Relative => 14
    case RelativeSlash => 13
    case AuthorityFirstSlash => 12
    case AuthoritySecondSlash => 11
    case AuthorityIgnoreSlashes => 10
    case Authority => 9
    case FileHost => 8
    case Host => 7
    case Hostname => 7
    case Port => 6
    case RelativePathStart => 5
    case RelativePath => 4
    case SchemeData => 3
    case Query => 2
    case Fragment => 1
  }

  /** The states between the scheme and the authority, in which the buffer is empty. */
  predicate BetweenBuffers(s: State) {
    9 < Rank(s) <= 16
  }

  /** In the authority state the buffer is the input just before the cursor, so that the rewind stays inside the
      input; in the port state it holds digits. */
  ghost predicate WellFormed(input: string, cfg: Config) {
    && cfg.cursor <= |input| + 1
    && (BetweenBuffers(cfg.state) ==> cfg.buffer == "")
    && (cfg.state == Authority ==> |cfg.buffer| <= cfg.cursor <= |input| && input[cfg.cursor - |cfg.buffer|..cfg.cursor] == cfg.buffer)
    && (cfg.state == Port ==> forall i :: 0 <= i < |cfg.buffer| ==> IsDigit(cfg.buffer[i]))
  }

  predicate Running(input: string, cfg: Config) {
    cfg.cursor <= |input| && !cfg.f.isInvalid
  }

  function OneStep(input: string, ov: Option<State>, base: Option<Fields>, cfg: Config): Step
    requires WellFormed(input, cfg) && Running(input, cfg)
  {
    var c := At(input, cfg.cursor);
    match cfg.state
    case SchemeStart => StepSchemeStart(c, ov, cfg)
    case Scheme => StepScheme(c, ov, base, cfg)
    case SchemeData => StepSchemeData(c, cfg)
    case NoScheme => StepNoScheme(base, cfg)
    case RelativeOrAuthority => StepRelativeOrAuthority(c, At(input, cfg.cursor + 1), cfg)
    case Relative => StepRelative(input, base, cfg)
    case RelativeSlash => StepRelativeSlash(c, base, cfg)
    case AuthorityFirstSlash => StepAuthorityFirstSlash(c, cfg)
    case AuthoritySecondSlash => StepAuthoritySecondSlash(c, cfg)
    case AuthorityIgnoreSlashes => StepAuthorityIgnoreSlashes(c, cfg)
    case Authority => StepAuthority(c, cfg)
    case FileHost => StepFileHost(c, cfg)
    case Host => StepHost(c, ov, cfg)
    case Hostname => StepHost(c, ov, cfg)
    case Port => StepPort(c, ov, cfg)
    case RelativePathStart => StepRelativePathStart(c, cfg)
    case RelativePath => StepRelativePath(c, ov, cfg)
    case Query => StepQuery(c, ov, cfg)
    case Fragment => StepFragment(c, cfg)
  }

  /** A round keeps the configuration well formed and goes down: to a lower state, or on in the input. */
  ghost predicate Descends(input: string, cfg: Config, s: Step) {
    s.Go? ==>
      && WellFormed(input, s.cfg)
      && (Rank(s.cfg.state) < Rank(cfg.state) || (s.cfg.state == cfg.state && s.cfg.cursor == cfg.cursor + 1))
  }

  lemma ProgressScheme(input: string, ov: Option<State>, base: Option<Fields>, cfg: Config)
    requires WellFormed(input, cfg) && Running(input, cfg) && cfg.state in {SchemeStart, Scheme, SchemeData, NoScheme}
    ensures Descends(input, cfg, OneStep(input, ov, base, cfg))
  {
    hide StepRelative, RelativeRest, StepRelativeSlash, StepAuthority, StepFileHost, StepHost, StepPort, StepRelativePath, StepQuery;
    hide DefaultPort, DotMapping, EncodeComponent, EscapeSafe, Lower, ToDecimal, ParseInt;
  }

  lemma ProgressRelative(input: string, ov: Option<State>, base: Option<Fields>, cfg: Config)
    requires WellFormed(input, cfg) && Running(input, cfg) && cfg.state == Relative
    ensures Descends(input, cfg, OneStep(input, ov, base, cfg))
  {
    hide StepScheme, StepRelativeSlash, StepAuthority, StepFileHost, StepHost, StepPort, StepRelativePath, StepQuery;
    hide DefaultPort, DotMapping, EncodeComponent, EscapeSafe, Lower, ToDecimal, ParseInt;
    hide CopyAuthority, DropLast, DriveLetterAt;
  }

  lemma ProgressRelativeSlash(input: string, ov: Option<State>, base: Option<Fields>, cfg: Config)
    requires WellFormed(input, cfg) && Running(input, cfg) && cfg.state in {RelativeOrAuthority, RelativeSlash}
    ensures Descends(input, cfg, OneStep(input, ov, base, cfg))
  {
    hide StepScheme, StepRelative, RelativeRest, StepAuthority, StepFileHost, StepHost, StepPort, StepRelativePath, StepQuery;
    hide DefaultPort, DotMapping, EncodeComponent, EscapeSafe, Lower, ToDecimal, ParseInt;
    hide CopyAuthority;
  }

  lemma ProgressSlashes(input: string, ov: Option<State>, base: Option<Fields>, cfg: Config)
    requires WellFormed(input, cfg) && Running(input, cfg) && cfg.state in {AuthorityFirstSlash, AuthoritySecondSlash, AuthorityIgnoreSlashes}
    ensures Descends(input, cfg, OneStep(input, ov, base, cfg))
  {
    hide StepScheme, StepRelative, RelativeRest, StepRelativeSlash, StepAuthority, StepFileHost, StepHost, StepPort, StepRelativePath, StepQuery;
    hide DefaultPort, DotMapping, EncodeComponent, EscapeSafe, Lower, ToDecimal, ParseInt;
  }

  lemma ProgressAuthority(input: string, ov: Option<State>, base: Option<Fields>, cfg: Config)
    requires WellFormed(input, cfg) && Running(input, cfg) && cfg.state in {Authority}
    ensures Descends(input, cfg, OneStep(input, ov, base, cfg))
  {
    hide StepScheme, StepRelative, RelativeRest, StepRelativeSlash, StepFileHost, StepHost, StepPort, StepRelativePath, StepQuery;
    hide DefaultPort, DotMapping, EncodeComponent, EscapeSafe, Lower, ToDecimal, ParseInt;
    if cfg.cursor < |input| {
      var start := cfg.cursor - |cfg.buffer|;
      assert input[start..cfg.cursor + 1] == input[start..cfg.cursor] + [input[cfg.cursor]];
    }
  }

  lemma ProgressFileHost(input: string, ov: Option<State>, base: Option<Fields>, cfg: Config)
    requires WellFormed(input, cfg) && Running(input, cfg) && cfg.state in {FileHost}
    ensures Descends(input, cfg, OneStep(input, ov, base, cfg))
  {
    hide StepScheme, StepRelative, RelativeRest, StepRelativeSlash, StepAuthority, StepHost, StepPort, StepRelativePath, StepQuery;
    hide DefaultPort, DotMapping, EncodeComponent, EscapeSafe, Lower, ToDecimal, ParseInt;
  }

  lemma ProgressHost(input: string, ov: Option<State>, base: Option<Fields>, cfg: Config)
    requires WellFormed(input, cfg) && Running(input, cfg) && cfg.state in {Host, Hostname}
    ensures Descends(input, cfg, OneStep(input, ov, base, cfg))
  {
    hide DefaultPort, DotMapping, EncodeComponent, EscapeSafe, Lower, ToDecimal, ParseInt;
    hide StepScheme, StepRelative, RelativeRest, StepRelativeSlash, StepAuthority, StepFileHost, StepPort;
    hide StepRelativePath, StepQuery, StepHost;
    assert OneStep(input, ov, base, cfg) == StepHost(At(input, cfg.cursor), ov, cfg);
    HostDescends(input, ov, cfg);
  }

  lemma HostDescends(input: string, ov: Option<State>, cfg: Config)
    requires WellFormed(input, cfg) && Running(input, cfg) && cfg.state in {Host, Hostname}
    ensures Descends(input, cfg, StepHost(At(input, cfg.cursor), ov, cfg))
  {
    hide Lower;
  }

  lemma ProgressPort(input: string, ov: Option<State>, base: Option<Fields>, cfg: Config)
    requires WellFormed(input, cfg) && Running(input, cfg) && cfg.state == Port
    ensures Descends(input, cfg, OneStep(input, ov, base, cfg))
  {
    hide StepScheme, StepRelative, RelativeRest, StepRelativeSlash, StepAuthority, StepFileHost, StepHost, StepRelativePath, StepQuery;
    hide DefaultPort, DotMapping, EncodeComponent, EscapeSafe, Lower, ToDecimal, ParseInt;
  }

  lemma ProgressPath(input: string, ov: Option<State>, base: Option<Fields>, cfg: Config)
    requires WellFormed(input, cfg) && Running(input, cfg) && cfg.state in {RelativePathStart, RelativePath}
    ensures Descends(input, cfg, OneStep(input, ov, base, cfg))
  {
    hide StepScheme, StepRelative, RelativeRest, StepRelativeSlash, StepAuthority, StepFileHost, StepHost, StepPort, StepQuery;
    hide DefaultPort, DotMapping, EncodeComponent, EscapeSafe, Lower, ToDecimal, ParseInt;
    hide AddSegment, PercentEscape;
  }

  lemma ProgressQuery(input: string, ov: Option<State>, base: Option<Fields>, cfg: Config)
    requires WellFormed(input, cfg) && Running(input, cfg) && cfg.state in {Query, Fragment}
    ensures Descends(input, cfg, OneStep(input, ov, base, cfg))
  {
    hide StepScheme, StepRelative, RelativeRest, StepRelativeSlash, StepAuthority, StepFileHost, StepHost, StepPort, StepRelativePath;
    hide DefaultPort, DotMapping, EncodeComponent, EscapeSafe, Lower, ToDecimal, ParseInt;
  }

  lemma Progress(input: string, ov: Option<State>, base: Option<Fields>, cfg: Config)
    requires WellFormed(input, cfg) && Running(input, cfg)
    ensures Descends(input, cfg, OneStep(input, ov, base, cfg))
  {
    if cfg.state in {SchemeStart, Scheme, SchemeData, NoScheme} {
      ProgressScheme(input, ov, base, cfg);
    } else if cfg.state == Relative {
      ProgressRelative(input, ov, base, cfg);
    } else if cfg.state in {RelativeOrAuthority, RelativeSlash} {
      ProgressRelativeSlash(input, ov, base, cfg);
    } else if cfg.state in {Host, Hostname} {
      ProgressHost(input, ov, base, cfg);
    } else if cfg.state == Port {
      ProgressPort(input, ov, base, cfg);
    } else if cfg.state in {RelativePathStart, RelativePath} {
      ProgressPath(input, ov, base, cfg);
    } else if cfg.state in {Query, Fragment} {
      ProgressQuery(input, ov, base, cfg);
    } else if cfg.state == Authority {
      ProgressAuthority(input, ov, base, cfg);
    } else if cfg.state == FileHost {
      ProgressFileHost(input, ov, base, cfg);
    } else {
      ProgressSlashes(input, ov, base, cfg);
    }
  }

  /** The result of the loop: the fields, or None for an exception. */
  function Run(input: string, ov: Option<State>, base: Option<Fields>, cfg: Config): Option<Fields>
    requires WellFormed(input, cfg)
    decreases Rank(cfg.state), |input| + 1 - cfg.cursor
  {
    if !Running(input, cfg) then Some(cfg.f)
    else
      Progress(input, ov, base, cfg);
      match OneStep(input, ov, base, cfg)
      case Throw => None
      case Break(f) => Some(f)
      case Go(cfg') => Run(input, ov, base, cfg')
  }

  function Start(ov: Option<State>): State {
    if ov.Some? then ov.value else SchemeStart
  }

  /** The parser, started on an object with fields `f`. */
  function Parse(input: string, ov: Option<State>, base: Option<Fields>, f: Fields): Option<Fields> {
    Run(input, ov, base, Config(Start(ov), 0, "", false, false, f))
  }

  predicate IsTrimmed(c: char) {
    c == ' ' || c == '\t' || c == '\r' || c == '\n' || c == '\U{0C}'
  }

  function TrimLeft(s: string): string {
    if s != [] && IsTrimmed(s[0]) then TrimLeft(s[1..]) else s
  }

  function TrimRight(s: string): string {
    if s != [] && IsTrimmed(s[|s| - 1]) then TrimRight(s[..|s| - 1]) else s
  }

  /** The constructor: the trimmed URL is parsed on cleared fields. */
  function New(url: string, base: Option<Fields>): Option<Fields> {
    Parse(TrimRight(TrimLeft(url)), None, base, CLEARED)
  }

  // ---------------------------------------------------------------- printing

  function HostAndPort(f: Fields): string {
    if f.port != "" then f.host + ":" + f.port else f.host
  }

  function Credentials(f: Fields): string {
    if f.username != "" || f.password.Some? then
      f.username + (if f.password.Some? then ":" + f.password.value else "") + "@"
    else ""
  }

  function Pathname(f: Fields): string {
    if f.isRelative then "/" + Glue(f.path, "/") else f.schemeData
  }

  /** The printed URL of a valid object. */
  function Href(f: Fields): string {
    f.scheme + ":" + (if f.isRelative then "//" + Credentials(f) + HostAndPort(f) else "") + Pathname(f) + f.query + f.fragment
  }
}
