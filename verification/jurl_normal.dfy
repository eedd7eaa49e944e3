/** The normal form of URLs with an authority, and the proof that the parser produces nothing else
    (webcomponents-lite.js:109-477). */
module JUrlNormal {
  import opened Options
  import opened Texts
  import opened JUrl

  // ---------------------------------------------------------------- the normal form

  /** The schemes whose URLs have an authority, except file. */
  predicate NonFile(scheme: string) {
    IsRelativeScheme(scheme) && scheme != "file"
  }

  predicate UserChar(c: char) {
    EscapeSafe(c) && c != ':' && c != '@' && !IsSlash(c)
  }

  predicate PassChar(c: char) {
    EscapeSafe(c) && c != '@' && !IsSlash(c)
  }

  predicate SegChar(c: char) {
    EscapeSafe(c) && !IsSlash(c)
  }

  /** A host character before lower-casing. */
  predicate HostRaw(c: char) {
    !IsEnd(c) && c != '@' && !IsTabOrNewline(c)
  }

  ghost predicate UserOk(s: string) {
    forall i :: 0 <= i < |s| ==> UserChar(s[i])
  }

  ghost predicate PassOk(p: Option<string>) {
    p.Some? ==> forall i :: 0 <= i < |p.value| ==> PassChar(p.value[i])
  }

  ghost predicate RawOk(s: string) {
    forall i :: 0 <= i < |s| ==> HostRaw(s[i])
  }

  /** Whether the reader is inside brackets after a host text, or None when a colon stands outside of them. */
  function Brackets(s: string): Option<bool> {
    if s == [] then Some(false)
    else
      match Brackets(s[..|s| - 1])
      case None => None
      case Some(inside) =>
        var c := s[|s| - 1];
        if c == ':' && !inside then None
        else Some(if c == '[' then true else if c == ']' then false else inside)
  }

  ghost predicate HostOk(s: string) {
    s != "" && RawOk(s) && Lower(s) == s && Brackets(s).Some?
  }

  ghost predicate Digits(s: string) {
    forall i :: 0 <= i < |s| ==> IsDigit(s[i])
  }

  /** No port, or a decimal number without leading zeros that is not the default of the scheme. */
  ghost predicate PortOk(f: Fields) {
    f.port != "" ==>
      && Digits(f.port) && ToDecimal(ParseInt(f.port)) == f.port
      && Some(ParseInt(f.port)) != DefaultPort(f.scheme)
      && Brackets(f.host) == Some(false)
  }

  predicate IsDots(s: string) {
    DotMapping(s) == "." || DotMapping(s) == ".."
  }

  /** A path segment: no slash, nothing left to escape, and not a dot segment or an encoded variant of one. */
  ghost predicate SegmentOk(s: string) {
    (forall i :: 0 <= i < |s| ==> SegChar(s[i])) && !IsDots(s)
  }

  ghost predicate SegmentsOk(path: seq<string>) {
    forall i :: 0 <= i < |path| ==> SegmentOk(path[i])
  }

  ghost predicate QueryOk(q: string) {
    q != "" ==> q[0] == '?' && forall i :: 1 <= i < |q| ==> QuerySafe(q[i])
  }

  ghost predicate FragmentChars(s: string) {
    s != "" ==> s[0] == '#' && forall i :: 0 <= i < |s| ==> !IsTabOrNewline(s[i])
  }

  ghost predicate FragmentOk(s: string) {
    FragmentChars(s) && (s != "" ==> !IsTrimmed(s[|s| - 1]))
  }

  /** The fields before the host is known. */
  ghost predicate Credentialed(f: Fields) {
    && NonFile(f.scheme) && f.isRelative && !f.isInvalid && f.schemeData == ""
    && UserOk(f.username) && PassOk(f.password)
  }

  ghost predicate Located(f: Fields) {
    Credentialed(f) && HostOk(f.host) && PortOk(f)
  }

  ghost predicate Normal(f: Fields) {
    && Located(f) && f.path != [] && SegmentsOk(f.path)
    && QueryOk(f.query) && FragmentOk(f.fragment)
  }

  // ---------------------------------------------------------------- what every round keeps

  /** A base that is a URL with an authority is in normal form; any other base is allowed. */
  ghost predicate BaseOk(base: Option<Fields>) {
    base.Some? && NonFile(base.value.scheme) ==> Normal(base.value)
  }

  ghost predicate Trimmed(input: string) {
    input != "" ==> !IsTrimmed(input[|input| - 1])
  }

  /** No at sign from a position to the end of the authority. */
  ghost predicate NoAt(input: string, i: nat)
    requires i <= |input|
  {
    forall k :: i <= k < |input| && input[k] == '@' ==> exists j :: i <= j < k && IsEnd(input[j])
  }

  ghost predicate Untouched(f: Fields) {
    f == CLEARED.(scheme := f.scheme, isRelative := f.isRelative)
  }

  ghost predicate Early(f: Fields) {
    Untouched(f) && f.isRelative && NonFile(f.scheme)
  }

  ghost predicate BeforeHost(f: Fields) {
    Credentialed(f) && f == CLEARED.(scheme := f.scheme, isRelative := true, username := f.username, password := f.password)
  }

  ghost predicate BeforePort(f: Fields) {
    && Located(f) && Brackets(f.host) == Some(false)
    && f == CLEARED.(scheme := f.scheme, isRelative := true, username := f.username, password := f.password, host := f.host)
  }

  ghost predicate BeforeQuery(f: Fields) {
    Located(f) && SegmentsOk(f.path) && f.query == "" && f.fragment == ""
  }

  ghost predicate InFragment(input: string, cfg: Config) {
    && Located(cfg.f) && cfg.f.path != [] && SegmentsOk(cfg.f.path) && QueryOk(cfg.f.query)
    && cfg.f.fragment != "" && FragmentChars(cfg.f.fragment)
    && 1 <= cfg.cursor <= |input|
    && (!IsTabOrNewline(input[cfg.cursor - 1]) ==> cfg.f.fragment[|cfg.f.fragment| - 1] == input[cfg.cursor - 1])
  }

  /** What holds in each state of a run on a URL that may turn out to have an authority. */
  ghost predicate OnTrack(input: string, base: Option<Fields>, cfg: Config)
    requires cfg.cursor <= |input|
  {
    match cfg.state
    case SchemeStart => cfg.f == CLEARED && cfg.buffer == ""
    case Scheme => cfg.f == CLEARED && cfg.buffer != ""
    case SchemeData => false
    case NoScheme => cfg.f == CLEARED
    case RelativeOrAuthority => Early(cfg.f) && base.Some? && base.value.scheme == cfg.f.scheme
    case Relative =>
      && base.Some?
      && if cfg.f.scheme == "" then cfg.f == CLEARED && IsRelativeScheme(base.value.scheme)
         else Early(cfg.f) && base.value.scheme == cfg.f.scheme
    case RelativeSlash => Early(cfg.f) && base.Some? && base.value.scheme == cfg.f.scheme
    case AuthorityFirstSlash => Early(cfg.f)
    case AuthoritySecondSlash => Early(cfg.f)
    case AuthorityIgnoreSlashes => Early(cfg.f)
    case Authority =>
      BeforeHost(cfg.f) && forall i :: 0 <= i < |cfg.buffer| ==> !IsEnd(cfg.buffer[i]) && cfg.buffer[i] != '@'
    case FileHost => false
    case Host =>
      && BeforeHost(cfg.f) && NoAt(input, cfg.cursor)
      && RawOk(cfg.buffer) && Brackets(cfg.buffer) == Some(cfg.seenBracket)
    case Hostname => false
    case Port => BeforePort(cfg.f)
    case RelativePathStart => BeforeQuery(cfg.f) && cfg.f.path == [] && cfg.buffer == ""
    case RelativePath => BeforeQuery(cfg.f) && forall i :: 0 <= i < |cfg.buffer| ==> SegChar(cfg.buffer[i])
    case Query => Located(cfg.f) && cfg.f.path != [] && SegmentsOk(cfg.f.path) && cfg.f.query != "" && QueryOk(cfg.f.query) && cfg.f.fragment == ""
    case Fragment => InFragment(input, cfg)
  }

  /** Results that the normal form says nothing about: invalid URLs, file URLs, and URLs without an authority. */
  predicate Outside(f: Fields) {
    f == INVALID || f.scheme == "file" || (!f.isRelative && f.scheme != "" && !IsRelativeScheme(f.scheme))
  }

  ghost predicate Inv(input: string, base: Option<Fields>, cfg: Config) {
    && cfg.cursor <= |input| + 1
    && (Outside(cfg.f) || (if cfg.cursor <= |input| then OnTrack(input, base, cfg) else Normal(cfg.f)))
    && (Rank(cfg.state) > Rank(Host) ==> !cfg.seenBracket)
    && (cfg.state in {SchemeStart, Scheme, NoScheme} && !cfg.f.isInvalid ==> cfg.f == CLEARED)
    && (cfg.f.scheme != "file" && !cfg.f.isRelative && !cfg.f.isInvalid && cfg.f.scheme != "" ==> cfg.state in {SchemeData, Fragment})
  }

  ghost predicate ResultOk(f: Fields) {
    Outside(f) || Normal(f)
  }

  ghost predicate StepOk(input: string, base: Option<Fields>, s: Step) {
    match s
    case Throw => true
    case Break(f) => ResultOk(f)
    case Go(cfg) => Inv(input, base, cfg)
  }
}
