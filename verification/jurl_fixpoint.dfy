/** A URL in normal form is printed as a text that the parser reads back as the same URL (webcomponents-lite.js:482-489). */
module JUrlFixpoint {
  import opened Options
  import opened Texts
  import opened JUrl
  import opened JUrlNormal
  import opened JUrlPreserve

  /** The text stands in the input from a position on. */
  ghost predicate Ahead(input: string, i: nat, text: string) {
    i + |text| <= |input| && forall k :: 0 <= k < |text| ==> input[i + k] == text[k]
  }

  lemma AheadTail(input: string, i: nat, text: string)
    requires Ahead(input, i, text) && text != ""
    ensures input[i] == text[0] && Ahead(input, i + 1, text[1..])
  {
    forall k | 0 <= k < |text[1..]|
      ensures input[i + 1 + k] == text[1..][k]
    {
      assert input[i + (k + 1)] == text[k + 1];
    }
  }

  /** The parser on an absolute URL. */
  function Runs(input: string, cfg: Config): Option<Fields>
    requires WellFormed(input, cfg)
  {
    Run(input, None, None, cfg)
  }

  lemma RunStep(input: string, cfg: Config, next: Config)
    requires WellFormed(input, cfg) && Running(input, cfg) && OneStep(input, None, None, cfg) == Go(next)
    ensures WellFormed(input, next) && Runs(input, cfg) == Runs(input, next)
  {
    Progress(input, None, None, cfg);
  }

  lemma TailAppend(a: string, text: string)
    requires text != ""
    ensures a + text == (a + [text[0]]) + text[1..]
  {
  }

  // ---------------------------------------------------------------- scanning

  lemma {:induction false} ScanScheme(input: string, cfg: Config, text: string)
    requires WellFormed(input, cfg) && cfg.state == Scheme && !cfg.f.isInvalid && Ahead(input, cfg.cursor, text)
    requires forall i :: 0 <= i < |text| ==> 'a' <= text[i] <= 'z'
    ensures var next := cfg.(cursor := cfg.cursor + |text|, buffer := cfg.buffer + text);
            WellFormed(input, next) && Runs(input, cfg) == Runs(input, next)
    decreases |text|
  {
    hide Run, DefaultPort, DotMapping, EncodeComponent, Lower, ToDecimal, ParseInt, EscapeSafe, WellFormed;
    if text == "" {
      assert cfg.buffer + "" == cfg.buffer;
    } else {
      AheadTail(input, cfg.cursor, text);
      TailAppend(cfg.buffer, text);
      var next := cfg.(cursor := cfg.cursor + 1, buffer := cfg.buffer + [text[0]]);
      RunStep(input, cfg, next);
      ScanScheme(input, next, text[1..]);
    }
  }

  lemma {:induction false} ScanAuthority(input: string, cfg: Config, text: string)
    requires WellFormed(input, cfg) && cfg.state == Authority && !cfg.f.isInvalid && Ahead(input, cfg.cursor, text)
    requires forall i :: 0 <= i < |text| ==> !IsEnd(text[i]) && text[i] != '@'
    ensures var next := cfg.(cursor := cfg.cursor + |text|, buffer := cfg.buffer + text);
            WellFormed(input, next) && Runs(input, cfg) == Runs(input, next)
    decreases |text|
  {
    hide DefaultPort, DotMapping, EncodeComponent, Lower, ToDecimal, ParseInt, Run, WellFormed;
    if text == "" {
      assert cfg.buffer + "" == cfg.buffer;
    } else {
      AheadTail(input, cfg.cursor, text);
      TailAppend(cfg.buffer, text);
      var next := cfg.(cursor := cfg.cursor + 1, buffer := cfg.buffer + [text[0]]);
      RunStep(input, cfg, next);
      ScanAuthority(input, next, text[1..]);
    }
  }

  lemma BracketsFront(s: string, k: nat)
    requires k <= |s| && Brackets(s).Some?
    ensures Brackets(s[..k]).Some?
    decreases |s|
  {
    if k < |s| {
      BracketsFront(s[..|s| - 1], k);
      assert s[..|s| - 1][..k] == s[..k];
    } else {
      assert s[..k] == s;
    }
  }

  /** The host state passes over the text of a host, tracking its brackets. */
  lemma {:induction false} ScanHost(input: string, cfg: Config, text: string)
    requires WellFormed(input, cfg) && cfg.state == Host && !cfg.f.isInvalid && Ahead(input, cfg.cursor, text)
    requires RawOk(text) && Brackets(cfg.buffer) == Some(cfg.seenBracket) && Brackets(cfg.buffer + text).Some?
    ensures var next := cfg.(cursor := cfg.cursor + |text|, buffer := cfg.buffer + text, seenBracket := Brackets(cfg.buffer + text).value);
            WellFormed(input, next) && Runs(input, cfg) == Runs(input, next)
    decreases |text|
  {
    hide DefaultPort, DotMapping, EncodeComponent, Lower, ToDecimal, ParseInt, Brackets, Run, WellFormed;
    if text == "" {
      assert cfg.buffer + "" == cfg.buffer;
    } else {
      AheadTail(input, cfg.cursor, text);
      TailAppend(cfg.buffer, text);
      var c := text[0];
      BracketsFront(cfg.buffer + text, |cfg.buffer| + 1);
      assert (cfg.buffer + text)[..|cfg.buffer| + 1] == cfg.buffer + [c];
      BracketsAppend(cfg.buffer, c);
      var next := cfg.(cursor := cfg.cursor + 1, buffer := cfg.buffer + [c], seenBracket := Brackets(cfg.buffer + [c]).value);
      RunStep(input, cfg, next);
      ScanHost(input, next, text[1..]);
    }
  }

  lemma {:induction false} ScanPort(input: string, cfg: Config, text: string)
    requires WellFormed(input, cfg) && cfg.state == Port && !cfg.f.isInvalid && Ahead(input, cfg.cursor, text) && Digits(text)
    ensures var next := cfg.(cursor := cfg.cursor + |text|, buffer := cfg.buffer + text);
            WellFormed(input, next) && Runs(input, cfg) == Runs(input, next)
    decreases |text|
  {
    hide DefaultPort, DotMapping, EncodeComponent, Lower, ToDecimal, ParseInt, Run;
    if text == "" {
      assert cfg.buffer + "" == cfg.buffer;
    } else {
      AheadTail(input, cfg.cursor, text);
      TailAppend(cfg.buffer, text);
      var next := cfg.(cursor := cfg.cursor + 1, buffer := cfg.buffer + [text[0]]);
      RunStep(input, cfg, next);
      ScanPort(input, next, text[1..]);
    }
  }

  lemma {:induction false} ScanSegment(input: string, cfg: Config, text: string)
    requires WellFormed(input, cfg) && cfg.state == RelativePath && !cfg.f.isInvalid && Ahead(input, cfg.cursor, text)
    requires forall i :: 0 <= i < |text| ==> SegChar(text[i])
    ensures var next := cfg.(cursor := cfg.cursor + |text|, buffer := cfg.buffer + text);
            WellFormed(input, next) && Runs(input, cfg) == Runs(input, next)
    decreases |text|
  {
    hide DefaultPort, DotMapping, EncodeComponent, Lower, ToDecimal, ParseInt, Run, WellFormed;
    if text == "" {
      assert cfg.buffer + "" == cfg.buffer;
    } else {
      AheadTail(input, cfg.cursor, text);
      TailAppend(cfg.buffer, text);
      var next := cfg.(cursor := cfg.cursor + 1, buffer := cfg.buffer + [text[0]]);
      RunStep(input, cfg, next);
      ScanSegment(input, next, text[1..]);
    }
  }

  lemma {:induction false} ScanQuery(input: string, cfg: Config, text: string)
    requires WellFormed(input, cfg) && cfg.state == Query && !cfg.f.isInvalid && Ahead(input, cfg.cursor, text)
    requires forall i :: 0 <= i < |text| ==> QuerySafe(text[i])
    ensures var next := cfg.(cursor := cfg.cursor + |text|, f := cfg.f.(query := cfg.f.query + text));
            WellFormed(input, next) && Runs(input, cfg) == Runs(input, next)
    decreases |text|
  {
    hide DefaultPort, DotMapping, EncodeComponent, Lower, ToDecimal, ParseInt, Run, EscapeSafe, WellFormed;
    if text == "" {
      assert cfg.f.query + "" == cfg.f.query;
    } else {
      AheadTail(input, cfg.cursor, text);
      TailAppend(cfg.f.query, text);
      var next := cfg.(cursor := cfg.cursor + 1, f := cfg.f.(query := cfg.f.query + [text[0]]));
      RunStep(input, cfg, next);
      ScanQuery(input, next, text[1..]);
    }
  }

  lemma {:induction false} ScanFragment(input: string, cfg: Config, text: string)
    requires WellFormed(input, cfg) && cfg.state == Fragment && !cfg.f.isInvalid && Ahead(input, cfg.cursor, text)
    requires forall i :: 0 <= i < |text| ==> !IsTabOrNewline(text[i])
    ensures var next := cfg.(cursor := cfg.cursor + |text|, f := cfg.f.(fragment := cfg.f.fragment + text));
            WellFormed(input, next) && Runs(input, cfg) == Runs(input, next)
    decreases |text|
  {
    hide DefaultPort, DotMapping, EncodeComponent, Lower, ToDecimal, ParseInt, Run, WellFormed;
    if text == "" {
      assert cfg.f.fragment + "" == cfg.f.fragment;
    } else {
      AheadTail(input, cfg.cursor, text);
      TailAppend(cfg.f.fragment, text);
      var next := cfg.(cursor := cfg.cursor + 1, f := cfg.f.(fragment := cfg.f.fragment + [text[0]]));
      RunStep(input, cfg, next);
      ScanFragment(input, next, text[1..]);
    }
  }

  // ---------------------------------------------------------------- credentials

  lemma {:induction false} AddUser(s: string, u: string)
    requires UserOk(s)
    ensures AddCredentials(s, u, None) == (u + s, None)
    decreases |s|
  {
    if s == "" {
      assert u + "" == u;
    } else {
      TailAppend(u, s);
      AddUser(s[1..], u + [s[0]]);
    }
  }

  lemma {:induction false} AddPassword(s: string, u: string, p: string)
    requires PassOk(Some(s))
    ensures AddCredentials(s, u, Some(p)) == (u, Some(p + s))
    decreases |s|
  {
    if s == "" {
      assert p + "" == p;
    } else {
      TailAppend(p, s);
      AddPassword(s[1..], u, p + [s[0]]);
    }
  }

  lemma {:induction false} AddConcat(a: string, b: string, u: string, p: Option<string>)
    ensures AddCredentials(a + b, u, p) == AddCredentials(b, AddCredentials(a, u, p).0, AddCredentials(a, u, p).1)
    decreases |a|
  {
    if a == "" {
      assert a + b == b;
    } else {
      assert (a + b)[1..] == a[1..] + b;
      var c := a[0];
      if IsTabOrNewline(c) {
        AddConcat(a[1..], b, u, p);
      } else if c == ':' && p.None? {
        AddConcat(a[1..], b, u, Some(""));
      } else {
        match p
        case Some(p') => AddConcat(a[1..], b, u, Some(p' + PercentEscape(c)));
        case None => AddConcat(a[1..], b, u + PercentEscape(c), None);
      }
    }
  }

  /** The credentials before the at sign, as they are printed. */
  function CredentialText(f: Fields): string {
    f.username + if f.password.Some? then ":" + f.password.value else ""
  }

  lemma CredentialsReadBack(f: Fields)
    requires UserOk(f.username) && PassOk(f.password)
    ensures AddCredentials(CredentialText(f), "", None) == (f.username, f.password)
  {
    AddUser(f.username, "");
    match f.password {
      case None => assert CredentialText(f) == f.username;
      case Some(p) =>
        AddConcat(f.username, ":" + p, "", None);
        assert (":" + p)[1..] == p;
        assert "" + f.username == f.username && "" + p == p;
        AddPassword(p, f.username, "");
    }
    assert "" + f.username == f.username;
  }

  // ---------------------------------------------------------------- the parts of a printed URL

  /** A one-word text for the position after a prefix of the URL. */
  lemma AheadSplit(input: string, i: nat, a: string, b: string)
    requires Ahead(input, i, a + b)
    ensures Ahead(input, i, a) && Ahead(input, i + |a|, b)
  {
    forall k | 0 <= k < |a|
      ensures input[i + k] == a[k]
    {
      assert (a + b)[k] == a[k];
    }
    forall k | 0 <= k < |b|
      ensures input[i + |a| + k] == b[k]
    {
      assert input[i + (|a| + k)] == (a + b)[|a| + k];
    }
  }

  lemma SchemeLetters(scheme: string)
    requires NonFile(scheme)
    ensures scheme != "" && forall i :: 0 <= i < |scheme| ==> 'a' <= scheme[i] <= 'z'
  {
  }

  function Schemed(scheme: string): Fields {
    CLEARED.(scheme := scheme, isRelative := true)
  }

  /** The letters of the scheme, up to its colon. */
  lemma ReadsLetters(input: string, scheme: string)
    requires scheme != "" && (forall i :: 0 <= i < |scheme| ==> 'a' <= scheme[i] <= 'z') && Ahead(input, 0, scheme)
    ensures var next := Config(Scheme, |scheme|, scheme, false, false, CLEARED);
            WellFormed(input, next) && Parse(input, None, None, CLEARED) == Runs(input, next)
  {
    hide Run, DefaultPort, DotMapping, EncodeComponent, Lower, ToDecimal, ParseInt, EscapeSafe;
    var c0 := Config(SchemeStart, 0, "", false, false, CLEARED);
    AheadTail(input, 0, scheme);
    TailAppend("", scheme);
    var c1 := c0.(state := Scheme, cursor := 1, buffer := [scheme[0]]);
    RunStep(input, c0, c1);
    ScanScheme(input, c1, scheme[1..]);
    assert "" + scheme == scheme;
  }

  lemma ReadsSlashes(input: string, cfg: Config)
    requires cfg.state == AuthorityFirstSlash && WellFormed(input, cfg) && !cfg.f.isInvalid && cfg.cursor + 1 < |input|
    requires input[cfg.cursor] == '/' && input[cfg.cursor + 1] == '/'
    ensures var next := cfg.(state := AuthorityIgnoreSlashes, cursor := cfg.cursor + 2);
            WellFormed(input, next) && Runs(input, cfg) == Runs(input, next)
  {
    hide Run, DefaultPort, DotMapping, EncodeComponent, Lower, ToDecimal, ParseInt, EscapeSafe;
    var c1 := cfg.(state := AuthoritySecondSlash, cursor := cfg.cursor + 1);
    RunStep(input, cfg, c1);
    RunStep(input, c1, cfg.(state := AuthorityIgnoreSlashes, cursor := cfg.cursor + 2));
  }

  /** The scheme and the two slashes. */
  lemma ReadsScheme(input: string, scheme: string)
    requires NonFile(scheme) && Ahead(input, 0, scheme + "://")
    ensures var next := Config(AuthorityIgnoreSlashes, |scheme| + 3, "", false, false, Schemed(scheme));
            WellFormed(input, next) && Parse(input, None, None, CLEARED) == Runs(input, next)
  {
    hide Run, OneStep, DefaultPort, DotMapping, EncodeComponent, Lower, ToDecimal, ParseInt, EscapeSafe;
    SchemeLetters(scheme);
    AheadSplit(input, 0, scheme, "://");
    var n := |scheme|;
    assert input[n] == "://"[0] && input[n + 1] == "://"[1] && input[n + 2] == "://"[2];
    ReadsLetters(input, scheme);
    ReadsColon(input, Config(Scheme, n, scheme, false, false, CLEARED), scheme);
    ReadsSlashes(input, Config(AuthorityFirstSlash, n + 1, "", false, false, Schemed(scheme)));
  }

  lemma ReadsColon(input: string, cfg: Config, scheme: string)
    requires NonFile(scheme) && cfg == Config(Scheme, |scheme|, scheme, false, false, CLEARED)
    requires |scheme| < |input| && input[|scheme|] == ':'
    ensures var next := Config(AuthorityFirstSlash, |scheme| + 1, "", false, false, Schemed(scheme));
            WellFormed(input, next) && Runs(input, cfg) == Runs(input, next)
  {
    RunStep(input, cfg, Config(AuthorityFirstSlash, |scheme| + 1, "", false, false, Schemed(scheme)));
  }

  lemma UserIsInAuthority(f: Fields)
    requires UserOk(f.username) && PassOk(f.password)
    ensures forall i :: 0 <= i < |CredentialText(f)| ==> !IsEnd(CredentialText(f)[i]) && CredentialText(f)[i] != '@'
  {
  }

  function Named(f: Fields): Fields {
    Schemed(f.scheme).(username := f.username, password := f.password)
  }

  lemma ReadsAtSign(input: string, f: Fields, cfg: Config)
    requires Credentialed(f) && WellFormed(input, cfg)
    requires cfg == Config(Authority, cfg.cursor, CredentialText(f), false, false, Schemed(f.scheme))
    requires cfg.cursor < |input| && input[cfg.cursor] == '@'
    ensures var next := Config(Authority, cfg.cursor + 1, "", true, false, Named(f));
            WellFormed(input, next) && Runs(input, cfg) == Runs(input, next)
  {
    hide DefaultPort, DotMapping, EncodeComponent, Lower, ToDecimal, ParseInt;
    CredentialsReadBack(f);
    RunStep(input, cfg, Config(Authority, cfg.cursor + 1, "", true, false, Named(f)));
  }

  /** The credentials, when some are printed; the reader then stands at the host in the authority state. */
  lemma ReadsCredentials(input: string, f: Fields, i: nat) returns (seenAt: bool)
    requires Credentialed(f) && Ahead(input, i, Credentials(f)) && i + |Credentials(f)| < |input| && !IsSlash(input[i])
    ensures var from := Config(AuthorityIgnoreSlashes, i, "", false, false, Schemed(f.scheme));
            var next := Config(Authority, i + |Credentials(f)|, "", seenAt, false, Named(f));
            WellFormed(input, from) && WellFormed(input, next) && Runs(input, from) == Runs(input, next)
  {
    hide DefaultPort, DotMapping, EncodeComponent, Lower, ToDecimal, ParseInt;
    var c1 := Config(Authority, i, "", false, false, Schemed(f.scheme));
    RunStep(input, c1.(state := AuthorityIgnoreSlashes), c1);
    if Credentials(f) == "" {
      seenAt := false;
      assert f.username == "" && f.password == None;
    } else {
      seenAt := true;
      ReadsPrintedCredentials(input, f, c1);
    }
  }

  lemma ReadsPrintedCredentials(input: string, f: Fields, cfg: Config)
    requires Credentialed(f) && Credentials(f) != "" && WellFormed(input, cfg)
    requires cfg == Config(Authority, cfg.cursor, "", false, false, Schemed(f.scheme)) && Ahead(input, cfg.cursor, Credentials(f))
    ensures var next := Config(Authority, cfg.cursor + |Credentials(f)|, "", true, false, Named(f));
            WellFormed(input, next) && Runs(input, cfg) == Runs(input, next)
  {
    hide Run, OneStep, DefaultPort, DotMapping, EncodeComponent, Lower, ToDecimal, ParseInt, WellFormed;
    var text := CredentialText(f);
    assert Credentials(f) == text + "@";
    AheadSplit(input, cfg.cursor, text, "@");
    AheadTail(input, cfg.cursor + |text|, "@");
    UserIsInAuthority(f);
    ScanAuthority(input, cfg, text);
    assert "" + text == text;
    ReadsAtSign(input, f, cfg.(cursor := cfg.cursor + |text|, buffer := text));
  }

  lemma HostAndPortChars(f: Fields)
    requires Located(f)
    ensures HostAndPort(f) != "" && !IsSlash(HostAndPort(f)[0])
    ensures forall i :: 0 <= i < |HostAndPort(f)| ==> !IsEnd(HostAndPort(f)[i]) && HostAndPort(f)[i] != '@'
  {
    if f.port != "" {
      forall i | |f.host| <= i < |HostAndPort(f)|
        ensures HostAndPort(f)[i] == ':' || IsDigit(HostAndPort(f)[i])
      {
        if i > |f.host| {
          assert HostAndPort(f)[i] == f.port[i - |f.host| - 1];
        }
      }
    }
  }

  function Placed(f: Fields): Fields {
    Named(f).(host := f.host, port := f.port)
  }

  /** The authority is passed over up to the path, and the cursor goes back to its start. */
  lemma PassesAuthority(input: string, f: Fields, cfg: Config)
    requires Located(f) && WellFormed(input, cfg)
    requires cfg == Config(Authority, cfg.cursor, "", cfg.seenAt, false, Named(f))
    requires Ahead(input, cfg.cursor, HostAndPort(f)) && cfg.cursor + |HostAndPort(f)| < |input|
    requires input[cfg.cursor + |HostAndPort(f)|] == '/'
    ensures Runs(input, cfg) == Runs(input, cfg.(state := Host))
  {
    hide DefaultPort, DotMapping, EncodeComponent, Lower, ToDecimal, ParseInt;
    var text := HostAndPort(f);
    HostAndPortChars(f);
    ScanAuthority(input, cfg, text);
    assert "" + text == text;
    var c1 := cfg.(cursor := cfg.cursor + |text|, buffer := text);
    RunStep(input, c1, cfg.(state := Host));
  }

  /** The host and the port, and the state in which the path is awaited. */
  lemma ReadsHost(input: string, f: Fields, cfg: Config) returns (bracket: bool)
    requires Located(f) && WellFormed(input, cfg)
    requires cfg == Config(Host, cfg.cursor, "", cfg.seenAt, false, Named(f))
    requires Ahead(input, cfg.cursor, HostAndPort(f)) && cfg.cursor + |HostAndPort(f)| < |input|
    requires input[cfg.cursor + |HostAndPort(f)|] == '/'
    ensures var next := Config(RelativePathStart, cfg.cursor + |HostAndPort(f)|, "", cfg.seenAt, bracket, Placed(f));
            WellFormed(input, next) && Runs(input, cfg) == Runs(input, next)
  {
    hide Run, OneStep, DefaultPort, DotMapping, EncodeComponent, Lower, ToDecimal, ParseInt, WellFormed;
    if f.port == "" {
      bracket := ReadsHostOnly(input, f, cfg);
    } else {
      bracket := false;
      assert HostAndPort(f) == f.host + (":" + f.port);
      AheadSplit(input, cfg.cursor, f.host, ":" + f.port);
      AheadTail(input, cfg.cursor + |f.host|, ":" + f.port);
      assert (":" + f.port)[1..] == f.port;
      ReadsHostThenPort(input, f, cfg);
    }
  }

  lemma ReadsHostSlash(input: string, f: Fields, cfg: Config)
    requires Located(f) && f.port == "" && WellFormed(input, cfg)
    requires cfg == Config(Host, cfg.cursor, f.host, cfg.seenAt, cfg.seenBracket, Named(f))
    requires cfg.cursor < |input| && input[cfg.cursor] == '/'
    ensures var next := Config(RelativePathStart, cfg.cursor, "", cfg.seenAt, cfg.seenBracket, Placed(f));
            WellFormed(input, next) && Runs(input, cfg) == Runs(input, next)
  {
    hide DefaultPort, DotMapping, EncodeComponent, ToDecimal, ParseInt;
    RunStep(input, cfg, Config(RelativePathStart, cfg.cursor, "", cfg.seenAt, cfg.seenBracket, Placed(f)));
  }

  lemma ReadsHostOnly(input: string, f: Fields, cfg: Config) returns (bracket: bool)
    requires Located(f) && f.port == "" && WellFormed(input, cfg)
    requires cfg == Config(Host, cfg.cursor, "", cfg.seenAt, false, Named(f))
    requires Ahead(input, cfg.cursor, f.host) && cfg.cursor + |f.host| < |input| && input[cfg.cursor + |f.host|] == '/'
    ensures var next := Config(RelativePathStart, cfg.cursor + |f.host|, "", cfg.seenAt, bracket, Placed(f));
            WellFormed(input, next) && Runs(input, cfg) == Runs(input, next)
  {
    hide Run, OneStep, Runs, WellFormed, Ahead, UserOk, PassOk, Credentialed, DefaultPort, ToDecimal, ParseInt, Lower;
    ReadsHostText(input, f, cfg);
    bracket := Brackets(f.host).value;
    ReadsHostSlash(input, f, cfg.(cursor := cfg.cursor + |f.host|, buffer := f.host, seenBracket := bracket));
  }

  lemma PortKept(f: Fields)
    requires Located(f) && f.port != ""
    ensures SetPort(Named(f).(host := f.host), f.port) == Placed(f)
  {
    hide DefaultPort, ParseInt, ToDecimal, Lower, EscapeSafe;
  }

  lemma ReadsPortSlash(input: string, f: Fields, cfg: Config)
    requires Located(f) && f.port != "" && WellFormed(input, cfg)
    requires cfg == Config(Port, cfg.cursor, f.port, cfg.seenAt, false, Named(f).(host := f.host))
    requires cfg.cursor < |input| && input[cfg.cursor] == '/'
    ensures var next := Config(RelativePathStart, cfg.cursor, "", cfg.seenAt, false, Placed(f));
            WellFormed(input, next) && Runs(input, cfg) == Runs(input, next)
  {
    hide Run, DefaultPort, DotMapping, EncodeComponent, ToDecimal, ParseInt, Lower, SetPort;
    PortKept(f);
    RunStep(input, cfg, Config(RelativePathStart, cfg.cursor, "", cfg.seenAt, false, Placed(f)));
  }

  lemma ReadsPort(input: string, f: Fields, cfg: Config)
    requires Located(f) && f.port != "" && WellFormed(input, cfg)
    requires cfg == Config(Port, cfg.cursor, "", cfg.seenAt, false, Named(f).(host := f.host))
    requires Ahead(input, cfg.cursor, f.port) && cfg.cursor + |f.port| < |input| && input[cfg.cursor + |f.port|] == '/'
    ensures var next := Config(RelativePathStart, cfg.cursor + |f.port|, "", cfg.seenAt, false, Placed(f));
            WellFormed(input, next) && Runs(input, cfg) == Runs(input, next)
  {
    hide Run, OneStep, DefaultPort, DotMapping, EncodeComponent, ToDecimal, ParseInt, Lower;
    assert "" + f.port == f.port;
    ScanPort(input, cfg, f.port);
    ReadsPortSlash(input, f, cfg.(cursor := cfg.cursor + |f.port|, buffer := f.port));
  }

  lemma ReadsHostColon(input: string, f: Fields, cfg: Config)
    requires Located(f) && WellFormed(input, cfg)
    requires cfg == Config(Host, cfg.cursor, f.host, cfg.seenAt, false, Named(f)) && cfg.cursor < |input| && input[cfg.cursor] == ':'
    ensures var next := Config(Port, cfg.cursor + 1, "", cfg.seenAt, false, Named(f).(host := f.host));
            WellFormed(input, next) && Runs(input, cfg) == Runs(input, next)
  {
    hide DefaultPort, DotMapping, EncodeComponent, ToDecimal, ParseInt;
    RunStep(input, cfg, Config(Port, cfg.cursor + 1, "", cfg.seenAt, false, Named(f).(host := f.host)));
  }

  /** The text of the host, up to the character after it. */
  lemma ReadsHostText(input: string, f: Fields, cfg: Config)
    requires Located(f) && WellFormed(input, cfg)
    requires cfg == Config(Host, cfg.cursor, "", cfg.seenAt, false, Named(f)) && Ahead(input, cfg.cursor, f.host)
    ensures var next := cfg.(cursor := cfg.cursor + |f.host|, buffer := f.host, seenBracket := Brackets(f.host).value);
            WellFormed(input, next) && Runs(input, cfg) == Runs(input, next)
  {
    hide Run, OneStep, DefaultPort, DotMapping, EncodeComponent, Lower, ToDecimal, ParseInt, WellFormed, UserOk, PassOk, EscapeSafe;
    assert "" + f.host == f.host;
    ScanHost(input, cfg, f.host);
  }

  lemma ReadsHostThenPort(input: string, f: Fields, cfg: Config)
    requires Located(f) && f.port != "" && WellFormed(input, cfg)
    requires cfg == Config(Host, cfg.cursor, "", cfg.seenAt, false, Named(f))
    requires Ahead(input, cfg.cursor, f.host) && cfg.cursor + |f.host| < |input| && input[cfg.cursor + |f.host|] == ':'
    requires Ahead(input, cfg.cursor + |f.host| + 1, f.port)
    requires cfg.cursor + |f.host| + 1 + |f.port| < |input| && input[cfg.cursor + |f.host| + 1 + |f.port|] == '/'
    ensures var next := Config(RelativePathStart, cfg.cursor + |f.host| + 1 + |f.port|, "", cfg.seenAt, false, Placed(f));
            WellFormed(input, next) && Runs(input, cfg) == Runs(input, next)
  {
    hide Run, OneStep, Runs, WellFormed, Ahead, HostOk, UserOk, PassOk, Credentialed, DefaultPort, ToDecimal, ParseInt;
    ReadsHostText(input, f, cfg);
    ReadsHostColon(input, f, cfg.(cursor := cfg.cursor + |f.host|, buffer := f.host));
    ReadsPort(input, f, Config(Port, cfg.cursor + |f.host| + 1, "", cfg.seenAt, false, Named(f).(host := f.host)));
  }

  // ---------------------------------------------------------------- path, query and fragment

  lemma SegmentPushed(scheme: string, path: seq<string>, segment: string, slash: bool)
    requires NonFile(scheme) && SegmentOk(segment)
    ensures AddSegment(scheme, path, segment, slash) == path + [segment]
  {
  }

  lemma ReadsSlash(input: string, cfg: Config, segment: string)
    requires WellFormed(input, cfg) && cfg.state == RelativePath && cfg.buffer == segment && !cfg.f.isInvalid
    requires NonFile(cfg.f.scheme) && SegmentOk(segment) && cfg.cursor < |input| && input[cfg.cursor] == '/'
    ensures var next := cfg.(cursor := cfg.cursor + 1, buffer := "", f := cfg.f.(path := cfg.f.path + [segment]));
            WellFormed(input, next) && Runs(input, cfg) == Runs(input, next)
  {
    SegmentPushed(cfg.f.scheme, cfg.f.path, segment, true);
    RunStep(input, cfg, cfg.(cursor := cfg.cursor + 1, buffer := "", f := cfg.f.(path := cfg.f.path + [segment])));
  }

  /** A segment and the slash after it. */
  lemma ReadsSegment(input: string, cfg: Config, segment: string)
    requires WellFormed(input, cfg) && cfg.state == RelativePath && cfg.buffer == "" && !cfg.f.isInvalid
    requires NonFile(cfg.f.scheme) && SegmentOk(segment)
    requires Ahead(input, cfg.cursor, segment) && cfg.cursor + |segment| < |input| && input[cfg.cursor + |segment|] == '/'
    ensures var next := cfg.(cursor := cfg.cursor + |segment| + 1, f := cfg.f.(path := cfg.f.path + [segment]));
            WellFormed(input, next) && Runs(input, cfg) == Runs(input, next)
  {
    hide Run, OneStep, NonFile, DotMapping, Lower, EscapeSafe;
    assert "" + segment == segment;
    ScanSegment(input, cfg, segment);
    ReadsSlash(input, cfg.(cursor := cfg.cursor + |segment|, buffer := segment), segment);
  }

  /** All segments but the last are pushed; the last is left in the buffer. */
  lemma {:induction false} ReadsPath(input: string, cfg: Config, path: seq<string>)
    requires WellFormed(input, cfg) && cfg.state == RelativePath && cfg.buffer == "" && !cfg.f.isInvalid && NonFile(cfg.f.scheme)
    requires path != [] && SegmentsOk(path) && Ahead(input, cfg.cursor, Glue(path, "/"))
    ensures var next := cfg.(cursor := cfg.cursor + |Glue(path, "/")|, buffer := path[|path| - 1],
                             f := cfg.f.(path := cfg.f.path + path[..|path| - 1]));
            WellFormed(input, next) && Runs(input, cfg) == Runs(input, next)
    decreases |path|, 1
  {
    hide Run, OneStep, NonFile, DotMapping, Lower, EscapeSafe;
    var segment := path[0];
    if |path| == 1 {
      assert "" + segment == segment;
      assert cfg.f.path + path[..0] == cfg.f.path;
      ScanSegment(input, cfg, segment);
    } else {
      var rest := path[1..];
      assert Glue(path, "/") == segment + ("/" + Glue(rest, "/"));
      AheadSplit(input, cfg.cursor, segment, "/" + Glue(rest, "/"));
      AheadTail(input, cfg.cursor + |segment|, "/" + Glue(rest, "/"));
      assert ("/" + Glue(rest, "/"))[1..] == Glue(rest, "/");
      ReadsSegment(input, cfg, segment);
      ReadsRest(input, cfg, path);
    }
  }

  lemma ReadsRest(input: string, cfg: Config, path: seq<string>)
    requires WellFormed(input, cfg) && cfg.state == RelativePath && cfg.buffer == "" && !cfg.f.isInvalid && NonFile(cfg.f.scheme)
    requires |path| > 1 && SegmentsOk(path) && Ahead(input, cfg.cursor + |path[0]| + 1, Glue(path[1..], "/"))
    ensures var c2 := cfg.(cursor := cfg.cursor + |path[0]| + 1, f := cfg.f.(path := cfg.f.path + [path[0]]));
            var next := cfg.(cursor := c2.cursor + |Glue(path[1..], "/")|, buffer := path[|path| - 1],
                             f := cfg.f.(path := cfg.f.path + path[..|path| - 1]));
            WellFormed(input, c2) && WellFormed(input, next) && Runs(input, c2) == Runs(input, next)
    decreases |path|, 0
  {
    hide Run, OneStep, NonFile, DotMapping, Lower, EscapeSafe;
    var rest := path[1..];
    var c2 := cfg.(cursor := cfg.cursor + |path[0]| + 1, f := cfg.f.(path := cfg.f.path + [path[0]]));
    assert forall i :: 0 <= i < |rest| ==> rest[i] == path[i + 1];
    ReadsPath(input, c2, rest);
    assert cfg.f.path + [path[0]] + rest[..|rest| - 1] == cfg.f.path + path[..|path| - 1];
  }

  lemma LastSegmentStep(c: Option<char>, cfg: Config, f1: Fields)
    requires c in [None, Some('?'), Some('#')] && cfg.state == RelativePath
    requires f1 == cfg.f.(path := AddSegment(cfg.f.scheme, cfg.f.path, cfg.buffer, false))
    ensures StepRelativePath(c, None, cfg) ==
            if c == Some('?') then Go(cfg.(state := Query, cursor := cfg.cursor + 1, buffer := "", f := f1.(query := "?")))
            else if c == Some('#') then Go(cfg.(state := Fragment, cursor := cfg.cursor + 1, buffer := "", f := f1.(fragment := "#")))
            else Go(cfg.(cursor := cfg.cursor + 1, buffer := "", f := f1))
  {
    hide AddSegment, EncodeComponent;
  }

  lemma RunEnds(input: string, cfg: Config)
    requires WellFormed(input, cfg) && cfg.cursor == |input| + 1
    ensures Runs(input, cfg) == Some(cfg.f)
  {
  }

  /** The last segment, before the query, the fragment or the end. */
  lemma ReadsLastSegment(input: string, f: Fields, cfg: Config)
    requires Normal(f) && WellFormed(input, cfg)
    requires cfg == Config(RelativePath, cfg.cursor, f.path[|f.path| - 1], cfg.seenAt, cfg.seenBracket,
                           Placed(f).(path := f.path[..|f.path| - 1]))
    requires cfg.cursor <= |input| && At(input, cfg.cursor) in [None, Some('?'), Some('#')]
    ensures var f1 := Placed(f).(path := f.path);
            var c := At(input, cfg.cursor);
            var next := if c == Some('?') then cfg.(state := Query, cursor := cfg.cursor + 1, buffer := "", f := f1.(query := "?"))
                        else if c == Some('#') then cfg.(state := Fragment, cursor := cfg.cursor + 1, buffer := "", f := f1.(fragment := "#"))
                        else cfg.(cursor := cfg.cursor + 1, buffer := "", f := f1);
            WellFormed(input, next) && Runs(input, cfg) == Runs(input, next)
  {
    hide Run, DefaultPort, DotMapping, EncodeComponent, Lower, ToDecimal, ParseInt, AddSegment, StepRelativePath, EscapeSafe;
    var last := f.path[|f.path| - 1];
    SegmentPushed(f.scheme, cfg.f.path, last, false);
    assert f.path[..|f.path| - 1] + [last] == f.path;
    var f1 := Placed(f).(path := f.path);
    var c := At(input, cfg.cursor);
    var next := if c == Some('?') then cfg.(state := Query, cursor := cfg.cursor + 1, buffer := "", f := f1.(query := "?"))
                else if c == Some('#') then cfg.(state := Fragment, cursor := cfg.cursor + 1, buffer := "", f := f1.(fragment := "#"))
                else cfg.(cursor := cfg.cursor + 1, buffer := "", f := f1);
    LastSegmentStep(c, cfg, f1);
    RunStep(input, cfg, next);
  }

  /** From the end of the path: the last segment, the query and the fragment, to the end of the input. */
  lemma ReadsEnd(input: string, f: Fields, cfg: Config)
    requires Normal(f) && WellFormed(input, cfg)
    requires cfg == Config(RelativePath, cfg.cursor, f.path[|f.path| - 1], cfg.seenAt, cfg.seenBracket,
                           Placed(f).(path := f.path[..|f.path| - 1]))
    requires Ahead(input, cfg.cursor, f.query) && Ahead(input, cfg.cursor + |f.query|, f.fragment)
    requires cfg.cursor + |f.query| + |f.fragment| == |input|
    ensures Runs(input, cfg) == Some(f)
  {
    hide Run, OneStep, DefaultPort, DotMapping, EncodeComponent, Lower, ToDecimal, ParseInt, EscapeSafe, IsDots, UserOk, PassOk, HostOk, SegmentOk;
    var f1 := Placed(f).(path := f.path);
    if f.query != "" {
      AheadTail(input, cfg.cursor, f.query);
      ReadsLastSegment(input, f, cfg);
      ReadsQuery(input, f, cfg.(state := Query, cursor := cfg.cursor + 1, buffer := "", f := f1.(query := "?")));
    } else if f.fragment != "" {
      AheadTail(input, cfg.cursor, f.fragment);
      ReadsLastSegment(input, f, cfg);
      ReadsFragment(input, f, cfg.(state := Fragment, cursor := cfg.cursor + 1, buffer := "", f := f1.(fragment := "#")));
    } else {
      ReadsLastSegment(input, f, cfg);
      RunEnds(input, cfg.(cursor := cfg.cursor + 1, buffer := "", f := f1));
      assert f1 == f;
    }
  }

  lemma ReadsQuery(input: string, f: Fields, cfg: Config)
    requires Normal(f) && WellFormed(input, cfg) && f.query != ""
    requires cfg.state == Query && cfg.f == Placed(f).(path := f.path, query := "?")
    requires Ahead(input, cfg.cursor, f.query[1..]) && Ahead(input, cfg.cursor + |f.query| - 1, f.fragment)
    requires cfg.cursor + |f.query| - 1 + |f.fragment| == |input|
    ensures Runs(input, cfg) == Some(f)
  {
    hide Run, OneStep, DefaultPort, DotMapping, EncodeComponent, Lower, ToDecimal, ParseInt, EscapeSafe, IsDots;
    hide QuerySafe, UserOk, PassOk, HostOk, SegmentOk, WellFormed;
    ScanQuery(input, cfg, f.query[1..]);
    assert "?" + f.query[1..] == f.query;
    ReadsQueryEnd(input, f, cfg.(cursor := cfg.cursor + |f.query| - 1, f := cfg.f.(query := f.query)));
  }

  lemma ReadsQueryEnd(input: string, f: Fields, cfg: Config)
    requires Normal(f) && WellFormed(input, cfg) && cfg.state == Query && cfg.f == Placed(f).(path := f.path, query := f.query)
    requires Ahead(input, cfg.cursor, f.fragment) && cfg.cursor + |f.fragment| == |input|
    ensures Runs(input, cfg) == Some(f)
  {
    hide DefaultPort, DotMapping, EncodeComponent, Lower, ToDecimal, ParseInt;
    if f.fragment != "" {
      AheadTail(input, cfg.cursor, f.fragment);
      var c1 := cfg.(state := Fragment, cursor := cfg.cursor + 1, f := cfg.f.(fragment := "#"));
      RunStep(input, cfg, c1);
      ReadsFragment(input, f, c1);
    } else {
      RunStep(input, cfg, cfg.(cursor := cfg.cursor + 1));
      assert cfg.f == f;
    }
  }

  lemma ReadsFragment(input: string, f: Fields, cfg: Config)
    requires Normal(f) && WellFormed(input, cfg) && f.fragment != "" && cfg.state == Fragment
    requires cfg.f == Placed(f).(path := f.path, query := f.query, fragment := "#")
    requires Ahead(input, cfg.cursor, f.fragment[1..]) && cfg.cursor + |f.fragment| - 1 == |input|
    ensures Runs(input, cfg) == Some(f)
  {
    hide DefaultPort, DotMapping, EncodeComponent, Lower, ToDecimal, ParseInt;
    ScanFragment(input, cfg, f.fragment[1..]);
    assert "#" + f.fragment[1..] == f.fragment;
    var c1 := cfg.(cursor := |input|, f := cfg.f.(fragment := f.fragment));
    RunStep(input, c1, c1.(cursor := |input| + 1));
    assert c1.f == f;
  }

  // ---------------------------------------------------------------- the whole URL

  /** The printed URL, nested so that each part is followed by the rest. */
  lemma HrefParts(f: Fields)
    requires f.isRelative
    ensures Href(f) == (f.scheme + "://") + (Credentials(f) + (HostAndPort(f) + ("/" + (Glue(f.path, "/") + (f.query + f.fragment)))))
  {
    Regroup(f.scheme, Credentials(f), HostAndPort(f), Glue(f.path, "/"), f.query, f.fragment);
  }

  lemma Regroup(s: string, a: string, h: string, p: string, q: string, r: string)
    ensures s + ":" + ("//" + a + h) + ("/" + p) + q + r == (s + "://") + (a + (h + ("/" + (p + (q + r)))))
  {
    assert s + ":" + ("//" + a + h) == (s + "://") + (a + h);
  }

  /** Where the parts of a printed URL stand in it. */
  ghost predicate Laid(input: string, f: Fields, i: nat, j: nat, k: nat, m: nat) {
    && i == |f.scheme| + 3 && j == i + |Credentials(f)| && k == j + |HostAndPort(f)| && m == k + 1 + |Glue(f.path, "/")|
    && Ahead(input, 0, f.scheme + "://") && Ahead(input, i, Credentials(f)) && Ahead(input, j, HostAndPort(f))
    && k < |input| && input[k] == '/' && Ahead(input, k + 1, Glue(f.path, "/"))
    && Ahead(input, m, f.query) && Ahead(input, m + |f.query|, f.fragment) && m + |f.query| + |f.fragment| == |input|
  }

  lemma AheadSelf(s: string)
    ensures Ahead(s, 0, s)
  {
  }

  lemma LaidIn(f: Fields, input: string, end: string, path: string, place: string) returns (i: nat, j: nat, k: nat, m: nat)
    requires end == f.query + f.fragment && path == Glue(f.path, "/") + end && place == HostAndPort(f) + ("/" + path)
    requires Ahead(input, 0, (f.scheme + "://") + (Credentials(f) + place))
    requires |input| == |f.scheme| + 3 + |Credentials(f)| + |place|
    ensures Laid(input, f, i, j, k, m)
  {
    hide Glue, Credentials, HostAndPort, Ahead;
    i := |f.scheme| + 3;
    j := i + |Credentials(f)|;
    k := j + |HostAndPort(f)|;
    m := k + 1 + |Glue(f.path, "/")|;
    AheadSplit(input, 0, f.scheme + "://", Credentials(f) + place);
    AheadSplit(input, i, Credentials(f), place);
    AheadSplit(input, j, HostAndPort(f), "/" + path);
    SlashThenPath(input, k, path);
    AheadSplit(input, k + 1, Glue(f.path, "/"), end);
    AheadSplit(input, m, f.query, f.fragment);
  }

  lemma SlashThenPath(input: string, k: nat, path: string)
    requires Ahead(input, k, "/" + path)
    ensures k < |input| && input[k] == '/' && Ahead(input, k + 1, path)
  {
    AheadTail(input, k, "/" + path);
    assert ("/" + path)[1..] == path;
  }

  lemma HrefLaid(f: Fields) returns (i: nat, j: nat, k: nat, m: nat)
    requires f.isRelative
    ensures Laid(Href(f), f, i, j, k, m)
  {
    hide Glue, Credentials, HostAndPort, Href, Ahead;
    var end := f.query + f.fragment;
    var path := Glue(f.path, "/") + end;
    var place := HostAndPort(f) + ("/" + path);
    HrefParts(f);
    AheadSelf(Href(f));
    i, j, k, m := LaidIn(f, Href(f), end, path, place);
  }

  /** The run up to the path. */
  lemma ParsesAuthority(f: Fields, input: string, i: nat, j: nat, k: nat, m: nat) returns (seenAt: bool, bracket: bool)
    requires Normal(f) && Laid(input, f, i, j, k, m)
    ensures var next := Config(RelativePathStart, k, "", seenAt, bracket, Placed(f));
            WellFormed(input, next) && Parse(input, None, None, CLEARED) == Runs(input, next)
  {
    hide Run, OneStep, DotMapping, Lower, EscapeSafe, DefaultPort;
    ReadsScheme(input, f.scheme);
    NoSlashFirst(input, f, i);
    HostAndPortChars(f);
    seenAt := ReadsCredentials(input, f, i);
    var c := Config(Authority, j, "", seenAt, false, Named(f));
    PassesAuthority(input, f, c);
    bracket := ReadsHost(input, f, c.(state := Host));
  }

  lemma ReadsFirstSlash(input: string, cfg: Config)
    requires WellFormed(input, cfg) && cfg.state == RelativePathStart && !cfg.f.isInvalid
    requires cfg.cursor < |input| && input[cfg.cursor] == '/'
    ensures var next := cfg.(state := RelativePath, cursor := cfg.cursor + 1);
            WellFormed(input, next) && Runs(input, cfg) == Runs(input, next)
  {
    RunStep(input, cfg, cfg.(state := RelativePath, cursor := cfg.cursor + 1));
  }

  /** The run over the path, up to its last segment. */
  lemma ParsesSegments(f: Fields, input: string, cfg: Config)
    requires Normal(f) && WellFormed(input, cfg)
    requires cfg == Config(RelativePathStart, cfg.cursor, "", cfg.seenAt, cfg.seenBracket, Placed(f))
    requires cfg.cursor < |input| && input[cfg.cursor] == '/' && Ahead(input, cfg.cursor + 1, Glue(f.path, "/"))
    ensures var next := Config(RelativePath, cfg.cursor + 1 + |Glue(f.path, "/")|, f.path[|f.path| - 1], cfg.seenAt, cfg.seenBracket,
                               Placed(f).(path := f.path[..|f.path| - 1]));
            WellFormed(input, next) && Runs(input, cfg) == Runs(input, next)
  {
    hide Run, OneStep, Glue, DefaultPort, DotMapping, EncodeComponent, Lower, ToDecimal, ParseInt, Ahead, EscapeSafe;
    hide UserOk, PassOk, HostOk, WellFormed;
    var c2 := cfg.(state := RelativePath, cursor := cfg.cursor + 1);
    ReadsFirstSlash(input, cfg);
    ReadsPath(input, c2, f.path);
    assert [] + f.path[..|f.path| - 1] == f.path[..|f.path| - 1];
  }

  /** The run from the path on. */
  lemma ParsesPath(f: Fields, input: string, cfg: Config, m: nat)
    requires Normal(f) && WellFormed(input, cfg)
    requires cfg == Config(RelativePathStart, cfg.cursor, "", cfg.seenAt, cfg.seenBracket, Placed(f))
    requires cfg.cursor < |input| && input[cfg.cursor] == '/' && Ahead(input, cfg.cursor + 1, Glue(f.path, "/"))
    requires m == cfg.cursor + 1 + |Glue(f.path, "/")|
    requires Ahead(input, m, f.query) && Ahead(input, m + |f.query|, f.fragment) && m + |f.query| + |f.fragment| == |input|
    ensures Runs(input, cfg) == Some(f)
  {
    hide Run, Glue, Ahead, WellFormed, Located, SegmentsOk, QueryOk, FragmentOk;
    ParsesSegments(f, input, cfg);
    ReadsEnd(input, f, Config(RelativePath, m, f.path[|f.path| - 1], cfg.seenAt, cfg.seenBracket, Placed(f).(path := f.path[..|f.path| - 1])));
  }

  lemma ParsesBack(f: Fields)
    requires Normal(f)
    ensures Parse(Href(f), None, None, CLEARED) == Some(f)
  {
    hide Run, OneStep, Glue, DefaultPort, DotMapping, EncodeComponent, Lower, ToDecimal, ParseInt, Ahead, EscapeSafe, Href;
    var input := Href(f);
    var i, j, k, m := HrefLaid(f);
    var seenAt, bracket := ParsesAuthority(f, input, i, j, k, m);
    ParsesPath(f, input, Config(RelativePathStart, k, "", seenAt, bracket, Placed(f)), m);
  }

  lemma NoSlashFirst(input: string, f: Fields, i: nat)
    requires Located(f) && Ahead(input, i, Credentials(f)) && Ahead(input, i + |Credentials(f)|, HostAndPort(f))
    ensures i < |input| && !IsSlash(input[i])
  {
    HostAndPortChars(f);
    if Credentials(f) != "" {
      AheadTail(input, i, Credentials(f));
      UserIsInAuthority(f);
      assert Credentials(f) == CredentialText(f) + "@";
      if CredentialText(f) != "" {
        assert Credentials(f)[0] == CredentialText(f)[0];
      }
    } else {
      AheadTail(input, i, HostAndPort(f));
    }
  }

  /** The printed URL has nothing to trim. */
  lemma NothingTrimmed(f: Fields)
    requires Normal(f)
    ensures TrimRight(TrimLeft(Href(f))) == Href(f)
  {
    hide Glue, SegmentOk, HostOk, PortOk, UserOk, PassOk, Href, Credentials, HostAndPort, DefaultPort;
    var input := Href(f);
    HrefParts(f);
    SchemeLetters(f.scheme);
    assert input[0] == f.scheme[0];
    var end := Glue(f.path, "/") + (f.query + f.fragment);
    assert input == ((f.scheme + "://") + (Credentials(f) + HostAndPort(f))) + ("/" + end);
    LastChar(f);
    assert input[|input| - 1] == ("/" + end)[|end|];
  }

  lemma LastChar(f: Fields)
    requires SegmentsOk(f.path) && QueryOk(f.query) && FragmentOk(f.fragment)
    ensures var end := "/" + (Glue(f.path, "/") + (f.query + f.fragment)); !IsTrimmed(end[|end| - 1])
  {
    var end := "/" + (Glue(f.path, "/") + (f.query + f.fragment));
    if f.fragment != "" {
      assert end[|end| - 1] == f.fragment[|f.fragment| - 1];
    } else if f.query != "" {
      assert end[|end| - 1] == f.query[|f.query| - 1];
    } else if Glue(f.path, "/") != "" {
      JoinChars(f.path);
      assert end[|end| - 1] == Glue(f.path, "/")[|Glue(f.path, "/")| - 1];
    }
  }

  lemma {:induction false} JoinChars(path: seq<string>)
    requires SegmentsOk(path)
    ensures forall i :: 0 <= i < |Glue(path, "/")| ==> !IsTrimmed(Glue(path, "/")[i])
  {
    if |path| > 1 {
      assert forall i :: 0 <= i < |path[1..]| ==> path[1..][i] == path[i + 1];
      JoinChars(path[1..]);
    }
  }

  /** A URL in normal form is printed as a text that is parsed as the same URL. */
  lemma NormalIsFixpoint(f: Fields)
    requires Normal(f)
    ensures New(Href(f), None) == Some(f)
  {
    NothingTrimmed(f);
    ParsesBack(f);
  }

  /** Printing any URL that has been parsed, and parsing the print without a base, gives the same URL in every
      field: for every text and every base, when the URL is valid, has an authority and is not a file URL. */
  lemma HrefRoundTrip(url: string, base: Option<Fields>)
    requires BaseOk(base)
    ensures var r := New(url, base);
            r.Some? && !r.value.isInvalid && NonFile(r.value.scheme) ==> New(Href(r.value), None) == r
  {
    NewIsNormal(url, base);
    var r := New(url, base);
    if r.Some? && !r.value.isInvalid && NonFile(r.value.scheme) {
      NormalIsFixpoint(r.value);
    }
  }
}
