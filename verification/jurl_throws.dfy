/** On which texts the URL parser ends in an exception (webcomponents-lite.js:167, 199-244). */
module JUrlThrows {
  import opened Options
  import opened JUrl
  import opened JUrlDots

  /** The first question mark or hash of a text. */
  function FirstMark(s: string): Option<char> {
    if s == "" then None else if s[0] == '?' || s[0] == '#' then Some(s[0]) else FirstMark(s[1..])
  }

  /** A scheme without authority and then a question mark, or a file URL that needs a base where there is none. */
  predicate ThrowsAfter(scheme: string, rest: string, base: Option<Fields>) {
    || (!IsRelativeScheme(scheme) && FirstMark(rest) == Some('?'))
    || (scheme == "file" && base.None? && (rest == "" || (!IsSlash(rest[0]) && !DriveLetterAt(rest, 0))))
  }

  /** The text opens with a scheme of `n` characters after which the parser fails. */
  ghost predicate Throws(input: string, base: Option<Fields>) {
    exists n: nat :: SchemeIs(input, n) && ThrowsAfter(Lower(input[..n]), input[n + 1..], base)
  }

  // ---------------------------------------------------------------- states that never fail

  /** From the authority on nothing fails. */
  predicate Quiet(s: State) {
    Rank(s) <= 12 && s != SchemeData
  }

  lemma QuietAuthority(input: string, ov: Option<State>, base: Option<Fields>, cfg: Config)
    requires WellFormed(input, cfg) && Running(input, cfg) && Rank(cfg.state) > 6 && Quiet(cfg.state)
    ensures var s := OneStep(input, ov, base, cfg); s != Throw && (s.Go? ==> Quiet(s.cfg.state))
  {
    hide AddCredentials, SetHost, StepPort, StepRelativePathStart, StepRelativePath, StepQuery, StepFragment;
    hide StepSchemeStart, StepScheme, StepSchemeData, StepNoScheme, StepRelativeOrAuthority, StepRelative, StepRelativeSlash;
  }

  lemma QuietPath(input: string, ov: Option<State>, base: Option<Fields>, cfg: Config)
    requires WellFormed(input, cfg) && Running(input, cfg) && Rank(cfg.state) <= 6 && Quiet(cfg.state)
    ensures var s := OneStep(input, ov, base, cfg); s != Throw && (s.Go? ==> Quiet(s.cfg.state))
  {
    hide SetPort, AddSegment, PercentEscape, PercentEscapeQuery, StepAuthorityFirstSlash, StepAuthoritySecondSlash;
    hide StepAuthorityIgnoreSlashes, StepAuthority, StepFileHost, StepHost;
    hide StepSchemeStart, StepScheme, StepSchemeData, StepNoScheme, StepRelativeOrAuthority, StepRelative, StepRelativeSlash;
  }

  lemma {:induction false} RunsQuietly(input: string, ov: Option<State>, base: Option<Fields>, cfg: Config)
    requires WellFormed(input, cfg) && Quiet(cfg.state)
    ensures Run(input, ov, base, cfg).Some?
    decreases Rank(cfg.state), |input| + 1 - cfg.cursor
  {
    hide OneStep, Quiet;
    if Running(input, cfg) {
      Progress(input, ov, base, cfg);
      if Rank(cfg.state) > 6 {
        QuietAuthority(input, ov, base, cfg);
      } else {
        QuietPath(input, ov, base, cfg);
      }
      var s := OneStep(input, ov, base, cfg);
      if s.Go? {
        RunsQuietly(input, ov, base, s.cfg);
      }
    }
  }

  // ---------------------------------------------------------------- the states that may fail

  lemma {:induction false} RunsData(input: string, base: Option<Fields>, cfg: Config)
    requires WellFormed(input, cfg) && cfg.state == SchemeData && cfg.cursor <= |input| && !cfg.f.isInvalid
    ensures Run(input, None, base, cfg) == None <==> FirstMark(input[cfg.cursor..]) == Some('?')
    decreases |input| + 1 - cfg.cursor
  {
    hide DefaultPort, DotMapping, EncodeComponent, EscapeSafe, Lower, ToDecimal, ParseInt;
    Progress(input, None, base, cfg);
    var s := OneStep(input, None, base, cfg);
    if cfg.cursor < |input| {
      assert input[cfg.cursor..][0] == input[cfg.cursor] && input[cfg.cursor..][1..] == input[cfg.cursor + 1..];
      if input[cfg.cursor] == '#' {
        RunsQuietly(input, None, base, s.cfg);
      } else if input[cfg.cursor] != '?' {
        RunsData(input, base, s.cfg);
      }
    }
  }

  /** In a file URL without a base: the rest of the text starts neither with a slash nor with a drive letter. */
  lemma RunsRelative(input: string, base: Option<Fields>, cfg: Config)
    requires WellFormed(input, cfg) && cfg.state == Relative && cfg.cursor <= |input| && !cfg.f.isInvalid
    requires base.Some? || cfg.f.scheme == "file"
    ensures Run(input, None, base, cfg) == None <==>
              base.None? && (cfg.cursor == |input| || (!IsSlash(input[cfg.cursor]) && !DriveLetterAt(input, cfg.cursor)))
  {
    hide DefaultPort, DotMapping, EncodeComponent, EscapeSafe, Lower, ToDecimal, ParseInt;
    Progress(input, None, base, cfg);
    var s := OneStep(input, None, base, cfg);
    if s.Go? && s.cfg.state == RelativeSlash {
      RunsSlash(input, base, s.cfg);
    } else if s.Go? {
      RunsQuietly(input, None, base, s.cfg);
    }
  }

  lemma RunsSlash(input: string, base: Option<Fields>, cfg: Config)
    requires WellFormed(input, cfg) && cfg.state == RelativeSlash
    requires base.Some? || cfg.f.scheme == "file"
    ensures Run(input, None, base, cfg).Some?
  {
    hide DefaultPort, DotMapping, EncodeComponent, EscapeSafe, Lower, ToDecimal, ParseInt;
    if Running(input, cfg) {
      Progress(input, None, base, cfg);
      RunsQuietly(input, None, base, OneStep(input, None, base, cfg).cfg);
    }
  }

  /** A text without a scheme is invalid or resolved against the base. */
  lemma RunsWithoutScheme(input: string, base: Option<Fields>)
    requires !HasScheme(input)
    ensures Parse(input, None, base, CLEARED).Some?
  {
    hide DefaultPort, DotMapping, EncodeComponent, EscapeSafe, Lower, ToDecimal, ParseInt;
    var cfg := Config(NoScheme, 0, "", false, false, CLEARED);
    RunsNoScheme(input, base, Config(SchemeStart, 0, "", false, false, CLEARED));
    Progress(input, None, base, cfg);
    var s := OneStep(input, None, base, cfg);
    if s.cfg.state == Relative {
      RunsRelative(input, base, s.cfg);
    } else {
      assert Run(input, None, base, s.cfg) == Some(s.cfg.f);
    }
  }

  // ---------------------------------------------------------------- the scheme

  lemma {:induction false} LowerConcat(a: string, b: string)
    ensures Lower(a + b) == Lower(a) + Lower(b)
  {
    if a == [] {
      assert a + b == b;
    } else {
      assert (a + b)[1..] == a[1..] + b;
      LowerConcat(a[1..], b);
    }
  }

  lemma LowerNext(input: string, i: nat)
    requires i < |input|
    ensures Lower(input[..i + 1]) == Lower(input[..i]) + [LowerChar(input[i])]
  {
    LowerConcat(input[..i], [input[i]]);
    assert input[..i + 1] == input[..i] + [input[i]];
    assert [input[i]][1..] == [];
  }

  lemma LowerNothing(input: string)
    ensures Lower(input[..0]) == ""
  {
  }

  /** The scheme is read, in lower case, up to its colon. */
  lemma {:induction false} RunsScheme(input: string, base: Option<Fields>, cfg: Config, n: nat)
    requires WellFormed(input, cfg) && SchemeIs(input, n) && cfg.cursor <= n && !cfg.f.isInvalid
    requires if cfg.cursor == 0 then cfg.state == SchemeStart && cfg.buffer == "" else cfg.state == Scheme
    requires cfg.buffer == Lower(input[..cfg.cursor])
    ensures var c := cfg.(state := Scheme, cursor := n, buffer := Lower(input[..n]));
            WellFormed(input, c) && Run(input, None, base, cfg) == Run(input, None, base, c)
    decreases n - cfg.cursor
  {
    hide Run, Lower, DefaultPort, DotMapping, EncodeComponent, EscapeSafe, ToDecimal, ParseInt, LowerChar;
    if cfg.cursor < n {
      LowerNext(input, cfg.cursor);
      var next := cfg.(state := Scheme, cursor := cfg.cursor + 1, buffer := Lower(input[..cfg.cursor + 1]));
      StepsOn(input, base, cfg, next);
      RunsScheme(input, base, next, n);
    }
  }

  lemma RunsRelativeOrAuthority(input: string, base: Option<Fields>, cfg: Config)
    requires WellFormed(input, cfg) && cfg.state == RelativeOrAuthority && cfg.cursor <= |input| && !cfg.f.isInvalid && base.Some?
    ensures Run(input, None, base, cfg).Some?
  {
    hide DefaultPort, DotMapping, EncodeComponent, EscapeSafe, Lower, ToDecimal, ParseInt;
    Progress(input, None, base, cfg);
    var s := OneStep(input, None, base, cfg);
    if s.cfg.state == Relative {
      RunsRelative(input, base, s.cfg);
    } else {
      RunsQuietly(input, None, base, s.cfg);
    }
  }

  /** Where the parser is after the colon of a scheme. */
  function AfterColon(n: nat, scheme: string, base: Option<Fields>): Config {
    var state := if scheme == "file" then Relative
                 else if IsRelativeScheme(scheme) && base.Some? && base.value.scheme == scheme then RelativeOrAuthority
                 else if IsRelativeScheme(scheme) then AuthorityFirstSlash
                 else SchemeData;
    Config(state, n + 1, "", false, false, CLEARED.(scheme := scheme, isRelative := IsRelativeScheme(scheme)))
  }

  lemma ReadsColonOf(input: string, base: Option<Fields>, n: nat, scheme: string)
    requires SchemeIs(input, n)
    ensures var cfg := Config(Scheme, n, scheme, false, false, CLEARED);
            var next := AfterColon(n, scheme, base);
            WellFormed(input, cfg) && WellFormed(input, next) && Run(input, None, base, cfg) == Run(input, None, base, next)
  {
    hide Run, DefaultPort, DotMapping, EncodeComponent, EscapeSafe, Lower, ToDecimal, ParseInt;
    FileIsRelative();
    StepsOn(input, base, Config(Scheme, n, scheme, false, false, CLEARED), AfterColon(n, scheme, base));
  }

  lemma FileIsRelative()
    ensures IsRelativeScheme("file")
  {
  }

  lemma DriveLetterIn(input: string, i: nat)
    requires i <= |input|
    ensures DriveLetterAt(input, i) == DriveLetterAt(input[i..], 0)
  {
    assert forall k: nat :: At(input[i..], k) == At(input, i + k);
  }

  lemma RunsAfterColon(input: string, base: Option<Fields>, n: nat, scheme: string)
    requires SchemeIs(input, n)
    ensures var cfg := AfterColon(n, scheme, base);
            WellFormed(input, cfg) && (Run(input, None, base, cfg) == None <==> ThrowsAfter(scheme, input[n + 1..], base))
  {
    hide Run, DefaultPort, IsSlash, DriveLetterAt;
    var cfg := AfterColon(n, scheme, base);
    FileIsRelative();
    DriveLetterIn(input, n + 1);
    if cfg.state == Relative {
      RunsRelative(input, base, cfg);
    } else if cfg.state == RelativeOrAuthority {
      RunsRelativeOrAuthority(input, base, cfg);
    } else if cfg.state == SchemeData {
      RunsData(input, base, cfg);
    } else {
      RunsQuietly(input, None, base, cfg);
    }
  }

  /** No text has two schemes. */
  lemma SchemeIsUnique(input: string, m: nat, n: nat)
    requires SchemeIs(input, m) && SchemeIs(input, n)
    ensures m == n
  {
  }

  /** The parser, started on cleared fields, ends in an exception exactly on these texts and bases. */
  lemma ThrowsIff(input: string, base: Option<Fields>)
    ensures Parse(input, None, base, CLEARED) == None <==> Throws(input, base)
  {
    hide Run, ThrowsAfter, Lower;
    if !HasScheme(input) {
      RunsWithoutScheme(input, base);
    } else {
      var n: nat :| SchemeIs(input, n);
      var scheme := Lower(input[..n]);
      LowerNothing(input);
      RunsScheme(input, base, Config(SchemeStart, 0, "", false, false, CLEARED), n);
      ReadsColonOf(input, base, n, scheme);
      RunsAfterColon(input, base, n, scheme);
      forall m: nat | SchemeIs(input, m)
        ensures m == n
      {
        SchemeIsUnique(input, m, n);
      }
    }
  }

  /** Two texts on which the parser fails: a question mark after a scheme without authority, and a file URL of nothing
      else. */
  lemma ThrowsOn()
    ensures Parse("a:?", None, None, CLEARED) == None
    ensures Parse("file:", None, None, CLEARED) == None
  {
    hide Parse, DefaultPort;
    NoAuthority();
    ThrowsIff("a:?", None);
    assert SchemeIs("a:?", 1) && "a:?"[..1] == "a" && "a:?"[2..] == "?";
    ThrowsIff("file:", None);
    assert SchemeIs("file:", 4) && "file:"[..4] == "file" && "file:"[5..] == "";
  }

  lemma NoAuthority()
    ensures !IsRelativeScheme(Lower("a")) && Lower("a") == "a" && Lower("file") == "file"
  {
    LowerConcat("fi", "le");
    assert "fi" + "le" == "file";
  }

  /** The states in which the setters of single components start the parser. */
  predicate StartsSetter(s: State) {
    s == SchemeStart || s == Host || s == Hostname || s == Port || s == RelativePathStart || s == Query || s == Fragment
  }

  lemma {:induction false} RunsOverScheme(input: string, ov: State, base: Option<Fields>, cfg: Config)
    requires WellFormed(input, cfg) && cfg.state in {SchemeStart, Scheme}
    ensures Run(input, Some(ov), base, cfg).Some?
    decreases Rank(cfg.state), |input| + 1 - cfg.cursor
  {
    hide DefaultPort, Lower;
    if Running(input, cfg) {
      Progress(input, Some(ov), base, cfg);
      var s := OneStep(input, Some(ov), base, cfg);
      if s.Go? {
        RunsOverScheme(input, ov, base, s.cfg);
      }
    }
  }

  /** No setter of a single component ends in an exception, on any text and any fields. */
  lemma SettersNeverThrow(input: string, ov: State, base: Option<Fields>, f: Fields)
    requires StartsSetter(ov)
    ensures Parse(input, Some(ov), base, f).Some?
  {
    hide Run;
    var cfg := Config(ov, 0, "", false, false, f);
    if ov == SchemeStart {
      RunsOverScheme(input, ov, base, cfg);
    } else {
      RunsQuietly(input, Some(ov), base, cfg);
    }
  }
}
