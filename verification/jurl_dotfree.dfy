/** No parsed path holds a dot segment or an encoded variant of one, for any scheme (webcomponents-lite.js:399-436). */
module JUrlDotFree {
  import opened Options
  import opened Texts
  import opened JUrl
  import opened JUrlNormal
  import opened JUrlPreserve

  ghost predicate DotFree(path: seq<string>) {
    forall i :: 0 <= i < |path| ==> !IsDots(path[i])
  }

  ghost predicate DotFreeBase(base: Option<Fields>) {
    base.Some? ==> DotFree(base.value.path)
  }

  /** No segment that is pushed is a dot segment: a mapped segment is not, and neither is a drive letter. */
  lemma SegmentKeeps(scheme: string, path: seq<string>, buffer: string, slash: bool)
    requires DotFree(path)
    ensures DotFree(AddSegment(scheme, path, buffer, slash))
  {
    hide IsDots;
    NothingIsDots();
    var segment := DotMapping(buffer);
    if segment != ".." && segment != "." {
      PlainIsDots(buffer);
      if |segment| == 2 && IsAlpha(segment[0]) {
        DriveIsDots(segment[0]);
      }
    }
  }

  lemma NothingIsDots()
    ensures !IsDots("")
  {
  }

  lemma PlainIsDots(buffer: string)
    requires DotMapping(buffer) != ".." && DotMapping(buffer) != "."
    ensures DotMapping(buffer) == buffer && !IsDots(buffer)
  {
  }

  lemma DriveIsDots(c: char)
    requires IsAlpha(c)
    ensures !IsDots([c, ':'])
  {
    assert [c, ':'][1..] == [':'] && [':'][1..] == [];
    assert |Lower([c, ':'])| == 2 && Lower([c, ':'])[1] == ':';
  }

  ghost predicate StepDotFree(s: Step) {
    match s
    case Throw => true
    case Break(f) => DotFree(f.path)
    case Go(next) => DotFree(next.f.path)
  }

  lemma EarlyKeeps(input: string, ov: Option<State>, base: Option<Fields>, cfg: Config)
    requires WellFormed(input, cfg) && Running(input, cfg) && DotFree(cfg.f.path) && DotFreeBase(base) && Rank(cfg.state) >= 10
    ensures StepDotFree(OneStep(input, ov, base, cfg))
  {
    hide StepSchemeData, StepRelative, StepAuthority, StepFileHost, StepHost, StepPort, StepRelativePathStart, StepRelativePath;
    hide StepQuery, StepFragment, IsDots, IsRelativeScheme, IsSchemeChar, IsAlpha;
    if cfg.state == Relative {
      RelativeStepKeeps(input, base, cfg);
    }
  }

  lemma LateKeeps(input: string, ov: Option<State>, base: Option<Fields>, cfg: Config)
    requires WellFormed(input, cfg) && Running(input, cfg) && DotFree(cfg.f.path) && Rank(cfg.state) < 10
    ensures StepDotFree(OneStep(input, ov, base, cfg))
  {
    hide StepSchemeStart, StepScheme, StepNoScheme, StepRelativeOrAuthority, StepRelative, StepRelativeSlash;
    hide StepAuthorityFirstSlash, StepAuthoritySecondSlash, StepAuthorityIgnoreSlashes, StepRelativePath;
    hide AddCredentials, SetPort, IsDots, PercentEscape, PercentEscapeQuery, IsTabOrNewline, IsEnd, Lower, IsAlpha, IsDigit;
    if cfg.state == RelativePath {
      PathStepKeeps(At(input, cfg.cursor), ov, cfg);
    } else if cfg.state == Port {
      PortKeeps(cfg.f, cfg.buffer);
    }
  }

  lemma PortKeeps(f: Fields, digits: string)
    requires forall i :: 0 <= i < |digits| ==> IsDigit(digits[i])
    ensures SetPort(f, digits).path == f.path
  {
  }

  lemma PathStepKeeps(c: Option<char>, ov: Option<State>, cfg: Config)
    requires DotFree(cfg.f.path)
    ensures StepDotFree(StepRelativePath(c, ov, cfg))
  {
    hide IsDots, AddSegment, PercentEscape;
    SegmentKeeps(cfg.f.scheme, cfg.f.path, cfg.buffer, SlashAt(c));
  }

  lemma RelativeStepKeeps(input: string, base: Option<Fields>, cfg: Config)
    requires DotFree(cfg.f.path) && DotFreeBase(base)
    ensures StepDotFree(StepRelative(input, base, cfg))
  {
    hide IsDots, DriveLetterAt;
  }

  lemma {:induction false} RunDotFree(input: string, ov: Option<State>, base: Option<Fields>, cfg: Config)
    requires WellFormed(input, cfg) && DotFree(cfg.f.path) && DotFreeBase(base)
    ensures var r := Run(input, ov, base, cfg); r.Some? ==> DotFree(r.value.path)
    decreases Rank(cfg.state), |input| + 1 - cfg.cursor
  {
    hide OneStep, DotFree;
    if Running(input, cfg) {
      Progress(input, ov, base, cfg);
      if Rank(cfg.state) >= 10 {
        EarlyKeeps(input, ov, base, cfg);
      } else {
        LateKeeps(input, ov, base, cfg);
      }
      var s := OneStep(input, ov, base, cfg);
      if s.Go? {
        RunDotFree(input, ov, base, s.cfg);
      }
    }
  }

  /** Whatever the text, the state the parser starts in, and the fields and base, as long as these are free of dot
      segments: so is the result. */
  lemma ParseIsDotFree(input: string, ov: Option<State>, base: Option<Fields>, f: Fields)
    requires DotFree(f.path) && DotFreeBase(base)
    ensures var r := Parse(input, ov, base, f); r.Some? ==> DotFree(r.value.path)
  {
    RunDotFree(input, ov, base, Config(JUrl.Start(ov), 0, "", false, false, f));
  }

  /** Every URL that any chain of resolutions reaches, file URLs included. */
  lemma {:induction false} EveryUrlIsDotFree(urls: seq<string>)
    ensures DotFreeBase(Resolve(urls))
  {
    hide Parse, DotFree;
    NoPath();
    if |urls| == 1 {
      ParseIsDotFree(TrimRight(TrimLeft(urls[0])), None, None, CLEARED);
    } else if |urls| > 1 {
      EveryUrlIsDotFree(urls[..|urls| - 1]);
      ParseIsDotFree(TrimRight(TrimLeft(urls[|urls| - 1])), None, Resolve(urls[..|urls| - 1]), CLEARED);
    }
  }

  lemma NoPath()
    ensures DotFree([])
  {
  }
}
