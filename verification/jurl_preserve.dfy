/** Every round of the URL parser keeps the invariant, so every URL with an authority comes out in normal form. */
module JUrlPreserve {
  import opened Options
  import opened Texts
  import opened JUrl
  import opened JUrlNormal

  // ---------------------------------------------------------------- texts

  predicate HexOrPercent(c: char) {
    c == '%' || IsDigit(c) || 'A' <= c <= 'F'
  }

  ghost predicate AllHex(s: string) {
    forall i :: 0 <= i < |s| ==> HexOrPercent(s[i])
  }

  lemma AllHexConcat(a: string, b: string)
    requires AllHex(a) && AllHex(b)
    ensures AllHex(a + b)
  {
  }

  lemma PercentByteChars(n: nat)
    requires n < 256
    ensures AllHex(PercentByte(n))
  {
  }

  lemma TwoBytes(a: nat, b: nat)
    requires a < 256 && b < 256
    ensures AllHex(PercentByte(a) + PercentByte(b))
  {
    PercentByteChars(a);
    PercentByteChars(b);
    AllHexConcat(PercentByte(a), PercentByte(b));
  }

  lemma EncodeComponentChars(c: char)
    ensures AllHex(EncodeComponent(c))
  {
    hide AllHex, PercentByte;
    var n := c as nat;
    if n < 0x80 {
      PercentByteChars(n);
    } else if n < 0x800 {
      TwoBytes(0xC0 + n / 0x40, 0x80 + n % 0x40);
    } else if n < 0x1_0000 {
      TwoBytes(0xE0 + n / 0x1000, 0x80 + n / 0x40 % 0x40);
      PercentByteChars(0x80 + n % 0x40);
      AllHexConcat(PercentByte(0xE0 + n / 0x1000) + PercentByte(0x80 + n / 0x40 % 0x40), PercentByte(0x80 + n % 0x40));
    } else {
      var front := PercentByte(0xF0 + n / 0x4_0000) + PercentByte(0x80 + n / 0x1000 % 0x40);
      TwoBytes(0xF0 + n / 0x4_0000, 0x80 + n / 0x1000 % 0x40);
      PercentByteChars(0x80 + n / 0x40 % 0x40);
      AllHexConcat(front, PercentByte(0x80 + n / 0x40 % 0x40));
      PercentByteChars(0x80 + n % 0x40);
      AllHexConcat(front + PercentByte(0x80 + n / 0x40 % 0x40), PercentByte(0x80 + n % 0x40));
    }
  }

  lemma EscapedChars(c: char)
    ensures forall i :: 0 <= i < |PercentEscape(c)| ==>
              HexOrPercent(PercentEscape(c)[i]) || (PercentEscape(c)[i] == c && EscapeSafe(c))
    ensures forall i :: 0 <= i < |PercentEscapeQuery(c)| ==>
              HexOrPercent(PercentEscapeQuery(c)[i]) || (PercentEscapeQuery(c)[i] == c && QuerySafe(c))
  {
    EncodeComponentChars(c);
  }

  lemma HexIsSafe(c: char)
    requires HexOrPercent(c)
    ensures UserChar(c) && PassChar(c) && SegChar(c) && QuerySafe(c)
  {
  }

  lemma {:induction false} LowerAppend(s: string, c: char)
    ensures Lower(s + [c]) == Lower(s) + [LowerChar(c)]
  {
    if s == [] {
      assert ([] + [c])[1..] == [];
    } else {
      assert (s + [c])[1..] == s[1..] + [c];
      LowerAppend(s[1..], c);
    }
  }

  lemma {:induction false} LowerChars(s: string)
    ensures |Lower(s)| == |s| && forall i :: 0 <= i < |s| ==> Lower(s)[i] == LowerChar(s[i])
  {
    if s != [] {
      LowerChars(s[1..]);
      assert forall i :: 1 <= i < |s| ==> s[i] == s[1..][i - 1] && Lower(s)[i] == Lower(s[1..])[i - 1];
    }
  }

  lemma LowerTwice(s: string)
    ensures Lower(Lower(s)) == Lower(s)
  {
    LowerChars(s);
    LowerChars(Lower(s));
  }

  lemma {:induction false} BracketsLower(s: string)
    ensures Brackets(Lower(s)) == Brackets(s)
  {
    if s != [] {
      var front, c := s[..|s| - 1], s[|s| - 1];
      BracketsLower(front);
      assert s == front + [c];
      LowerAppend(front, c);
      assert Lower(s)[..|Lower(s)| - 1] == Lower(front);
    }
  }

  lemma BracketsAppend(s: string, c: char)
    ensures Brackets(s + [c]) ==
            match Brackets(s)
            case None => None
            case Some(inside) =>
              if c == ':' && !inside then None else Some(if c == '[' then true else if c == ']' then false else inside)
  {
    assert (s + [c])[..|s + [c]| - 1] == s;
  }

  lemma HostIsOk(buffer: string)
    requires RawOk(buffer) && buffer != "" && Brackets(buffer).Some?
    ensures HostOk(Lower(buffer)) && Brackets(Lower(buffer)) == Brackets(buffer)
  {
    LowerTwice(buffer);
    LowerChars(buffer);
    BracketsLower(buffer);
  }

  // ---------------------------------------------------------------- credentials

  lemma {:induction false} CredentialsOk(buffer: string, u: string, p: Option<string>)
    requires forall i :: 0 <= i < |buffer| ==> !IsEnd(buffer[i]) && buffer[i] != '@'
    requires UserOk(u) && PassOk(p)
    ensures UserOk(AddCredentials(buffer, u, p).0) && PassOk(AddCredentials(buffer, u, p).1)
    decreases |buffer|
  {
    if buffer != [] {
      var c := buffer[0];
      if IsTabOrNewline(c) {
        CredentialsOk(buffer[1..], u, p);
      } else if c == ':' && p.None? {
        CredentialsOk(buffer[1..], u, Some(""));
      } else {
        EscapedIsOk(c);
        match p
        case Some(p') => CredentialsOk(buffer[1..], u, Some(p' + PercentEscape(c)));
        case None => CredentialsOk(buffer[1..], u + PercentEscape(c), None);
      }
    }
  }

  lemma EscapedIsOk(c: char)
    requires !IsEnd(c) && c != '@'
    ensures forall i :: 0 <= i < |PercentEscape(c)| ==> PassChar(PercentEscape(c)[i]) && SegChar(PercentEscape(c)[i])
    ensures c != ':' ==> forall i :: 0 <= i < |PercentEscape(c)| ==> UserChar(PercentEscape(c)[i])
  {
    EscapedChars(c);
    forall i | 0 <= i < |PercentEscape(c)| && HexOrPercent(PercentEscape(c)[i])
      ensures UserChar(PercentEscape(c)[i])
    {
      HexIsSafe(PercentEscape(c)[i]);
    }
  }

  // ---------------------------------------------------------------- ports

  lemma {:induction false} DecimalRoundTrip(n: nat)
    ensures Digits(ToDecimal(n)) && ToDecimal(n) != "" && ParseInt(ToDecimal(n)) == n
  {
    if n < 10 {
      assert ToDecimal(n)[..0] == [];
    } else {
      DecimalRoundTrip(n / 10);
      var front := ToDecimal(n / 10);
      assert ToDecimal(n)[..|front|] == front;
    }
  }

  lemma PortIsOk(f: Fields, digits: string)
    requires Digits(digits) && f.port == "" && Brackets(f.host) == Some(false)
    ensures PortOk(SetPort(f, digits)) && SetPort(f, digits) == f.(port := SetPort(f, digits).port)
  {
    if digits != "" {
      DecimalRoundTrip(ParseInt(digits));
    }
  }

  // ---------------------------------------------------------------- paths

  lemma SegmentAdded(scheme: string, path: seq<string>, buffer: string, slash: bool)
    requires NonFile(scheme) && SegmentsOk(path) && forall i :: 0 <= i < |buffer| ==> SegChar(buffer[i])
    ensures SegmentsOk(AddSegment(scheme, path, buffer, slash))
    ensures !slash ==> AddSegment(scheme, path, buffer, slash) != []
  {
    assert SegmentOk("");
    var segment := DotMapping(buffer);
    if segment != ".." && segment != "." {
      assert segment == buffer && SegmentOk(buffer);
    }
  }

  // ---------------------------------------------------------------- the rounds

  /** What a round may rely on. */
  ghost predicate Ready(input: string, base: Option<Fields>, cfg: Config) {
    && Trimmed(input) && BaseOk(base)
    && WellFormed(input, cfg) && Running(input, cfg) && Inv(input, base, cfg) && !Outside(cfg.f)
  }

  lemma KeepsScheme(input: string, base: Option<Fields>, cfg: Config)
    requires Ready(input, base, cfg) && cfg.state in {SchemeStart, Scheme}
    ensures StepOk(input, base, OneStep(input, None, base, cfg))
  {
    hide DotMapping, EncodeComponent, Lower, ToDecimal, ParseInt, Run, EscapeSafe;
  }

  lemma KeepsNoScheme(input: string, base: Option<Fields>, cfg: Config)
    requires Ready(input, base, cfg) && cfg.state in {NoScheme, RelativeOrAuthority}
    ensures StepOk(input, base, OneStep(input, None, base, cfg))
  {
    hide DotMapping, EncodeComponent, Lower, ToDecimal, ParseInt, Run, EscapeSafe;
  }

  lemma CopiedIsLocated(f: Fields, b: Fields)
    requires Normal(b) && f.scheme == b.scheme && f.isRelative && !f.isInvalid && f.schemeData == ""
    ensures Located(CopyAuthority(f, b))
  {
    hide DefaultPort, DotMapping, EncodeComponent, Lower, ToDecimal, ParseInt, Run;
  }

  /** The fields once the scheme is that of the base. */
  function Based(f: Fields, b: Fields): Fields {
    f.(isRelative := true, scheme := b.scheme)
  }

  lemma RelativeStep(input: string, b: Fields, cfg: Config)
    requires cfg.state == Relative && cfg.f.scheme != "file" && b.scheme != "file" && cfg.cursor <= |input|
    ensures var c := At(input, cfg.cursor);
            var f1 := Based(cfg.f, b);
            var f2 := CopyAuthority(f1, b).(path := b.path);
            StepRelative(input, Some(b), cfg) ==
            if c.None? then Break(f2.(query := b.query))
            else if IsSlash(c.value) then Advance(cfg.(f := f1, state := RelativeSlash))
            else if c.value == '?' then Advance(cfg.(f := f2.(query := "?"), state := Query))
            else if c.value == '#' then Advance(cfg.(f := f2.(query := b.query, fragment := "#"), state := Fragment))
            else Go(cfg.(f := CopyAuthority(f1, b).(path := DropLast(b.path)), state := RelativePath))
  {
    hide DefaultPort, DotMapping, EncodeComponent, Lower, ToDecimal, ParseInt, Run;
  }

  lemma RelativeFile(input: string, b: Fields, cfg: Config)
    requires cfg.state == Relative && cfg.f == CLEARED && b.scheme == "file" && cfg.cursor <= |input|
    ensures match StepRelative(input, Some(b), cfg)
            case Throw => true
            case Break(f) => f.scheme == "file"
            case Go(cfg') => cfg'.f.scheme == "file" && cfg'.cursor <= cfg.cursor + 1 && cfg'.seenBracket == cfg.seenBracket
                             && cfg'.state in {RelativeSlash, RelativePath, Query, Fragment}
  {
    hide DefaultPort, DotMapping, EncodeComponent, Lower, ToDecimal, ParseInt, Run;
  }

  lemma KeepsRelativeOn(input: string, b: Fields, cfg: Config)
    requires Ready(input, Some(b), cfg) && cfg.state == Relative && b.scheme != "file" && !EndsAt(At(input, cfg.cursor))
    ensures StepOk(input, Some(b), StepRelative(input, Some(b), cfg))
  {
    hide DefaultPort, DotMapping, EncodeComponent, Lower, ToDecimal, ParseInt, Run;
    RelativeStep(input, b, cfg);
    var f := CopyAuthority(Based(cfg.f, b), b).(path := DropLast(b.path));
    CopiedIsLocated(Based(cfg.f, b), b);
    assert BeforeQuery(f);
    assert OnTrack(input, Some(b), cfg.(f := f, state := RelativePath));
  }

  /** The fields of the base without its query, for a reference that keeps its path. */
  lemma SamePath(f: Fields, b: Fields)
    requires Untouched(f) && Normal(b)
    ensures var f2 := CopyAuthority(Based(f, b), b).(path := b.path);
            && Located(f2) && f2.query == "" && f2.fragment == ""
            && Normal(f2.(query := b.query)) && f2.path == b.path
  {
    hide DefaultPort, DotMapping, EncodeComponent, Lower, ToDecimal, ParseInt, Run;
    CopiedIsLocated(Based(f, b), b);
  }

  lemma KeepsRelativeQuery(input: string, b: Fields, cfg: Config)
    requires Ready(input, Some(b), cfg) && cfg.state == Relative && b.scheme != "file" && At(input, cfg.cursor) == Some('?')
    ensures StepOk(input, Some(b), StepRelative(input, Some(b), cfg))
  {
    hide DefaultPort, DotMapping, EncodeComponent, Lower, ToDecimal, ParseInt, Run, EscapeSafe, IsDots;
    RelativeStep(input, b, cfg);
    SamePath(cfg.f, b);
    assert QueryOk("?");
  }

  lemma KeepsRelativeSame(input: string, b: Fields, cfg: Config)
    requires Ready(input, Some(b), cfg) && cfg.state == Relative && b.scheme != "file"
    requires EndsAt(At(input, cfg.cursor)) && At(input, cfg.cursor) != Some('?') && !SlashAt(At(input, cfg.cursor))
    ensures StepOk(input, Some(b), StepRelative(input, Some(b), cfg))
  {
    hide DefaultPort, DotMapping, EncodeComponent, Lower, ToDecimal, ParseInt, Run, UserOk, PassOk, HostOk;
    hide EscapeSafe, IsDots, RelativeRest, StepRelative;
    RelativeStep(input, b, cfg);
    SamePath(cfg.f, b);
    assert FragmentChars("#");
  }

  lemma KeepsRelativeOneSlash(input: string, b: Fields, cfg: Config)
    requires Ready(input, Some(b), cfg) && cfg.state == Relative && b.scheme != "file" && SlashAt(At(input, cfg.cursor))
    ensures StepOk(input, Some(b), StepRelative(input, Some(b), cfg))
  {
    hide DefaultPort, DotMapping, EncodeComponent, Lower, ToDecimal, ParseInt, Run, RelativeRest, StepRelative, EscapeSafe;
    RelativeStep(input, b, cfg);
    assert Early(Based(cfg.f, b));
  }

  lemma KeepsRelative(input: string, base: Option<Fields>, cfg: Config)
    requires Ready(input, base, cfg) && cfg.state == Relative
    ensures StepOk(input, base, OneStep(input, None, base, cfg))
  {
    hide DefaultPort, DotMapping, EncodeComponent, Lower, ToDecimal, ParseInt, Run;
    if base.value.scheme == "file" {
      RelativeFile(input, base.value, cfg);
    } else if At(input, cfg.cursor) == Some('?') {
      KeepsRelativeQuery(input, base.value, cfg);
    } else if SlashAt(At(input, cfg.cursor)) {
      KeepsRelativeOneSlash(input, base.value, cfg);
    } else if EndsAt(At(input, cfg.cursor)) {
      KeepsRelativeSame(input, base.value, cfg);
    } else {
      KeepsRelativeOn(input, base.value, cfg);
    }
  }

  lemma KeepsRelativeSlash(input: string, base: Option<Fields>, cfg: Config)
    requires Ready(input, base, cfg) && cfg.state == RelativeSlash
    ensures StepOk(input, base, OneStep(input, None, base, cfg))
  {
    hide DefaultPort, DotMapping, EncodeComponent, Lower, ToDecimal, ParseInt, Run;
    CopiedIsLocated(cfg.f, base.value);
  }

  lemma KeepsSlashes(input: string, base: Option<Fields>, cfg: Config)
    requires Ready(input, base, cfg) && cfg.state in {AuthorityFirstSlash, AuthoritySecondSlash, AuthorityIgnoreSlashes}
    ensures StepOk(input, base, OneStep(input, None, base, cfg))
  {
    hide DefaultPort, DotMapping, EncodeComponent, Lower, ToDecimal, ParseInt, Run;
  }

  lemma KeepsAuthority(input: string, base: Option<Fields>, cfg: Config)
    requires Ready(input, base, cfg) && cfg.state == Authority
    ensures StepOk(input, base, OneStep(input, None, base, cfg))
  {
    hide DefaultPort, DotMapping, EncodeComponent, Lower, ToDecimal, ParseInt, Run;
    var c := At(input, cfg.cursor);
    if c == Some('@') {
      CredentialsOk(if cfg.seenAt then cfg.buffer + "%40" else cfg.buffer, cfg.f.username, cfg.f.password);
    } else if EndsAt(c) {
      var start := cfg.cursor - |cfg.buffer|;
      forall k | start <= k < |input| && input[k] == '@'
        ensures exists j :: start <= j < k && IsEnd(input[j])
      {
        assert k >= cfg.cursor by {
          assert forall i :: 0 <= i < |cfg.buffer| ==> input[start + i] == cfg.buffer[i];
        }
        assert IsEnd(input[cfg.cursor]) && cfg.cursor < k;
      }
    }
  }

  lemma HostSet(f: Fields, buffer: string)
    requires BeforeHost(f) && RawOk(buffer) && Brackets(buffer).Some? && buffer != ""
    ensures Located(SetHost(f, buffer)) && Brackets(SetHost(f, buffer).host) == Brackets(buffer)
    ensures SetHost(f, buffer) == f.(host := Lower(buffer))
  {
    HostIsOk(buffer);
  }

  lemma KeepsHostEnd(input: string, base: Option<Fields>, cfg: Config)
    requires Ready(input, base, cfg) && cfg.state == Host
    requires EndsAt(At(input, cfg.cursor)) || (At(input, cfg.cursor) == Some(':') && !cfg.seenBracket)
    ensures StepOk(input, base, StepHost(At(input, cfg.cursor), None, cfg))
  {
    hide DefaultPort, DotMapping, EncodeComponent, Lower, ToDecimal, ParseInt, Run, EscapeSafe, IsDots, UserOk, PassOk;
    if cfg.buffer != "" {
      HostSet(cfg.f, cfg.buffer);
    }
  }

  lemma KeepsHostChar(input: string, base: Option<Fields>, cfg: Config)
    requires Ready(input, base, cfg) && cfg.state == Host
    requires !EndsAt(At(input, cfg.cursor)) && !(At(input, cfg.cursor) == Some(':') && !cfg.seenBracket)
    ensures StepOk(input, base, StepHost(At(input, cfg.cursor), None, cfg))
  {
    hide DefaultPort, DotMapping, EncodeComponent, Lower, ToDecimal, ParseInt, Run;
    var c := input[cfg.cursor];
    BracketsAppend(cfg.buffer, c);
    assert c != '@';
    NoAtNext(input, cfg.cursor);
  }

  lemma KeepsHost(input: string, base: Option<Fields>, cfg: Config)
    requires Ready(input, base, cfg) && cfg.state == Host
    ensures StepOk(input, base, OneStep(input, None, base, cfg))
  {
    hide DefaultPort, DotMapping, EncodeComponent, Lower, ToDecimal, ParseInt, Run;
    var c := At(input, cfg.cursor);
    if EndsAt(c) || (c == Some(':') && !cfg.seenBracket) {
      KeepsHostEnd(input, base, cfg);
    } else {
      KeepsHostChar(input, base, cfg);
    }
  }

  lemma NoAtNext(input: string, i: nat)
    requires i < |input| && NoAt(input, i) && !IsEnd(input[i])
    ensures NoAt(input, i + 1)
  {
    forall k | i + 1 <= k < |input| && input[k] == '@'
      ensures exists j :: i + 1 <= j < k && IsEnd(input[j])
    {
      var j :| i <= j < k && IsEnd(input[j]);
      assert j != i;
    }
  }

  lemma PortSet(f: Fields, digits: string)
    requires BeforePort(f) && Digits(digits)
    ensures BeforeQuery(SetPort(f, digits)) && SetPort(f, digits).path == []
  {
    PortIsOk(f, digits);
  }

  lemma KeepsPort(input: string, base: Option<Fields>, cfg: Config)
    requires Ready(input, base, cfg) && cfg.state == Port
    ensures StepOk(input, base, OneStep(input, None, base, cfg))
  {
    hide DefaultPort, DotMapping, EncodeComponent, Lower, ToDecimal, ParseInt, Run;
    var c := At(input, cfg.cursor);
    if EndsAt(c) {
      PortSet(cfg.f, cfg.buffer);
      var next := cfg.(f := SetPort(cfg.f, cfg.buffer), buffer := "", state := RelativePathStart);
      assert StepPort(c, None, cfg) == Go(next);
      assert OnTrack(input, base, next);
    }
  }

  lemma KeepsPathStart(input: string, base: Option<Fields>, cfg: Config)
    requires Ready(input, base, cfg) && cfg.state == RelativePathStart
    ensures StepOk(input, base, OneStep(input, None, base, cfg))
  {
    hide DefaultPort, DotMapping, EncodeComponent, Lower, ToDecimal, ParseInt, Run;
  }

  /** The end of the path: the query or the fragment finds it in order. */
  lemma KeepsPathQuery(input: string, base: Option<Fields>, cfg: Config)
    requires Ready(input, base, cfg) && cfg.state == RelativePath && At(input, cfg.cursor) == Some('?')
    ensures StepOk(input, base, StepRelativePath(At(input, cfg.cursor), None, cfg))
  {
    hide DefaultPort, DotMapping, EncodeComponent, Lower, ToDecimal, ParseInt, Run, AddSegment, IsDots, UserOk, PassOk, HostOk, EscapeSafe;
    SegmentEnded(cfg.f, cfg.buffer, false);
    assert QueryOk("?");
  }

  lemma KeepsPathFragment(input: string, base: Option<Fields>, cfg: Config)
    requires Ready(input, base, cfg) && cfg.state == RelativePath && At(input, cfg.cursor) == Some('#')
    ensures StepOk(input, base, StepRelativePath(At(input, cfg.cursor), None, cfg))
  {
    hide DefaultPort, DotMapping, EncodeComponent, Lower, ToDecimal, ParseInt, Run, AddSegment, IsDots, UserOk, PassOk, HostOk, EscapeSafe, SegmentOk;
    SegmentEnded(cfg.f, cfg.buffer, false);
    assert FragmentChars("#");
  }

  /** The end of a segment: the path grows or shrinks. */
  lemma KeepsSegmentEnd(input: string, base: Option<Fields>, cfg: Config)
    requires Ready(input, base, cfg) && cfg.state == RelativePath
    requires At(input, cfg.cursor).None? || SlashAt(At(input, cfg.cursor))
    ensures StepOk(input, base, StepRelativePath(At(input, cfg.cursor), None, cfg))
  {
    hide DefaultPort, DotMapping, EncodeComponent, Lower, ToDecimal, ParseInt, Run;
    var c := At(input, cfg.cursor);
    SegmentEnded(cfg.f, cfg.buffer, SlashAt(c));
    var f := cfg.f.(path := AddSegment(cfg.f.scheme, cfg.f.path, cfg.buffer, SlashAt(c)));
    var next := cfg.(buffer := "", cursor := cfg.cursor + 1, f := f);
    assert StepRelativePath(c, None, cfg) == Go(next);
    if c.None? {
      assert Normal(f);
    }
  }

  lemma SegmentEnded(f: Fields, buffer: string, slash: bool)
    requires BeforeQuery(f) && forall i :: 0 <= i < |buffer| ==> SegChar(buffer[i])
    ensures BeforeQuery(f.(path := AddSegment(f.scheme, f.path, buffer, slash)))
    ensures !slash ==> AddSegment(f.scheme, f.path, buffer, slash) != []
  {
    SegmentAdded(f.scheme, f.path, buffer, slash);
  }

  lemma KeepsSegmentChar(input: string, base: Option<Fields>, cfg: Config)
    requires Ready(input, base, cfg) && cfg.state == RelativePath && !EndsAt(At(input, cfg.cursor))
    ensures StepOk(input, base, StepRelativePath(At(input, cfg.cursor), None, cfg))
  {
    hide DefaultPort, DotMapping, EncodeComponent, Lower, ToDecimal, ParseInt, Run;
    EscapedSegment(input[cfg.cursor]);
  }

  lemma KeepsPath(input: string, base: Option<Fields>, cfg: Config)
    requires Ready(input, base, cfg) && cfg.state in {RelativePathStart, RelativePath}
    ensures StepOk(input, base, OneStep(input, None, base, cfg))
  {
    hide DefaultPort, DotMapping, EncodeComponent, Lower, ToDecimal, ParseInt, Run;
    if cfg.state == RelativePathStart {
      KeepsPathStart(input, base, cfg);
    } else if At(input, cfg.cursor) == Some('?') {
      KeepsPathQuery(input, base, cfg);
    } else if At(input, cfg.cursor) == Some('#') {
      KeepsPathFragment(input, base, cfg);
    } else if EndsAt(At(input, cfg.cursor)) {
      KeepsSegmentEnd(input, base, cfg);
    } else {
      KeepsSegmentChar(input, base, cfg);
    }
  }

  lemma EscapedSegment(c: char)
    requires !IsEnd(c)
    ensures forall i :: 0 <= i < |PercentEscape(c)| ==> SegChar(PercentEscape(c)[i])
  {
    EscapedChars(c);
    forall i | 0 <= i < |PercentEscape(c)| && HexOrPercent(PercentEscape(c)[i])
      ensures SegChar(PercentEscape(c)[i])
    {
      HexIsSafe(PercentEscape(c)[i]);
    }
  }

  lemma EscapedQuery(c: char)
    requires c != '#'
    ensures forall i :: 0 <= i < |PercentEscapeQuery(c)| ==> QuerySafe(PercentEscapeQuery(c)[i])
  {
    hide EncodeComponent;
    EscapedChars(c);
    forall i | 0 <= i < |PercentEscapeQuery(c)| && HexOrPercent(PercentEscapeQuery(c)[i])
      ensures QuerySafe(PercentEscapeQuery(c)[i])
    {
      HexIsSafe(PercentEscapeQuery(c)[i]);
    }
  }

  lemma KeepsQuery(input: string, base: Option<Fields>, cfg: Config)
    requires Ready(input, base, cfg) && cfg.state == Query
    ensures StepOk(input, base, OneStep(input, None, base, cfg))
  {
    hide DefaultPort, DotMapping, EncodeComponent, Lower, ToDecimal, ParseInt, Run, PercentEscapeQuery, IsDots, UserOk, PassOk, HostOk;
    hide StepScheme, StepRelative, RelativeRest, StepAuthority, StepFileHost, StepHost, StepPort, StepRelativePath;
    var c := At(input, cfg.cursor);
    if c.Some? && c.value != '#' && !IsTabOrNewline(c.value) {
      EscapedQuery(c.value);
    }
  }

  lemma KeepsFragment(input: string, base: Option<Fields>, cfg: Config)
    requires Ready(input, base, cfg) && cfg.state == Fragment
    ensures StepOk(input, base, OneStep(input, None, base, cfg))
  {
    hide DefaultPort, DotMapping, EncodeComponent, Lower, ToDecimal, ParseInt, Run;
  }

  /** A file URL stays one until it is found invalid. */
  lemma StaysFile(input: string, base: Option<Fields>, cfg: Config)
    requires WellFormed(input, cfg) && Running(input, cfg) && cfg.f.scheme == "file"
    requires cfg.state !in {SchemeStart, Scheme, NoScheme}
    ensures match OneStep(input, None, base, cfg)
            case Throw => true
            case Break(f) => f == INVALID || f.scheme == "file"
            case Go(cfg') => cfg'.f == INVALID || cfg'.f.scheme == "file"
  {
    hide DefaultPort, DotMapping, EncodeComponent, Lower, ToDecimal, ParseInt, Run;
  }

  lemma StaysOpaque(input: string, base: Option<Fields>, cfg: Config)
    requires WellFormed(input, cfg) && Running(input, cfg) && cfg.state in {SchemeData, Fragment}
    ensures match OneStep(input, None, base, cfg)
            case Throw => true
            case Break(f) => false
            case Go(cfg') => cfg'.f == cfg.f.(schemeData := cfg'.f.schemeData, fragment := cfg'.f.fragment)
                             && cfg'.state in {SchemeData, Fragment}
  {
    hide DefaultPort, DotMapping, EncodeComponent, Lower, ToDecimal, ParseInt, Run;
  }

  lemma KeepsBracket(input: string, base: Option<Fields>, cfg: Config)
    requires WellFormed(input, cfg) && Running(input, cfg) && Rank(cfg.state) > Rank(Host)
    ensures var s := OneStep(input, None, base, cfg); s.Go? ==> s.cfg.seenBracket == cfg.seenBracket
  {
    hide DefaultPort, DotMapping, EncodeComponent, Lower, ToDecimal, ParseInt, Run;
  }

  /** A URL that is known to have no authority, or to be a file URL, stays so. */
  lemma StaysOutside(input: string, base: Option<Fields>, cfg: Config)
    requires WellFormed(input, cfg) && Running(input, cfg) && Inv(input, base, cfg) && Outside(cfg.f)
    ensures StepOk(input, base, OneStep(input, None, base, cfg))
  {
    Progress(input, None, base, cfg);
    if Rank(cfg.state) > Rank(Host) {
      KeepsBracket(input, base, cfg);
    }
    if cfg.f.scheme == "file" {
      StaysFile(input, base, cfg);
    } else {
      StaysOpaque(input, base, cfg);
    }
  }

  lemma Keeps(input: string, base: Option<Fields>, cfg: Config)
    requires Ready(input, base, cfg)
    ensures StepOk(input, base, OneStep(input, None, base, cfg))
  {
    match cfg.state {
      case SchemeStart => KeepsScheme(input, base, cfg);
      case Scheme => KeepsScheme(input, base, cfg);
      case NoScheme => KeepsNoScheme(input, base, cfg);
      case RelativeOrAuthority => KeepsNoScheme(input, base, cfg);
      case Relative => KeepsRelative(input, base, cfg);
      case RelativeSlash => KeepsRelativeSlash(input, base, cfg);
      case AuthorityFirstSlash => KeepsSlashes(input, base, cfg);
      case AuthoritySecondSlash => KeepsSlashes(input, base, cfg);
      case AuthorityIgnoreSlashes => KeepsSlashes(input, base, cfg);
      case Authority => KeepsAuthority(input, base, cfg);
      case Host => KeepsHost(input, base, cfg);
      case Port => KeepsPort(input, base, cfg);
      case RelativePathStart => KeepsPath(input, base, cfg);
      case RelativePath => KeepsPath(input, base, cfg);
      case Query => KeepsQuery(input, base, cfg);
      case Fragment => KeepsFragment(input, base, cfg);
      case _ => assert false;
    }
  }

  // ---------------------------------------------------------------- the whole run

  lemma {:induction false} RunKeeps(input: string, base: Option<Fields>, cfg: Config)
    requires Trimmed(input) && BaseOk(base) && WellFormed(input, cfg) && Inv(input, base, cfg)
    ensures var r := Run(input, None, base, cfg); r.Some? ==> ResultOk(r.value)
    decreases Rank(cfg.state), |input| + 1 - cfg.cursor
  {
    if Running(input, cfg) {
      Progress(input, None, base, cfg);
      if Outside(cfg.f) {
        StaysOutside(input, base, cfg);
      } else {
        Keeps(input, base, cfg);
      }
      var s := OneStep(input, None, base, cfg);
      if s.Go? {
        RunKeeps(input, base, s.cfg);
      }
    }
  }

  lemma {:induction false} TrimRightTrimmed(s: string)
    ensures Trimmed(TrimRight(s))
    decreases |s|
  {
    if s != [] && IsTrimmed(s[|s| - 1]) {
      TrimRightTrimmed(s[..|s| - 1]);
    }
  }

  /** Whatever the text and whatever the base, a URL comes out invalid, as a file URL, without an authority, or
      in normal form. In particular its path holds no dot segment and no percent-encoded variant of one. */
  lemma NewIsNormal(url: string, base: Option<Fields>)
    requires BaseOk(base)
    ensures var r := New(url, base); r.Some? ==> ResultOk(r.value)
  {
    var input := TrimRight(TrimLeft(url));
    TrimRightTrimmed(TrimLeft(url));
    RunKeeps(input, base, Config(SchemeStart, 0, "", false, false, CLEARED));
  }

  /** A chain of URLs, each resolved against the one before it, starting from no base. */
  function Resolve(urls: seq<string>): Option<Fields> {
    if |urls| == 0 then None
    else if |urls| == 1 then New(urls[0], None)
    else
      var base := Resolve(urls[..|urls| - 1]);
      if base.None? then None else New(urls[|urls| - 1], base)
  }

  /** Every URL that any chain of resolutions reaches is in normal form, if it is valid and has an authority
      and is not a file URL. */
  lemma {:induction false} EveryUrlIsNormal(urls: seq<string>)
    ensures var r := Resolve(urls); r.Some? && !r.value.isInvalid && NonFile(r.value.scheme) ==> Normal(r.value)
    ensures BaseOk(Resolve(urls))
  {
    if |urls| == 1 {
      NewIsNormal(urls[0], None);
    } else if |urls| > 1 {
      EveryUrlIsNormal(urls[..|urls| - 1]);
      var base := Resolve(urls[..|urls| - 1]);
      if base.Some? {
        NewIsNormal(urls[|urls| - 1], base);
      }
    }
  }
}
