/** The URL object and its parsing loop (webcomponents-lite.js:84-93, 109-489). */
module JUrlObject {
  import opened Options
  import opened Texts
  import opened JUrl
  import opened JUrlThrows
  import opened JUrlFile
  import opened JUrlPrints

  /** The local variables of the parsing loop. */
  datatype Local = Local(state: State, cursor: nat, buffer: string, seenAt: bool, seenBracket: bool)

  /** How a round ends: the loop goes on, is left, or an exception is thrown. */
  datatype Flow = GoOn | Leave | Thrown

  class Url {
    var scheme: string
    var schemeData: string
    var username: string
    var password: Option<string>
    var host: string
    var port: string
    var path: seq<string>
    var query: string
    var fragment: string
    var isInvalid: bool
    var isRelative: bool
    const url: string

    /** The fields as a value. */
    function Value(): Fields
      reads this
    {
      Fields(scheme, schemeData, username, password, host, port, path, query, fragment, isInvalid, isRelative)
    }

    function With(l: Local): Config
      reads this
    {
      Config(l.state, l.cursor, l.buffer, l.seenAt, l.seenBracket, Value())
    }

    /** A round did what the machine's step says. */
    ghost predicate Did(flow: Flow, l: Local, step: Step)
      reads this
    {
      match step
      case Throw => flow == Thrown
      case Break(f) => flow == Leave && Value() == f
      case Go(cfg) => flow == GoOn && With(l) == cfg
    }

    constructor (url: string)
      ensures this.url == url && Value() == CLEARED
    {
      this.url := url;
      scheme, schemeData, username, password, host, port := "", "", "", None, "", "";
      path, query, fragment, isInvalid, isRelative := [], "", "", false, false;
    }

    method Clear()
      modifies this
      ensures Value() == CLEARED
    {
      scheme, schemeData, username, password, host, port := "", "", "", None, "", "";
      path, query, fragment, isInvalid, isRelative := [], "", "", false, false;
    }

    method Invalidate()
      modifies this
      ensures Value() == INVALID
    {
      Clear();
      isInvalid := true;
    }

    method CopyAuthorityFrom(base: Url)
      modifies this`host, this`port, this`username, this`password
      ensures Value() == CopyAuthority(old(Value()), old(base.Value()))
    {
      host := base.host;
      port := base.port;
      username := base.username;
      password := base.password;
    }

    method AssignHost(buffer: string)
      modifies this
      ensures Value() == SetHost(old(Value()), buffer)
    {
      if buffer == "" {
        Invalidate();
      }
      host := Lower(buffer);
    }

    method RoundSchemeStart(c: Option<char>, ov: Option<State>, l: Local) returns (l': Local, flow: Flow)
      ensures Did(flow, l', StepSchemeStart(c, ov, With(l)))
    {
      if c.Some? && IsAlpha(c.value) {
        l', flow := l.(buffer := l.buffer + [LowerChar(c.value)], state := Scheme, cursor := l.cursor + 1), GoOn;
      } else if ov.None? {
        l', flow := l.(buffer := "", state := NoScheme), GoOn;
      } else {
        l', flow := l, Leave;
      }
    }

    method RoundScheme(c: Option<char>, ov: Option<State>, base: Url?, l: Local) returns (l': Local, flow: Flow)
      requires base != this
      modifies this
      ensures Did(flow, l', StepScheme(c, ov, if base == null then None else Some(old(base.Value())), old(With(l))))
    {
      hide DefaultPort;
      l', flow := l, GoOn;
      if c.Some? && IsSchemeChar(c.value) {
        l' := l.(buffer := l.buffer + [LowerChar(c.value)]);
      } else if c == Some(':') {
        scheme := l.buffer;
        if ov.Some? {
          return l.(buffer := ""), Leave;
        }
        if IsRelativeScheme(scheme) {
          isRelative := true;
        }
        l' := l.(buffer := "");
        if scheme == "file" {
          l' := l'.(state := Relative);
        } else if isRelative && base != null && base.scheme == scheme {
          l' := l'.(state := RelativeOrAuthority);
        } else if isRelative {
          l' := l'.(state := AuthorityFirstSlash);
        } else {
          l' := l'.(state := SchemeData);
        }
      } else if ov.None? {
        return l.(buffer := "", cursor := 0, state := NoScheme), GoOn;
      } else {
        return l, Leave;
      }
      l' := l'.(cursor := l.cursor + 1);
    }

    method RoundNoScheme(c: Option<char>, next: Option<char>, base: Url?, l: Local) returns (l': Local, flow: Flow)
      requires base != this
      modifies this
      ensures l.state == SchemeData ==> Did(flow, l', StepSchemeData(c, old(With(l))))
      ensures l.state == NoScheme ==> Did(flow, l', StepNoScheme(if base == null then None else Some(old(base.Value())), old(With(l))))
      ensures l.state == RelativeOrAuthority ==> Did(flow, l', StepRelativeOrAuthority(c, next, old(With(l))))
    {
      hide DefaultPort, PercentEscape;
      l', flow := l, GoOn;
      if l.state == SchemeData {
        if c == Some('?') {
          return l, Thrown;
        } else if c == Some('#') {
          fragment := "#";
          l' := l.(state := Fragment);
        } else if c.Some? && !IsTabOrNewline(c.value) {
          schemeData := schemeData + PercentEscape(c.value);
        }
      } else if l.state == NoScheme {
        if base == null || !IsRelativeScheme(base.scheme) {
          Invalidate();
        } else {
          return l.(state := Relative), GoOn;
        }
      } else {
        if c == Some('/') && next == Some('/') {
          l' := l.(state := AuthorityIgnoreSlashes);
        } else {
          return l.(state := Relative), GoOn;
        }
      }
      l' := l'.(cursor := l.cursor + 1);
    }

    method RoundRelative(input: string, base: Url?, l: Local) returns (l': Local, flow: Flow)
      requires base != this && l.cursor <= |input|
      modifies this
      ensures Did(flow, l', StepRelative(input, if base == null then None else Some(old(base.Value())), old(With(l))))
    {
      hide RelativeRest;
      isRelative := true;
      if scheme != "file" {
        if base == null {
          return l, Thrown;
        }
        scheme := base.scheme;
      }
      l', flow := RoundRelativeRest(input, base, l);
    }

    method RoundRelativeRest(input: string, base: Url?, l: Local) returns (l': Local, flow: Flow)
      requires base != this && l.cursor <= |input|
      modifies this
      ensures Did(flow, l', RelativeRest(input, if base == null then None else Some(old(base.Value())), old(With(l))))
    {
      hide DriveLetterAt, DropLast, CopyAuthority;
      flow := GoOn;
      var c := At(input, l.cursor);
      if c.Some? && IsSlash(c.value) {
        l' := l.(state := RelativeSlash, cursor := l.cursor + 1);
      } else if c.Some? && c.value != '?' && c.value != '#' {
        if scheme != "file" || !DriveLetterAt(input, l.cursor) {
          if base == null {
            return l, Thrown;
          }
          ContinuePath(base);
        }
        l' := l.(state := RelativePath);
      } else if base == null {
        return l, Thrown;
      } else {
        l', flow := KeepPath(c, base, l);
      }
    }

    /** A reference that starts with a segment continues the path of the base, without its last segment. */
    method ContinuePath(base: Url)
      requires base != this
      modifies this
      ensures Value() == CopyAuthority(old(Value()), old(base.Value())).(path := DropLast(old(base.path)))
    {
      CopyAuthorityFrom(base);
      path := DropLast(base.path);
    }

    /** An empty reference, or one that starts with its query or fragment, keeps the path of the base. */
    method KeepPath(c: Option<char>, base: Url, l: Local) returns (l': Local, flow: Flow)
      requires base != this && (c.None? || c == Some('?') || c == Some('#'))
      modifies this
      ensures var f2 := CopyAuthority(old(Value()), old(base.Value())).(path := old(base.path));
              Did(flow, l', if c.None? then Break(f2.(query := old(base.query)))
                            else if c.value == '?' then Advance(old(With(l)).(f := f2.(query := "?"), state := Query))
                            else Advance(old(With(l)).(f := f2.(query := old(base.query), fragment := "#"), state := Fragment)))
    {
      flow := GoOn;
      CopyAuthorityFrom(base);
      path := base.path;
      if c.None? {
        query := base.query;
        l', flow := l, Leave;
      } else if c.value == '?' {
        query := "?";
        l' := l.(state := Query, cursor := l.cursor + 1);
      } else {
        query := base.query;
        fragment := "#";
        l' := l.(state := Fragment, cursor := l.cursor + 1);
      }
    }

    method RoundSlash(c: Option<char>, base: Url?, l: Local) returns (l': Local, flow: Flow)
      requires base != this
      modifies this
      ensures l.state == RelativeSlash ==>
                Did(flow, l', StepRelativeSlash(c, if base == null then None else Some(old(base.Value())), old(With(l))))
      ensures l.state == AuthorityFirstSlash ==> Did(flow, l', StepAuthorityFirstSlash(c, old(With(l))))
      ensures l.state == AuthoritySecondSlash ==> Did(flow, l', StepAuthoritySecondSlash(c, old(With(l))))
      ensures l.state == AuthorityIgnoreSlashes ==> Did(flow, l', StepAuthorityIgnoreSlashes(c, old(With(l))))
      ensures l.state == RelativePathStart ==> Did(flow, l', StepRelativePathStart(c, old(With(l))))
    {
      l', flow := l, GoOn;
      if l.state == RelativeSlash {
        if SlashAt(c) {
          l' := l.(state := if scheme == "file" then FileHost else AuthorityIgnoreSlashes);
        } else {
          if scheme != "file" {
            if base == null {
              return l, Thrown;
            }
            CopyAuthorityFrom(base);
          }
          return l.(state := RelativePath), GoOn;
        }
      } else if l.state == AuthorityFirstSlash {
        if c != Some('/') {
          return l.(state := AuthorityIgnoreSlashes), GoOn;
        }
        l' := l.(state := AuthoritySecondSlash);
      } else if l.state == AuthoritySecondSlash {
        l' := l.(state := AuthorityIgnoreSlashes);
        if c != Some('/') {
          return;
        }
      } else if l.state == AuthorityIgnoreSlashes {
        if !SlashAt(c) {
          return l.(state := Authority), GoOn;
        }
      } else {
        l' := l.(state := RelativePath);
        if !SlashAt(c) {
          return;
        }
      }
      l' := l'.(cursor := l.cursor + 1);
    }

    /** The inner loop over the buffer at an at sign. */
    method AppendCredentials(buffer: string)
      modifies this`username, this`password
      ensures (username, password) == AddCredentials(buffer, old(username), old(password))
    {
      for i := 0 to |buffer|
        invariant AddCredentials(buffer[i..], username, password) == AddCredentials(buffer, old(username), old(password))
      {
        var cp := buffer[i];
        assert buffer[i..][1..] == buffer[i + 1..];
        if IsTabOrNewline(cp) {
        } else if cp == ':' && password.None? {
          password := Some("");
        } else if password.Some? {
          password := Some(password.value + PercentEscape(cp));
        } else {
          username := username + PercentEscape(cp);
        }
      }
    }

    method RoundAuthority(c: Option<char>, l: Local) returns (l': Local, flow: Flow)
      requires l.state == Authority && |l.buffer| <= l.cursor
      modifies this
      ensures Did(flow, l', StepAuthority(c, old(With(l))))
    {
      hide AddCredentials;
      flow := GoOn;
      if c == Some('@') {
        AppendCredentials(if l.seenAt then l.buffer + "%40" else l.buffer);
        l' := l.(seenAt := true, buffer := "", cursor := l.cursor + 1);
      } else if EndsAt(c) {
        l' := l.(cursor := l.cursor - |l.buffer|, buffer := "", state := Host);
      } else {
        l' := l.(buffer := l.buffer + [c.value], cursor := l.cursor + 1);
      }
    }

    method RoundHost(c: Option<char>, ov: Option<State>, l: Local) returns (l': Local, flow: Flow)
      modifies this
      ensures l.state == FileHost ==> Did(flow, l', StepFileHost(c, old(With(l))))
      ensures l.state in {Host, Hostname} ==> Did(flow, l', StepHost(c, ov, old(With(l))))
    {
      hide Lower;
      l', flow := l, GoOn;
      if l.state == FileHost {
        if EndsAt(c) {
          if |l.buffer| == 2 && IsAlpha(l.buffer[0]) && (l.buffer[1] == ':' || l.buffer[1] == '|') {
            l' := l.(state := RelativePath);
          } else if |l.buffer| == 0 {
            l' := l.(state := RelativePathStart);
          } else {
            AssignHost(l.buffer);
            l' := l.(buffer := "", state := RelativePathStart);
          }
          return;
        } else if !IsTabOrNewline(c.value) {
          l' := l.(buffer := l.buffer + [c.value]);
        }
      } else {
        if c == Some(':') && !l.seenBracket {
          AssignHost(l.buffer);
          l' := l.(buffer := "", state := Port);
          if ov == Some(Hostname) {
            return l', Leave;
          }
        } else if EndsAt(c) {
          AssignHost(l.buffer);
          l' := l.(buffer := "", state := RelativePathStart);
          return l', if ov.Some? then Leave else GoOn;
        } else if !IsTabOrNewline(c.value) {
          if c.value == '[' {
            l' := l'.(seenBracket := true);
          } else if c.value == ']' {
            l' := l'.(seenBracket := false);
          }
          l' := l'.(buffer := l.buffer + [c.value]);
        }
      }
      l' := l'.(cursor := l.cursor + 1);
    }

    method RoundPort(c: Option<char>, ov: Option<State>, l: Local) returns (l': Local, flow: Flow)
      requires forall i :: 0 <= i < |l.buffer| ==> IsDigit(l.buffer[i])
      requires l.state == Port
      modifies this
      ensures Did(flow, l', StepPort(c, ov, old(With(l))))
    {
      hide ParseInt, ToDecimal, DefaultPort;
      l', flow := l, GoOn;
      if c.Some? && IsDigit(c.value) {
        l' := l.(buffer := l.buffer + [c.value]);
      } else if EndsAt(c) || ov.Some? {
        if l.buffer != "" {
          var temp := ParseInt(l.buffer);
          if Some(temp) != DefaultPort(scheme) {
            port := ToDecimal(temp);
          }
        }
        l' := l.(buffer := "");
        if ov.Some? {
          return l', Leave;
        }
        return l'.(state := RelativePathStart), GoOn;
      } else if !IsTabOrNewline(c.value) {
        Invalidate();
      }
      l' := l'.(cursor := l.cursor + 1);
    }

    /** The end of a segment: the stack of segments grows or shrinks. */
    method EndSegment(buffer: string, slash: bool)
      modifies this`path
      ensures path == AddSegment(scheme, old(path), buffer, slash)
    {
      hide DotMapping;
      var segment := DotMapping(buffer);
      if segment == ".." {
        path := DropLast(path);
        if !slash {
          path := path + [""];
        }
      } else if segment == "." && !slash {
        path := path + [""];
      } else if segment != "." {
        if scheme == "file" && path == [] && |segment| == 2 && IsAlpha(segment[0]) && segment[1] == '|' {
          segment := [segment[0], ':'];
        }
        path := path + [segment];
      }
    }

    method RoundPath(c: Option<char>, ov: Option<State>, l: Local) returns (l': Local, flow: Flow)
      requires l.state == RelativePath
      modifies this
      ensures Did(flow, l', StepRelativePath(c, ov, old(With(l))))
    {
      hide AddSegment, PercentEscape;
      l', flow := l, GoOn;
      if c.None? || IsSlash(c.value) || (ov.None? && (c.value == '?' || c.value == '#')) {
        EndSegment(l.buffer, SlashAt(c));
        l' := l.(buffer := "");
        if c == Some('?') {
          query := "?";
          l' := l'.(state := Query);
        } else if c == Some('#') {
          fragment := "#";
          l' := l'.(state := Fragment);
        }
      } else if !IsTabOrNewline(c.value) {
        l' := l.(buffer := l.buffer + PercentEscape(c.value));
      }
      l' := l'.(cursor := l.cursor + 1);
    }

    method RoundEnd(c: Option<char>, ov: Option<State>, l: Local) returns (l': Local, flow: Flow)
      modifies this
      ensures l.state == Query ==> Did(flow, l', StepQuery(c, ov, old(With(l))))
      ensures l.state == Fragment ==> Did(flow, l', StepFragment(c, old(With(l))))
    {
      hide PercentEscapeQuery;
      l', flow := l, GoOn;
      if l.state == Query {
        if ov.None? && c == Some('#') {
          fragment := "#";
          l' := l.(state := Fragment);
        } else if c.Some? && !IsTabOrNewline(c.value) {
          query := query + PercentEscapeQuery(c.value);
        }
      } else {
        if c.Some? && !IsTabOrNewline(c.value) {
          fragment := fragment + [c.value];
        }
      }
      l' := l'.(cursor := l.cursor + 1);
    }

    /** One round of the loop. */
    method Round(input: string, ov: Option<State>, base: Url?, l: Local) returns (l': Local, flow: Flow)
      requires base != this && WellFormed(input, With(l)) && Running(input, With(l))
      modifies this
      ensures Did(flow, l', OneStep(input, ov, if base == null then None else Some(old(base.Value())), old(With(l))))
    {
      var c := At(input, l.cursor);
      match l.state {
        case SchemeStart => l', flow := RoundSchemeStart(c, ov, l);
        case Scheme => l', flow := RoundScheme(c, ov, base, l);
        case SchemeData => l', flow := RoundNoScheme(c, None, base, l);
        case NoScheme => l', flow := RoundNoScheme(c, None, base, l);
        case RelativeOrAuthority => l', flow := RoundNoScheme(c, At(input, l.cursor + 1), base, l);
        case Relative => l', flow := RoundRelative(input, base, l);
        case RelativeSlash => l', flow := RoundSlash(c, base, l);
        case AuthorityFirstSlash => l', flow := RoundSlash(c, base, l);
        case AuthoritySecondSlash => l', flow := RoundSlash(c, base, l);
        case AuthorityIgnoreSlashes => l', flow := RoundSlash(c, base, l);
        case Authority => l', flow := RoundAuthority(c, l);
        case FileHost => l', flow := RoundHost(c, ov, l);
        case Host => l', flow := RoundHost(c, ov, l);
        case Hostname => l', flow := RoundHost(c, ov, l);
        case Port => l', flow := RoundPort(c, ov, l);
        case RelativePathStart => l', flow := RoundSlash(c, base, l);
        case RelativePath => l', flow := RoundPath(c, ov, l);
        case Query => l', flow := RoundEnd(c, ov, l);
        case Fragment => l', flow := RoundEnd(c, ov, l);
      }
    }

    /** The parsing loop ends, for every input, base and state override, and leaves the fields that the machine leaves. */
    method Parse(input: string, ov: Option<State>, base: Url?) returns (thrown: bool)
      requires base != this
      modifies this
      ensures var b := if base == null then None else Some(old(base.Value()));
              match JUrl.Parse(input, ov, b, old(Value()))
              case None => thrown
              case Some(f) => !thrown && Value() == f
      ensures ov == None && old(Value()) == CLEARED ==>
                (thrown <==> Throws(input, if base == null then None else Some(old(base.Value()))))
      ensures ov.Some? && StartsSetter(ov.value) ==> !thrown
      ensures ov == None && old(Value()) == CLEARED ==>
                Made(if thrown then None else Some(Value()), input, if base == null then None else Some(old(base.Value())))
    {
      hide Run, OneStep, Throws, Made;
      var l := Local(Start(ov), 0, "", false, false);
      ghost var b := if base == null then None else Some(base.Value());
      ghost var f0 := Value();
      ThrowsIff(input, b);
      ParseMakes(input, b);
      if ov.Some? && StartsSetter(ov.value) {
        SettersNeverThrow(input, ov.value, b, f0);
      }
      while l.cursor <= |input| && !isInvalid
        invariant base != null ==> base.Value() == b.value
        invariant WellFormed(input, With(l))
        invariant JUrl.Parse(input, ov, b, f0) == Run(input, ov, b, With(l))
        decreases Rank(l.state), |input| + 1 - l.cursor
      {
        ghost var cfg := With(l);
        Progress(input, ov, b, cfg);
        Unroll(input, ov, b, cfg);
        var flow;
        l, flow := Round(input, ov, base, l);
        if flow == Thrown {
          return true;
        }
        if flow == Leave {
          return false;
        }
      }
      RunStops(input, ov, b, With(l));
      thrown := false;
    }

    /** The printed form; an invalid URL prints the text it was made from. */
    method ToString() returns (s: string)
      ensures s == if isInvalid then url else Href(Value())
    {
      if isInvalid {
        return url;
      }
      var authority := "";
      if username != "" || password.Some? {
        authority := username + (if password.Some? then ":" + password.value else "") + "@";
      }
      s := scheme + ":" + (if isRelative then "//" + authority + HostAndPort(Value()) else "") + Pathname(Value()) + query + fragment;
    }
  }

  lemma Unroll(input: string, ov: Option<State>, base: Option<Fields>, cfg: Config)
    requires WellFormed(input, cfg) && Running(input, cfg)
    ensures var s := OneStep(input, ov, base, cfg);
            match s
            case Throw => Run(input, ov, base, cfg) == None
            case Break(f) => Run(input, ov, base, cfg) == Some(f)
            case Go(cfg') => WellFormed(input, cfg') && Run(input, ov, base, cfg) == Run(input, ov, base, cfg')
  {
    Progress(input, ov, base, cfg);
  }

  lemma RunStops(input: string, ov: Option<State>, base: Option<Fields>, cfg: Config)
    requires WellFormed(input, cfg) && !Running(input, cfg)
    ensures Run(input, ov, base, cfg) == Some(cfg.f)
  {
  }

  /** The object made from a text, resolved against a base. */
  method Create(url: string, base: Url?) returns (u: Url, thrown: bool)
    ensures fresh(u) && u.url == url
    ensures thrown <==> Throws(TrimRight(TrimLeft(url)), if base == null then None else Some(base.Value()))
    ensures match New(url, if base == null then None else Some(base.Value()))
            case None => thrown
            case Some(f) => !thrown && u.Value() == f
    ensures Made(if thrown then None else Some(u.Value()), TrimRight(TrimLeft(url)), if base == null then None else Some(base.Value()))
  {
    hide Made, Throws;
    u := new Url(url);
    thrown := u.Parse(TrimRight(TrimLeft(url)), None, base);
  }

  /** Printing a URL object and making another from the print, without a base: the second has the same fields if and only if
      the first, when it is a file URL, has borrowed nothing from a base of another scheme. */
  method PrintAndParse(url: string, base: Url?) returns (u: Url, thrown: bool, v: Url, failed: bool)
    requires base != null ==> Settled(base.Value())
    ensures !thrown && !u.isInvalid ==> ((!failed && v.Value() == u.Value()) <==> (u.scheme == "file" ==> Own(u.Value())))
  {
    hide New, Href, Settled, Own, Made;
    u, thrown := Create(url, base);
    v, failed := u, false;
    if !thrown && !u.isInvalid {
      NewIsSettled(url, if base == null then None else Some(base.Value()));
      PrintsBack(u.Value());
      var text := u.ToString();
      v, failed := Create(text, null);
    }
  }
}
