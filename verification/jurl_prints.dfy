/** Every URL that is parsed, with an authority or without one and file URLs included, prints as a text that parses as the
    same URL (webcomponents-lite.js:109-457, 471-565). */
module JUrlPrints {
  import opened Options
  import opened Texts
  import opened JUrl
  import opened JUrlNormal
  import opened JUrlPreserve
  import opened JUrlFixpoint
  import opened JUrlDots
  import opened JUrlThrows
  import opened JUrlResolve
  import opened JUrlSpec
  import opened JUrlFile

  // ---------------------------------------------------------------- the normal forms

  ghost predicate Letters(s: string) {
    forall i :: 0 <= i < |s| ==> SegChar(s[i])
  }

  ghost predicate DataChars(s: string) {
    forall i :: 0 <= i < |s| ==> EscapeSafe(s[i])
  }

  ghost predicate FileHostOk(h: string) {
    (forall i :: 0 <= i < |h| ==> !IsEnd(h[i]) && !IsTabOrNewline(h[i])) && Lower(h) == h
  }

  /** A drive letter with a bar, which the parser rewrites at the start of a path. */
  predicate Barred(s: string) {
    |s| == 2 && IsAlpha(s[0]) && s[1] == '|'
  }

  ghost predicate FilePath(path: seq<string>) {
    SegmentsOk(path) && (path != [] ==> !Barred(path[0]))
  }

  /** A file URL as it may come out of the parser. */
  ghost predicate FileUrl(f: Fields) {
    && f.scheme == "file" && f.isRelative && !f.isInvalid && f.schemeData == ""
    && FileHostOk(f.host) && SegmentsOk(f.path) && QueryOk(f.query) && FragmentOk(f.fragment)
  }

  /** A file URL has its own host and path: it has borrowed neither credentials nor a port, and neither its host nor the
      start of its path is a drive letter that would be rewritten. */
  predicate Own(f: Fields) {
    && f.username == "" && f.password == None && f.port == "" && !IsDriveLetter(f.host)
    && f.path != [] && !Barred(f.path[0])
  }

  ghost predicate NormalFile(f: Fields) {
    FileUrl(f) && Own(f)
  }

  ghost predicate NormalScheme(s: string) {
    s != "" && IsAlpha(s[0]) && (forall i :: 0 <= i < |s| ==> IsSchemeChar(s[i])) && Lower(s) == s
  }

  ghost predicate NormalOpaque(f: Fields) {
    && f == CLEARED.(scheme := f.scheme, schemeData := f.schemeData, fragment := f.fragment)
    && NormalScheme(f.scheme) && !IsRelativeScheme(f.scheme) && DataChars(f.schemeData) && FragmentOk(f.fragment)
  }

  /** What comes out of the parser: URLs with an authority, of a file, of a scheme without authority, and the invalid one. */
  ghost predicate Settled(f: Fields) {
    f == INVALID || Normal(f) || FileUrl(f) || NormalOpaque(f)
  }

  // ---------------------------------------------------------------- what is parsed is in normal form

  lemma {:induction false} UntabbedIsOk(s: string)
    requires Trimmed(s)
    ensures forall i :: 0 <= i < |Untabbed(s)| ==> !IsTabOrNewline(Untabbed(s)[i])
    ensures Untabbed(s) == "" <==> s == ""
    ensures Trimmed(Untabbed(s))
  {
    if s != "" {
      if |s| > 1 {
        assert s[1..][|s| - 2] == s[|s| - 1];
      }
      UntabbedIsOk(s[1..]);
    }
  }

  lemma {:induction false} FragmentIsOk(s: string)
    requires Trimmed(s)
    ensures FragmentOk(FragmentOf(s))
  {
    if s != "" {
      if |s| > 1 {
        assert s[1..][|s| - 2] == s[|s| - 1];
      }
      if s[0] == '#' {
        UntabbedIsOk(s[1..]);
        assert FragmentOf(s)[0] == '#' && FragmentOf(s)[1..] == Untabbed(s[1..]);
        HashIsKept();
      } else {
        FragmentIsOk(s[1..]);
      }
    }
  }

  lemma HashIsKept()
    ensures !IsTabOrNewline('#') && !IsTrimmed('#')
  {
  }

  lemma {:induction false} QueryCharsOk(s: string)
    ensures forall i :: 0 <= i < |QueryChars(s)| ==> QuerySafe(QueryChars(s)[i])
  {
    hide QuerySafe, PercentEscapeQuery;
    if s != "" && s[0] != '#' {
      QueryCharsOk(s[1..]);
      QueryCharOk(s[0]);
    }
  }

  lemma QueryCharOk(c: char)
    ensures forall i :: 0 <= i < |PercentEscapeQuery(c)| ==> QuerySafe(PercentEscapeQuery(c)[i])
  {
    hide PercentEscapeQuery, PercentEscape;
    EscapedChars(c);
    forall i | 0 <= i < |PercentEscapeQuery(c)| && HexOrPercent(PercentEscapeQuery(c)[i])
      ensures QuerySafe(PercentEscapeQuery(c)[i])
    {
      HexIsSafe(PercentEscapeQuery(c)[i]);
    }
  }

  lemma {:induction false} QueryIsOk(s: string)
    ensures QueryOk(QueryOf(s))
  {
    if s != "" && s[0] != '#' {
      if s[0] == '?' {
        QueryCharsOk(s[1..]);
        assert QueryOf(s)[1..] == QueryChars(s[1..]);
      } else {
        QueryIsOk(s[1..]);
      }
    }
  }

  lemma EscapedLetters(c: char)
    ensures !IsSlash(c) ==> Letters(PercentEscape(c))
    ensures DataChars(PercentEscape(c))
  {
    hide PercentEscapeQuery, PercentEscape;
    EscapedChars(c);
    forall i | 0 <= i < |PercentEscape(c)| && HexOrPercent(PercentEscape(c)[i])
      ensures SegChar(PercentEscape(c)[i])
    {
      HexIsSafe(PercentEscape(c)[i]);
    }
  }

  lemma {:induction false} SplitLetters(raw: string, buffer: string)
    requires Letters(buffer)
    ensures SplitPath(raw, buffer) != [] && forall k :: 0 <= k < |SplitPath(raw, buffer)| ==> Letters(SplitPath(raw, buffer)[k])
    decreases |raw|
  {
    hide PercentEscape, SegChar;
    if raw != "" {
      if IsSlash(raw[0]) {
        SplitLetters(raw[1..], "");
      } else if IsTabOrNewline(raw[0]) {
        SplitLetters(raw[1..], buffer);
      } else {
        EscapedLetters(raw[0]);
        SplitLetters(raw[1..], buffer + PercentEscape(raw[0]));
      }
    }
  }

  lemma EmptySegment()
    ensures SegmentOk("") && !Barred("")
  {
    NoSlashDots("");
  }

  lemma DriveOk(c: char)
    requires IsAlpha(c)
    ensures SegmentOk([c, ':'])
  {
    ShortMapping([c, ':']);
  }

  lemma MappingOk(buffer: string)
    requires Letters(buffer)
    ensures var s := DotMapping(buffer); s == "." || s == ".." || (s == buffer && SegmentOk(s))
  {
    hide DotMapping;
    ShortMapping(buffer);
  }

  /** A segment more keeps the path of a file URL normal. */
  lemma FileSegmentAdded(path: seq<string>, buffer: string, slash: bool)
    requires SegmentsOk(path) && Letters(buffer)
    ensures var next := AddSegment("file", path, buffer, slash);
            SegmentsOk(next) && (FilePath(path) ==> FilePath(next)) && (!slash ==> next != [])
  {
    hide SegmentOk, DotMapping;
    EmptySegment();
    MappingOk(buffer);
    var segment := DotMapping(buffer);
    if segment != ".." && segment != "." && path == [] && Barred(segment) {
      DriveOk(segment[0]);
    }
  }

  lemma {:induction false} FileSegmentsAdded(path: seq<string>, segments: seq<string>)
    requires SegmentsOk(path) && segments != [] && forall k :: 0 <= k < |segments| ==> Letters(segments[k])
    ensures var next := AddSegments("file", path, segments);
            SegmentsOk(next) && (FilePath(path) ==> FilePath(next)) && next != []
    decreases |segments|
  {
    hide AddSegment, FilePath, Letters, SegmentsOk;
    if |segments| == 1 {
      FileSegmentAdded(path, segments[0], false);
    } else {
      FileSegmentAdded(path, segments[0], true);
      FileSegmentsAdded(AddSegment("file", path, segments[0], true), segments[1..]);
    }
  }

  ghost predicate FileRest(f: Fields, r: Fields, path: seq<string>) {
    && r == f.(path := r.path, query := r.query, fragment := r.fragment)
    && r.path != [] && SegmentsOk(r.path) && (FilePath(path) ==> FilePath(r.path)) && QueryOk(r.query) && FragmentOk(r.fragment)
  }

  lemma RestIsNormal(f: Fields, path: seq<string>, raw: string, buffer: string, s: string)
    requires SegmentsOk(path) && Letters(buffer) && Trimmed(s)
    ensures FileRest(f, WithRest(f, AddSegments("file", path, SplitPath(raw, buffer)), s), path)
  {
    hide FilePath, SegmentsOk, QueryOk, FragmentOk, AddSegments, SplitPath, Letters, QueryOf, FragmentOf, Trimmed;
    SplitLetters(raw, buffer);
    FileSegmentsAdded(path, SplitPath(raw, buffer));
    QueryIsOk(s);
    FragmentIsOk(s);
  }

  lemma {:induction false} AuthorityText(s: string)
    ensures forall i :: 0 <= i < |Untabbed(AuthorityOf(s))| ==> !IsEnd(Untabbed(AuthorityOf(s))[i]) && !IsTabOrNewline(Untabbed(AuthorityOf(s))[i])
    ensures |SkipAuthority(s)| <= |s| && SkipAuthority(s) == s[|s| - |SkipAuthority(s)|..]
  {
    if s != "" && !IsEnd(s[0]) {
      AuthorityText(s[1..]);
      UntabbedIs(AuthorityOf(s));
      assert AuthorityOf(s)[1..] == AuthorityOf(s[1..]);
    }
  }

  lemma TrimmedTail(s: string, t: string)
    requires Trimmed(s) && |t| <= |s| && t == s[|s| - |t|..]
    ensures Trimmed(t)
  {
    if t != "" {
      assert t[|t| - 1] == s[|s| - 1];
    }
  }

  lemma HostLowered(h: string)
    requires forall i :: 0 <= i < |h| ==> !IsEnd(h[i]) && !IsTabOrNewline(h[i])
    ensures FileHostOk(Lower(h)) && (IsDriveLetter(Lower(h)) <==> IsDriveLetter(h))
  {
    hide LowerChar;
    LowerTwice(h);
    LowerSize(h);
    forall i | 0 <= i < |h|
      ensures Lower(h)[i] == LowerChar(h[i])
    {
      LowerAt(h, i);
    }
    forall i | 0 <= i < |h|
      ensures !IsEnd(Lower(h)[i]) && !IsTabOrNewline(Lower(h)[i])
    {
      LowerKind(h[i]);
    }
    if |h| == 2 {
      LowerKind(h[0]);
      LowerKind(h[1]);
    }
  }

  lemma LowerKind(c: char)
    ensures IsEnd(LowerChar(c)) == IsEnd(c) && IsTabOrNewline(LowerChar(c)) == IsTabOrNewline(c) && IsAlpha(LowerChar(c)) == IsAlpha(c)
    ensures (LowerChar(c) == ':' <==> c == ':') && (LowerChar(c) == '|' <==> c == '|')
  {
  }

  lemma NothingYet()
    ensures FileHostOk("") && FilePath([]) && SegmentsOk([]) && Letters("") && QueryOk("") && FragmentOk("") && !IsDriveLetter("")
  {
  }

  lemma DriveLetters(h: string)
    requires IsDriveLetter(h)
    ensures Letters(h)
  {
  }

  lemma FileAtIsNormal(host: string, rest: string)
    requires Trimmed(rest) && forall i :: 0 <= i < |host| ==> !IsEnd(host[i]) && !IsTabOrNewline(host[i])
    ensures NormalFile(FileAt(CLEARED.(scheme := "file", isRelative := true), host, rest))
  {
    hide SegmentsOk, QueryOk, FragmentOk, AddSegments, SplitPath, Letters, QueryOf, FragmentOf, Trimmed, FileHostOk, BeforeQueryOf;
    var f := CLEARED.(scheme := "file", isRelative := true);
    NothingYet();
    if IsDriveLetter(host) {
      DriveLetters(host);
      RestIsNormal(f, [], BeforeQueryOf(rest), host, rest);
    } else {
      if host != "" {
        HostLowered(host);
      }
      RestIsNormal(if host == "" then f else f.(host := Lower(host)), [], BeforeQueryOf(AfterSlash(rest)), "", rest);
    }
  }

  lemma DroppedPath(path: seq<string>)
    requires SegmentsOk(path)
    ensures SegmentsOk(DropLast(path))
  {
  }

  /** The part of a base that a file URL may take over. */
  lemma BaseParts(b: Fields)
    requires Settled(b)
    ensures FileHostOk(b.host) && SegmentsOk(b.path) && QueryOk(b.query)
  {
    hide SegmentOk, Lower;
    NothingYet();
  }

  /** A file URL: own, if there is no base. */
  lemma FileIsNormal(base: Option<Fields>, s: string)
    requires Trimmed(s) && (base.Some? ==> Settled(base.value))
    ensures FileFields(base, s).Some? ==> FileUrl(FileFields(base, s).value)
    ensures FileFields(base, s).Some? && base.None? ==> NormalFile(FileFields(base, s).value)
  {
    hide SegmentsOk, QueryOk, FragmentOk, AddSegments, SplitPath, Letters, QueryOf, FragmentOf, Trimmed, FileHostOk, BeforeQueryOf, FileAt;
    hide DriveLetterAt, Settled, IsDriveLetter;
    var f := CLEARED.(scheme := "file", isRelative := true);
    NothingYet();
    QueryIsOk(s);
    FragmentIsOk(s);
    if OpensAuthority(s) {
      AuthorityText(s[2..]);
      AuthorityTail(s);
      FileAtIsNormal(Untabbed(AuthorityOf(s[2..])), SkipAuthority(s[2..]));
    } else if s != "" && IsSlash(s[0]) {
      RestIsNormal(f, [], BeforeQueryOf(s[1..]), "", s);
    } else if DriveLetterAt(s, 0) {
      RestIsNormal(f, [], BeforeQueryOf(s), "", s);
    } else if base.Some? {
      var b := base.value;
      BaseParts(b);
      DroppedPath(b.path);
      RestIsNormal(f.(host := b.host, port := b.port, username := b.username, password := b.password),
                   DropLast(b.path), BeforeQueryOf(s), "", s);
    }
  }

  lemma AuthorityTail(s: string)
    requires Trimmed(s) && |s| > 1
    ensures Trimmed(SkipAuthority(s[2..]))
  {
    AuthorityText(s[2..]);
    TrimmedTail(s, SkipAuthority(s[2..]));
  }

  // ---------------------------------------------------------------- every parsed URL

  /** A text has no scheme, or one of its three kinds. */
  lemma {:induction false} OpaqueData(s: string)
    ensures DataChars(Escaped(s))
  {
    hide PercentEscape, EscapeSafe;
    if s != "" {
      OpaqueData(s[1..]);
      EscapedLetters(s[0]);
      EscapedIs(s);
    }
  }

  lemma EscapedIs(s: string)
    requires s != ""
    ensures Escaped(s) == (if IsTabOrNewline(s[0]) then "" else PercentEscape(s[0])) + Escaped(s[1..])
  {
  }

  lemma SchemeIsNormal(input: string, n: nat)
    requires SchemeIs(input, n)
    ensures NormalScheme(Lower(input[..n]))
  {
    hide LowerChar;
    var s := input[..n];
    LowerTwice(s);
    LowerSize(s);
    forall i | 0 <= i < n
      ensures IsSchemeChar(Lower(s)[i]) && (i == 0 ==> IsAlpha(Lower(s)[i]))
    {
      LowerAt(s, i);
      LowerScheme(s[i]);
    }
  }

  lemma LowerScheme(c: char)
    ensures IsSchemeChar(LowerChar(c)) == IsSchemeChar(c) && IsAlpha(LowerChar(c)) == IsAlpha(c)
    ensures IsAlpha(c) ==> IsSchemeChar(c)
  {
  }

  lemma OpaqueIsNormal(input: string, n: nat)
    requires SchemeIs(input, n) && !IsRelativeScheme(Lower(input[..n])) && Trimmed(input)
    ensures var s := input[n + 1..];
            NormalOpaque(CLEARED.(scheme := Lower(input[..n]), schemeData := Escaped(BeforeQueryOf(s)), fragment := FragmentOf(s)))
  {
    hide FragmentOk, FragmentOf, DataChars, Escaped, BeforeQueryOf, NormalScheme, Lower, DefaultPort;
    SchemeIsNormal(input, n);
    OpaqueData(BeforeQueryOf(input[n + 1..]));
    TrimmedTail(input, input[n + 1..]);
    FragmentIsOk(input[n + 1..]);
  }

  lemma AuthorityScheme(scheme: string, s: string)
    ensures AuthorityFields(scheme, s) == INVALID || AuthorityFields(scheme, s).scheme == scheme
  {
    hide UserText, AfterLastAt, AuthorityOf, HostLength, Untabbed, Escaped, SkipAuthority, AfterColonOf, BeforeColon;
  }

  lemma KindOf(f: Fields)
    requires ResultOk(f) && NonFile(f.scheme)
    ensures Normal(f)
  {
  }

  lemma InvalidScheme()
    ensures INVALID.scheme == "" && !NonFile("")
  {
  }

  /** Whatever the text and the base, what comes out is settled if the base is. */
  lemma NewIsSettled(url: string, base: Option<Fields>)
    requires base.Some? ==> Settled(base.value)
    ensures New(url, base).Some? ==> Settled(New(url, base).value)
  {
    hide Parse, Normal, ResultOk, FileFields, FileUrl, NormalOpaque, AuthorityFields, DefaultPort, Lower, Made, Trimmed;
    var input := TrimRight(TrimLeft(url));
    TrimRightTrimmed(TrimLeft(url));
    BaseKind(base);
    NewIsNormal(url, base);
    ParseMakes(input, base);
    InvalidScheme();
    SettledOf(input, base, New(url, base));
  }

  lemma BaseKind(base: Option<Fields>)
    requires base.Some? ==> Settled(base.value)
    ensures BaseOk(base)
  {
  }

  lemma SettledOf(input: string, base: Option<Fields>, r: Option<Fields>)
    requires Trimmed(input) && BaseOk(base) && (base.Some? ==> Settled(base.value))
    requires Made(r, input, base) && (r.Some? ==> ResultOk(r.value))
    ensures r.Some? ==> Settled(r.value)
  {
    hide Normal, ResultOk, FileFields, FileUrl, NormalOpaque, AuthorityFields, DefaultPort, Lower, Trimmed, MadeOf;
    InvalidScheme();
    if r.Some? {
      if HasScheme(input) {
        var n: nat :| SchemeIs(input, n);
        TrimmedTail(input, input[n + 1..]);
        SchemedIsSettled(input, base, r, n);
      } else if base.Some? && NonFile(base.value.scheme) {
        if OpensAuthority(input) {
          AuthorityScheme(base.value.scheme, SkipSlashes(input));
        }
        if NonFile(r.value.scheme) {
          KindOf(r.value);
        }
      } else if base.Some? && base.value.scheme == "file" {
        FileIsNormal(base, input);
      }
    }
  }

  lemma SchemedIsSettled(input: string, base: Option<Fields>, r: Option<Fields>, n: nat)
    requires SchemeIs(input, n) && Trimmed(input) && Trimmed(input[n + 1..]) && BaseOk(base) && (base.Some? ==> Settled(base.value))
    requires MadeOf(r, Lower(input[..n]), input[n + 1..], base) && r.Some? && ResultOk(r.value)
    ensures Settled(r.value)
  {
    hide Normal, ResultOk, FileFields, FileUrl, NormalOpaque, AuthorityFields, DefaultPort, Lower, Trimmed;
    var scheme := Lower(input[..n]);
    if scheme == "file" {
      FileIsNormal(base, input[n + 1..]);
    } else if !NonFile(scheme) {
      OpaqueIsNormal(input, n);
    } else {
      AuthorityScheme(scheme, SkipSlashes(input[n + 1..]));
      if NonFile(r.value.scheme) {
        KindOf(r.value);
      }
    }
  }

  // ---------------------------------------------------------------- the print of an opaque URL

  lemma {:induction false} EscapedSame(s: string)
    requires DataChars(s)
    ensures Escaped(s) == s
  {
    hide EscapeSafe;
    if s != "" {
      EscapedSame(s[1..]);
      SafeIsPlain(s[0]);
      assert s == [s[0]] + s[1..];
      EscapedIs(s);
    }
  }

  lemma SafeIsPlain(c: char)
    requires EscapeSafe(c)
    ensures PercentEscape(c) == [c] && !IsTabOrNewline(c) && c != '?' && c != '#' && !IsTrimmed(c) && QuerySafe(c)
  {
  }

  /** What stands before a query or a fragment is passed over. */
  lemma {:induction false} Passed(a: string, b: string)
    requires PathChars(a)
    ensures BeforeQueryOf(a + b) == a + BeforeQueryOf(b) && QueryOf(a + b) == QueryOf(b)
    ensures FragmentOf(a + b) == FragmentOf(b) && FirstMark(a + b) == FirstMark(b)
  {
    if a == "" {
      assert a + b == b;
    } else {
      assert (a + b)[1..] == a[1..] + b;
      assert forall i :: 0 <= i < |a[1..]| ==> a[1..][i] == a[i + 1];
      Passed(a[1..], b);
    }
  }

  lemma {:induction false} UntabbedSame(s: string)
    requires forall i :: 0 <= i < |s| ==> !IsTabOrNewline(s[i])
    ensures Untabbed(s) == s
  {
    hide IsTabOrNewline;
    if s != "" {
      assert forall i :: 0 <= i < |s[1..]| ==> s[1..][i] == s[i + 1];
      UntabbedSame(s[1..]);
      assert s == [s[0]] + s[1..];
    }
  }

  lemma FragmentSame(r: string)
    requires FragmentOk(r)
    ensures FragmentOf(r) == r && QueryOf(r) == "" && BeforeQueryOf(r) == "" && FirstMark(r) != Some('?')
  {
    if r != "" {
      assert forall i :: 0 <= i < |r[1..]| ==> r[1..][i] == r[i + 1];
      UntabbedSame(r[1..]);
      assert r == "#" + r[1..];
    }
  }

  lemma {:induction false} QueryCharsSame(q: string, r: string)
    requires (forall i :: 0 <= i < |q| ==> QuerySafe(q[i])) && (r == "" || r[0] == '#')
    ensures QueryChars(q + r) == q
  {
    if q == "" {
      assert q + r == r;
    } else {
      assert (q + r)[1..] == q[1..] + r;
      assert forall i :: 0 <= i < |q[1..]| ==> q[1..][i] == q[i + 1];
      QueryCharsSame(q[1..], r);
      assert q == [q[0]] + q[1..];
    }
  }

  lemma {:induction false} FragmentAfter(q: string, r: string)
    requires forall i :: 0 <= i < |q| ==> q[i] != '#'
    ensures FragmentOf(q + r) == FragmentOf(r)
  {
    if q == "" {
      assert q + r == r;
    } else {
      assert (q + r)[1..] == q[1..] + r;
      assert forall i :: 0 <= i < |q[1..]| ==> q[1..][i] == q[i + 1];
      FragmentAfter(q[1..], r);
    }
  }

  /** A query and a fragment are read off again. */
  lemma EndSame(q: string, r: string)
    requires QueryOk(q) && FragmentOk(r)
    ensures BeforeQueryOf(q + r) == "" && QueryOf(q + r) == q && FragmentOf(q + r) == r
  {
    FragmentSame(r);
    if q == "" {
      assert q + r == r;
    } else {
      assert (q + r)[1..] == q[1..] + r;
      assert forall i :: 0 <= i < |q[1..]| ==> q[1..][i] == q[i + 1];
      QueryCharsSame(q[1..], r);
      FragmentAfter(q, r);
      assert q == "?" + q[1..];
    }
  }

  lemma NothingToTrim(s: string)
    requires s != "" && !IsTrimmed(s[0]) && !IsTrimmed(s[|s| - 1])
    ensures TrimRight(TrimLeft(s)) == s
  {
  }

  lemma SchemeInFront(scheme: string, rest: string)
    requires NormalScheme(scheme)
    ensures SchemeIs(scheme + (":" + rest), |scheme|) && Lower((scheme + (":" + rest))[..|scheme|]) == scheme
    ensures (scheme + (":" + rest))[|scheme| + 1..] == rest
    ensures !IsTrimmed((scheme + (":" + rest))[0])
  {
    var s := scheme + (":" + rest);
    assert s[..|scheme|] == scheme && s[|scheme|..] == ":" + rest;
    assert (":" + rest)[1..] == rest;
    AlphaStays(scheme[0]);
  }

  lemma AlphaStays(c: char)
    ensures IsAlpha(c) ==> !IsTrimmed(c)
  {
  }

  lemma DataEnds(data: string, r: string)
    requires DataChars(data) && FragmentOk(r)
    ensures var s := ":" + (data + r); !IsTrimmed(s[|s| - 1])
    ensures PathChars(data)
  {
    var s := ":" + (data + r);
    forall i | 0 <= i < |data|
      ensures data[i] != '?' && data[i] != '#' && !IsTrimmed(data[i])
    {
      SafeIsPlain(data[i]);
    }
    if r != "" {
      assert s[|s| - 1] == r[|r| - 1];
    } else if data != "" {
      assert s[|s| - 1] == data[|data| - 1];
    }
  }

  /** The print of a URL without authority is parsed as the same URL. */
  lemma OpaquePrints(f: Fields)
    requires NormalOpaque(f)
    ensures New(Href(f), None) == Some(f)
  {
    hide Parse, DefaultPort, Lower, Escaped, BeforeQueryOf, FragmentOf, TrimLeft, TrimRight, FragmentOk, NormalScheme, EscapeSafe;
    var s := f.schemeData + f.fragment;
    var input := f.scheme + (":" + s);
    OpaqueHref(f);
    SchemeInFront(f.scheme, s);
    DataEnds(f.schemeData, f.fragment);
    assert input[|input| - 1] == (":" + s)[|s|];
    NothingToTrim(input);
    OpaqueComponents(input, None, |f.scheme|);
    Passed(f.schemeData, f.fragment);
    FragmentSame(f.fragment);
    EscapedSame(f.schemeData);
    assert f.schemeData + "" == f.schemeData;
  }

  lemma OpaqueHref(f: Fields)
    requires !f.isRelative && f.query == ""
    ensures Href(f) == f.scheme + (":" + (f.schemeData + f.fragment))
  {
  }

  // ---------------------------------------------------------------- the print of a file URL

  lemma {:induction false} HostSame(h: string, rest: string)
    requires (forall i :: 0 <= i < |h| ==> !IsEnd(h[i]) && !IsTabOrNewline(h[i])) && rest != "" && IsEnd(rest[0])
    ensures Untabbed(AuthorityOf(h + rest)) == h && SkipAuthority(h + rest) == rest
  {
    if h == "" {
      assert h + rest == rest;
    } else {
      assert (h + rest)[1..] == h[1..] + rest;
      assert forall i :: 0 <= i < |h[1..]| ==> h[1..][i] == h[i + 1];
      HostSame(h[1..], rest);
      UntabbedIs(AuthorityOf(h + rest));
      assert AuthorityOf(h + rest)[1..] == AuthorityOf(h[1..] + rest);
      assert h == [h[0]] + h[1..];
    }
  }

  lemma {:induction false} SegmentSame(a: string, rest: string, buffer: string)
    requires Letters(a) && (rest == "" || rest[0] == '/')
    ensures SplitPath(a + rest, buffer) == SplitPath(rest, buffer + a)
    decreases |a|
  {
    hide SegChar, PercentEscape;
    if a == "" {
      assert a + rest == rest && buffer + a == buffer;
    } else {
      assert (a + rest)[1..] == a[1..] + rest;
      assert forall i :: 0 <= i < |a[1..]| ==> a[1..][i] == a[i + 1];
      LetterIsPlain(a[0]);
      SegmentSame(a[1..], rest, buffer + [a[0]]);
      assert buffer + [a[0]] + a[1..] == buffer + a;
    }
  }

  lemma LetterIsPlain(c: char)
    requires SegChar(c)
    ensures PercentEscape(c) == [c] && !IsSlash(c) && !IsTabOrNewline(c) && c != '?' && c != '#'
  {
  }

  lemma {:induction false} PathSame(path: seq<string>)
    requires path != [] && forall k :: 0 <= k < |path| ==> Letters(path[k])
    ensures SplitPath(Glue(path, "/"), "") == path && PathChars(Glue(path, "/"))
  {
    hide SegChar, Letters;
    var a := path[0];
    if |path| == 1 {
      SegmentSame(a, "", "");
      assert a + "" == a && "" + a == a;
      LettersAreNoMarks(a);
    } else {
      var more := Glue(path[1..], "/");
      assert forall k :: 0 <= k < |path[1..]| ==> path[1..][k] == path[k + 1];
      PathSame(path[1..]);
      assert Glue(path, "/") == a + ("/" + more);
      SegmentSame(a, "/" + more, "");
      assert "" + a == a && ("/" + more)[1..] == more;
      assert [a] + path[1..] == path;
      LettersAreNoMarks(a);
    }
  }

  lemma LettersAreNoMarks(a: string)
    requires Letters(a)
    ensures PathChars(a)
  {
  }

  lemma {:induction false} SegmentsSame(done: seq<string>, path: seq<string>)
    requires SegmentsOk(path) && (done == [] && path != [] ==> !Barred(path[0]))
    ensures AddSegments("file", done, path) == done + path
    decreases |path|
  {
    hide SegmentOk, AddSegment;
    if path == [] {
      assert done + path == done;
    } else {
      SegmentStays(done, path[0], |path| > 1);
      if |path| == 1 {
        assert done + path == done + [path[0]];
      } else {
        assert forall k :: 0 <= k < |path[1..]| ==> path[1..][k] == path[k + 1];
        SegmentsSame(done + [path[0]], path[1..]);
        assert done + [path[0]] + path[1..] == done + path;
      }
    }
  }

  lemma SegmentStays(path: seq<string>, s: string, slash: bool)
    requires SegmentOk(s) && (path == [] ==> !Barred(s))
    ensures AddSegment("file", path, s, slash) == path + [s]
  {
    hide DotMapping;
    ShortMapping(s);
  }

  lemma SegmentsLetters(path: seq<string>)
    requires SegmentsOk(path)
    ensures forall k :: 0 <= k < |path| ==> Letters(path[k])
  {
  }

  /** What stands behind the host of a file URL is read off again. */
  lemma RestSame(f: Fields)
    requires NormalFile(f)
    ensures var rest := "/" + (Glue(f.path, "/") + (f.query + f.fragment));
            WithPath(f.(path := [], query := "", fragment := ""), rest) == f
  {
    hide Glue, SplitPath, AddSegments, BeforeQueryOf, QueryChars, Untabbed, SegmentsOk, QueryOk, FragmentOk, IsDriveLetter, FileHostOk, Barred;
    var end := f.query + f.fragment;
    var x := Glue(f.path, "/") + end;
    assert ("/" + x)[1..] == x;
    EndSame(f.query, f.fragment);
    SegmentsLetters(f.path);
    PathSame(f.path);
    Passed(Glue(f.path, "/"), end);
    assert Glue(f.path, "/") + "" == Glue(f.path, "/");
    SegmentsSame([], f.path);
    assert [] + f.path == f.path;
  }

  /** The print of a file URL that is its own is parsed as the same URL. */
  lemma FilePrints(f: Fields)
    requires NormalFile(f)
    ensures New(Href(f), None) == Some(f)
  {
    hide Parse, Glue, TrimLeft, TrimRight, SegmentsOk, QueryOk, FragmentOk, Href, FileFields, FileUrl, Lower, IsTrimmed;
    var rest := "/" + (Glue(f.path, "/") + (f.query + f.fragment));
    var s := "//" + (f.host + rest);
    var input := "file" + (":" + s);
    FileHref(f);
    FileIsScheme();
    SchemeInFront("file", s);
    FileParts(f);
    LastChar(f);
    assert input == "file" + (":" + ("//" + f.host)) + rest;
    assert input[|input| - 1] == rest[|rest| - 1];
    NothingToTrim(input);
    FileComponents(input, None, 4);
    FileTextSame(f, s, rest);
  }

  lemma FileParts(f: Fields)
    requires FileUrl(f)
    ensures SegmentsOk(f.path) && QueryOk(f.query) && FragmentOk(f.fragment)
  {
  }

  lemma FileTextSame(f: Fields, s: string, rest: string)
    requires NormalFile(f) && rest == "/" + (Glue(f.path, "/") + (f.query + f.fragment)) && s == "//" + (f.host + rest)
    ensures FileFields(None, s) == Some(f)
  {
    hide Glue, Untabbed, AuthorityOf, SkipAuthority, SegmentsOk, QueryOk, FragmentOk, FileAt, WithPath, Lower, IsDriveLetter, Barred;
    hide AddSegments, SplitPath, BeforeQueryOf, QueryChars, DriveLetterAt;
    assert s[2..] == f.host + rest;
    HostSame(f.host, rest);
    RestSame(f);
    FileAtIs(f, rest);
  }

  lemma FileAtIs(f: Fields, rest: string)
    requires NormalFile(f)
    ensures FileAt(CLEARED.(scheme := "file", isRelative := true), f.host, rest) ==
            WithPath(f.(path := [], query := "", fragment := ""), rest)
  {
    hide WithPath, SegmentsOk, QueryOk, FragmentOk, Barred;
  }

  lemma FileIsScheme()
    ensures NormalScheme("file")
  {
    assert Lower("file") == "file" by { LowerIs("file", "file"); }
  }

  lemma FileHref(f: Fields)
    requires NormalFile(f)
    ensures Href(f) == "file" + (":" + ("//" + (f.host + ("/" + (Glue(f.path, "/") + (f.query + f.fragment))))))
  {
    hide Glue, SegmentsOk, QueryOk, FragmentOk, IsDriveLetter, FileHostOk, Barred, Href;
    HrefParts(f);
    FileNested(f, f.host + ("/" + (Glue(f.path, "/") + (f.query + f.fragment))));
  }

  lemma FileNested(f: Fields, p: string)
    requires f.scheme == "file" && f.username == "" && f.password == None && f.port == ""
    ensures (f.scheme + "://") + (Credentials(f) + p) == "file" + (":" + ("//" + p))
    ensures HostAndPort(f) == f.host
  {
    assert "" + p == p;
    assert "file" + "://" == "file" + (":" + "//");
  }

  // ---------------------------------------------------------------- every print

  /** A valid URL that is parsed from any text against any base prints as a text that is parsed as the same URL, unless it
      is a file URL that is not its own; and then it never does. */
  lemma PrintsBack(f: Fields)
    requires Settled(f) && f != INVALID
    ensures New(Href(f), None) == Some(f) <==> (f.scheme == "file" ==> Own(f))
  {
    hide New, Href, Normal, NormalOpaque, Own, FileUrl;
    if Normal(f) {
      NormalIsFixpoint(f);
      NormalIsNoFile(f);
    } else if NormalOpaque(f) {
      OpaquePrints(f);
      OpaqueIsNoFile(f);
    } else {
      FileIsFile(f);
      if Own(f) {
        FilePrints(f);
      } else if New(Href(f), None) == Some(f) {
        FileFromText(Href(f), f);
      }
    }
  }

  lemma NormalIsNoFile(f: Fields)
    requires Normal(f)
    ensures f.scheme != "file"
  {
  }

  lemma OpaqueIsNoFile(f: Fields)
    requires NormalOpaque(f)
    ensures f.scheme != "file"
  {
  }

  lemma FileIsFile(f: Fields)
    requires FileUrl(f)
    ensures f.scheme == "file"
  {
  }

  /** Without a base, a file URL is its own. */
  lemma FileFromText(url: string, f: Fields)
    requires New(url, None) == Some(f) && f.scheme == "file"
    ensures Own(f)
  {
    hide Parse, FileFields, AuthorityFields, DefaultPort, Lower, Trimmed, Own, FileUrl;
    var input := TrimRight(TrimLeft(url));
    TrimRightTrimmed(TrimLeft(url));
    ParseMakes(input, None);
    InvalidScheme();
    assert HasScheme(input);
    var n: nat :| SchemeIs(input, n);
    TrimmedTail(input, input[n + 1..]);
    AuthorityScheme(Lower(input[..n]), SkipSlashes(input[n + 1..]));
    FileIsNormal(None, input[n + 1..]);
  }

  /** Every valid URL that any chain of resolutions reaches. */
  lemma {:induction false} EveryUrlPrints(urls: seq<string>)
    ensures var r := Resolve(urls);
            r.Some? ==> Settled(r.value) && (!r.value.isInvalid ==> (New(Href(r.value), None) == r <==> (r.value.scheme == "file" ==> Own(r.value))))
  {
    hide New, Settled, Own, Href;
    if |urls| == 1 {
      NewIsSettled(urls[0], None);
    } else if |urls| > 1 {
      EveryUrlPrints(urls[..|urls| - 1]);
      var base := Resolve(urls[..|urls| - 1]);
      if base.Some? {
        NewIsSettled(urls[|urls| - 1], base);
      }
    }
    if Resolve(urls).Some? && !Resolve(urls).value.isInvalid {
      PrintsBack(Resolve(urls).value);
    }
  }

  /** A file URL may borrow credentials from a base of another scheme, and then its print is another URL. */
  lemma BorrowsCredentials()
    ensures var b := CLEARED.(scheme := "http", isRelative := true, username := "u", host := "h", path := ["p"]);
            Settled(b) && New("file:", Some(b)).Some? && !Own(New("file:", Some(b)).value)
  {
    hide Parse;
    var b := CLEARED.(scheme := "http", isRelative := true, username := "u", host := "h", path := ["p"]);
    BorrowedBase(b);
    var s := "file:";
    FileIsScheme();
    SchemeInFront("file", "");
    assert "file" + (":" + "") == s;
    NothingToTrim(s);
    FileComponents(s, Some(b), 4);
  }

  lemma BorrowedBase(b: Fields)
    requires b == CLEARED.(scheme := "http", isRelative := true, username := "u", host := "h", path := ["p"])
    ensures Normal(b)
  {
    assert Lower("h") == "h" by { LowerIs("h", "h"); }
    assert "h"[..0] == "";
    assert Brackets("h") == Some(false);
    ShortMapping("p");
    assert SegmentOk("p") by { DotMappingIs("p"); DottedOne("p"); DottedTwo("p"); }
  }
}
