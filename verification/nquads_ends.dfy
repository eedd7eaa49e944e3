/** Where the N-Quads reader stops (nquads/reader.go:53-125): the statements of a whole text, its end, and its errors. */
module NQuadsEnds {
  import opened Options
  import opened Texts
  import opened NQuads
  import opened Bits
  import opened NQuadsReader
  import opened NQuadsCfg

  // ---------------------------------------------------------------- the forms

  /** One statement after the other, up to a place in the text. */
  ghost predicate Chain(s: string, sts: seq<Statement>, t: string)
    decreases |sts|
  {
    if sts == [] then s == t else exists u :: StatementForm(s, sts[0], u) && Chain(u, sts[1..], t)
  }

  ghost predicate Starts(t: string) {
    t != "" && !IsBlank(t[0]) && t[0] != '#'
  }

  ghost predicate OnlySpace(s: string) {
    forall t :: Space(s, t) ==> !Starts(t)
  }

  /** An escape sequence that the text cuts short. */
  ghost predicate CutEscape(s: string) {
    || s == "\\"
    || (|s| > 1 && s[0] == '\\' && Ascii(s[2..]) && ((s[1] == 'u' && |s| < 6) || (s[1] == 'U' && |s| < 10)))
  }

  /** The text ends before the closing delimiter. */
  ghost predicate Unclosed(s: string, close: char)
    decreases |s|
  {
    || s == ""
    || (s[0] != close && s[0] != '\\' && Unclosed(s[1..], close))
    || (s[0] != close && (CutEscape(s) || exists c, u :: Escape(s, c, u) && |u| < |s| && Unclosed(u, close)))
  }

  /** The text ends before a subject, or inside one. */
  ghost predicate Ends(s: string) {
    || OnlySpace(s)
    || exists u :: Space(s, u) && Starts(u) && Cut(u)
  }

  ghost predicate Cut(u: string) {
    || ("<" <= u && Unclosed(u[1..], '>'))
    || (|u| == 1 && u[0] != '<' && u[0] < '\U{80}')
    || ("_:" <= u && forall k :: 2 <= k < |u| ==> !IsBlank(u[k]))
  }

  /** What the reader has passed, in front of the predicate, the object and the graph. */
  ghost predicate AtPredicate(s: string, t: string) {
    exists node, u :: Space(s, u) && SubjectForm(u, node, t)
  }

  ghost predicate AtObject(s: string, t: string) {
    exists verb, r, u :: AtPredicate(s, r) && Space(r, u) && IriForm(u, verb, t)
  }

  ghost predicate AtGraph(s: string, t: string) {
    exists node, r, u :: AtObject(s, r) && Space(r, u) && ObjectForm(u, node, t)
  }

  /** There is something to read there, but neither an IRI nor, unless `u` is no subject, a blank node. */
  ghost predicate NoIri(s: string) {
    exists u :: Space(s, u) && Starts(u) && u[0] != '<'
  }

  ghost predicate NoSubjectAt(u: string) {
    Starts(u) && u[0] != '<' && !("_:" <= u) && TwoBytes(u)
  }

  /** A literal that is followed by this mark. */
  ghost predicate MarkedBy(s: string, mark: string) {
    exists u, text, v, t :: Space(s, u) && "\"" <= u && Content(u[1..], '\"', text, v) && Space(v, t) && TwoBytes(t) && mark <= t
  }

  ghost predicate Refused(s: string, e: Error) {
    match e
    case ExpectedStatement => exists u :: Space(s, u) && NoSubjectAt(u)
    case ExpectedPredicate => exists r :: AtPredicate(s, r) && NoIri(r)
    case ExpectedObject => exists r, u :: AtObject(s, r) && Space(r, u) && NoSubjectAt(u) && u[0] != '\"'
    case ExpectedLiteralType => exists r :: AtObject(s, r) && MarkedBy(r, "^^")
    case InvalidCharacterInLanguageTag => exists r :: AtObject(s, r) && MarkedBy(r, "@")
    case ExpectedFinalDot =>
      || (exists r, u :: AtGraph(s, r) && Space(r, u) && Starts(u) && u[0] != '<' && u[0] != '.')
      || (exists r, u, iri, v, w :: AtGraph(s, r) && Space(r, u) && IriForm(u, iri, v) && Space(v, w) && Starts(w) && w[0] != '.')
    case _ => false
  }

  // ---------------------------------------------------------------- spaces

  lemma SkipIff(s: string, t: string)
    ensures SkipSpaces(s, false) == Some(t) <==> Space(s, t) && Starts(t)
  {
    hide Space, SkipSpaces;
    SkipsAre(s, false);
    if Space(s, t) && Starts(t) {
      SpaceSkips(s, t);
    }
  }

  lemma SkipNothing(s: string)
    ensures SkipSpaces(s, false) == None <==> OnlySpace(s)
  {
    hide Space, SkipSpaces;
    SkipsAre(s, false);
    if t :| Space(s, t) && Starts(t) {
      SpaceSkips(s, t);
    }
  }

  lemma Stands(t: string)
    requires Starts(t)
    ensures SkipSpaces(t, false) == Some(t)
  {
  }

  // ---------------------------------------------------------------- the end of the input

  lemma EscapeEnds(s: string)
    requires s != "" && s[0] == '\\'
    ensures ReadEscape(s[1..]) == Failed(Eof) <==> CutEscape(s)
  {
    hide ReadDigits, ToRune;
    var r := s[1..];
    if |s| > 1 {
      assert r[1..] == s[2..];
      if r[0] == 'u' {
        DigitsFold(s[2..], 0, 4, 0);
      } else if r[0] == 'U' {
        DigitsFold(s[2..], 0, 8, 0);
      }
    }
  }

  lemma {:induction false} ContentEnds(s: string, close: char)
    requires close != '\\'
    ensures ReadUntil(s, close) == Failed(Eof) <==> Unclosed(s, close)
    decreases |s|
  {
    hide ReadEscape, Escape, CutEscape;
    if s != "" && s[0] != close {
      if s[0] == '\\' {
        EscapeEnds(s);
        var e := ReadEscape(s[1..]);
        if e.Got? {
          EscapeIff(s, e.value, e.rest);
          ContentEnds(e.rest, close);
        }
        if c, u :| Escape(s, c, u) && |u| < |s| && Unclosed(u, close) {
          EscapeIff(s, c, u);
        }
      } else {
        ContentEnds(s[1..], close);
        PlainIsNoEscape(s);
      }
    }
  }

  lemma PlainIsNoEscape(s: string)
    requires s != "" && s[0] != '\\'
    ensures !CutEscape(s) && forall c, u :: !Escape(s, c, u)
  {
  }

  lemma {:induction false} NameEnds(s: string)
    ensures ReadName(s).Failed? <==> forall k :: 0 <= k < |s| ==> !IsBlank(s[k])
    ensures ReadName(s).Failed? ==> ReadName(s) == Failed(Eof)
    decreases |s|
  {
    hide IsBlank;
    if s != "" {
      NameEnds(s[1..]);
      assert forall k :: 0 < k < |s| ==> s[k] == s[1..][k - 1];
      assert forall k :: 0 <= k < |s[1..]| ==> s[1..][k] == s[k + 1];
    }
  }

  lemma SubjectCut(u: string)
    requires Starts(u)
    ensures ReadSubject(u) == Failed(Eof) <==> Cut(u)
  {
    hide ReadUntil, ReadName, Unclosed;
    Stands(u);
    if u[0] == '<' {
      ContentEnds(u[1..], '>');
    } else if "_:" <= u {
      NameEnds(u[2..]);
      assert forall k :: 0 <= k < |u[2..]| ==> u[2..][k] == u[k + 2];
      assert forall k :: 2 <= k < |u| ==> u[k] == u[2..][k - 2];
    }
  }

  lemma SubjectAfterSpace(s: string)
    ensures match SkipSpaces(s, false) case None => ReadSubject(s) == Failed(Eof) case Some(u) => ReadSubject(s) == ReadSubject(u)
  {
    hide ReadUntil, ReadName;
    SkipsAre(s, false);
    if SkipSpaces(s, false).Some? {
      Stands(SkipSpaces(s, false).value);
    }
  }

  /** The reader reports the end of the input exactly when the text ends before a subject or inside one. */
  lemma EndsIff(s: string)
    ensures ReadSubject(s) == Failed(Eof) <==> Ends(s)
    ensures (ReadStatement(s).Got? && ReadStatement(s).value.None?) <==> Ends(s)
  {
    hide ReadSubject, SkipSpaces, Space, Cut, ReadRest;
    SubjectAfterSpace(s);
    SkipNothing(s);
    if SkipSpaces(s, false).Some? {
      var u := SkipSpaces(s, false).value;
      SkipIff(s, u);
      SubjectCut(u);
    }
    if u :| Space(s, u) && Starts(u) && Cut(u) {
      SkipIff(s, u);
    }
  }

  // ---------------------------------------------------------------- where an error is found

  predicate Expected(e: Error) {
    e != Eof && e != UnexpectedEscapeSequence && e != ByteOfRune
  }

  lemma {:induction false} UntilFails(s: string, close: char)
    ensures ReadUntil(s, close).Failed? ==> !Expected(ReadUntil(s, close).error)
    decreases |s|
  {
    hide ReadEscape;
    if s != "" && s[0] != close {
      if s[0] == '\\' {
        EscapeFails(s[1..]);
        if ReadEscape(s[1..]).Got? {
          UntilFails(ReadEscape(s[1..]).rest, close);
        }
      } else {
        UntilFails(s[1..], close);
      }
    }
  }

  lemma EscapeFails(s: string)
    ensures ReadEscape(s).Failed? ==> !Expected(ReadEscape(s).error)
  {
    hide ReadDigits;
    if s != "" {
      DigitsFail(s[1..], 0, if s[0] == 'u' then 4 else 8, 0);
    }
  }

  lemma {:induction false} DigitsFail(s: string, i: nat, n: nat, acc: nat)
    ensures ReadDigits(s, i, n, acc).Failed? ==> !Expected(ReadDigits(s, i, n, acc).error)
    decreases n - i
  {
    hide BitOr, DigitValue, Pow;
    if i < n && s != "" && s[0] < '\U{80}' {
      DigitsFail(s[1..], i + 1, n, BitOr(acc, DigitValue(s[0]) * Pow(2, n - 1 - i) * 8));
    }
  }

  lemma IriFails(s: string)
    ensures ReadIri(s).Failed? ==> !Expected(ReadIri(s).error)
    ensures (ReadIri(s).Got? && ReadIri(s).value.None?) <==> NoIri(s)
    ensures ReadIri(s).Got? && ReadIri(s).value.None? ==> Space(s, ReadIri(s).rest) && Starts(ReadIri(s).rest) && ReadIri(s).rest[0] != '<'
  {
    hide ReadUntil, SkipSpaces, Space;
    SkipsAre(s, false);
    if SkipSpaces(s, false).Some? {
      UntilFails(SkipSpaces(s, false).value[1..], '>');
    }
    if u :| Space(s, u) && Starts(u) && u[0] != '<' {
      SkipIff(s, u);
    }
  }

  lemma SubjectFails(s: string)
    ensures ReadSubject(s).Failed? ==> !Expected(ReadSubject(s).error)
    ensures (ReadSubject(s).Got? && ReadSubject(s).value.None?) <==> exists u :: Space(s, u) && NoSubjectAt(u)
    ensures ReadSubject(s).Got? && ReadSubject(s).value.None? ==> Space(s, ReadSubject(s).rest) && NoSubjectAt(ReadSubject(s).rest)
  {
    hide ReadUntil, Space, ReadName, SkipSpaces;
    SkipsAre(s, false);
    SubjectAfterSpace(s);
    if SkipSpaces(s, false).Some? {
      var u := SkipSpaces(s, false).value;
      Stands(u);
      UntilFails(u[1..], '>');
      if "_:" <= u {
        NameEnds(u[2..]);
      }
    }
    if u :| Space(s, u) && NoSubjectAt(u) {
      SkipIff(s, u);
    }
  }

  lemma SuffixFails(s: string, text: string)
    ensures ReadSuffix(s, text) == Failed(ExpectedLiteralType) <==> exists t :: Space(s, t) && TwoBytes(t) && "^^" <= t
    ensures ReadSuffix(s, text) == Failed(InvalidCharacterInLanguageTag) <==> exists t :: Space(s, t) && TwoBytes(t) && "@" <= t
    ensures ReadSuffix(s, text).Failed? && Expected(ReadSuffix(s, text).error) ==>
              ReadSuffix(s, text).error == ExpectedLiteralType || ReadSuffix(s, text).error == InvalidCharacterInLanguageTag
  {
    hide SkipSpaces, Space, ReadTag, ReadUntil;
    SkipsAre(s, false);
    if SkipSpaces(s, false).Some? {
      var t := SkipSpaces(s, false).value;
      Stands(t);
      if t[0] == '@' {
        AtIsNoTag(t);
      }
    }
    if t :| Space(s, t) && TwoBytes(t) && "^^" <= t {
      SkipIff(s, t);
    }
    if t :| Space(s, t) && TwoBytes(t) && "@" <= t {
      SkipIff(s, t);
    }
  }

  lemma MarkedIff(u: string, mark: string)
    requires Starts(u) && u[0] == '\"'
    ensures MarkedBy(u, mark) <==>
              var r := ReadUntil(u[1..], '\"');
              r.Got? && exists t :: Space(r.rest, t) && TwoBytes(t) && mark <= t
  {
    hide ReadUntil, Content, Space;
    SpaceHere(u);
    Stands(u);
    var r := ReadUntil(u[1..], '\"');
    if r.Got? {
      ContentRead(u[1..], '\"');
    }
    if u', text, v, t :| Space(u, u') && "\"" <= u' && Content(u'[1..], '\"', text, v) && Space(v, t) && TwoBytes(t) && mark <= t {
      SkipIff(u, u');
      ReadContent(u[1..], '\"', text, v);
    }
  }

  lemma LiteralFails(u: string)
    requires Starts(u) && u[0] == '\"'
    ensures ReadLiteral(u) == Failed(ExpectedLiteralType) <==> MarkedBy(u, "^^")
    ensures ReadLiteral(u) == Failed(InvalidCharacterInLanguageTag) <==> MarkedBy(u, "@")
    ensures ReadLiteral(u).Failed? && Expected(ReadLiteral(u).error) ==>
              ReadLiteral(u).error == ExpectedLiteralType || ReadLiteral(u).error == InvalidCharacterInLanguageTag
    ensures ReadLiteral(u).Got? ==> ReadLiteral(u).value.Some?
  {
    hide ReadUntil, ReadSuffix, SkipSpaces, Space, MarkedBy, TwoBytes;
    Stands(u);
    MarkedIff(u, "^^");
    MarkedIff(u, "@");
    UntilFails(u[1..], '\"');
    var r := ReadUntil(u[1..], '\"');
    if r.Got? {
      SuffixFails(r.rest, r.value);
    }
  }

  lemma ObjectAfterSpace(s: string, u: string)
    requires SkipSpaces(s, false) == Some(u)
    ensures ReadObject(s) == ReadObject(u)
    ensures u[0] == '\"' && TwoBytes(u) ==> ReadObject(s) == ReadLiteral(u)
    ensures NoSubjectAt(u) && u[0] != '\"' ==> ReadObject(s) == Got(None, u)
  {
    hide ReadUntil, ReadName, ReadSuffix, SkipSpaces;
    SkipsAre(s, false);
    Stands(u);
    SubjectAfterSpace(s);
  }

  lemma MarkedAfterSpace(s: string, u: string, mark: string)
    requires Space(s, u) && Starts(u)
    ensures MarkedBy(s, mark) <==> MarkedBy(u, mark)
  {
    hide Space, Content, TwoBytes;
    SpaceHere(u);
    if u', text, v, t :| Space(s, u') && "\"" <= u' && Content(u'[1..], '\"', text, v) && Space(v, t) && TwoBytes(t) && mark <= t {
      SkipIff(s, u);
      SkipIff(s, u');
      assert Space(u, u');
    }
    if u', text, v, t :| Space(u, u') && "\"" <= u' && Content(u'[1..], '\"', text, v) && Space(v, t) && TwoBytes(t) && mark <= t {
      SkipIff(u, u);
      SkipIff(u, u');
      assert Space(s, u');
    }
  }

  lemma MarkedStarts(s: string, mark: string)
    requires MarkedBy(s, mark)
    ensures exists u :: Space(s, u) && Starts(u) && u[0] == '\"' && TwoBytes(u)
  {
    hide Space, Content;
    var u, text, v, t :| Space(s, u) && "\"" <= u && Content(u[1..], '\"', text, v) && Space(v, t) && TwoBytes(t) && mark <= t;
    ContentStarts(u[1..], '\"', text, v);
  }

  lemma ObjectFails(s: string)
    ensures (ReadObject(s).Got? && ReadObject(s).value.None?) <==> exists u :: Space(s, u) && NoSubjectAt(u) && u[0] != '\"'
    ensures ReadObject(s) == Failed(ExpectedLiteralType) <==> MarkedBy(s, "^^")
    ensures ReadObject(s) == Failed(InvalidCharacterInLanguageTag) <==> MarkedBy(s, "@")
    ensures ReadObject(s).Failed? && Expected(ReadObject(s).error) ==>
              ReadObject(s).error == ExpectedLiteralType || ReadObject(s).error == InvalidCharacterInLanguageTag
  {
    hide ReadLiteral, ReadSubject, SkipSpaces, Space, MarkedBy;
    SubjectFails(s);
    SkipsAre(s, false);
    if SkipSpaces(s, false).Some? {
      var u := SkipSpaces(s, false).value;
      SkipIff(s, u);
      ObjectAfterSpace(s, u);
      SubjectAfterSpace(s);
      SubjectFails(u);
      MarkedAfterSpace(s, u, "^^");
      MarkedAfterSpace(s, u, "@");
      ObjectFailsHere(s, u);
    } else {
      SubjectAfterSpace(s);
      SkipNothing(s);
      if MarkedBy(s, "^^") {
        MarkedStarts(s, "^^");
      }
      if MarkedBy(s, "@") {
        MarkedStarts(s, "@");
      }
    }
  }

  lemma ObjectFailsHere(s: string, u: string)
    requires SkipSpaces(s, false) == Some(u) && Starts(u) && Space(s, u)
    ensures (ReadObject(s).Got? && ReadObject(s).value.None?) <==> exists u :: Space(s, u) && NoSubjectAt(u) && u[0] != '\"'
    ensures ReadObject(s) == Failed(ExpectedLiteralType) <==> MarkedBy(u, "^^")
    ensures ReadObject(s) == Failed(InvalidCharacterInLanguageTag) <==> MarkedBy(u, "@")
    ensures ReadObject(s).Failed? && Expected(ReadObject(s).error) ==>
              ReadObject(s).error == ExpectedLiteralType || ReadObject(s).error == InvalidCharacterInLanguageTag
  {
    hide ReadLiteral, ReadSubject, SkipSpaces, Space, MarkedBy;
    ObjectAfterSpace(s, u);
    SubjectAfterSpace(s);
    SubjectFails(u);
    SubjectFails(s);
    forall u' | Space(s, u') && NoSubjectAt(u')
      ensures u' == u
    {
      SkipIff(s, u');
    }
    if ReadSubject(s).Got? && ReadSubject(s).value.None? {
      SkipIff(s, ReadSubject(s).rest);
    }
    if MarkedBy(u, "^^") || MarkedBy(u, "@") {
      MarkedStarts(u, if MarkedBy(u, "^^") then "^^" else "@");
      var u' :| Space(u, u') && Starts(u') && u'[0] == '\"' && TwoBytes(u');
      SkipIff(u, u');
      Stands(u);
    }
    if u[0] == '\"' && TwoBytes(u) {
      LiteralFails(u);
    }
  }

  // ---------------------------------------------------------------- the parts of a statement

  lemma AtPredicateIff(s: string, t: string)
    ensures AtPredicate(s, t) <==> ReadSubject(s).Got? && ReadSubject(s).value.Some? && ReadSubject(s).rest == t
  {
    hide Space, SubjectForm, ReadSubject;
    if node, u :| Space(s, u) && SubjectForm(u, node, t) {
      SubjectIff(s, node, t);
    }
    if ReadSubject(s).Got? && ReadSubject(s).value.Some? {
      SubjectIff(s, ReadSubject(s).value.value, ReadSubject(s).rest);
    }
  }

  lemma AtObjectIff(s: string, t: string)
    ensures AtObject(s, t) <==>
              && ReadSubject(s).Got? && ReadSubject(s).value.Some?
              && var r := ReadIri(ReadSubject(s).rest); r.Got? && r.value.Some? && r.rest == t
  {
    hide Space, IriForm, ReadSubject, ReadIri, AtPredicate;
    if verb, r, u :| AtPredicate(s, r) && Space(r, u) && IriForm(u, verb, t) {
      AtPredicateIff(s, r);
      IriIff(r, verb, t);
    }
    if ReadSubject(s).Got? && ReadSubject(s).value.Some? {
      var s1 := ReadSubject(s).rest;
      AtPredicateIff(s, s1);
      if ReadIri(s1).Got? && ReadIri(s1).value.Some? {
        IriIff(s1, ReadIri(s1).value.value, ReadIri(s1).rest);
      }
    }
  }

  lemma AtGraphIff(s: string, t: string)
    ensures AtGraph(s, t) <==> (exists r :: AtObject(s, r) && ReadObject(r).Got? && ReadObject(r).value.Some? && ReadObject(r).rest == t)
  {
    hide Space, ObjectForm, ReadObject, AtObject;
    if node, r, u :| AtObject(s, r) && Space(r, u) && ObjectForm(u, node, t) {
      ObjectIff(r, node, t);
    }
    if r :| AtObject(s, r) && ReadObject(r).Got? && ReadObject(r).value.Some? && ReadObject(r).rest == t {
      ObjectIff(r, ReadObject(r).value.value, t);
      var u :| Space(r, u) && ObjectForm(u, ReadObject(r).value.value, t);
    }
  }

  lemma DotFails(s: string, st: Statement)
    ensures ReadDot(s, st) == Failed(ExpectedFinalDot) <==> exists u :: Space(s, u) && Starts(u) && u[0] != '.'
    ensures ReadDot(s, st).Failed? && Expected(ReadDot(s, st).error) ==> ReadDot(s, st).error == ExpectedFinalDot
  {
    hide SkipSpaces, Space;
    SkipsAre(s, false);
    if u :| Space(s, u) && Starts(u) && u[0] != '.' {
      SkipIff(s, u);
    }
  }

  /** What can be wrong after the object. */
  ghost predicate NoDot(s: string) {
    || (exists u :: Space(s, u) && Starts(u) && u[0] != '<' && u[0] != '.')
    || (exists u, iri, v, w :: Space(s, u) && IriForm(u, iri, v) && Space(v, w) && Starts(w) && w[0] != '.')
  }

  function AfterObject(s: string, subject: Node, verb: string, obj: Node): Read<Statement> {
    match ReadIri(s)
    case Failed(e) => Failed(e)
    case Got(graph, s3) => ReadDot(s3, Statement(subject, verb, obj, graph))
  }

  lemma GraphFails(s: string, subject: Node, verb: string, obj: Node)
    ensures var r := AfterObject(s, subject, verb, obj);
            && (r == Failed(ExpectedFinalDot) <==> NoDot(s))
            && (r.Failed? && Expected(r.error) ==> r.error == ExpectedFinalDot)
  {
    hide ReadIri, ReadDot, IriForm, Space;
    IriFails(s);
    var i := ReadIri(s);
    if i.Got? {
      DotFails(i.rest, Statement(subject, verb, obj, i.value));
      if i.value.Some? {
        IriIff(s, i.value.value, i.rest);
      } else {
        SpaceHere(i.rest);
        SkipIff(s, i.rest);
        Stands(i.rest);
      }
    }
    if u :| Space(s, u) && Starts(u) && u[0] != '<' && u[0] != '.' {
      SkipIff(s, u);
      Stands(u);
      SkipIff(u, u);
    }
    if u, iri, v, w :| Space(s, u) && IriForm(u, iri, v) && Space(v, w) && Starts(w) && w[0] != '.' {
      IriIff(s, iri, v);
    }
    forall w | i.Got? && i.value.None? && Space(i.rest, w) && Starts(w)
      ensures w == i.rest
    {
      SkipIff(i.rest, w);
    }
  }

  lemma RestParts(s: string, subject: Node)
    ensures var i := ReadIri(s);
            && (i.Failed? ==> ReadRest(s, subject) == Failed(i.error))
            && (i.Got? && i.value.None? ==> ReadRest(s, subject) == Failed(ExpectedPredicate))
            && (i.Got? && i.value.Some? ==>
                  var o := ReadObject(i.rest);
                  && (o.Failed? ==> ReadRest(s, subject) == Failed(o.error))
                  && (o.Got? && o.value.None? ==> ReadRest(s, subject) == Failed(ExpectedObject))
                  && (o.Got? && o.value.Some? ==>
                        ReadRest(s, subject) == AfterObject(o.rest, subject, i.value.value, o.value.value)))
  {
    hide ReadIri, ReadObject, ReadDot;
  }

  /** For each kind of error: it is reported exactly when the text has the fault it names, after parts that have none. */
  lemma RefusedIff(s: string, e: Error)
    requires e != Eof && e != UnexpectedEscapeSequence && e != ByteOfRune
    ensures ReadStatement(s) == Failed(e) <==> Refused(s, e)
  {
    hide ReadSubject, ReadRest, Refused;
    SubjectFails(s);
    if ReadSubject(s).Got? && ReadSubject(s).value.Some? {
      RestRefused(s, e);
    } else {
      NothingPassed(s, e);
    }
  }

  lemma NothingPassed(s: string, e: Error)
    requires !(ReadSubject(s).Got? && ReadSubject(s).value.Some?) && Expected(e)
    ensures Refused(s, e) <==> e == ExpectedStatement && ReadSubject(s).Got?
  {
    hide ReadSubject, Space, AtPredicate, AtObject, NoSubjectAt, MarkedBy;
    SubjectFails(s);
    forall r
      ensures !AtPredicate(s, r) && !AtObject(s, r)
    {
      AtPredicateIff(s, r);
      AtObjectIff(s, r);
    }
    forall r
      ensures !AtGraph(s, r)
    {
    }
  }

  lemma RestRefused(s: string, e: Error)
    requires ReadSubject(s).Got? && ReadSubject(s).value.Some? && Expected(e)
    ensures ReadRest(ReadSubject(s).rest, ReadSubject(s).value.value) == Failed(e) <==> Refused(s, e)
  {
    hide ReadSubject, ReadRest, Refused, ReadIri;
    var s1, subject := ReadSubject(s).rest, ReadSubject(s).value.value;
    RestParts(s1, subject);
    IriFails(s1);
    if ReadIri(s1).Got? && ReadIri(s1).value.Some? {
      ObjectRefused(s, e);
    } else {
      PredicateRefused(s, e);
    }
  }

  lemma NoStatementExpected(s: string)
    requires ReadSubject(s).Got? && ReadSubject(s).value.Some?
    ensures !Refused(s, ExpectedStatement)
  {
    hide ReadSubject, Space, NoSubjectAt;
    SubjectFails(s);
  }

  lemma PredicateRefused(s: string, e: Error)
    requires ReadSubject(s).Got? && ReadSubject(s).value.Some? && Expected(e)
    requires !(ReadIri(ReadSubject(s).rest).Got? && ReadIri(ReadSubject(s).rest).value.Some?)
    ensures Refused(s, e) <==> e == ExpectedPredicate && ReadIri(ReadSubject(s).rest).Got?
  {
    hide ReadSubject, Space, AtPredicate, AtObject, NoSubjectAt, MarkedBy, ReadIri, NoIri;
    var s1 := ReadSubject(s).rest;
    NoStatementExpected(s);
    IriFails(s1);
    forall r
      ensures AtPredicate(s, r) <==> r == s1
      ensures !AtObject(s, r)
    {
      AtPredicateIff(s, r);
      AtObjectIff(s, r);
    }
    forall r
      ensures !AtGraph(s, r)
    {
    }
  }

  lemma ObjectRefused(s: string, e: Error)
    requires ReadSubject(s).Got? && ReadSubject(s).value.Some? && Expected(e)
    requires ReadIri(ReadSubject(s).rest).Got? && ReadIri(ReadSubject(s).rest).value.Some?
    ensures ReadRest(ReadSubject(s).rest, ReadSubject(s).value.value) == Failed(e) <==> Refused(s, e)
  {
    hide ReadSubject, ReadRest, Space, AtPredicate, AtObject, AtGraph, NoSubjectAt, MarkedBy, ReadIri, NoIri, ReadObject, AfterObject, NoDot;
    var s1, subject := ReadSubject(s).rest, ReadSubject(s).value.value;
    var s2, verb := ReadIri(s1).rest, ReadIri(s1).value.value;
    RestParts(s1, subject);
    NoStatementExpected(s);
    IriFails(s1);
    ObjectFails(s2);
    forall r
      ensures AtPredicate(s, r) <==> r == s1
      ensures AtObject(s, r) <==> r == s2
    {
      AtPredicateIff(s, r);
      AtObjectIff(s, r);
    }
    var o := ReadObject(s2);
    forall r
      ensures AtGraph(s, r) <==> o.Got? && o.value.Some? && r == o.rest
    {
      AtGraphIff(s, r);
    }
    DotRefused(s);
    if o.Got? && o.value.Some? {
      GraphFails(o.rest, subject, verb, o.value.value);
    }
  }

  lemma DotRefused(s: string)
    ensures Refused(s, ExpectedFinalDot) <==> exists r :: AtGraph(s, r) && NoDot(r)
  {
    hide Space, AtGraph, IriForm;
  }

  // ---------------------------------------------------------------- whole texts

  /** The statements of a text are those of the one chain of statement forms that goes as far as there are any; the reading
      ends without an error exactly when the rest ends before or inside a subject. */
  lemma {:induction false} ReadsChain(s: string) returns (t: string)
    ensures Chain(s, ReadAll(s).0, t) && forall st, u :: !StatementForm(t, st, u)
    ensures ReadAll(s).1 == None <==> Ends(t)
    ensures forall e :: Expected(e) ==> (ReadAll(s).1 == Some(e) <==> Refused(t, e))
    decreases |s|
  {
    hide ReadStatement, StatementForm, Ends, Refused;
    ReadAllStep(s);
    var r := ReadStatement(s);
    EndsIff(s);
    if r.Got? && r.value.Some? {
      StatementIff(s, r.value.value, r.rest);
      t := ReadsChain(r.rest);
      var sts := ReadAll(s).0;
      assert sts[0] == r.value.value && sts[1..] == ReadAll(r.rest).0;
    } else {
      t := s;
      forall st, u
        ensures !StatementForm(t, st, u)
      {
        StatementIff(t, st, u);
      }
      forall e | Expected(e)
        ensures ReadAll(s).1 == Some(e) <==> Refused(t, e)
      {
        RefusedIff(s, e);
      }
    }
  }

  /** Whatever chain of statements a text opens with is read first. */
  lemma {:induction false} ChainIsRead(s: string, sts: seq<Statement>, t: string)
    requires Chain(s, sts, t)
    ensures ReadAll(s) == (sts + ReadAll(t).0, ReadAll(t).1)
    decreases |sts|
  {
    hide ReadStatement, StatementForm;
    if sts != [] {
      var u :| StatementForm(s, sts[0], u) && Chain(u, sts[1..], t);
      StatementIff(s, sts[0], u);
      ReadAllStep(s);
      ChainIsRead(u, sts[1..], t);
      assert sts == [sts[0]] + sts[1..];
      assert [sts[0]] + (sts[1..] + ReadAll(t).0) == ([sts[0]] + sts[1..]) + ReadAll(t).0;
    } else {
      assert [] + ReadAll(t).0 == ReadAll(t).0;
    }
  }

  /** The statements and the end of a text: a chain that nothing extends, and what stands behind it. */
  ghost predicate ReadsTo(text: string, sts: seq<Statement>, end: Option<Error>, rest: string) {
    && Chain(text, sts, rest) && (forall st, u :: !StatementForm(rest, st, u))
    && (end == None <==> Ends(rest))
    && forall e :: Expected(e) ==> (end == Some(e) <==> Refused(rest, e))
  }

  /** The reader's object over a whole text. */
  method ReadText(text: string) returns (sts: seq<Statement>, end: Option<Error>)
    ensures exists rest :: ReadsTo(text, sts, end, rest)
  {
    hide Chain, StatementForm, Ends, Refused, ReadAll;
    var r := new Reader(text);
    sts, end := r.ReadStatements();
    ghost var rest := ReadsChain(text);
    assert ReadsTo(text, sts, end, rest);
  }
}
