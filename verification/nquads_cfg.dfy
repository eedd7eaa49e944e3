/** Which texts the N-Quads reader takes for statements (nquads/reader.go:53-413): the forms it accepts, as relations
    between a text and what follows them in it, and the proof that its loops accept exactly these. */
module NQuadsCfg {
  import opened Options
  import opened Texts
  import opened Bits
  import opened NQuads
  import opened NQuadsReader

  // ---------------------------------------------------------------- the forms

  /** Blanks and comments; a comment ends with its line. */
  ghost predicate Space(s: string, t: string)
    decreases |s|
  {
    || s == t
    || (s != "" && IsBlank(s[0]) && Space(s[1..], t))
    || (s != "" && s[0] == '#' && Comment(s[1..], t))
  }

  ghost predicate Comment(s: string, t: string)
    decreases |s|
  {
    s != "" && if s[0] == '\r' || s[0] == '\n' then Space(s[1..], t) else Comment(s[1..], t)
  }

  /** The character that a letter after a backslash stands for. */
  function Short(c: char): Option<char> {
    match c
    case 't' => Some('\t')
    case 'b' => Some('\U{08}')
    case 'n' => Some('\n')
    case 'r' => Some('\r')
    case 'f' => Some('\U{0C}')
    case '\"' => Some('\"')
    case '\'' => Some('\'')
    case '\\' => Some('\\')
    case _ => None
  }

  ghost predicate Ascii(d: string) {
    forall k :: 0 <= k < |d| ==> d[k] < '\U{80}'
  }

  /** What the source makes of four digits: each is shifted one place less than the one before it, and all by three. */
  function Four(d: string): nat
    requires |d| == 4 && Ascii(d)
  {
    BitOr(BitOr(BitOr(BitOr(0, DigitValue(d[0]) * 64), DigitValue(d[1]) * 32), DigitValue(d[2]) * 16), DigitValue(d[3]) * 8)
  }

  function Eight(d: string): nat
    requires |d| == 8 && Ascii(d)
  {
    BitOr(BitOr(BitOr(BitOr(BitOr(BitOr(BitOr(BitOr(0, DigitValue(d[0]) * 1024), DigitValue(d[1]) * 512), DigitValue(d[2]) * 256),
                DigitValue(d[3]) * 128), DigitValue(d[4]) * 64), DigitValue(d[5]) * 32), DigitValue(d[6]) * 16), DigitValue(d[7]) * 8)
  }

  /** An escape sequence with its backslash. */
  ghost predicate Escape(s: string, c: char, t: string) {
    && |s| >= 2 && s[0] == '\\'
    && (|| (Short(s[1]) == Some(c) && t == s[2..])
        || (s[1] == 'u' && |s| >= 6 && Ascii(s[2..6]) && c == ToRune(Four(s[2..6])) && t == s[6..])
        || (s[1] == 'U' && |s| >= 10 && Ascii(s[2..10]) && c == ToRune(Eight(s[2..10])) && t == s[10..]))
  }

  /** Characters and escape sequences up to the closing delimiter. */
  ghost predicate Content(s: string, close: char, text: string, t: string)
    decreases |text|
  {
    if text == "" then s != "" && s[0] == close && t == s[1..]
    else
      || (s != "" && s[0] == text[0] && s[0] != close && s[0] != '\\' && Content(s[1..], close, text[1..], t))
      || (close != '\\' && exists u :: Escape(s, text[0], u) && Content(u, close, text[1..], t))
  }

  ghost predicate IriForm(s: string, iri: string, t: string) {
    s != "" && s[0] == '<' && Content(s[1..], '>', iri, t)
  }

  /** A label goes up to the next blank. */
  ghost predicate BlankForm(s: string, name: string, t: string) {
    && "_:" <= s && s[2..] == name + t && t != "" && IsBlank(t[0])
    && forall k :: 0 <= k < |name| ==> !IsBlank(name[k])
  }

  ghost predicate SubjectForm(s: string, node: Node, t: string) {
    match node
    case IriNode(iri) => IriForm(s, iri, t)
    case BlankNode(name) => BlankForm(s, name, t)
    case LiteralNode(_, _, _) => false
  }

  /** A literal has neither a tag nor a type, and at least two bytes behind it and the blanks that follow it. */
  ghost predicate ObjectForm(s: string, node: Node, t: string) {
    match node
    case LiteralNode(text, lang, typ) =>
      && lang == "" && typ == XSD_STRING && s != "" && s[0] == '\"'
      && exists u :: Content(s[1..], '\"', text, u) && Space(u, t) && TwoBytes(t) && !("^^" <= t) && t[0] != '@' && t[0] != '#'
                     && !IsBlank(t[0])
    case _ => SubjectForm(s, node, t)
  }

  ghost predicate StatementForm(s: string, st: Statement, t: string) {
    exists s1, s2, s3, s4, s5, s6, s7 ::
      && Space(s, s1) && SubjectForm(s1, st.subject, s2)
      && Space(s2, s3) && IriForm(s3, st.verb, s4)
      && Space(s4, s5) && ObjectForm(s5, st.obj, s6)
      && EndForm(s6, st.graph, s7) && t == s7
  }

  /** The optional graph and the final dot. */
  ghost predicate EndForm(s: string, graph: Option<string>, t: string) {
    match graph
    case None => DotForm(s, t)
    case Some(iri) => exists u, v :: Space(s, u) && IriForm(u, iri, v) && DotForm(v, t)
  }

  ghost predicate DotForm(s: string, t: string) {
    exists u :: Space(s, u) && u != "" && u[0] == '.' && t == u[1..]
  }

  // ---------------------------------------------------------------- spaces

  lemma {:induction false} SkipsAre(s: string, inComment: bool)
    ensures SkipSpaces(s, inComment).Some? ==>
              var t := SkipSpaces(s, inComment).value;
              && (if inComment then Comment(s, t) else Space(s, t))
              && t != "" && !IsBlank(t[0]) && t[0] != '#'
    decreases |s|
  {
    if s != "" {
      if inComment {
        SkipsAre(s[1..], s[0] != '\r' && s[0] != '\n');
      } else if s[0] == '#' {
        SkipsAre(s[1..], true);
      } else if IsBlank(s[0]) {
        SkipsAre(s[1..], false);
      }
    }
  }

  lemma {:induction false} SpaceSkips(s: string, t: string)
    requires Space(s, t) && t != "" && !IsBlank(t[0]) && t[0] != '#'
    ensures SkipSpaces(s, false) == Some(t)
    decreases |s|
  {
    if s != t {
      if IsBlank(s[0]) && Space(s[1..], t) {
        SpaceSkips(s[1..], t);
      } else {
        CommentSkipsTo(s[1..], t);
      }
    }
  }

  lemma {:induction false} CommentSkipsTo(s: string, t: string)
    requires Comment(s, t) && t != "" && !IsBlank(t[0]) && t[0] != '#'
    ensures SkipSpaces(s, true) == Some(t)
    decreases |s|
  {
    if s[0] == '\r' || s[0] == '\n' {
      SpaceSkips(s[1..], t);
    } else {
      CommentSkipsTo(s[1..], t);
    }
  }

  // ---------------------------------------------------------------- escapes

  /** The digits one after the other, the first of `n` being number `i`. */
  ghost function Fold(d: string, i: nat, n: nat, acc: nat): nat
    requires i + |d| == n && Ascii(d)
    decreases |d|
  {
    if d == "" then acc else Fold(d[1..], i + 1, n, BitOr(acc, DigitValue(d[0]) * Pow(2, n - 1 - i) * 8))
  }

  lemma {:induction false} DigitsFold(s: string, i: nat, n: nat, acc: nat)
    requires i <= n
    ensures ReadDigits(s, i, n, acc).Got? <==> |s| >= n - i && Ascii(s[..n - i])
    ensures ReadDigits(s, i, n, acc).Got? ==> ReadDigits(s, i, n, acc) == Got(Fold(s[..n - i], i, n, acc), s[n - i..])
    ensures ReadDigits(s, i, n, acc) == Failed(Eof) <==> |s| < n - i && Ascii(s)
    decreases n - i
  {
    hide BitOr, Pow, DigitValue;
    if i < n && s != "" {
      if s[0] < '\U{80}' {
        DigitsFold(s[1..], i + 1, n, BitOr(acc, DigitValue(s[0]) * Pow(2, n - 1 - i) * 8));
        assert |s| >= n - i ==> s[..n - i][1..] == s[1..][..n - i - 1] && s[n - i..] == s[1..][n - i - 1..];
        assert forall k :: 0 < k < |s| ==> s[k] == s[1..][k - 1];
      }
    }
  }

  lemma Powers()
    ensures Pow(2, 0) == 1 && Pow(2, 1) == 2 && Pow(2, 2) == 4 && Pow(2, 3) == 8
    ensures Pow(2, 4) == 16 && Pow(2, 5) == 32 && Pow(2, 6) == 64 && Pow(2, 7) == 128
  {
    assert Pow(2, 1) == 2 * Pow(2, 0) && Pow(2, 2) == 2 * Pow(2, 1) && Pow(2, 3) == 2 * Pow(2, 2);
    assert Pow(2, 4) == 2 * Pow(2, 3) && Pow(2, 5) == 2 * Pow(2, 4) && Pow(2, 6) == 2 * Pow(2, 5) && Pow(2, 7) == 2 * Pow(2, 6);
  }

  lemma FoldStep(d: string, i: nat, n: nat, acc: nat)
    requires i + |d| == n && Ascii(d) && d != ""
    ensures Fold(d, i, n, acc) == Fold(d[1..], i + 1, n, BitOr(acc, DigitValue(d[0]) * Pow(2, n - 1 - i) * 8))
  {
  }

  lemma FourIs(d: string)
    requires |d| == 4 && Ascii(d)
    ensures Fold(d, 0, 4, 0) == Four(d)
  {
    hide BitOr, Pow, DigitValue, Fold;
    Powers();
    var a1 := BitOr(0, DigitValue(d[0]) * 64);
    var a2 := BitOr(a1, DigitValue(d[1]) * 32);
    var a3 := BitOr(a2, DigitValue(d[2]) * 16);
    FoldStep(d, 0, 4, 0);
    FoldStep(d[1..], 1, 4, a1);
    assert d[1..][1..] == d[2..];
    FoldStep(d[2..], 2, 4, a2);
    assert d[2..][1..] == d[3..];
    FoldStep(d[3..], 3, 4, a3);
    assert d[3..][1..] == "";
    FoldNothing(4, BitOr(a3, DigitValue(d[3]) * 8));
  }

  lemma FoldNothing(n: nat, acc: nat)
    ensures Fold("", n, n, acc) == acc
  {
  }

  lemma EightIs(d: string)
    requires |d| == 8 && Ascii(d)
    ensures Fold(d, 0, 8, 0) == Eight(d)
  {
    hide BitOr, Pow, DigitValue, Fold;
    Powers();
    var a1 := BitOr(0, DigitValue(d[0]) * 1024);
    var a2 := BitOr(a1, DigitValue(d[1]) * 512);
    var a3 := BitOr(a2, DigitValue(d[2]) * 256);
    var a4 := BitOr(a3, DigitValue(d[3]) * 128);
    FoldStep(d, 0, 8, 0);
    FoldStep(d[1..], 1, 8, a1);
    assert d[1..][1..] == d[2..];
    FoldStep(d[2..], 2, 8, a2);
    assert d[2..][1..] == d[3..];
    FoldStep(d[3..], 3, 8, a3);
    assert d[3..][1..] == d[4..];
    EightRest(d, a4);
  }

  lemma EightRest(d: string, a4: nat)
    requires |d| == 8 && Ascii(d)
    ensures Fold(d[4..], 4, 8, a4) ==
            BitOr(BitOr(BitOr(BitOr(a4, DigitValue(d[4]) * 64), DigitValue(d[5]) * 32), DigitValue(d[6]) * 16), DigitValue(d[7]) * 8)
  {
    hide BitOr, Pow, DigitValue, Fold;
    Powers();
    var a5 := BitOr(a4, DigitValue(d[4]) * 64);
    var a6 := BitOr(a5, DigitValue(d[5]) * 32);
    var a7 := BitOr(a6, DigitValue(d[6]) * 16);
    FoldStep(d[4..], 4, 8, a4);
    assert d[4..][1..] == d[5..];
    FoldStep(d[5..], 5, 8, a5);
    assert d[5..][1..] == d[6..];
    FoldStep(d[6..], 6, 8, a6);
    assert d[6..][1..] == d[7..];
    FoldStep(d[7..], 7, 8, a7);
    assert d[7..][1..] == "";
    FoldNothing(8, BitOr(a7, DigitValue(d[7]) * 8));
  }

  /** An escape sequence is read exactly when it is one. */
  lemma EscapeIff(s: string, c: char, t: string)
    requires s != "" && s[0] == '\\'
    ensures Escape(s, c, t) <==> ReadEscape(s[1..]) == Got(c, t)
  {
    hide ReadDigits, Four, Eight, Fold, ToRune;
    var r := s[1..];
    if |s| >= 2 {
      if r[0] == 'u' {
        DigitsFold(r[1..], 0, 4, 0);
        assert r[1..] == s[2..];
        if |s| >= 6 {
          assert s[2..][..4] == s[2..6] && s[2..][4..] == s[6..];
          if Ascii(s[2..6]) {
            FourIs(s[2..6]);
          }
        }
      } else if r[0] == 'U' {
        DigitsFold(r[1..], 0, 8, 0);
        assert r[1..] == s[2..];
        if |s| >= 10 {
          assert s[2..][..8] == s[2..10] && s[2..][8..] == s[10..];
          if Ascii(s[2..10]) {
            EightIs(s[2..10]);
          }
        }
      } else {
        assert r[1..] == s[2..];
      }
    }
  }

  // ---------------------------------------------------------------- contents

  lemma {:induction false} ContentRead(s: string, close: char)
    requires ReadUntil(s, close).Got?
    ensures Content(s, close, ReadUntil(s, close).value, ReadUntil(s, close).rest)
    decreases |s|
  {
    hide ReadEscape, Escape;
    var r := ReadUntil(s, close);
    if s[0] != close {
      assert r.value != "";
      if s[0] == '\\' {
        var e := ReadEscape(s[1..]);
        EscapeIff(s, e.value, e.rest);
        ContentRead(e.rest, close);
        assert r.value[1..] == ReadUntil(e.rest, close).value;
      } else {
        ContentRead(s[1..], close);
        assert r.value[1..] == ReadUntil(s[1..], close).value;
      }
    }
  }

  lemma {:induction false} ReadContent(s: string, close: char, text: string, t: string)
    requires Content(s, close, text, t) && close != '\\'
    ensures ReadUntil(s, close) == Got(text, t)
    decreases |text|
  {
    hide ReadEscape, Escape;
    if text != "" {
      assert text == [text[0]] + text[1..];
      if s != "" && s[0] == text[0] && s[0] != close && s[0] != '\\' && Content(s[1..], close, text[1..], t) {
        ReadContent(s[1..], close, text[1..], t);
      } else {
        var u :| Escape(s, text[0], u) && Content(u, close, text[1..], t);
        EscapeStarts(s, text[0], u);
        EscapeIff(s, text[0], u);
        ReadContent(u, close, text[1..], t);
      }
    }
  }

  lemma EscapeStarts(s: string, c: char, u: string)
    requires Escape(s, c, u)
    ensures s != "" && s[0] == '\\' && |u| < |s|
  {
  }

  // ---------------------------------------------------------------- nodes

  lemma IriIff(s: string, iri: string, t: string)
    ensures ReadIri(s) == Got(Some(iri), t) <==> exists u :: Space(s, u) && IriForm(u, iri, t)
  {
    hide Content, ReadUntil, Space;
    SkipsAre(s, false);
    if ReadIri(s) == Got(Some(iri), t) {
      var u := SkipSpaces(s, false).value;
      ContentRead(u[1..], '>');
      assert Space(s, u) && IriForm(u, iri, t);
    }
    if u :| Space(s, u) && IriForm(u, iri, t) {
      SpaceSkips(s, u);
      ReadContent(u[1..], '>', iri, t);
    }
  }

  lemma {:induction false} NameRead(s: string)
    requires ReadName(s).Got?
    ensures var r := ReadName(s);
            s == r.value + r.rest && r.rest != "" && IsBlank(r.rest[0]) && forall k :: 0 <= k < |r.value| ==> !IsBlank(r.value[k])
    decreases |s|
  {
    if !IsBlank(s[0]) {
      NameRead(s[1..]);
      var more := ReadName(s[1..]);
      assert s == [s[0]] + s[1..];
      assert [s[0]] + (more.value + more.rest) == ([s[0]] + more.value) + more.rest;
    } else {
      assert "" + s == s;
    }
  }

  lemma {:induction false} ReadsName(name: string, t: string)
    requires t != "" && IsBlank(t[0]) && forall k :: 0 <= k < |name| ==> !IsBlank(name[k])
    ensures ReadName(name + t) == Got(name, t)
    decreases |name|
  {
    if name == "" {
      assert name + t == t;
    } else {
      assert (name + t)[1..] == name[1..] + t;
      ReadsName(name[1..], t);
      assert name == [name[0]] + name[1..];
    }
  }

  lemma NameIff(s: string, name: string, t: string)
    ensures ReadName(s) == Got(name, t) <==>
              s == name + t && t != "" && IsBlank(t[0]) && forall k :: 0 <= k < |name| ==> !IsBlank(name[k])
  {
    hide ReadName, IsBlank;
    if ReadName(s).Got? {
      NameRead(s);
    }
    if s == name + t && t != "" && IsBlank(t[0]) && forall k :: 0 <= k < |name| ==> !IsBlank(name[k]) {
      ReadsName(name, t);
    }
  }

  lemma BlankIff(s: string, name: string, t: string)
    requires s != "" && !IsBlank(s[0]) && s[0] != '#'
    ensures ReadBlank(s) == Got(Some(name), t) <==> BlankForm(s, name, t)
  {
    hide ReadName, Space;
    assert Space(s, s) by { SpaceHere(s); }
    SpaceSkips(s, s);
    if "_:" <= s {
      NameIff(s[2..], name, t);
    }
  }

  lemma SpaceHere(s: string)
    ensures Space(s, s)
  {
  }

  lemma SubjectIff(s: string, node: Node, t: string)
    ensures ReadSubject(s) == Got(Some(node), t) <==> exists u :: Space(s, u) && SubjectForm(u, node, t)
  {
    hide Content, ReadUntil, Space, ReadBlank, BlankForm, ReadName;
    SkipsAre(s, false);
    if SkipSpaces(s, false).Some? {
      var u := SkipSpaces(s, false).value;
      SpaceHere(u);
      SpaceSkips(u, u);
      if node.BlankNode? {
        BlankIff(u, node.name, t);
      }
      if ReadSubject(s) == Got(Some(node), t) {
        if u[0] == '<' {
          ContentRead(u[1..], '>');
        }
        assert Space(s, u) && SubjectForm(u, node, t);
      }
    }
    if u :| Space(s, u) && SubjectForm(u, node, t) {
      SubjectStarts(u, node, t);
      SpaceSkips(s, u);
      SpaceHere(u);
      SpaceSkips(u, u);
      if node.IriNode? {
        ReadContent(u[1..], '>', node.iri, t);
      } else {
        BlankIff(u, node.name, t);
      }
    }
  }

  lemma SubjectStarts(u: string, node: Node, t: string)
    requires SubjectForm(u, node, t)
    ensures u != "" && !IsBlank(u[0]) && u[0] != '#' && (node.IriNode? <==> u[0] == '<') && u[0] in "<_" && !node.LiteralNode?
  {
  }

  // ---------------------------------------------------------------- objects

  lemma SuffixIff(s: string, text: string, node: Node, t: string)
    ensures ReadSuffix(s, text) == Got(node, t) <==>
              && node == LiteralNode(text, "", XSD_STRING)
              && Space(s, t) && TwoBytes(t) && !("^^" <= t) && t[0] != '@' && t[0] != '#' && !IsBlank(t[0])
  {
    hide Space, ReadTag;
    SkipsAre(s, false);
    if SkipSpaces(s, false).Some? {
      var u := SkipSpaces(s, false).value;
      SpaceHere(u);
      SpaceSkips(u, u);
      if u[0] == '@' {
        AtIsNoTag(u);
      }
    }
    if Space(s, t) && t != "" && !IsBlank(t[0]) && t[0] != '#' {
      SpaceSkips(s, t);
    }
  }

  lemma AtIsNoTag(u: string)
    requires u != "" && u[0] == '@'
    ensures ReadTag(u, "") == Failed(InvalidCharacterInLanguageTag)
  {
  }

  lemma LiteralIff(s: string, node: Node, t: string)
    requires s != "" && s[0] == '\"'
    ensures ReadLiteral(s) == Got(Some(node), t) <==> node.LiteralNode? && ObjectForm(s, node, t)
  {
    hide Content, ReadUntil, Space, ReadSuffix;
    SpaceHere(s);
    SpaceSkips(s, s);
    if ReadUntil(s[1..], '\"').Got? {
      ContentRead(s[1..], '\"');
      SuffixIff(ReadUntil(s[1..], '\"').rest, ReadUntil(s[1..], '\"').value, node, t);
    }
    if node.LiteralNode? && ObjectForm(s, node, t) {
      var u :| Content(s[1..], '\"', node.text, u) && Space(u, t) && TwoBytes(t) && !("^^" <= t) && t[0] != '@' && t[0] != '#'
                     && !IsBlank(t[0]);
      ReadContent(s[1..], '\"', node.text, u);
    }
  }

  lemma ObjectRead(s: string, node: Node, t: string) returns (u: string)
    requires ReadObject(s) == Got(Some(node), t)
    ensures Space(s, u) && ObjectForm(u, node, t)
  {
    hide Content, ReadUntil, Space, ReadSubject, ReadLiteral, SubjectForm;
    SubjectAt(s);
    SkipsAre(s, false);
    u := SkipSpaces(s, false).value;
    NoSubject(s, u);
    if ReadSubject(s).value.Some? {
      SubjectIff(s, node, t);
      u :| Space(s, u) && SubjectForm(u, node, t);
    } else if u[0] == '\"' {
      LiteralIff(u, node, t);
    } else {
      OnlyLiterals(u);
    }
  }

  lemma ReadsObject(s: string, u: string, node: Node, t: string)
    requires Space(s, u) && ObjectForm(u, node, t)
    ensures ReadObject(s) == Got(Some(node), t)
  {
    hide Content, ReadUntil, Space, ReadSubject, ReadLiteral, SubjectForm;
    if node.LiteralNode? {
      LiteralStarts(u, node, t);
      SpaceSkips(s, u);
      NoSubject(s, u);
      LiteralIff(u, node, t);
    } else {
      SubjectIff(s, node, t);
    }
  }

  lemma LiteralStarts(u: string, node: Node, t: string)
    requires node.LiteralNode? && ObjectForm(u, node, t)
    ensures u != "" && u[0] == '\"' && TwoBytes(u) && !("_:" <= u)
  {
    var v :| Content(u[1..], '\"', node.text, v) && Space(v, t);
    ContentStarts(u[1..], '\"', node.text, v);
  }

  lemma ContentStarts(s: string, close: char, text: string, t: string)
    requires Content(s, close, text, t)
    ensures s != ""
  {
  }

  lemma ObjectIff(s: string, node: Node, t: string)
    ensures ReadObject(s) == Got(Some(node), t) <==> exists u :: Space(s, u) && ObjectForm(u, node, t)
  {
    hide ReadObject, Space, ObjectForm;
    if ReadObject(s) == Got(Some(node), t) {
      var u := ObjectRead(s, node, t);
    }
    if u :| Space(s, u) && ObjectForm(u, node, t) {
      ReadsObject(s, u, node, t);
    }
  }

  /** What is neither an IRI nor a blank node is left where it is. */
  lemma NoSubject(s: string, u: string)
    requires SkipSpaces(s, false) == Some(u)
    ensures ReadSubject(s) == Got(None, u) <==> u[0] != '<' && TwoBytes(u) && !("_:" <= u)
    ensures ReadSubject(s).Got? && ReadSubject(s).value == None ==> ReadSubject(s).rest == u
    ensures ReadSubject(s).Got? && ReadSubject(s).value.Some? ==> !ReadSubject(s).value.value.LiteralNode?
    ensures ReadSubject(s).Failed? ==> u[0] == '<' || !TwoBytes(u) || "_:" <= u
  {
    hide ReadUntil, ReadName;
    SkipsAre(s, false);
    SpaceHere(u);
    SpaceSkips(u, u);
  }

  lemma SubjectAt(s: string)
    requires ReadObject(s).Got?
    ensures SkipSpaces(s, false).Some?
  {
  }

  lemma OnlyLiterals(u: string)
    requires u != "" && u[0] != '\"' && !IsBlank(u[0]) && u[0] != '#'
    ensures ReadLiteral(u) == Got(None, u)
  {
    SpaceHere(u);
    SpaceSkips(u, u);
  }

  // ---------------------------------------------------------------- statements

  lemma DotIff(s: string, st: Statement, t: string)
    ensures ReadDot(s, st) == Got(st, t) <==> DotForm(s, t)
  {
    hide Space;
    SkipsAre(s, false);
    if u :| Space(s, u) && u != "" && u[0] == '.' && t == u[1..] {
      SpaceSkips(s, u);
    }
  }

  /** The graph and the dot. */
  lemma EndIff(s: string, subject: Node, verb: string, obj: Node, graph: Option<string>, t: string)
    ensures EndForm(s, graph, t) <==>
              ReadIri(s).Got? && ReadIri(s).value == graph
              && ReadDot(ReadIri(s).rest, Statement(subject, verb, obj, graph)) == Got(Statement(subject, verb, obj, graph), t)
  {
    hide Space, ReadUntil, ReadIri, IriForm, ReadDot, DotForm;
    var st := Statement(subject, verb, obj, graph);
    match graph {
      case Some(iri) =>
        if EndForm(s, graph, t) {
          var u, v :| Space(s, u) && IriForm(u, iri, v) && DotForm(v, t);
          IriIff(s, iri, v);
          DotIff(v, st, t);
        }
        if ReadIri(s).Got? && ReadIri(s).value == graph {
          IriIff(s, iri, ReadIri(s).rest);
          DotIff(ReadIri(s).rest, st, t);
        }
      case None =>
        if EndForm(s, graph, t) {
          NoGraph(s, t);
        }
        if ReadIri(s).Got? && ReadIri(s).value == graph {
          NoGraphRest(s, st, t);
        }
        if ReadIri(s).Got? {
          DotIff(ReadIri(s).rest, st, t);
        }
    }
  }

  lemma NoGraph(s: string, t: string)
    requires DotForm(s, t)
    ensures ReadIri(s).Got? && ReadIri(s).value == None && DotForm(ReadIri(s).rest, t)
  {
    hide Space, ReadUntil;
    var u :| Space(s, u) && u != "" && u[0] == '.' && t == u[1..];
    SpaceSkips(s, u);
    SpaceHere(u);
  }

  lemma NoGraphRest(s: string, st: Statement, t: string)
    requires ReadIri(s).Got? && ReadIri(s).value == None
    ensures DotForm(ReadIri(s).rest, t) ==> DotForm(s, t)
  {
    hide Space, ReadUntil;
    SkipsAre(s, false);
    var v := ReadIri(s).rest;
    if DotForm(v, t) {
      var u :| Space(v, u) && u != "" && u[0] == '.' && t == u[1..];
      SpaceHere(v);
      SpaceSkips(v, u);
      SpaceSkips(v, v);
    }
  }

  /** A statement is read exactly when the text has the form of one, with exactly what the form leaves. */
  lemma StatementIff(s: string, st: Statement, t: string)
    ensures ReadStatement(s) == Got(Some(st), t) <==> StatementForm(s, st, t)
  {
    hide Space, ReadSubject, ReadObject, ReadIri, SubjectForm, ObjectForm, IriForm, EndForm, ReadDot;
    if ReadStatement(s) == Got(Some(st), t) {
      StatementRead(s, st, t);
    }
    if StatementForm(s, st, t) {
      ReadsStatement(s, st, t);
    }
  }

  lemma StatementRead(s: string, st: Statement, t: string)
    requires ReadStatement(s) == Got(Some(st), t)
    ensures StatementForm(s, st, t)
  {
    hide Space, ReadSubject, ReadObject, ReadIri, SubjectForm, ObjectForm, IriForm, EndForm, ReadDot;
    var s2 := ReadSubject(s).rest;
    SubjectIff(s, st.subject, s2);
    var s4 := ReadIri(s2).rest;
    DotKeeps(ReadIri(ReadObject(s4).rest).rest, Statement(ReadSubject(s).value.value, ReadIri(s2).value.value,
                                                           ReadObject(s4).value.value, ReadIri(ReadObject(s4).rest).value));
    IriIff(s2, st.verb, s4);
    var s6 := ReadObject(s4).rest;
    ObjectIff(s4, st.obj, s6);
    EndIff(s6, st.subject, st.verb, st.obj, st.graph, t);
    var s1 :| Space(s, s1) && SubjectForm(s1, st.subject, s2);
    var s3 :| Space(s2, s3) && IriForm(s3, st.verb, s4);
    var s5 :| Space(s4, s5) && ObjectForm(s5, st.obj, s6);
  }

  /** The dot adds nothing to the statement. */
  lemma DotKeeps(s: string, st: Statement)
    ensures ReadDot(s, st).Got? ==> ReadDot(s, st).value == st
  {
  }

  lemma ReadsStatement(s: string, st: Statement, t: string)
    requires StatementForm(s, st, t)
    ensures ReadStatement(s) == Got(Some(st), t)
  {
    hide Space, ReadSubject, ReadObject, ReadIri, SubjectForm, ObjectForm, IriForm, EndForm, ReadDot;
    var s1, s2, s3, s4, s5, s6, s7 :|
      && Space(s, s1) && SubjectForm(s1, st.subject, s2)
      && Space(s2, s3) && IriForm(s3, st.verb, s4)
      && Space(s4, s5) && ObjectForm(s5, st.obj, s6)
      && EndForm(s6, st.graph, s7) && t == s7;
    SubjectIff(s, st.subject, s2);
    IriIff(s2, st.verb, s4);
    ObjectIff(s4, st.obj, s6);
    EndIff(s6, st.subject, st.verb, st.obj, st.graph, t);
    assert Statement(st.subject, st.verb, st.obj, st.graph) == st;
  }
}
