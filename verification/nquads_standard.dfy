/** What the written lines mean to a reader of RDF 1.1 N-Quads (sections 3 and 4 of that recommendation), which is
    another language than the one nquads/reader.go reads. */
module NQuadsStandard {
  import opened Options
  import opened Texts
  import opened NQuads
  import opened NQuadsWriter
  import opened SparqlDenote
  import R = NQuadsReader
  import E = NQuadsEscape
  import T = NQuadsRoundTrip
  import S = SparqlTerms
  import Turtle

  datatype RdfQuad = RdfQuad(subject: RdfTerm, verb: string, obj: RdfTerm, graph: Option<RdfTerm>)

  // ---------------------------------------------------------------- the language

  /** HEX */
  function HexOf(c: char): Option<nat> {
    if '0' <= c <= '9' then Some(c as nat - '0' as nat)
    else if 'a' <= c <= 'f' then Some(c as nat - 'a' as nat + 10)
    else if 'A' <= c <= 'F' then Some(c as nat - 'A' as nat + 10)
    else None
  }

  function Number(digits: string): Option<nat> {
    if digits == "" then Some(0)
    else match (Number(digits[..|digits| - 1]), HexOf(digits[|digits| - 1]))
      case (Some(n), Some(d)) => Some(16 * n + d)
      case _ => None
  }

  /** UCHAR, after its backslash: the character and how many characters it takes. */
  function Uchar(s: string): (r: Option<(char, nat)>)
    ensures r.Some? ==> 0 < r.value.1 <= |s|
  {
    var width := if s != "" && s[0] == 'u' then 5 else if s != "" && s[0] == 'U' then 9 else 0;
    if width == 0 || |s| < width then None
    else match Number(s[1..width])
      case None => None
      case Some(n) => if n < 0xD800 || 0xE000 <= n < 0x11_0000 then Some((n as char, width)) else None
  }

  /** ECHAR, after its backslash. */
  function Echar(c: char): Option<char> {
    match c
    case 't' => Some('\t')
    case 'b' => Some('\U{08}')
    case 'n' => Some('\n')
    case 'r' => Some('\r')
    case 'f' => Some('\U{0C}')
    case '\"' => Some('\"')
    case '\'' => Some('\'')
    case '\\' => Some('\\')
    case _ => None
  }

  /** What may not stand for itself between the brackets of an IRIREF, or between the quotes of a STRING_LITERAL_QUOTE. */
  predicate Barred(c: char, close: char) {
    if close == '>' then c <= '\U{20}' || c in "<\"{}|^`" else c == '\n' || c == '\r'
  }

  /** The content of an IRIREF (`close` is the bracket) or of a STRING_LITERAL_QUOTE (it is the quote), and what follows. */
  function Body(s: string, close: char): (r: Option<(string, string)>)
    ensures r.Some? ==> |r.value.1| < |s|
    decreases |s|
  {
    if s == "" then None
    else if s[0] == close then Some(("", s[1..]))
    else if s[0] == '\\' then
      match Uchar(s[1..])
      case Some((c, n)) => Cons(c, Body(s[1 + n..], close))
      case None =>
        if close == '\"' && |s| > 1 && Echar(s[1]).Some? then Cons(Echar(s[1]).value, Body(s[2..], close)) else None
    else if Barred(s[0], close) then None
    else Cons(s[0], Body(s[1..], close))
  }

  function Cons(c: char, r: Option<(string, string)>): Option<(string, string)> {
    match r case None => None case Some((text, rest)) => Some(([c] + text, rest))
  }

  /** PN_CHARS, of which the colon is one in N-Quads. */
  predicate Part(c: char) {
    S.PnChars(c) || c == ':'
  }

  /** What stands after `_:` in a BLANK_NODE_LABEL. */
  predicate IsLabel(s: string) {
    && s != "" && (S.PnCharsU(s[0]) || s[0] == ':' || IsDigit(s[0]))
    && Part(s[|s| - 1])
    && forall k :: 0 <= k < |s| ==> Part(s[k]) || s[k] == '.'
  }

  /** The length of the longest part of a label at the start. */
  function Run(s: string): (n: nat)
    ensures n <= |s|
  {
    if s == "" then 0
    else if Part(s[0]) || (s[0] == '.' && Run(s[1..]) > 0) then 1 + Run(s[1..])
    else 0
  }

  function Label(s: string): (r: Option<(string, string)>)
    ensures r.Some? ==> |r.value.1| < |s|
  {
    if s != "" && (S.PnCharsU(s[0]) || s[0] == ':' || IsDigit(s[0])) then
      var n := 1 + Run(s[1..]);
      Some((s[..n], s[n..]))
    else None
  }

  /** A literal, from what follows its closing quote. */
  function Marked(text: string, s: string): (r: Option<(RdfTerm, string)>)
    ensures r.Some? ==> |r.value.1| <= |s|
  {
    if s != "" && s[0] == '@' then
      match S.TagEnd(s[1..])
      case None => None
      case Some(n) => Some((Tagged(text, s[1..1 + n]), s[1 + n..]))
    else if "^^" <= s then
      if |s| > 2 && s[2] == '<' then
        match Body(s[3..], '>')
        case None => None
        case Some((iri, rest)) => Some((Typed(text, iri), rest))
      else None
    else Some((Plain(text), s))
  }

  function Term(s: string): (r: Option<(RdfTerm, string)>)
    ensures r.Some? ==> |r.value.1| < |s|
  {
    if s == "" then None
    else if s[0] == '<' then
      match Body(s[1..], '>') case None => None case Some((iri, rest)) => Some((RdfTerm.Iri(iri), rest))
    else if "_:" <= s then
      match Label(s[2..]) case None => None case Some((name, rest)) => Some((RdfTerm.Blank(name), rest))
    else if s[0] == '\"' then
      match Body(s[1..], '\"') case None => None case Some((text, rest)) => Marked(text, rest)
    else None
  }

  function Spaces(s: string): (t: string)
    ensures |t| <= |s|
  {
    if s != "" && (s[0] == ' ' || s[0] == '\t') then Spaces(s[1..]) else s
  }

  /** What follows the object: graphLabel? '.' */
  function End(s: string, subject: RdfTerm, verb: string, obj: RdfTerm): (r: Option<(RdfQuad, string)>)
    ensures r.Some? ==> |r.value.1| < |s|
  {
    var t := Spaces(s);
    if t != "" && t[0] == '.' then Some((RdfQuad(subject, verb, obj, None), t[1..]))
    else match Term(t)
      case None => None
      case Some((graph, rest)) =>
        var u := Spaces(rest);
        if (graph.Iri? || graph.Blank?) && u != "" && u[0] == '.' then Some((RdfQuad(subject, verb, obj, Some(graph)), u[1..]))
        else None
  }

  /** statement: subject predicate object graphLabel? '.' */
  function Line(s: string): (r: Option<(RdfQuad, string)>)
    ensures r.Some? ==> |r.value.1| < |s|
  {
    match Term(s)
    case None => None
    case Some((subject, s1)) =>
      match Term(Spaces(s1))
      case None => None
      case Some((verb, s2)) =>
        match Term(Spaces(s2))
        case None => None
        case Some((obj, s3)) =>
          if (subject.Iri? || subject.Blank?) && verb.Iri? then End(s3, subject, verb.iri, obj) else None
  }

  /** nquadsDoc: statements, comments and blank lines, each statement on its own line. */
  function Doc(s: string, inComment: bool): Option<seq<RdfQuad>>
    decreases |s|
  {
    if s == "" then Some([])
    else if inComment then Doc(s[1..], s[0] != '\r' && s[0] != '\n')
    else if s[0] == '#' then Doc(s[1..], true)
    else if IsBlank(s[0]) then Doc(s[1..], false)
    else match Line(s)
      case None => None
      case Some((quad, rest)) =>
        var t := Spaces(rest);
        if t != "" && t[0] !in "\r\n#" then None
        else match Doc(t, false) case None => None case Some(more) => Some([quad] + more)
  }

  // ---------------------------------------------------------------- what a call means

  function IriTerm(iri: string): RdfTerm {
    RdfTerm.Iri(iri)
  }

  function SubjectOf(v: Value): RdfTerm
    requires EncodeIriOrBlank(v) != ""
  {
    match v
    case Blank(name) => RdfTerm.Blank(name)
    case Iri(iri) => IriTerm(iri)
    case PlainString(iri) => IriTerm(iri)
    case UrlValue(url) => IriTerm(url)
  }

  function ObjectOf(v: Value): RdfTerm
    requires EncodeAny(v) != ""
  {
    match v
    case Blank(name) => RdfTerm.Blank(name)
    case Iri(iri) => IriTerm(iri)
    case UrlValue(url) => IriTerm(url)
    case PlainString(text) => Plain(text)
    case LocString(text, lang) => Tagged(text, lang)
    case TypedString(text, typ) => Typed(text, typ)
    case Literal(text, lang, typ) =>
      if lang != "" then Tagged(text, lang) else if typ in {"", "http://www.w3.org/2001/XMLSchema#string"} then Plain(text) else Typed(text, typ)
    case Boolean(b) => Typed(if b then "true" else "false", "http://www.w3.org/2001/XMLSchema#boolean")
    case Integer(digits) => Typed(digits, "http://www.w3.org/2001/XMLSchema#number")
  }

  function QuadOf(c: Call): RdfQuad
    requires T.IsStatement(c)
  {
    RdfQuad(SubjectOf(c.subject), c.verb, ObjectOf(c.obj), if c.Quad? then Some(IriTerm(c.graph)) else None)
  }

  /** An IRI without the seven characters that have a short escape, which no IRIREF may hold. */
  ghost predicate LawfulIri(iri: string) {
    forall k :: 0 <= k < |iri| ==> iri[k] !in "\\\t\U{08}\n\r\U{0C}\""
  }

  ghost predicate LawfulTerm(t: RdfTerm) {
    match t
    case Iri(iri) => LawfulIri(iri)
    case Blank(name) => IsLabel(name)
    case Plain(_) => true
    case Tagged(_, tag) => S.IsTag(tag)
    case Typed(_, typ) => LawfulIri(typ)
  }

  ghost predicate Lawful(q: RdfQuad) {
    LawfulTerm(q.subject) && LawfulIri(q.verb) && LawfulTerm(q.obj) && (q.graph.Some? ==> LawfulTerm(q.graph.value))
  }

  // ---------------------------------------------------------------- escaped texts

  lemma HexNumber(c: char)
    requires c < '\U{80}'
    ensures |Turtle.Hex(c as nat, 4)| == 4 && Number(Turtle.Hex(c as nat, 4)) == Some(c as nat)
  {
    hide Turtle.Hex;
    E.HexOfAscii(c);
    var a, b := Turtle.LowerHexDigit(c as nat / 16), Turtle.LowerHexDigit(c as nat % 16);
    var h := ['0', '0', a, b];
    assert h[..3] == ['0', '0', a] && ['0', '0', a][..2] == ['0', '0'] && ['0', '0'][..1] == ['0'] && ['0'][..0] == "";
    assert Number(['0']) == Some(0);
    assert Number(['0', '0']) == Some(0);
    assert Number(['0', '0', a]) == Some(c as nat / 16);
  }

  lemma UcharReads(c: char, rest: string)
    requires c < '\U{80}'
    ensures Uchar("u" + Turtle.Hex(c as nat, 4) + rest) == Some((c, 5))
    ensures ("u" + Turtle.Hex(c as nat, 4) + rest)[5..] == rest
  {
    hide Turtle.Hex, Number;
    HexNumber(c);
    var s := "u" + Turtle.Hex(c as nat, 4) + rest;
    assert s[1..5] == Turtle.Hex(c as nat, 4);
  }

  /** A character of an IRI is written as itself, by digits, or by a short escape. */
  lemma IriCharsAre(c: char)
    ensures c in Turtle.ESCAPE_IRI_CHARS <==> c <= '\U{20}' || c in "<>\"{}|^`\\"
  {
    var marks := "<>\"{}|^`\\";
    assert Turtle.ESCAPE_IRI_CHARS[..9] == marks;
    if c <= '\U{20}' {
      assert Turtle.ESCAPE_IRI_CHARS[9 + c as nat] == c;
    }
    if k :| 0 <= k < |Turtle.ESCAPE_IRI_CHARS| && Turtle.ESCAPE_IRI_CHARS[k] == c {
      if k < 9 {
        assert marks[k] == c;
      }
    }
  }

  lemma DigitsRead(c: char, rest: string, close: char)
    requires c < '\U{80}' && close != '\\'
    ensures Body("\\" + ("u" + Turtle.Hex(c as nat, 4)) + rest, close) == Cons(c, Body(rest, close))
  {
    hide Turtle.Hex, Uchar;
    UcharReads(c, rest);
    var u := "u" + Turtle.Hex(c as nat, 4) + rest;
    var text := "\\" + ("u" + Turtle.Hex(c as nat, 4)) + rest;
    assert text == "\\" + u && text[1..] == u;
    assert text[6..] == u[5..];
  }

  lemma IriCharReads(c: char, rest: string)
    ensures var text := Turtle.EscapeChar(c, Turtle.ESCAPE_IRI_CHARS) + rest;
            Body(text, '>') == if c in "\\\t\U{08}\n\r\U{0C}\"" then None else Cons(c, Body(rest, '>'))
  {
    hide Turtle.Hex, Turtle.ESCAPE_IRI_CHARS;
    var chars := Turtle.ESCAPE_IRI_CHARS;
    E.EscapeCharForm(c, chars);
    IriCharsAre(c);
    var text := Turtle.EscapeChar(c, chars) + rest;
    if c != '\\' && c !in chars {
      assert ([c] + rest)[1..] == rest;
    } else if E.ByDigits(c, chars) {
      DigitsRead(c, rest, '>');
    } else {
      assert text == "\\" + [E.Letter(c)] + rest;
      assert text[1..] == [E.Letter(c)] + rest;
    }
  }

  lemma LetterReads(c: char, letter: char, rest: string)
    requires Echar(letter) == Some(c)
    ensures Body("\\" + [letter] + rest, '\"') == Cons(c, Body(rest, '\"'))
  {
    var text := "\\" + [letter] + rest;
    assert text[1..] == [letter] + rest && text[2..] == rest;
  }

  lemma StringCharsAre(c: char)
    ensures c !in Turtle.ESCAPE_STRING_MORE_CHARS ==> c != '\"' && c != '\n' && c != '\r'
    ensures c == '\\' || (c in Turtle.ESCAPE_STRING_MORE_CHARS && c != '\U{00}') ==> Echar(E.Letter(c)) == Some(c)
  {
    var chars := Turtle.ESCAPE_STRING_MORE_CHARS;
    assert chars[0] == '\"' && chars[2] == '\r' && chars[3] == '\n';
  }

  lemma StringCharReads(c: char, rest: string)
    ensures Body(Turtle.EscapeChar(c, Turtle.ESCAPE_STRING_MORE_CHARS) + rest, '\"') == Cons(c, Body(rest, '\"'))
  {
    hide Turtle.Hex, Turtle.ESCAPE_STRING_MORE_CHARS, Turtle.EscapeChar, Uchar, Echar, E.Letter;
    var chars := Turtle.ESCAPE_STRING_MORE_CHARS;
    E.EscapeCharForm(c, chars);
    E.StringCharsByDigits(c);
    StringCharsAre(c);
    if c != '\\' && c !in chars {
      assert ([c] + rest)[1..] == rest;
    } else if E.ByDigits(c, chars) {
      DigitsRead(c, rest, '\"');
    } else {
      LetterReads(c, E.Letter(c), rest);
    }
  }

  lemma Regroup(a: string, b: string, c: string, d: string)
    ensures (a + b) + c + d == a + (b + c + d)
  {
  }

  lemma {:induction false} IriBodyReads(iri: string, rest: string)
    ensures Body(Turtle.Escaped(iri, Turtle.ESCAPE_IRI_CHARS) + ">" + rest, '>') == if LawfulIri(iri) then Some((iri, rest)) else None
  {
    hide Turtle.EscapeChar, Turtle.ESCAPE_IRI_CHARS;
    if iri == "" {
      assert Turtle.Escaped(iri, Turtle.ESCAPE_IRI_CHARS) + ">" + rest == ">" + rest;
      assert (">" + rest)[1..] == rest;
    } else {
      var c, more := iri[0], Turtle.Escaped(iri[1..], Turtle.ESCAPE_IRI_CHARS);
      IriBodyReads(iri[1..], rest);
      IriCharReads(c, more + ">" + rest);
      Regroup(Turtle.EscapeChar(c, Turtle.ESCAPE_IRI_CHARS), more, ">", rest);
      assert iri == [c] + iri[1..];
      assert forall k :: 0 < k < |iri| ==> iri[k] == iri[1..][k - 1];
      assert LawfulIri(iri) <==> c !in "\\\t\U{08}\n\r\U{0C}\"" && LawfulIri(iri[1..]) by {
        assert forall k :: 0 <= k < |iri[1..]| ==> iri[1..][k] == iri[k + 1];
      }
    }
  }

  lemma {:induction false} StringBodyReads(text: string, rest: string)
    ensures Body(Turtle.Escaped(text, Turtle.ESCAPE_STRING_MORE_CHARS) + "\"" + rest, '\"') == Some((text, rest))
  {
    hide Turtle.EscapeChar, Turtle.ESCAPE_STRING_MORE_CHARS;
    if text == "" {
      assert Turtle.Escaped(text, Turtle.ESCAPE_STRING_MORE_CHARS) + "\"" + rest == "\"" + rest;
      assert ("\"" + rest)[1..] == rest;
    } else {
      var more := Turtle.Escaped(text[1..], Turtle.ESCAPE_STRING_MORE_CHARS);
      StringBodyReads(text[1..], rest);
      StringCharReads(text[0], more + "\"" + rest);
      Regroup(Turtle.EscapeChar(text[0], Turtle.ESCAPE_STRING_MORE_CHARS), more, "\"", rest);
      assert text == [text[0]] + text[1..];
    }
  }

  // ---------------------------------------------------------------- terms

  /** A result that gives another term than the one meant, or none. */
  predicate Other(r: Option<(RdfTerm, string)>, t: RdfTerm) {
    r.None? || r.value.0 != t
  }

  lemma IriReads(iri: string, rest: string)
    ensures Term(EncodeIri(iri) + rest) == if LawfulIri(iri) then Some((IriTerm(iri), rest)) else None
  {
    hide Turtle.Escaped, Body;
    IriBodyReads(iri, rest);
    assert (EncodeIri(iri) + rest)[1..] == Turtle.Escaped(iri, Turtle.ESCAPE_IRI_CHARS) + ">" + rest;
  }

  lemma {:induction false} RunReads(s: string, rest: string)
    requires rest != "" && rest[0] == ' '
    ensures Run(s + rest) <= |s|
    ensures Run(s + rest) == |s| <==> s == "" || (Part(s[|s| - 1]) && forall k :: 0 <= k < |s| ==> Part(s[k]) || s[k] == '.')
  {
    hide S.PnChars;
    if s == "" {
      assert s + rest == rest;
      SpaceIsNoPart();
    } else {
      assert (s + rest)[1..] == s[1..] + rest;
      RunReads(s[1..], rest);
      assert forall k :: 0 < k < |s| ==> s[k] == s[1..][k - 1];
      DotIsNoPart();
    }
  }

  lemma SpaceIsNoPart()
    ensures !Part(' ')
  {
  }

  lemma DotIsNoPart()
    ensures !Part('.')
  {
  }

  lemma LabelReads(name: string, rest: string)
    requires rest != "" && rest[0] == ' '
    ensures var r := Label(name + rest);
            if IsLabel(name) then r == Some((name, rest)) else r.None? || r.value.0 != name
  {
    hide Part, S.PnCharsU, Run;
    var s := name + rest;
    if name == "" {
      assert s == rest;
      SpaceIsNoPart();
      FirstIsPart(' ');
    } else {
      assert s[1..] == name[1..] + rest && s[0] == name[0];
      RunReads(name[1..], rest);
      LabelIsRun(name);
      var n := 1 + Run(s[1..]);
      assert |s[..n]| == n;
      assert n == |name| ==> s[..n] == name && s[n..] == rest;
    }
  }

  lemma LabelIsRun(name: string)
    requires name != ""
    ensures var more := name[1..];
            IsLabel(name) <==>
              && (S.PnCharsU(name[0]) || name[0] == ':' || IsDigit(name[0]))
              && (more == "" || (Part(more[|more| - 1]) && forall k :: 0 <= k < |more| ==> Part(more[k]) || more[k] == '.'))
  {
    hide Part, S.PnCharsU;
    assert forall k :: 0 < k < |name| ==> name[k] == name[1..][k - 1];
    assert forall k :: 0 <= k < |name[1..]| ==> name[1..][k] == name[k + 1];
    FirstIsPart(name[0]);
  }

  lemma BlankReads(name: string, rest: string)
    requires rest != "" && rest[0] == ' '
    ensures var r := Term(EncodeBlank(name) + rest);
            if IsLabel(name) then r == Some((RdfTerm.Blank(name), rest)) else Other(r, RdfTerm.Blank(name))
  {
    hide Label, IsLabel;
    assert (EncodeBlank(name) + rest)[2..] == name + rest;
    LabelReads(name, rest);
  }

  lemma FirstIsPart(c: char)
    ensures S.PnCharsU(c) || c == ':' || IsDigit(c) ==> Part(c)
  {
  }

  /** A literal is read as its text with what its mark says. */
  lemma QuotedReads(text: string, mark: string)
    ensures Term(EncodeString(text) + mark) == Marked(text, mark)
  {
    hide Turtle.Escaped, Body, Marked;
    StringBodyReads(text, mark);
    assert (EncodeString(text) + mark)[1..] == Turtle.Escaped(text, Turtle.ESCAPE_STRING_MORE_CHARS) + "\"" + mark;
    assert (EncodeString(text) + mark)[0] == '\"';
  }

  lemma PlainReads(text: string, rest: string)
    requires rest != "" && rest[0] == ' '
    ensures Term(EncodeString(text) + rest) == Some((Plain(text), rest))
  {
    QuotedReads(text, rest);
  }

  lemma TagReads(text: string, lang: string, rest: string)
    requires rest != "" && rest[0] == ' '
    ensures var r := Marked(text, "@" + lang + rest);
            if S.IsTag(lang) then r == Some((Tagged(text, lang), rest)) else Other(r, Tagged(text, lang))
  {
    hide S.TagEnd, S.IsTag;
    var mark := "@" + lang + rest;
    assert mark[1..] == lang + rest;
    S.TagLocal(lang, rest);
    TagEndIsTag(lang);
    if S.TagEnd(mark[1..]).Some? {
      var n := S.TagEnd(mark[1..]).value;
      assert |mark[1..1 + n]| == n;
      assert n == |lang| ==> mark[1..1 + n] == lang && mark[1 + n..] == rest;
    }
  }

  lemma TaggedReads(text: string, lang: string, rest: string)
    requires rest != "" && rest[0] == ' '
    ensures var r := Term(EncodeLocString(text, lang) + rest);
            if S.IsTag(lang) then r == Some((Tagged(text, lang), rest)) else Other(r, Tagged(text, lang))
  {
    hide Term, Marked, S.IsTag, EncodeString;
    TagReads(text, lang, rest);
    QuotedReads(text, "@" + lang + rest);
    assert EncodeLocString(text, lang) + rest == EncodeString(text) + ("@" + lang + rest);
  }

  lemma TagEndIsTag(lang: string)
    ensures S.TagEnd(lang) == Some(|lang|) <==> S.IsTag(lang)
  {
    if lang != "" {
      S.TagRunIsTag(lang[1..], false);
    }
  }

  lemma TypedReads(text: string, typ: string, rest: string)
    ensures Term(EncodeTypedString(text, typ) + rest) == if LawfulIri(typ) then Some((Typed(text, typ), rest)) else None
  {
    hide Turtle.Escaped, Body;
    var mark := "^^" + EncodeIri(typ) + rest;
    QuotedReads(text, mark);
    assert EncodeTypedString(text, typ) + rest == EncodeString(text) + mark;
    IriBodyReads(typ, rest);
    assert mark[3..] == Turtle.Escaped(typ, Turtle.ESCAPE_IRI_CHARS) + ">" + rest;
  }

  /** A written term is read as the term that was meant if and only if that term is lawful. */
  lemma ObjectReads(v: Value, rest: string)
    requires EncodeAny(v) != "" && rest != "" && rest[0] == ' '
    ensures var r := Term(EncodeAny(v) + rest);
            if LawfulTerm(ObjectOf(v)) then r == Some((ObjectOf(v), rest)) else Other(r, ObjectOf(v))
  {
    hide Term, EncodeIri, EncodeBlank, EncodeString, EncodeLocString, EncodeTypedString, LawfulIri, IsLabel, S.IsTag;
    match v
    case Blank(name) => BlankReads(name, rest);
    case Iri(iri) => IriReads(iri, rest);
    case UrlValue(url) => IriReads(url, rest);
    case PlainString(text) => PlainReads(text, rest);
    case LocString(text, lang) => TaggedReads(text, lang, rest);
    case TypedString(text, typ) => TypedReads(text, typ, rest);
    case Literal(text, lang, typ) =>
      XsdName("string", "http://www.w3.org/2001/XMLSchema#string");
      if lang != "" {
        TaggedReads(text, lang, rest);
      } else if typ == "" || typ == XSD_STRING {
        PlainReads(text, rest);
      } else {
        TypedReads(text, typ, rest);
      }
    case Boolean(b) =>
      XsdName("boolean", "http://www.w3.org/2001/XMLSchema#boolean");
      TypedReads(if b then "true" else "false", XSD_NAMESPACE + "boolean", rest);
    case Integer(digits) =>
      XsdName("number", "http://www.w3.org/2001/XMLSchema#number");
      TypedReads(digits, XSD_NAMESPACE + "number", rest);
  }

  lemma XsdName(name: string, iri: string)
    requires iri == "http://www.w3.org/2001/XMLSchema#" + name
    ensures XSD_NAMESPACE + name == iri
    ensures XSD_STRING == "http://www.w3.org/2001/XMLSchema#string"
  {
  }

  lemma SubjectReads(v: Value, rest: string)
    requires EncodeIriOrBlank(v) != "" && rest != "" && rest[0] == ' '
    ensures var r := Term(EncodeIriOrBlank(v) + rest);
            if LawfulTerm(SubjectOf(v)) then r == Some((SubjectOf(v), rest)) else Other(r, SubjectOf(v))
  {
    hide Term, EncodeIri, EncodeBlank, LawfulIri, IsLabel;
    match v
    case Blank(name) => BlankReads(name, rest);
    case Iri(iri) => IriReads(iri, rest);
    case UrlValue(url) => IriReads(url, rest);
    case PlainString(iri) => IriReads(iri, rest);
  }

  // ---------------------------------------------------------------- lines

  lemma OneSpace(s: string)
    requires s != "" && s[0] != ' ' && s[0] != '\t'
    ensures Spaces(" " + s) == s && Spaces(s) == s
  {
    assert (" " + s)[1..] == s;
  }

  /** The graph and the dot. */
  lemma EndReads(g: Option<string>, rest: string, subject: RdfTerm, verb: string, obj: RdfTerm)
    ensures var graph := if g.Some? then Some(IriTerm(g.value)) else None;
            End(T.EndText(g, rest), subject, verb, obj) ==
              if g.Some? && !LawfulIri(g.value) then None else Some((RdfQuad(subject, verb, obj, graph), "\n" + rest))
  {
    hide Term, LawfulIri;
    assert " .\n" + rest == " " + (".\n" + rest);
    OneSpace(".\n" + rest);
    assert (".\n" + rest)[1..] == "\n" + rest;
    if g.Some? {
      IriReads(g.value, " .\n" + rest);
      OneSpace(EncodeIri(g.value) + (" .\n" + rest));
    }
  }

  lemma EncodedStarts(v: Value, rest: string)
    requires EncodeAny(v) != ""
    ensures EncodeAny(v) + rest != "" && (EncodeAny(v) + rest)[0] in "<_\""
  {
  }

  /** A written statement, whatever follows it, is read as the quad that was meant if and only if that quad is lawful. */
  lemma LineReads(c: Call, rest: string)
    requires T.IsStatement(c)
    ensures var r := Line(CallText(c) + rest);
            if Lawful(QuadOf(c)) then r == Some((QuadOf(c), "\n" + rest)) else r.None? || r.value.0 != QuadOf(c)
  {
    hide Term, End, EncodeIri, EncodeAny, EncodeIriOrBlank, LawfulIri, LawfulTerm, ObjectOf, SubjectOf, T.EndText, CallText, Spaces;
    T.StatementText(c, rest);
    var g := T.GraphOf(c);
    var s3 := T.EndText(g, rest);
    EndStarts(g, rest);
    var s2 := EncodeAny(c.obj) + s3;
    var s1 := EncodeIri(c.verb) + (" " + s2);
    CallParts(c);
    SubjectReads(c.subject, " " + s1);
    IriStarts(c.verb, " " + s2);
    OneSpace(s1);
    IriReads(c.verb, " " + s2);
    EncodedStarts(c.obj, s3);
    OneSpace(s2);
    ObjectReads(c.obj, s3);
    if Term(EncodeIriOrBlank(c.subject) + (" " + s1)) == Some((SubjectOf(c.subject), " " + s1)) {
      EndReads(g, rest, SubjectOf(c.subject), c.verb, ObjectOf(c.obj));
    }
    LineParts(CallText(c) + rest);
  }

  lemma EndStarts(g: Option<string>, rest: string)
    ensures T.EndText(g, rest) != "" && T.EndText(g, rest)[0] == ' '
  {
  }

  lemma IriStarts(iri: string, rest: string)
    ensures EncodeIri(iri) + rest != "" && (EncodeIri(iri) + rest)[0] == '<'
  {
  }

  lemma CallParts(c: Call)
    requires T.IsStatement(c)
    ensures EncodeIriOrBlank(c.subject) != "" && EncodeAny(c.obj) != ""
    ensures SubjectOf(c.subject).Iri? || SubjectOf(c.subject).Blank?
    ensures c.Quad? ==> LawfulTerm(IriTerm(c.graph)) == LawfulIri(c.graph)
  {
    hide EncodeIri, EncodeAny;
  }

  /** What each part of a line contributes to what is read. */
  lemma LineParts(s: string)
    ensures Line(s).Some? ==>
              && Term(s).Some? && Line(s).value.0.subject == Term(s).value.0
              && Term(Spaces(Term(s).value.1)).Some?
              && Term(Spaces(Term(s).value.1)).value.0 == IriTerm(Line(s).value.0.verb)
              && Term(Spaces(Term(Spaces(Term(s).value.1)).value.1)).Some?
              && Term(Spaces(Term(Spaces(Term(s).value.1)).value.1)).value.0 == Line(s).value.0.obj
  {
    hide Term, Spaces;
  }

  // ---------------------------------------------------------------- documents

  function Quads(calls: seq<Call>): seq<RdfQuad> {
    if calls == [] then [] else (if T.IsStatement(calls[0]) then [QuadOf(calls[0])] else []) + Quads(calls[1..])
  }

  ghost predicate AllLawful(calls: seq<Call>) {
    forall i :: 0 <= i < |calls| && T.IsStatement(calls[i]) ==> Lawful(QuadOf(calls[i]))
  }

  lemma {:induction false} DocSkips(s: string, inComment: bool)
    ensures match R.SkipSpaces(s, inComment)
            case None => Doc(s, inComment) == Some([])
            case Some(t) => Doc(s, inComment) == Doc(t, false)
    decreases |s|
  {
    hide Line, Spaces;
    if s != "" {
      if inComment {
        DocSkips(s[1..], s[0] != '\r' && s[0] != '\n');
      } else if s[0] == '#' {
        DocSkips(s[1..], true);
      } else if IsBlank(s[0]) {
        DocSkips(s[1..], false);
      }
    }
  }

  lemma SameSkips(s: string, t: string)
    requires R.SkipSpaces(s, false) == R.SkipSpaces(t, false)
    ensures Doc(s, false) == Doc(t, false)
  {
    hide Doc, R.SkipSpaces;
    DocSkips(s, false);
    DocSkips(t, false);
  }

  lemma OtherSkips(c: Call, rest: string)
    requires !T.IsStatement(c) && (c.Comment? ==> T.CleanComment(c.comment))
    ensures Doc(CallText(c) + rest, false) == Doc(rest, false)
  {
    match c {
      case EmptyLine => assert ("\n" + rest)[1..] == rest;
      case Comment(comment) => T.CommentSkips(comment, rest);
      case Quad(_, _, _, _) => assert "" + rest == rest;
      case Triple(_, _, _) => assert "" + rest == rest;
    }
    SameSkips(CallText(c) + rest, rest);
  }

  lemma DocLine(c: Call, rest: string)
    requires T.IsStatement(c)
    ensures var d := Doc(CallText(c) + rest, false);
            if Lawful(QuadOf(c)) then d == (match Doc(rest, false) case None => None case Some(more) => Some([QuadOf(c)] + more))
            else d.None? || (d.value != [] && d.value[0] != QuadOf(c))
  {
    hide Line, Lawful, QuadOf, CallText;
    LineReads(c, rest);
    CallStarts(c, rest);
    assert ("\n" + rest)[1..] == rest;
    assert Spaces("\n" + rest) == "\n" + rest;
    assert Doc("\n" + rest, false) == Doc(rest, false);
  }

  lemma CallStarts(c: Call, rest: string)
    requires T.IsStatement(c)
    ensures CallText(c) + rest != "" && (CallText(c) + rest)[0] in "<_"
  {
    T.StatementText(c, rest);
  }

  /** A whole document, read by the standard, means the quads of the calls in order if and only if each is lawful. */
  lemma {:induction false} DocumentMeans(calls: seq<Call>)
    requires T.CleanComments(calls)
    ensures Doc(Document(calls), false) == Some(Quads(calls)) <==> AllLawful(calls)
  {
    hide Doc, Lawful, QuadOf, CallText, T.IsStatement;
    if calls == [] {
      EmptyDoc();
    } else {
      var c, more := calls[0], calls[1..];
      assert forall i :: 0 <= i < |more| ==> more[i] == calls[i + 1];
      DocumentMeans(more);
      AllLawfulSplit(calls);
      if !T.IsStatement(c) {
        OtherSkips(c, Document(more));
        assert [] + Quads(more) == Quads(more);
      } else {
        DocLine(c, Document(more));
        assert Quads(calls)[0] == QuadOf(c) && Quads(calls)[1..] == Quads(more);
        if Doc(Document(more), false).Some? {
          assert ([QuadOf(c)] + Doc(Document(more), false).value)[1..] == Doc(Document(more), false).value;
        }
      }
    }
  }

  lemma EmptyDoc()
    ensures Doc("", false) == Some([])
  {
  }

  lemma AllLawfulSplit(calls: seq<Call>)
    requires calls != []
    ensures AllLawful(calls) <==> (T.IsStatement(calls[0]) ==> Lawful(QuadOf(calls[0]))) && AllLawful(calls[1..])
  {
    hide Lawful, QuadOf, T.IsStatement;
    var more := calls[1..];
    assert forall i :: 0 <= i < |more| ==> more[i] == calls[i + 1];
    if (T.IsStatement(calls[0]) ==> Lawful(QuadOf(calls[0]))) && AllLawful(more) {
      forall i | 0 <= i < |calls| && T.IsStatement(calls[i])
        ensures Lawful(QuadOf(calls[i]))
      {
        assert i > 0 ==> calls[i] == more[i - 1];
      }
    }
  }

  /** The writer's object over any calls. */
  method WriteDocument(calls: seq<Call>) returns (text: string)
    requires T.CleanComments(calls)
    ensures Doc(text, false) == Some(Quads(calls)) <==> AllLawful(calls)
  {
    hide CallText, CallError, Quads, AllLawful, Doc;
    var w := new NQuadWriter();
    for i := 0 to |calls|
      invariant fresh(w) && w.written == Document(calls[..i])
    {
      match calls[i] {
        case EmptyLine => w.WriteEmptyLine();
        case Comment(comment) => w.WriteComment(comment);
        case Quad(s, v, o, g) => var _ := w.WriteQuad(s, v, o, g);
        case Triple(s, v, o) => var _ := w.WriteTriple(s, v, o);
      }
      DocumentAppend(calls[..i], calls[i]);
      assert calls[..i + 1] == calls[..i] + [calls[i]];
    }
    assert calls[..|calls|] == calls;
    DocumentMeans(calls);
    text := w.written;
  }
}
