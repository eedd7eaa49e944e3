/** Reading one RDF term at the start of a text, by the longest match.

    The terminals are IRIREF, BLANK_NODE_LABEL, STRING_LITERAL2 and LANGTAG, and the production is RDFLiteral, of
    section 19.8 of the SPARQL 1.1 Query Language. Long strings are no part of the reader. */
module SparqlTerms {
  import opened Options
  import opened Texts
  import opened Replacements
  import opened SparqlLiterals

  predicate LetterOrDigit(c: char) {
    IsAlpha(c) || IsDigit(c)
  }

  /** PN_CHARS_BASE */
  predicate PnCharsBase(c: char) {
    || IsAlpha(c)
    || '\U{C0}' <= c <= '\U{D6}' || '\U{D8}' <= c <= '\U{F6}' || '\U{F8}' <= c <= '\U{2FF}'
    || '\U{370}' <= c <= '\U{37D}' || '\U{37F}' <= c <= '\U{1FFF}' || '\U{200C}' <= c <= '\U{200D}'
    || '\U{2070}' <= c <= '\U{218F}' || '\U{2C00}' <= c <= '\U{2FEF}' || '\U{3001}' <= c <= '\U{D7FF}'
    || '\U{F900}' <= c <= '\U{FDCF}' || '\U{FDF0}' <= c <= '\U{FFFD}' || '\U{10000}' <= c <= '\U{EFFFF}'
  }

  /** PN_CHARS_U */
  predicate PnCharsU(c: char) {
    PnCharsBase(c) || c == '_'
  }

  /** PN_CHARS */
  predicate PnChars(c: char) {
    || PnCharsU(c) || c == '-' || IsDigit(c) || c == '\U{B7}'
    || '\U{300}' <= c <= '\U{36F}' || '\U{203F}' <= c <= '\U{2040}'
  }

  /** What stands after `_:` in a BLANK_NODE_LABEL: ( PN_CHARS_U | [0-9] ) ((PN_CHARS|'.')* PN_CHARS)? */
  predicate IsLabel(s: string) {
    && s != [] && (PnCharsU(s[0]) || IsDigit(s[0]))
    && PnChars(s[|s| - 1])
    && forall k :: 0 <= k < |s| ==> PnChars(s[k]) || s[k] == '.'
  }

  /** What stands after `@` in a LANGTAG: [a-zA-Z]+ ('-' [a-zA-Z0-9]+)* */
  predicate IsTag(s: string) {
    s != [] && IsAlpha(s[0]) && IsTagRest(s[1..], false)
  }

  /** The rest of a LANGTAG after a character of its language (`!sub`) or of a subtag (`sub`). */
  predicate IsTagRest(s: string, sub: bool) {
    || s == []
    || ((IsAlpha(s[0]) || (sub && IsDigit(s[0]))) && IsTagRest(s[1..], sub))
    || (s[0] == '-' && |s| > 1 && LetterOrDigit(s[1]) && IsTagRest(s[2..], true))
  }

  // ---------------------------------------------------------------- the reader

  /** The length of the longest ((PN_CHARS|'.')* PN_CHARS)? at the start. */
  function LabelRun(s: string): (n: nat)
    ensures n <= |s|
  {
    if s == [] then 0
    else if PnChars(s[0]) then 1 + LabelRun(s[1..])
    else if s[0] == '.' && LabelRun(s[1..]) > 0 then 1 + LabelRun(s[1..])
    else 0
  }

  /** The length of the longest rest of a LANGTAG at the start. */
  function TagRun(s: string, sub: bool): (n: nat)
    ensures n <= |s|
  {
    if s == [] then 0
    else if IsAlpha(s[0]) || (sub && IsDigit(s[0])) then 1 + TagRun(s[1..], sub)
    else if s[0] == '-' && |s| > 1 && LetterOrDigit(s[1]) then 2 + TagRun(s[2..], true)
    else 0
  }

  function LabelEnd(s: string): (r: Option<nat>)
    ensures r.Some? ==> 0 < r.value <= |s|
  {
    if s != [] && (PnCharsU(s[0]) || IsDigit(s[0])) then Some(1 + LabelRun(s[1..])) else None
  }

  function TagEnd(s: string): (r: Option<nat>)
    ensures r.Some? ==> 0 < r.value <= |s|
  {
    if s != [] && IsAlpha(s[0]) then Some(1 + TagRun(s[1..], false)) else None
  }

  /** The length of the IRIREF at the start. */
  function IriEnd(s: string): (r: Option<nat>)
    ensures r.Some? ==> 0 < r.value <= |s|
  {
    match ReadIriref(s)
    case None => None
    case Some((_, rest)) => Some(|s| - |rest|)
  }

  /** The length of the string literal at the start. */
  function StringEnd(s: string): (r: Option<nat>)
    ensures r.Some? ==> 0 < r.value <= |s|
  {
    if |s| >= 3 && s[1] == s[2] == '\"' then None
    else match ReadStringLiteral2(s)
      case None => None
      case Some((_, rest)) => Some(|s| - |rest|)
  }

  /** The length of the mark and what follows it: ( LANGTAG | '^^' IRIREF )? */
  function MarkEnd(s: string): (r: Option<nat>)
    ensures r.Some? ==> r.value <= |s|
  {
    if s != [] && s[0] == '@' then Plus(1, TagEnd(s[1..]))
    else if |s| >= 2 && s[0] == s[1] == '^' then Plus(2, IriEnd(s[2..]))
    else Some(0)
  }

  function Plus(n: nat, m: Option<nat>): Option<nat> {
    match m case None => None case Some(k) => Some(n + k)
  }

  /** The length of the term at the start of a text, if there is one. */
  function TermEnd(s: string): (r: Option<nat>)
    ensures r.Some? ==> 0 < r.value <= |s|
  {
    if s == [] then None
    else if s[0] == '<' then IriEnd(s)
    else if s[0] == '_' then if |s| > 1 && s[1] == ':' then Plus(2, LabelEnd(s[2..])) else None
    else if s[0] == '\"' then
      match StringEnd(s)
      case None => None
      case Some(n) => Plus(n, MarkEnd(s[n..]))
    else None
  }

  /** The whole text is one term. */
  predicate OneTerm(t: string) {
    TermEnd(t) == Some(|t|)
  }

  /** What cannot continue a term. */
  predicate Stops(rest: string) {
    rest == [] || rest[0] in " \t\r\n,;{}<"
  }

  // ---------------------------------------------------------------- a term ends where it ends

  lemma {:induction false} IriBodyLocal(a: string, rest: string)
    ensures match ReadIriBody(a)
            case Some((iri, r)) => ReadIriBody(a + rest) == Some((iri, r + rest))
            case None => ReadIriBody(a + rest).None? || |ReadIriBody(a + rest).value.1| < |rest|
  {
    if a == [] {
      assert a + rest == rest;
    } else {
      assert (a + rest)[1..] == a[1..] + rest;
      IriBodyLocal(a[1..], rest);
    }
  }

  lemma IriLocal(a: string, rest: string)
    requires a != []
    ensures IriEnd(a + rest) == IriEnd(a) || (IriEnd(a).None? && IriEnd(a + rest).Some? && IriEnd(a + rest).value > |a|)
  {
    assert (a + rest)[1..] == a[1..] + rest;
    IriBodyLocal(a[1..], rest);
  }

  lemma {:induction false} StringBodyLocal(a: string, rest: string)
    ensures match ReadStringBody(a)
            case Some((text, r)) => ReadStringBody(a + rest) == Some((text, r + rest))
            case None => ReadStringBody(a + rest).None? || |ReadStringBody(a + rest).value.1| < |rest|
    decreases |a|
  {
    if a == [] {
      assert a + rest == rest;
    } else if a[0] == '\\' && |a| == 1 {
      assert (a + rest)[0] == '\\' && (rest != [] ==> (a + rest)[1] == rest[0] && (a + rest)[2..] == rest[1..]);
    } else if a[0] == '\\' {
      assert (a + rest)[2..] == a[2..] + rest && (a + rest)[1] == a[1];
      StringBodyLocal(a[2..], rest);
    } else {
      assert (a + rest)[1..] == a[1..] + rest;
      StringBodyLocal(a[1..], rest);
    }
  }

  /** A string literal that ends inside `a` ends there whatever follows, and one that does not end in `a` ends after it. */
  lemma StringLocal(a: string, rest: string)
    requires a != [] && (Stops(rest) || StringEnd(a + rest).Some?)
    ensures StringEnd(a + rest) == StringEnd(a) || (StringEnd(a).None? && StringEnd(a + rest).Some? && StringEnd(a + rest).value > |a|)
  {
    assert (a + rest)[1..] == a[1..] + rest;
    StringBodyLocal(a[1..], rest);
  }

  lemma {:induction false} LabelRunIsLabel(s: string)
    ensures LabelRun(s) == |s| <==>
              s == [] || (PnChars(s[|s| - 1]) && forall k :: 0 <= k < |s| ==> PnChars(s[k]) || s[k] == '.')
  {
    hide PnChars;
    if s != [] {
      LabelRunIsLabel(s[1..]);
      assert forall k :: 0 < k < |s| ==> s[k] == s[1..][k - 1];
    }
  }

  lemma {:induction false} LabelRunStops(s: string, rest: string)
    requires Stops(rest)
    ensures LabelRun(s + rest) == LabelRun(s)
  {
    if s == [] {
      assert s + rest == rest;
    } else {
      assert (s + rest)[1..] == s[1..] + rest;
      LabelRunStops(s[1..], rest);
    }
  }

  lemma {:induction false} LabelRunPrefix(s: string, rest: string)
    requires LabelRun(s + rest) == |s|
    ensures LabelRun(s) == |s|
  {
    if s != [] {
      assert (s + rest)[1..] == s[1..] + rest;
      LabelRunPrefix(s[1..], rest);
    }
  }

  lemma {:induction false} TagRunIsTag(s: string, sub: bool)
    ensures TagRun(s, sub) == |s| <==> IsTagRest(s, sub)
    decreases |s|
  {
    if s != [] {
      TagRunIsTag(s[1..], sub);
      if |s| > 1 {
        TagRunIsTag(s[2..], true);
      }
    }
  }

  lemma {:induction false} TagRunStops(s: string, rest: string, sub: bool)
    requires Stops(rest)
    ensures TagRun(s + rest, sub) == TagRun(s, sub)
    decreases |s|
  {
    if s == [] {
      assert s + rest == rest;
    } else {
      assert (s + rest)[1..] == s[1..] + rest;
      TagRunStops(s[1..], rest, sub);
      if |s| > 1 {
        assert (s + rest)[2..] == s[2..] + rest;
        TagRunStops(s[2..], rest, true);
      }
    }
  }

  lemma {:induction false} TagRunPrefix(s: string, rest: string, sub: bool)
    requires TagRun(s + rest, sub) == |s|
    ensures TagRun(s, sub) == |s|
    decreases |s|
  {
    if s != [] {
      assert (s + rest)[1..] == s[1..] + rest;
      if IsAlpha(s[0]) || (sub && IsDigit(s[0])) {
        TagRunPrefix(s[1..], rest, sub);
      } else {
        assert |s| > 1;
        assert (s + rest)[2..] == s[2..] + rest && (s + rest)[1] == s[1];
        TagRunPrefix(s[2..], rest, true);
      }
    }
  }

  lemma LabelLocal(s: string, rest: string)
    ensures LabelEnd(s + rest) == Some(|s|) ==> LabelEnd(s) == Some(|s|)
    ensures Stops(rest) ==> LabelEnd(s + rest) == LabelEnd(s)
  {
    if s == [] {
      assert s + rest == rest;
    } else {
      assert (s + rest)[1..] == s[1..] + rest;
      if LabelEnd(s + rest) == Some(|s|) {
        LabelRunPrefix(s[1..], rest);
      }
      if Stops(rest) {
        LabelRunStops(s[1..], rest);
      }
    }
  }

  lemma TagLocal(s: string, rest: string)
    ensures TagEnd(s + rest) == Some(|s|) ==> TagEnd(s) == Some(|s|)
    ensures Stops(rest) ==> TagEnd(s + rest) == TagEnd(s)
  {
    if s == [] {
      assert s + rest == rest;
    } else {
      assert (s + rest)[1..] == s[1..] + rest;
      if TagEnd(s + rest) == Some(|s|) {
        TagRunPrefix(s[1..], rest, false);
      }
      if Stops(rest) {
        TagRunStops(s[1..], rest, false);
      }
    }
  }

  lemma MarkLocal(s: string, rest: string)
    ensures MarkEnd(s + rest) == Some(|s|) ==> MarkEnd(s) == Some(|s|)
    ensures Stops(rest) && MarkEnd(s) == Some(|s|) ==> MarkEnd(s + rest) == Some(|s|)
  {
    hide TagEnd, IriEnd;
    if s == [] {
      assert s + rest == rest;
    } else if s[0] == '@' {
      assert (s + rest)[1..] == s[1..] + rest;
      TagLocal(s[1..], rest);
    } else if |s| >= 2 && s[0] == s[1] == '^' {
      assert (s + rest)[2..] == s[2..] + rest;
      if s[2..] == [] {
        assert (s + rest)[2..] == rest;
        NoIriIsEmpty(rest);
      } else {
        IriLocal(s[2..], rest);
      }
    }
  }

  lemma NoIriIsEmpty(rest: string)
    ensures IriEnd([]) == None && IriEnd(rest) != Some(0)
  {
  }

  lemma LiteralLocal(t: string, rest: string)
    requires t != [] && t[0] == '\"'
    ensures TermEnd(t + rest) == Some(|t|) ==> OneTerm(t)
    ensures Stops(rest) && OneTerm(t) ==> TermEnd(t + rest) == Some(|t|)
  {
    hide StringEnd, MarkEnd;
    if Stops(rest) || StringEnd(t + rest).Some? {
      StringLocal(t, rest);
      if StringEnd(t).Some? {
        var n := StringEnd(t).value;
        assert (t + rest)[n..] == t[n..] + rest;
        MarkLocal(t[n..], rest);
      }
    }
  }

  /** A term read from a text is one term by itself, and a term is read whatever follows that cannot continue it. */
  lemma TermLocal(t: string, rest: string)
    ensures TermEnd(t + rest) == Some(|t|) ==> OneTerm(t)
    ensures Stops(rest) && OneTerm(t) ==> TermEnd(t + rest) == Some(|t|)
  {
    hide IriEnd, StringEnd, MarkEnd, LabelEnd;
    if t == [] {
      assert t + rest == rest;
    } else if t[0] == '<' {
      IriLocal(t, rest);
    } else if t[0] == '_' {
      if |t| > 1 {
        assert (t + rest)[2..] == t[2..] + rest;
        LabelLocal(t[2..], rest);
      }
    } else if t[0] == '\"' {
      LiteralLocal(t, rest);
    }
  }

  // ---------------------------------------------------------------- the printed terms

  /** A printed IRI is one term if and only if the IRI has no U+001B. */
  lemma IriIsTerm(uri: string)
    ensures OneTerm(IriLiteral(uri)) <==> '\U{1B}' !in uri
  {
    IriLiteralIsOneIriref(uri, "");
    assert IriLiteral(uri) + "" == IriLiteral(uri);
  }

  /** A printed blank node is one term if and only if its label is a BLANK_NODE_LABEL. */
  lemma BlankIsTerm(id: string)
    ensures OneTerm(BlankLiteral(id)) <==> IsLabel(id)
  {
    assert BlankLiteral(id)[2..] == id;
    if id != [] {
      LabelRunIsLabel(id[1..]);
      assert forall k :: 0 < k < |id| ==> id[k] == id[1..][k - 1];
    }
  }

  /** The quotes of a printed string end where they should, and are not the start of a long string. */
  lemma PrintedStringEnds(s: string, rest: string)
    requires rest == [] || rest[0] != '\"'
    ensures StringEnd(StringLiteral(s) + rest) == Some(|StringLiteral(s)|)
  {
    StringLiteralRoundTrip(s, rest);
    StringChainIsOnePass(s);
    var t := StringLiteral(s) + rest;
    if s == [] {
      assert t == "\"\"" + rest;
    } else {
      StringLookup(s[0]);
      assert t[1] == Lookup(s[0], STRING_TABLE)[0] != '\"';
    }
  }

  lemma PrintedLiteralEnds(s: string, mark: string)
    requires mark == [] || mark[0] != '\"'
    ensures TermEnd(StringLiteral(s) + mark) == Plus(|StringLiteral(s)|, MarkEnd(mark))
  {
    PrintedStringEnds(s, mark);
    assert (StringLiteral(s) + mark)[|StringLiteral(s)|..] == mark;
    assert (StringLiteral(s) + mark)[0] == '\"';
  }

  /** A printed plain literal is one term. */
  lemma StringIsTerm(s: string)
    ensures OneTerm(StringLiteral(s))
  {
    PrintedLiteralEnds(s, "");
    assert StringLiteral(s) + "" == StringLiteral(s);
  }

  /** A printed tagged literal is one term if and only if its tag is a LANGTAG. */
  lemma TaggedIsTerm(s: string, lang: string)
    ensures OneTerm(LocStringLiteral(s, lang)) <==> IsTag(lang)
  {
    var mark := "@" + lang;
    PrintedLiteralEnds(s, mark);
    assert StringLiteral(s) + mark == LocStringLiteral(s, lang);
    assert mark[1..] == lang;
    if lang != [] {
      TagRunIsTag(lang[1..], false);
    }
  }

  /** A printed typed literal is one term if and only if the IRI of its type has no U+001B. */
  lemma TypedIsTerm(s: string, typ: string)
    ensures OneTerm(TypedStringLiteral(s, typ)) <==> '\U{1B}' !in typ
  {
    var mark := "^^" + IriLiteral(typ);
    PrintedLiteralEnds(s, mark);
    assert StringLiteral(s) + mark == TypedStringLiteral(s, typ);
    assert mark[2..] == IriLiteral(typ);
    IriIsTerm(typ);
  }
}
