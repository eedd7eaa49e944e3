/** What one term of SPARQL denotes (sections 4.1 and 19.8 of the SPARQL 1.1 Query Language), and what the printed terms
    of sparql/literals.go denote. */
module SparqlDenote {
  import opened Options
  import opened Replacements
  import opened SparqlLiterals
  import opened SparqlTerms

  /** An IRI, a blank node, or a literal with a language tag, with a type, or with neither. */
  datatype RdfTerm =
    | Iri(iri: string)
    | Blank(name: string)
    | Plain(text: string)
    | Tagged(text: string, tag: string)
    | Typed(text: string, typ: string)

  /** What is between the brackets of a text that is an IRIREF. */
  function IriOf(t: string): Option<string> {
    match ReadIriref(t)
    case None => None
    case Some((iri, rest)) => if rest == "" then Some(iri) else None
  }

  /** The literal with this text and what stands after its closing quote. */
  function MarkedLiteral(text: string, mark: string): Option<RdfTerm> {
    if mark == "" then Some(Plain(text))
    else if mark[0] == '@' then if IsTag(mark[1..]) then Some(Tagged(text, mark[1..])) else None
    else if |mark| >= 2 && mark[0] == mark[1] == '^' then
      match IriOf(mark[2..])
      case None => None
      case Some(iri) => Some(Typed(text, iri))
    else None
  }

  /** The term that a text is, if it is one. */
  function Denotes(t: string): Option<RdfTerm> {
    if t == "" then None
    else if t[0] == '<' then
      match IriOf(t)
      case None => None
      case Some(iri) => Some(Iri(iri))
    else if t[0] == '_' then
      if |t| > 1 && t[1] == ':' && IsLabel(t[2..]) then Some(Blank(t[2..])) else None
    else if |t| >= 3 && t[1] == t[2] == '\"' then None
    else
      match ReadStringLiteral2(t)
      case None => None
      case Some((text, mark)) => MarkedLiteral(text, mark)
  }

  // ---------------------------------------------------------------- IRIs

  /** An IRI with each character that no IRIREF may hold written as its percent-encoding. */
  function Encoded(uri: string): string {
    if uri == "" then "" else IriWrite(uri[0]) + Encoded(uri[1..])
  }

  lemma {:induction false} EncodedIsPass(uri: string)
    ensures Encoded(uri) == OnePass(uri, IRI_TABLE)
  {
    if uri != "" {
      IriLookup(uri[0]);
      EncodedIsPass(uri[1..]);
    }
  }

  /** An IRI is written as itself if and only if an IRIREF may hold all its characters, U+001B aside. */
  lemma {:induction false} EncodedSame(uri: string)
    ensures Encoded(uri) == uri <==> forall k :: 0 <= k < |uri| ==> !Illegal(uri[k])
    ensures |Encoded(uri)| >= |uri| && (|Encoded(uri)| == |uri| ==> Encoded(uri) == uri)
  {
    if uri != "" {
      EncodedSame(uri[1..]);
      assert uri == [uri[0]] + uri[1..];
      assert Illegal(uri[0]) ==> |IriWrite(uri[0])| == 3;
      assert forall k :: 0 < k < |uri| ==> uri[k] == uri[1..][k - 1];
    }
  }

  /** What is written decodes to the IRI, for an IRI without percent signs, if and only if it has no U+001A. */
  lemma EncodedDecodes(uri: string)
    requires '%' !in uri
    ensures PercentDecode(Encoded(uri)) == uri <==> '\U{1A}' !in uri
  {
    EncodedIsPass(uri);
    DecodeOfPass(uri);
    MiswrittenSame(uri);
  }

  // ---------------------------------------------------------------- the printed terms

  /** A printed IRI without U+001B denotes the IRI, with what no IRIREF may hold percent-encoded. */
  lemma IriDenotes(uri: string)
    ensures IriOf(IriLiteral(uri)) == if '\U{1B}' in uri then None else Some(Encoded(uri))
    ensures '\U{1B}' !in uri ==> Denotes(IriLiteral(uri)) == Some(Iri(Encoded(uri)))
  {
    IriLiteralIsOneIriref(uri, "");
    assert IriLiteral(uri) + "" == IriLiteral(uri);
    EncodedIsPass(uri);
  }

  lemma BlankDenotes(id: string)
    requires IsLabel(id)
    ensures Denotes(BlankLiteral(id)) == Some(Blank(id))
  {
    assert BlankLiteral(id)[2..] == id;
  }

  /** A printed literal denotes its text, with whatever its mark adds. */
  lemma LiteralDenotes(s: string, mark: string)
    requires mark == "" || mark[0] != '\"'
    ensures Denotes(StringLiteral(s) + mark) == MarkedLiteral(s, mark)
  {
    StringLiteralRoundTrip(s, mark);
    PrintedStringEnds(s, mark);
    assert (StringLiteral(s) + mark)[0] == '\"';
  }

  lemma StringDenotes(s: string)
    ensures Denotes(StringLiteral(s)) == Some(Plain(s))
  {
    LiteralDenotes(s, "");
    assert StringLiteral(s) + "" == StringLiteral(s);
  }

  lemma TaggedDenotes(s: string, lang: string)
    requires IsTag(lang)
    ensures Denotes(LocStringLiteral(s, lang)) == Some(Tagged(s, lang))
  {
    LiteralDenotes(s, "@" + lang);
    assert StringLiteral(s) + ("@" + lang) == LocStringLiteral(s, lang) && ("@" + lang)[1..] == lang;
  }

  lemma TypedDenotes(s: string, typ: string)
    requires '\U{1B}' !in typ
    ensures Denotes(TypedStringLiteral(s, typ)) == Some(Typed(s, Encoded(typ)))
  {
    var mark := "^^" + IriLiteral(typ);
    LiteralDenotes(s, mark);
    IriDenotes(typ);
    assert StringLiteral(s) + mark == TypedStringLiteral(s, typ) && mark[2..] == IriLiteral(typ);
  }

  // ---------------------------------------------------------------- exactly the terms denote

  lemma {:induction false} IriBodyEnds(s: string)
    ensures ReadIriBody(s).Some? ==> s == ReadIriBody(s).value.0 + ">" + ReadIriBody(s).value.1
  {
    if s != "" && s[0] != '>' && IriChar(s[0]) {
      IriBodyEnds(s[1..]);
      assert s == [s[0]] + s[1..];
    }
  }

  /** Different texts never denote the same IRI. */
  lemma IriTextUnique(t: string, iri: string)
    requires Denotes(t) == Some(Iri(iri))
    ensures t == "<" + iri + ">"
  {
    IriBodyEnds(t[1..]);
    assert t == "<" + t[1..];
  }

  lemma {:induction false} StringBodyShrinks(s: string)
    ensures ReadStringBody(s).Some? ==> |ReadStringBody(s).value.1| < |s|
    ensures ReadStringBody(s).Some? ==> ReadStringBody(s).value.1 == s[|s| - |ReadStringBody(s).value.1|..]
    decreases |s|
  {
    if s != "" && s[0] != '\n' && s[0] != '\r' && s[0] != '\"' {
      if s[0] != '\\' {
        StringBodyShrinks(s[1..]);
      } else if |s| >= 2 {
        StringBodyShrinks(s[2..]);
      }
    }
  }

  lemma MarkDenotes(text: string, mark: string)
    ensures MarkedLiteral(text, mark).Some? <==> MarkEnd(mark) == Some(|mark|)
  {
    if mark != "" && mark[0] == '@' {
      if mark[1..] != "" {
        TagRunIsTag(mark[1..][1..], false);
      }
    } else if |mark| >= 2 && mark[0] == mark[1] == '^' {
      IriOfEnds(mark[2..]);
    }
  }

  lemma IriOfEnds(t: string)
    ensures IriOf(t).Some? <==> IriEnd(t) == Some(|t|)
  {
  }

  /** A text denotes a term if and only if it is one term of the language. */
  lemma DenotesIff(t: string)
    ensures Denotes(t).Some? <==> OneTerm(t)
  {
    if t != "" {
      if t[0] == '<' {
        IriOfEnds(t);
      } else if t[0] == '_' {
        if |t| > 1 && t[1] == ':' {
          assert BlankLiteral(t[2..]) == t;
          BlankIsTerm(t[2..]);
        }
      } else if t[0] == '\"' && !(|t| >= 3 && t[1] == t[2] == '\"') {
        StringBodyShrinks(t[1..]);
        if ReadStringLiteral2(t).Some? {
          var (text, mark) := ReadStringLiteral2(t).value;
          assert t[|t| - |mark|..] == mark;
          MarkDenotes(text, mark);
        }
      }
    }
  }
}
