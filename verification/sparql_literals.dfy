/** Printing of SPARQL literals (sparql/literals.go).

    The source escapes a text with a chain of whole-text replacements, one character at a time.
    The reference readers below follow the terminals STRING_LITERAL2, ECHAR and IRIREF of
    section 19.8 of the SPARQL 1.1 Query Language. */
module SparqlLiterals {

  import opened Options
  import opened Texts
  import opened Replacements

  const STRING_TABLE: seq<(char, string)> :=
    [('\\', "\\\\"), ('\"', "\\\""), ('\r', "\\r"), ('\n', "\\n"), ('\t', "\\t")]

  /** The chain at sparql/literals.go:82-121; U+001A is written as if it were U+001B, and U+001B is not replaced. */
  const IRI_TABLE: seq<(char, string)> := LOW_CONTROLS + MID_CONTROLS + HIGH_CONTROLS + LATE_CONTROLS + BRACKETS + OTHERS

  const LOW_CONTROLS: seq<(char, string)> :=
    [('\U{00}', "%00"), ('\U{01}', "%01"), ('\U{02}', "%02"), ('\U{03}', "%03"),
     ('\U{04}', "%04"), ('\U{05}', "%05"), ('\U{06}', "%06"), ('\U{07}', "%07")]
  const MID_CONTROLS: seq<(char, string)> :=
    [('\U{08}', "%08"), ('\U{09}', "%09"), ('\U{0A}', "%0A"), ('\U{0B}', "%0B"),
     ('\U{0C}', "%0C"), ('\U{0D}', "%0D"), ('\U{0E}', "%0E"), ('\U{0F}', "%0F")]
  const HIGH_CONTROLS: seq<(char, string)> :=
    [('\U{10}', "%10"), ('\U{11}', "%11"), ('\U{12}', "%12"), ('\U{13}', "%13"),
     ('\U{14}', "%14"), ('\U{15}', "%15"), ('\U{16}', "%16"), ('\U{17}', "%17")]
  const LATE_CONTROLS: seq<(char, string)> :=
    [('\U{18}', "%18"), ('\U{19}', "%19"), ('\U{1A}', "%1B"), ('\U{1C}', "%1C"),
     ('\U{1D}', "%1D"), ('\U{1E}', "%1E"), ('\U{1F}', "%1F"), ('\U{20}', "%20")]
  const BRACKETS: seq<(char, string)> :=
    [('<', "%3C"), ('>', "%3E"), ('\"', "%22"), ('{', "%7B")]
  const OTHERS: seq<(char, string)> :=
    [('}', "%7D"), ('|', "%7C"), ('^', "%5E"), ('`', "%60"), ('\\', "%5C")]

  function StringLiteral(s: string): string {
    "\"" + ReplaceAll(s, STRING_TABLE) + "\""
  }

  function IriLiteral(uri: string): string {
    "<" + ReplaceAll(uri, IRI_TABLE) + ">"
  }

  function TypedStringLiteral(s: string, typ: string): string {
    StringLiteral(s) + "^^" + IriLiteral(typ)
  }

  function LocStringLiteral(s: string, lang: string): string {
    StringLiteral(s) + "@" + lang
  }

  function BlankLiteral(id: string): string {
    "_:" + id
  }

  // ---------------------------------------------------------------- reference readers

  /** What ECHAR denotes: one of \t \b \n \r \f \\ \" \'. */
  function EChar(c: char): (r: Option<char>) {
    match c
    case 't' => Some('\t')
    case 'b' => Some('\U{08}')
    case 'n' => Some('\n')
    case 'r' => Some('\r')
    case 'f' => Some('\U{0C}')
    case '\\' => Some('\\')
    case '\"' => Some('\"')
    case '\'' => Some('\'')
    case _ => None
  }

  /** The characters of a STRING_LITERAL2 after its opening quote: the text it denotes and what
      follows the closing quote. */
  function ReadStringBody(s: string): (r: Option<(string, string)>)
    ensures r.Some? ==> |r.value.1| < |s|
  {
    if s == [] || s[0] == '\n' || s[0] == '\r' then None
    else if s[0] == '\"' then Some(("", s[1..]))
    else if s[0] == '\\' then
      if |s| < 2 || EChar(s[1]).None? then None
      else match ReadStringBody(s[2..])
        case None => None
        case Some((text, rest)) => Some(([EChar(s[1]).value] + text, rest))
    else match ReadStringBody(s[1..])
      case None => None
      case Some((text, rest)) => Some(([s[0]] + text, rest))
  }

  function ReadStringLiteral2(s: string): Option<(string, string)> {
    if s == [] || s[0] != '\"' then None else ReadStringBody(s[1..])
  }

  predicate IriChar(c: char) {
    c > ' ' && c !in "<>\"{}|^`\\"
  }

  /** An IRIREF after its opening bracket: its characters and what follows the closing bracket. */
  function ReadIriBody(s: string): (r: Option<(string, string)>)
    ensures r.Some? ==> |r.value.1| < |s|
  {
    if s == [] then None
    else if s[0] == '>' then Some(("", s[1..]))
    else if !IriChar(s[0]) then None
    else match ReadIriBody(s[1..])
      case None => None
      case Some((iri, rest)) => Some(([s[0]] + iri, rest))
  }

  function ReadIriref(s: string): Option<(string, string)> {
    if s == [] || s[0] != '<' then None else ReadIriBody(s[1..])
  }

  // ---------------------------------------------------------------- string literals

  lemma StringChainIsOnePass(s: string)
    ensures ReplaceAll(s, STRING_TABLE) == OnePass(s, STRING_TABLE)
  {
    ChainIsOnePass(s, STRING_TABLE);
  }

  lemma StringLookup(c: char)
    ensures Lookup(c, STRING_TABLE) ==
            if c == '\\' then "\\\\" else if c == '\"' then "\\\"" else if c == '\r' then "\\r"
            else if c == '\n' then "\\n" else if c == '\t' then "\\t" else [c]
  {
    var t := STRING_TABLE;
    assert t[1..][1..] == t[2..] && t[2..][1..] == t[3..] && t[3..][1..] == t[4..] && t[4..][1..] == [];
    assert Lookup(c, t[4..]) == if c == '\t' then "\\t" else [c];
    assert Lookup(c, t[3..]) == if c == '\n' then "\\n" else Lookup(c, t[4..]);
    assert Lookup(c, t[2..]) == if c == '\r' then "\\r" else Lookup(c, t[3..]);
    assert Lookup(c, t[1..]) == if c == '\"' then "\\\"" else Lookup(c, t[2..]);
  }

  lemma {:induction false} ReadStringBodyInverts(s: string, rest: string)
    ensures ReadStringBody(OnePass(s, STRING_TABLE) + "\"" + rest) == Some((s, rest))
  {
    if s == [] {
      assert OnePass(s, STRING_TABLE) + "\"" + rest == "\"" + rest;
    } else {
      StringLookup(s[0]);
      var tail := OnePass(s[1..], STRING_TABLE) + "\"" + rest;
      var all := OnePass(s, STRING_TABLE) + "\"" + rest;
      assert all == Lookup(s[0], STRING_TABLE) + tail;
      ReadStringBodyInverts(s[1..], rest);
      assert s == [s[0]] + s[1..];
      if |Lookup(s[0], STRING_TABLE)| == 2 {
        assert all[2..] == tail;
      } else {
        assert all[1..] == tail;
      }
    }
  }

  /** Whatever follows it, a printed string is read as one STRING_LITERAL2 that denotes the string. */
  lemma StringLiteralRoundTrip(s: string, rest: string)
    ensures ReadStringLiteral2(StringLiteral(s) + rest) == Some((s, rest))
  {
    StringChainIsOnePass(s);
    ReadStringBodyInverts(s, rest);
    assert (StringLiteral(s) + rest)[1..] == OnePass(s, STRING_TABLE) + "\"" + rest;
  }

  // ---------------------------------------------------------------- IRI references

  /** The percent-encoding of one byte (section 2.1 of RFC 3986). */
  function Percent(c: char): string
    requires c < '\U{80}'
  {
    ['%', HexDigit(c as int / 16), HexDigit(c as int % 16)]
  }

  /** The character whose encoding the table gives: itself, except that U+001A is written as U+001B. */
  function Written(c: char): (r: char) {
    if c == '\U{1A}' then '\U{1B}' else c
  }

  predicate Illegal(c: char) {
    c < '\U{80}' && !IriChar(c) && c != '\U{1B}'
  }

  ghost predicate Encodes(table: seq<(char, string)>) {
    forall i :: 0 <= i < |table| ==> Illegal(table[i].0) && table[i].1 == Percent(Written(table[i].0))
  }

  lemma LowControlsEncode()
    ensures Encodes(LOW_CONTROLS)
  {
  }

  lemma MidControlsEncode()
    ensures Encodes(MID_CONTROLS)
  {
  }

  lemma HighControlsEncode()
    ensures Encodes(HIGH_CONTROLS)
  {
  }

  lemma LateControlsEncode()
    ensures Encodes(LATE_CONTROLS)
  {
  }

  lemma BracketsEncode()
    ensures Encodes(BRACKETS)
  {
  }

  lemma OthersEncode()
    ensures Encodes(OTHERS)
  {
  }

  lemma IriTableEncodes()
    ensures Encodes(IRI_TABLE)
  {
    LowControlsEncode();
    MidControlsEncode();
    HighControlsEncode();
    LateControlsEncode();
    BracketsEncode();
    OthersEncode();
  }

  ghost predicate HasKey(table: seq<(char, string)>, c: char) {
    exists i :: 0 <= i < |table| && table[i].0 == c
  }

  lemma HasKeyConcat(a: seq<(char, string)>, b: seq<(char, string)>, c: char)
    requires HasKey(a, c) || HasKey(b, c)
    ensures HasKey(a + b, c)
  {
    if HasKey(a, c) {
      var i :| 0 <= i < |a| && a[i].0 == c;
      assert (a + b)[i].0 == c;
    } else {
      var i :| 0 <= i < |b| && b[i].0 == c;
      assert (a + b)[|a| + i].0 == c;
    }
  }

  lemma ControlHasKey(c: char)
    requires c <= ' ' && c != '\U{1B}'
    ensures HasKey(LOW_CONTROLS, c) || HasKey(MID_CONTROLS, c) || HasKey(HIGH_CONTROLS, c) || HasKey(LATE_CONTROLS, c)
  {
    var n := c as int;
    if n < 8 {
      assert LOW_CONTROLS[n].0 == c;
    } else if n < 16 {
      assert MID_CONTROLS[n - 8].0 == c;
    } else if n < 24 {
      assert HIGH_CONTROLS[n - 16].0 == c;
    } else {
      assert LATE_CONTROLS[if n < 0x1B then n - 24 else n - 25].0 == c;
    }
  }

  lemma PunctuationHasKey(c: char)
    requires c in "<>\"{}|^`\\"
    ensures HasKey(BRACKETS, c) || HasKey(OTHERS, c)
  {
    assert BRACKETS[0].0 == '<' && BRACKETS[1].0 == '>' && BRACKETS[2].0 == '\"' && BRACKETS[3].0 == '{';
    assert OTHERS[0].0 == '}' && OTHERS[1].0 == '|' && OTHERS[2].0 == '^' && OTHERS[3].0 == '`' && OTHERS[4].0 == '\\';
  }

  lemma IllegalHasKey(c: char)
    requires Illegal(c)
    ensures HasKey(IRI_TABLE, c)
  {
    var t1 := LOW_CONTROLS + MID_CONTROLS;
    var t2 := t1 + HIGH_CONTROLS;
    var t3 := t2 + LATE_CONTROLS;
    var t4 := t3 + BRACKETS;
    if c <= ' ' {
      ControlHasKey(c);
    } else {
      PunctuationHasKey(c);
    }
    if HasKey(LOW_CONTROLS, c) || HasKey(MID_CONTROLS, c) { HasKeyConcat(LOW_CONTROLS, MID_CONTROLS, c); }
    if HasKey(t1, c) || HasKey(HIGH_CONTROLS, c) { HasKeyConcat(t1, HIGH_CONTROLS, c); }
    if HasKey(t2, c) || HasKey(LATE_CONTROLS, c) { HasKeyConcat(t2, LATE_CONTROLS, c); }
    if HasKey(t3, c) || HasKey(BRACKETS, c) { HasKeyConcat(t3, BRACKETS, c); }
    HasKeyConcat(t4, OTHERS, c);
  }

  lemma {:induction false} LookupEncodes(c: char, table: seq<(char, string)>)
    requires Encodes(table)
    ensures HasKey(table, c) ==> Illegal(c) && Lookup(c, table) == Percent(Written(c))
    ensures !HasKey(table, c) ==> Lookup(c, table) == [c]
  {
    if table != [] {
      assert forall i :: 0 <= i < |table[1..]| ==> table[1..][i] == table[i + 1];
      LookupEncodes(c, table[1..]);
      assert HasKey(table, c) <==> table[0].0 == c || HasKey(table[1..], c) by {
        if HasKey(table[1..], c) {
          var i :| 0 <= i < |table[1..]| && table[1..][i].0 == c;
          assert table[i + 1].0 == c;
        }
        if HasKey(table, c) && table[0].0 != c {
          var i :| 0 <= i < |table| && table[i].0 == c;
          assert table[1..][i - 1].0 == c;
        }
      }
    }
  }

  /** What the chain writes for one character of an IRI. */
  function IriWrite(c: char): string {
    if Illegal(c) then Percent(Written(c)) else [c]
  }

  lemma IriLookup(c: char)
    ensures Lookup(c, IRI_TABLE) == IriWrite(c)
  {
    IriTableEncodes();
    LookupEncodes(c, IRI_TABLE);
    if Illegal(c) {
      IllegalHasKey(c);
    } else if HasKey(IRI_TABLE, c) {
      assert false;
    }
  }

  lemma IriWriteLegal(c: char)
    ensures forall k :: 0 <= k < |IriWrite(c)| ==> IriChar(IriWrite(c)[k]) || (c == '\U{1B}' && IriWrite(c)[k] == c)
    ensures c == '\U{1B}' ==> IriWrite(c) == [c]
  {
  }

  lemma IriTableSettled()
    ensures Settled(IRI_TABLE)
  {
    IriTableEncodes();
    forall i, j, k | 0 <= i < |IRI_TABLE| && i < j < |IRI_TABLE| && 0 <= k < |IRI_TABLE[i].1|
      ensures IRI_TABLE[i].1[k] != IRI_TABLE[j].0
    {
      assert Illegal(IRI_TABLE[i].0) && Illegal(IRI_TABLE[j].0);
      assert IRI_TABLE[i].1 == IriWrite(IRI_TABLE[i].0);
      IriWriteLegal(IRI_TABLE[i].0);
    }
  }

  lemma IriChainIsOnePass(uri: string)
    ensures ReplaceAll(uri, IRI_TABLE) == OnePass(uri, IRI_TABLE)
  {
    IriTableSettled();
    ChainIsOnePass(uri, IRI_TABLE);
  }

  lemma {:induction false} ReadIriBodyConcat(a: string, s: string)
    requires forall k :: 0 <= k < |a| ==> IriChar(a[k])
    ensures ReadIriBody(a + s) == match ReadIriBody(s) case None => None case Some((iri, rest)) => Some((a + iri, rest))
  {
    if a == [] {
      assert a + s == s;
      assert forall iri: string :: a + iri == iri;
    } else {
      assert (a + s)[1..] == a[1..] + s;
      ReadIriBodyConcat(a[1..], s);
      match ReadIriBody(s) {
        case None =>
        case Some((iri, rest)) => assert [a[0]] + (a[1..] + iri) == a + iri;
      }
    }
  }

  lemma {:induction false} ReadIriBodyOfPass(uri: string, rest: string)
    ensures ReadIriBody(OnePass(uri, IRI_TABLE) + ">" + rest) ==
            if '\U{1B}' in uri then None else Some((OnePass(uri, IRI_TABLE), rest))
  {
    hide IRI_TABLE, Lookup;
    if uri == [] {
      assert OnePass(uri, IRI_TABLE) + ">" + rest == ">" + rest;
    } else {
      var tail := OnePass(uri[1..], IRI_TABLE) + ">" + rest;
      IriLookup(uri[0]);
      IriWriteLegal(uri[0]);
      ReadIriBodyOfPass(uri[1..], rest);
      assert OnePass(uri, IRI_TABLE) + ">" + rest == IriWrite(uri[0]) + tail;
      assert '\U{1B}' in uri <==> uri[0] == '\U{1B}' || '\U{1B}' in uri[1..];
      if uri[0] != '\U{1B}' {
        ReadIriBodyConcat(IriWrite(uri[0]), tail);
      }
    }
  }

  /** A printed IRI is one IRIREF, whatever follows it, exactly when the IRI has no U+001B. */
  lemma IriLiteralIsOneIriref(uri: string, rest: string)
    ensures ReadIriref(IriLiteral(uri) + rest) ==
            if '\U{1B}' in uri then None else Some((OnePass(uri, IRI_TABLE), rest))
  {
    IriChainIsOnePass(uri);
    ReadIriBodyOfPass(uri, rest);
    assert (IriLiteral(uri) + rest)[1..] == OnePass(uri, IRI_TABLE) + ">" + rest;
  }

  lemma {:induction false} OnePassConcat(a: string, b: string, table: seq<(char, string)>)
    ensures OnePass(a + b, table) == OnePass(a, table) + OnePass(b, table)
  {
    if a == [] {
      assert a + b == b;
    } else {
      assert (a + b)[1..] == a[1..] + b;
      OnePassConcat(a[1..], b, table);
    }
  }

  lemma {:induction false} OnePassLegal(s: string)
    requires forall k :: 0 <= k < |s| ==> !Illegal(s[k])
    ensures OnePass(s, IRI_TABLE) == s
  {
    if s != [] {
      IriLookup(s[0]);
      OnePassLegal(s[1..]);
    }
  }

  lemma {:induction false} OnePassIdempotent(uri: string)
    ensures OnePass(OnePass(uri, IRI_TABLE), IRI_TABLE) == OnePass(uri, IRI_TABLE)
  {
    if uri != [] {
      IriLookup(uri[0]);
      IriWriteLegal(uri[0]);
      OnePassConcat(IriWrite(uri[0]), OnePass(uri[1..], IRI_TABLE), IRI_TABLE);
      OnePassLegal(IriWrite(uri[0]));
      OnePassIdempotent(uri[1..]);
    }
  }

  /** Escaping what is already escaped changes nothing. */
  lemma IriChainIdempotent(uri: string)
    ensures ReplaceAll(ReplaceAll(uri, IRI_TABLE), IRI_TABLE) == ReplaceAll(uri, IRI_TABLE)
  {
    IriChainIsOnePass(uri);
    IriChainIsOnePass(OnePass(uri, IRI_TABLE));
    OnePassIdempotent(uri);
  }

  // ---------------------------------------------------------------- percent-decoding

  function HexValue(c: char): (r: Option<nat>)
    ensures r.Some? ==> r.value < 16
  {
    if '0' <= c <= '9' then Some(c as nat - '0' as nat)
    else if 'A' <= c <= 'F' then Some(c as nat - 'A' as nat + 10)
    else if 'a' <= c <= 'f' then Some(c as nat - 'a' as nat + 10)
    else None
  }

  function PercentDecode(s: string): string {
    if s == [] then []
    else if s[0] == '%' && |s| >= 3 && HexValue(s[1]).Some? && HexValue(s[2]).Some? then
      [(16 * HexValue(s[1]).value + HexValue(s[2]).value) as char] + PercentDecode(s[3..])
    else [s[0]] + PercentDecode(s[1..])
  }

  lemma HexDigitValue(n: nat)
    requires n < 16
    ensures HexValue(HexDigit(n)) == Some(n)
  {
  }

  lemma PercentDecodes(c: char, rest: string)
    requires c < '\U{80}'
    ensures PercentDecode(Percent(c) + rest) == [c] + PercentDecode(rest)
  {
    HexDigitValue(c as int / 16);
    HexDigitValue(c as int % 16);
    assert (Percent(c) + rest)[3..] == rest;
  }

  function Miswritten(uri: string): string {
    if uri == [] then [] else [Written(uri[0])] + Miswritten(uri[1..])
  }

  lemma {:induction false} DecodeOfPass(uri: string)
    requires '%' !in uri
    ensures PercentDecode(OnePass(uri, IRI_TABLE)) == Miswritten(uri)
  {
    if uri != [] {
      IriLookup(uri[0]);
      DecodeOfPass(uri[1..]);
      var rest := OnePass(uri[1..], IRI_TABLE);
      if Illegal(uri[0]) {
        PercentDecodes(Written(uri[0]), rest);
      } else {
        assert ([uri[0]] + rest)[1..] == rest;
      }
    }
  }

  lemma {:induction false} MiswrittenSame(uri: string)
    ensures Miswritten(uri) == uri <==> '\U{1A}' !in uri
  {
    if uri != [] {
      MiswrittenSame(uri[1..]);
      assert uri == [uri[0]] + uri[1..];
      assert '\U{1A}' in uri <==> uri[0] == '\U{1A}' || '\U{1A}' in uri[1..];
      assert Miswritten(uri)[0] == Written(uri[0]) && Miswritten(uri)[1..] == Miswritten(uri[1..]);
    }
  }

  /** Percent-decoding a printed IRI gives the IRI back exactly when it has no U+001A
      (for IRIs that hold no percent sign of their own). */
  lemma IriDecodeRoundTrip(uri: string)
    requires '%' !in uri
    ensures PercentDecode(ReplaceAll(uri, IRI_TABLE)) == uri <==> '\U{1A}' !in uri
  {
    IriChainIsOnePass(uri);
    DecodeOfPass(uri);
    MiswrittenSame(uri);
  }

  /** The two departures have concrete witnesses. */
  lemma IriDepartures()
    ensures ReadIriref(IriLiteral("\U{1B}")) == None
    ensures PercentDecode(ReplaceAll("\U{1A}", IRI_TABLE)) == "\U{1B}"
  {
    IriLiteralIsOneIriref("\U{1B}", "");
    assert IriLiteral("\U{1B}") + "" == IriLiteral("\U{1B}");
    IriChainIsOnePass("\U{1A}");
    DecodeOfPass("\U{1A}");
    assert Miswritten("\U{1A}") == "\U{1B}";
  }
}
