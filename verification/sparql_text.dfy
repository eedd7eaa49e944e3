/** The characters of an update: how they are read as tokens, and when a text of tokens and white space is read as
    exactly these tokens (section 19.8 of the SPARQL 1.1 Query Language). */
module SparqlText {
  import opened Options
  import opened Texts
  import opened SparqlTerms
  import opened SparqlUpdate

  // ---------------------------------------------------------------- the reader

  /** What follows the white space and the comments at the start of a text. */
  function SkipWhite(s: string): (r: string)
    ensures |r| <= |s|
  {
    if s == [] then []
    else if IsBlank(s[0]) then SkipWhite(s[1..])
    else if s[0] == '#' then SkipComment(s[1..])
    else s
  }

  function SkipComment(s: string): (r: string)
    ensures |r| <= |s|
  {
    if s == [] then []
    else if s[0] == '\n' || s[0] == '\r' then SkipWhite(s[1..])
    else SkipComment(s[1..])
  }

  predicate WordChar(c: char) {
    PnChars(c) || c == ':'
  }

  function Upper(c: char): char {
    if 'a' <= c <= 'z' then (c as int - 32) as char else c
  }

  /** The text starts with a keyword, in any case of letters, that ends where the keyword does. */
  predicate StartsWithWord(s: string, word: string) {
    && |s| >= |word| && (forall k :: 0 <= k < |word| ==> Upper(s[k]) == word[k])
    && (|s| > |word| ==> !WordChar(s[|word|]))
  }

  /** The punctuation of updates. A dot before a digit starts a number. */
  function ReadSign(s: string): Option<Token>
    requires s != []
  {
    match s[0]
    case '{' => Some(LBrace)
    case '}' => Some(RBrace)
    case ',' => Some(Comma)
    case ';' => Some(Semicolon)
    case '.' => if |s| > 1 && IsDigit(s[1]) then None else Some(Dot)
    case _ => None
  }

  /** The keywords of updates. Those of INSERT DATA and of DROP SILENT GRAPH are one token, with any white space inside. */
  function ReadWords(s: string): (r: Option<(Token, string)>)
    ensures r.Some? ==> |r.value.1| < |s|
  {
    if StartsWithWord(s, "GRAPH") then Some((Graph, s[5..]))
    else if StartsWithWord(s, "INSERT") then
      var t := SkipWhite(s[6..]);
      if StartsWithWord(t, "DATA") then Some((InsertData, t[4..])) else None
    else if StartsWithWord(s, "DROP") then
      var t := SkipWhite(s[4..]);
      if !StartsWithWord(t, "SILENT") then None
      else
        var u := SkipWhite(t[6..]);
        if StartsWithWord(u, "GRAPH") then Some((DropSilentGraph, u[5..])) else None
    else None
  }

  function ReadTerm(s: string): (r: Option<(Token, string)>)
    ensures r.Some? ==> |r.value.1| < |s|
  {
    match TermEnd(s)
    case None => None
    case Some(n) => Some((Term(s[..n]), s[n..]))
  }

  /** The token at the start of a text. Prefixed names, numbers and the other tokens of the language are not read. */
  function ReadToken(s: string): (r: Option<(Token, string)>)
    requires s != []
    ensures r.Some? ==> |r.value.1| < |s|
  {
    if ReadSign(s).Some? then Some((ReadSign(s).value, s[1..]))
    else if IsAlpha(s[0]) then ReadWords(s)
    else ReadTerm(s)
  }

  function Lex(s: string): Option<seq<Token>>
    decreases |s|
  {
    var t := SkipWhite(s);
    if t == [] then Some([])
    else
      match ReadToken(t)
      case None => None
      case Some((first, rest)) =>
        match Lex(rest)
        case None => None
        case Some(more) => Some([first] + more)
  }

  /** The updates that a text means, if it is an update of the modelled kinds. */
  function ReadUpdate(s: string): Option<seq<Update>> {
    match Lex(s)
    case None => None
    case Some(ts) => ParseUpdate(ts)
  }

  // ---------------------------------------------------------------- printed pieces

  datatype Piece = Gap(white: string) | Sign(token: Token)

  function Spelling(t: Token): string {
    match t
    case InsertData => "INSERT DATA"
    case DropSilentGraph => "DROP SILENT" + " GRAPH"
    case Graph => "GRAPH"
    case LBrace => "{"
    case RBrace => "}"
    case Comma => ","
    case Semicolon => ";"
    case Dot => "."
    case Term(text) => text
  }

  function Spell(ps: seq<Piece>): string {
    if ps == [] then []
    else (match ps[0] case Gap(white) => white case Sign(t) => Spelling(t)) + Spell(ps[1..])
  }

  function Tokens(ps: seq<Piece>): seq<Token> {
    if ps == [] then []
    else (match ps[0] case Gap(_) => [] case Sign(t) => [t]) + Tokens(ps[1..])
  }

  lemma {:induction false} SpellConcat(a: seq<Piece>, b: seq<Piece>)
    ensures Spell(a + b) == Spell(a) + Spell(b)
    ensures Tokens(a + b) == Tokens(a) + Tokens(b)
  {
    hide Spelling;
    if a == [] {
      assert a + b == b;
    } else {
      assert (a + b)[1..] == a[1..] + b;
      SpellConcat(a[1..], b);
    }
  }

  predicate IsGap(p: Piece) {
    p.Gap? && forall k :: 0 <= k < |p.white| ==> IsBlank(p.white[k])
  }

  /** A blank or an IRI. */
  predicate Parts(p: Piece) {
    (IsGap(p) && p.white != "") || (p.Sign? && p.token.Term? && "<" <= p.token.text)
  }

  /** `p` may stand before `q`: words, terms and dots need a blank or an IRI after them, and terms may also stand
      before a sign. */
  predicate Fits(p: Piece, q: Piece) {
    match p
    case Gap(_) => IsGap(p)
    case Sign(t) =>
      || Parts(q)
      || t in {LBrace, RBrace, Comma, Semicolon}
      || (t.Term? && q.Sign? && q.token in {LBrace, RBrace, Comma, Semicolon})
  }

  ghost predicate Spaced(ps: seq<Piece>) {
    && (forall i :: 0 <= i < |ps| - 1 ==> Fits(ps[i], ps[i + 1]))
    && (ps != [] && ps[|ps| - 1].Gap? ==> IsGap(ps[|ps| - 1]))
  }

  lemma SpacedConcat(a: seq<Piece>, b: seq<Piece>)
    requires Spaced(a) && Spaced(b)
    requires a != [] && b != [] ==> Fits(a[|a| - 1], b[0])
    ensures Spaced(a + b)
  {
    hide Fits, IsGap;
    if a == [] {
      assert a + b == b;
    } else if b == [] {
      assert a + b == a;
    }
  }

  /** Every term among the tokens is one term of the language. */
  ghost predicate Whole(ts: seq<Token>) {
    forall i :: 0 <= i < |ts| && ts[i].Term? ==> OneTerm(ts[i].text)
  }

  // ---------------------------------------------------------------- reading what was printed

  lemma {:induction false} SkipGap(white: string, s: string)
    requires forall k :: 0 <= k < |white| ==> IsBlank(white[k])
    ensures SkipWhite(white + s) == SkipWhite(s)
  {
    if white == [] {
      assert white + s == s;
    } else {
      assert (white + s)[1..] == white[1..] + s;
      SkipGap(white[1..], s);
    }
  }

  lemma LexSkips(a: string, b: string)
    requires SkipWhite(a) == SkipWhite(b)
    ensures Lex(a) == Lex(b)
  {
    hide ReadToken;
  }

  predicate EndsWord(rest: string) {
    rest == "" || IsBlank(rest[0]) || rest[0] == '<'
  }

  /** What stands after a piece that is followed by `ps[1..]`. */
  lemma SpacedTail(ps: seq<Piece>)
    requires Spaced(ps) && ps != []
    ensures Spaced(ps[1..])
    ensures ps[0].Gap? ==> IsGap(ps[0])
    ensures ps[0].Sign? && ps[0].token.Term? ==> Stops(Spell(ps[1..]))
    ensures ps[0].Sign? && ps[0].token in {InsertData, DropSilentGraph, Graph, Dot} ==>
              EndsWord(Spell(ps[1..]))
  {
    if |ps| > 1 {
      assert Fits(ps[0], ps[1]);
      assert ps[1..][0] == ps[1];
      assert forall i :: 0 <= i < |ps| - 1 ==> ps[1..][i] == ps[i + 1];
    }
  }

  lemma WordReads(word: string, rest: string)
    requires forall k :: 0 <= k < |word| ==> Upper(word[k]) == word[k]
    requires EndsWord(rest)
    ensures StartsWithWord(word + rest, word)
  {
    assert rest != "" ==> (word + rest)[|word|] == rest[0];
  }

  lemma SkipNothing(s: string)
    requires s != [] && !IsBlank(s[0]) && s[0] != '#'
    ensures SkipWhite(s) == s && SkipWhite(" " + s) == s
  {
    SkipGap(" ", s);
  }

  lemma GraphReads(rest: string)
    requires EndsWord(rest)
    ensures ReadToken("GRAPH" + rest) == Some((Graph, rest))
  {
    WordReads("GRAPH", rest);
    assert ("GRAPH" + rest)[5..] == rest;
  }

  lemma InsertDataReads(rest: string)
    requires EndsWord(rest)
    ensures ReadToken("INSERT DATA" + rest) == Some((InsertData, rest))
  {
    var s := "INSERT DATA" + rest;
    var t := "DATA" + rest;
    assert s == "INSERT" + (" " + t);
    WordReads("INSERT", " " + t);
    assert s[6..] == " " + t;
    SkipNothing(t);
    WordReads("DATA", rest);
    assert t[4..] == rest;
  }

  lemma DropReads(rest: string)
    requires EndsWord(rest)
    ensures ReadToken("DROP SILENT" + " GRAPH" + rest) == Some((DropSilentGraph, rest))
  {
    var s := "DROP SILENT" + " GRAPH" + rest;
    var u := "GRAPH" + rest;
    var t := "SILENT" + (" " + u);
    assert s == "DROP" + (" " + t);
    WordReads("DROP", " " + t);
    assert s[4..] == " " + t;
    SkipNothing(t);
    WordReads("SILENT", " " + u);
    assert t[6..] == " " + u;
    SkipNothing(u);
    WordReads("GRAPH", rest);
    assert u[5..] == rest;
  }

  /** A token that is not a term is read back, whatever the text after it. */
  lemma SignReads(t: Token, rest: string)
    requires !t.Term?
    requires t in {InsertData, DropSilentGraph, Graph, Dot} ==> EndsWord(rest)
    ensures Spelling(t) + rest != [] && !IsBlank((Spelling(t) + rest)[0]) && (Spelling(t) + rest)[0] != '#'
    ensures ReadToken(Spelling(t) + rest) == Some((t, rest))
  {
    hide ReadWords, ReadTerm;
    match t {
      case InsertData => InsertDataReads(rest);
      case DropSilentGraph => DropReads(rest);
      case Graph => GraphReads(rest);
      case LBrace | RBrace | Comma | Semicolon | Dot => assert (Spelling(t) + rest)[1..] == rest;
      case Term(_) =>
    }
  }

  /** A term that is read is one term. */
  lemma TokenIsWhole(s: string)
    requires s != [] && ReadToken(s).Some? && ReadToken(s).value.0.Term?
    ensures OneTerm(ReadToken(s).value.0.text)
  {
    hide TermEnd;
    assert ReadToken(s) == ReadTerm(s);
    var n := TermEnd(s).value;
    assert s == s[..n] + s[n..];
    TermLocal(s[..n], s[n..]);
  }

  lemma {:induction false} LexIsWhole(s: string)
    requires Lex(s).Some?
    ensures Whole(Lex(s).value)
    decreases |s|
  {
    hide ReadToken, OneTerm;
    var t := SkipWhite(s);
    if t != [] {
      if ReadToken(t).value.0.Term? {
        TokenIsWhole(t);
      }
      LexIsWhole(ReadToken(t).value.1);
    }
  }

  /** A term at the start of a text is read as that term. */
  lemma TermReads(t: string, rest: string)
    requires OneTerm(t) && Stops(rest)
    ensures t + rest != [] && !IsBlank((t + rest)[0]) && (t + rest)[0] != '#'
    ensures ReadToken(t + rest) == Some((Term(t), rest))
  {
    hide ReadWords;
    TermLocal(t, rest);
    assert (t + rest)[0] == t[0] && t[0] in "<_\"";
    assert (t + rest)[..|t|] == t && (t + rest)[|t|..] == rest;
  }

  /** Before what cannot continue a term, a text is read as a term if and only if it is one. */
  lemma ReadsAsTerm(t: string, rest: string)
    requires Stops(rest) && t != []
    ensures ReadToken(t + rest) == Some((Term(t), rest)) <==> OneTerm(t)
  {
    hide ReadToken, OneTerm;
    if ReadToken(t + rest) == Some((Term(t), rest)) {
      TokenIsWhole(t + rest);
    }
    if OneTerm(t) {
      TermReads(t, rest);
    }
  }

  /** The tokens of a printed text are read back. */
  lemma {:induction false} LexPieces(ps: seq<Piece>)
    requires Spaced(ps) && Whole(Tokens(ps))
    ensures Lex(Spell(ps)) == Some(Tokens(ps))
  {
    hide ReadToken, Spelling, OneTerm, IsBlank;
    if ps != [] {
      var rest := Spell(ps[1..]);
      SpacedTail(ps);
      WholeTail(ps);
      LexPieces(ps[1..]);
      match ps[0] {
        case Gap(white) =>
          SkipGap(white, rest);
          LexSkips(white + rest, rest);
          assert Tokens(ps) == [] + Tokens(ps[1..]) == Tokens(ps[1..]);
        case Sign(t) =>
          if t.Term? {
            TermSpelling(t);
            TermReads(t.text, rest);
          } else {
            SignReads(t, rest);
          }
          SkipNothing(Spell(ps));
      }
    }
  }

  lemma WholeTail(ps: seq<Piece>)
    requires Whole(Tokens(ps)) && ps != []
    ensures Whole(Tokens(ps[1..]))
    ensures ps[0].Sign? && ps[0].token.Term? ==> OneTerm(ps[0].token.text)
  {
    hide OneTerm;
    var ts, rest := Tokens(ps), Tokens(ps[1..]);
    var first := if ps[0].Gap? then [] else [ps[0].token];
    assert ts == first + rest;
    assert forall i :: 0 <= i < |rest| ==> rest[i] == ts[i + |first|];
    assert first != [] ==> ts[0] == first[0];
  }

  lemma TermSpelling(t: Token)
    requires t.Term?
    ensures Spelling(t) == t.text
  {
  }

  /** The tokens of a printed text are read back if and only if each of its terms is one term. */
  lemma LexIff(ps: seq<Piece>)
    requires Spaced(ps)
    ensures Lex(Spell(ps)) == Some(Tokens(ps)) <==> Whole(Tokens(ps))
  {
    hide Lex, Whole, Spaced;
    if Lex(Spell(ps)).Some? {
      LexIsWhole(Spell(ps));
    }
    if Whole(Tokens(ps)) {
      LexPieces(ps);
    }
  }

  // ---------------------------------------------------------------- what is read is made of terms

  predicate WholeQuad(q: Quad) {
    (q.graph == DEFAULT_GRAPH || OneTerm(q.graph)) && OneTerm(q.subject) && OneTerm(q.verb) && OneTerm(q.obj)
  }

  /** Each term of an update is one term of the language. */
  predicate WholeUpdate(u: Update) {
    match u
    case Drop(g) => OneTerm(g)
    case Insert(q) => WholeQuad(q)
  }

  ghost predicate AllWhole(us: seq<Update>) {
    forall i :: 0 <= i < |us| ==> WholeUpdate(us[i])
  }

  /** What a production reads from whole tokens is whole, and so is what it leaves. */
  ghost predicate ReadsWhole(r: Parsed<seq<Update>>) {
    r.Read? ==> AllWhole(r.value) && Whole(r.rest)
  }

  ghost predicate WholeGraph(g: string) {
    g == DEFAULT_GRAPH || OneTerm(g)
  }

  lemma WholeFrom(ts: seq<Token>, n: nat)
    requires Whole(ts) && n <= |ts|
    ensures Whole(ts[n..])
  {
    hide OneTerm;
    assert forall i :: 0 <= i < |ts| - n ==> ts[n..][i] == ts[i + n];
  }

  lemma {:induction false} ObjectsWhole(ts: seq<Token>, g: string, s: string, p: string)
    requires Whole(ts) && WholeGraph(g) && OneTerm(s) && OneTerm(p)
    ensures ReadsWhole(ObjectList(ts, g, s, p))
    decreases |ts|
  {
    hide OneTerm;
    if StartsWithTerm(ts) {
      WholeFrom(ts, 1);
      if StartsWith(ts[1..], Comma) {
        WholeFrom(ts, 2);
        ObjectsWhole(ts[2..], g, s, p);
      }
    }
  }

  lemma {:induction false} PropertyTailWhole(ts: seq<Token>, g: string, s: string)
    requires Whole(ts) && WholeGraph(g) && OneTerm(s)
    ensures ReadsWhole(PropertyTail(ts, g, s))
    decreases |ts|, 0
  {
    hide OneTerm;
    if StartsWith(ts, Semicolon) {
      WholeFrom(ts, 1);
      if StartsWithTerm(ts[1..]) {
        PropertiesWhole(ts[1..], g, s);
      } else {
        PropertyTailWhole(ts[1..], g, s);
      }
    }
  }

  lemma {:induction false} PropertiesWhole(ts: seq<Token>, g: string, s: string)
    requires Whole(ts) && WholeGraph(g) && OneTerm(s)
    ensures ReadsWhole(PropertyList(ts, g, s))
    decreases |ts|, 1
  {
    hide OneTerm, ObjectList;
    if StartsWithTerm(ts) {
      WholeFrom(ts, 1);
      ObjectsWhole(ts[1..], g, s, ts[0].text);
      var objects := ObjectList(ts[1..], g, s, ts[0].text);
      if objects.Read? {
        PropertyTailWhole(objects.rest, g, s);
      }
    }
  }

  lemma {:induction false} TriplesWhole(ts: seq<Token>, g: string)
    requires Whole(ts) && WholeGraph(g)
    ensures ReadsWhole(TriplesTemplate(ts, g)) && ReadsWhole(OptTriplesTemplate(ts, g))
    decreases |ts|
  {
    hide OneTerm, PropertyList;
    if StartsWithTerm(ts) {
      WholeFrom(ts, 1);
      PropertiesWhole(ts[1..], g, ts[0].text);
      var triples := PropertyList(ts[1..], g, ts[0].text);
      if triples.Read? && StartsWith(triples.rest, Dot) {
        WholeFrom(triples.rest, 1);
        if StartsWithTerm(triples.rest[1..]) {
          TriplesWhole(triples.rest[1..], g);
        }
      }
    }
  }

  lemma BlockWhole(ts: seq<Token>)
    requires Whole(ts)
    ensures ReadsWhole(QuadsNotTriples(ts))
  {
    hide OneTerm, OptTriplesTemplate;
    if StartsWith(ts, Graph) && StartsWithTerm(ts[1..]) && StartsWith(ts[2..], LBrace) {
      assert ts[1..][0] == ts[1];
      WholeFrom(ts, 3);
      TriplesWhole(ts[3..], ts[1].text);
      var triples := OptTriplesTemplate(ts[3..], ts[1].text);
      if triples.Read? && triples.rest != [] {
        WholeFrom(triples.rest, 1);
      }
    }
  }

  lemma {:induction false} QuadsTailWhole(ts: seq<Token>)
    requires Whole(ts)
    ensures ReadsWhole(QuadsTail(ts))
    decreases |ts|
  {
    hide OneTerm, OptTriplesTemplate, QuadsNotTriples;
    BlockWhole(ts);
    var block := QuadsNotTriples(ts);
    if StartsWith(ts, Graph) && block.Read? {
      var rest := if StartsWith(block.rest, Dot) then block.rest[1..] else block.rest;
      if block.rest != [] {
        WholeFrom(block.rest, 1);
      }
      TriplesWhole(rest, DEFAULT_GRAPH);
      var triples := OptTriplesTemplate(rest, DEFAULT_GRAPH);
      if triples.Read? {
        QuadsTailWhole(triples.rest);
      }
    }
  }

  lemma UpdateWhole(ts: seq<Token>)
    requires Whole(ts)
    ensures ReadsWhole(Update1(ts))
  {
    hide OneTerm, OptTriplesTemplate, QuadsTail;
    if |ts| >= 2 {
      WholeFrom(ts, 2);
      assert ts[1..][0] == ts[1];
      TriplesWhole(ts[2..], DEFAULT_GRAPH);
      var triples := OptTriplesTemplate(ts[2..], DEFAULT_GRAPH);
      if triples.Read? {
        QuadsTailWhole(triples.rest);
        var quads := Quads(ts[2..]);
        if quads.Read? && quads.rest != [] {
          WholeFrom(quads.rest, 1);
        }
      }
    }
  }

  lemma {:induction false} ParseIsWhole(ts: seq<Token>)
    requires Whole(ts) && ParseUpdate(ts).Some?
    ensures AllWhole(ParseUpdate(ts).value)
    decreases |ts|
  {
    hide Update1, WholeUpdate, OneTerm;
    if ts != [] {
      UpdateWhole(ts);
      var rest := Update1(ts).rest;
      if rest != [] {
        WholeFrom(rest, 1);
        ParseIsWhole(rest[1..]);
      }
    }
  }

  /** Whatever the text, the updates read from it are made of terms. */
  lemma ReadIsWhole(s: string)
    requires ReadUpdate(s).Some?
    ensures AllWhole(ReadUpdate(s).value)
  {
    hide Lex, ParseUpdate, Whole, AllWhole;
    LexIsWhole(s);
    ParseIsWhole(Lex(s).value);
  }

  /** Whether the text is read as the updates that its tokens mean depends on the terms of these updates alone. */
  lemma ReadIff(ps: seq<Piece>, us: seq<Update>)
    requires Spaced(ps) && ParseUpdate(Tokens(ps)) == Some(us)
    requires AllWhole(us) ==> Whole(Tokens(ps))
    ensures ReadUpdate(Spell(ps)) == Some(us) <==> AllWhole(us)
  {
    hide Lex, ParseUpdate, Whole, AllWhole, Spaced;
    LexIff(ps);
    if ReadUpdate(Spell(ps)) == Some(us) {
      ReadIsWhole(Spell(ps));
    }
  }
}
