/** The part of SPARQL 1.1 Update that a bundle import uses, as a reading of tokens and as an effect on a store.

    The productions are those of section 19.8 of the SPARQL 1.1 Query Language; the effects are those of
    sections 3.1.1 (INSERT DATA) and 3.2.2 (DROP) of SPARQL 1.1 Update. */
module SparqlUpdate {
  import opened Options

  datatype Token =
    | InsertData
    | DropSilentGraph
    | Graph
    | LBrace
    | RBrace
    | Comma
    | Semicolon
    | Dot
    | Term(text: string)

  datatype Quad = Quad(graph: string, subject: string, verb: string, obj: string)

  datatype Update = Drop(graph: string) | Insert(quad: Quad)

  /** Quads in no GRAPH block belong to the default graph. */
  const DEFAULT_GRAPH := ""

  // ---------------------------------------------------------------- the grammar

  datatype Parsed<+T> = Fail | Read(value: T, rest: seq<Token>)

  predicate StartsWith(ts: seq<Token>, t: Token) {
    ts != [] && ts[0] == t
  }

  predicate StartsWithTerm(ts: seq<Token>) {
    ts != [] && ts[0].Term?
  }

  /** ObjectList ::= Object ( ',' Object )* */
  function ObjectList(ts: seq<Token>, g: string, s: string, p: string): (r: Parsed<seq<Update>>)
    ensures r.Read? ==> |r.rest| < |ts|
  {
    if !StartsWithTerm(ts) then Fail
    else
      var first := [Insert(Quad(g, s, p, ts[0].text))];
      if StartsWith(ts[1..], Comma) then
        match ObjectList(ts[2..], g, s, p)
        case Fail => Fail
        case Read(more, rest) => Read(first + more, rest)
      else Read(first, ts[1..])
  }

  /** ( ';' ( Verb ObjectList )? )* */
  function PropertyTail(ts: seq<Token>, g: string, s: string): (r: Parsed<seq<Update>>)
    ensures r.Read? ==> |r.rest| <= |ts|
    decreases |ts|, 0
  {
    if !StartsWith(ts, Semicolon) then Read([], ts)
    else if StartsWithTerm(ts[1..]) then PropertyList(ts[1..], g, s)
    else PropertyTail(ts[1..], g, s)
  }

  /** PropertyListNotEmpty ::= Verb ObjectList ( ';' ( Verb ObjectList )? )* */
  function PropertyList(ts: seq<Token>, g: string, s: string): (r: Parsed<seq<Update>>)
    ensures r.Read? ==> |r.rest| < |ts|
    decreases |ts|, 1
  {
    if !StartsWithTerm(ts) then Fail
    else match ObjectList(ts[1..], g, s, ts[0].text)
      case Fail => Fail
      case Read(objects, rest) =>
        match PropertyTail(rest, g, s)
        case Fail => Fail
        case Read(more, rest') => Read(objects + more, rest')
  }

  /** TriplesTemplate ::= TriplesSameSubject ( '.' TriplesTemplate? )?
      TriplesSameSubject ::= VarOrTerm PropertyListNotEmpty */
  function TriplesTemplate(ts: seq<Token>, g: string): (r: Parsed<seq<Update>>)
    ensures r.Read? ==> |r.rest| < |ts|
    decreases |ts|
  {
    if !StartsWithTerm(ts) then Fail
    else match PropertyList(ts[1..], g, ts[0].text)
      case Fail => Fail
      case Read(triples, rest) =>
        if !StartsWith(rest, Dot) then Read(triples, rest)
        else if !StartsWithTerm(rest[1..]) then Read(triples, rest[1..])
        else match TriplesTemplate(rest[1..], g)
          case Fail => Fail
          case Read(more, rest') => Read(triples + more, rest')
  }

  function OptTriplesTemplate(ts: seq<Token>, g: string): (r: Parsed<seq<Update>>)
    ensures r.Read? ==> |r.rest| <= |ts|
  {
    if StartsWithTerm(ts) then TriplesTemplate(ts, g) else Read([], ts)
  }

  /** QuadsNotTriples ::= 'GRAPH' VarOrIri '{' TriplesTemplate? '}' */
  function QuadsNotTriples(ts: seq<Token>): (r: Parsed<seq<Update>>)
    ensures r.Read? ==> |r.rest| < |ts|
  {
    if !StartsWith(ts, Graph) || !StartsWithTerm(ts[1..]) || !StartsWith(ts[2..], LBrace) then Fail
    else match OptTriplesTemplate(ts[3..], ts[1].text)
      case Fail => Fail
      case Read(triples, rest) => if StartsWith(rest, RBrace) then Read(triples, rest[1..]) else Fail
  }

  /** ( QuadsNotTriples '.'? TriplesTemplate? )* */
  function QuadsTail(ts: seq<Token>): (r: Parsed<seq<Update>>)
    ensures r.Read? ==> |r.rest| <= |ts|
    decreases |ts|
  {
    if !StartsWith(ts, Graph) then Read([], ts)
    else match QuadsNotTriples(ts)
      case Fail => Fail
      case Read(block, rest) =>
        match OptTriplesTemplate(if StartsWith(rest, Dot) then rest[1..] else rest, DEFAULT_GRAPH)
        case Fail => Fail
        case Read(triples, rest') =>
          match QuadsTail(rest')
          case Fail => Fail
          case Read(more, rest'') => Read(block + triples + more, rest'')
  }

  /** Quads ::= TriplesTemplate? ( QuadsNotTriples '.'? TriplesTemplate? )* */
  function Quads(ts: seq<Token>): (r: Parsed<seq<Update>>)
    ensures r.Read? ==> |r.rest| <= |ts|
  {
    match OptTriplesTemplate(ts, DEFAULT_GRAPH)
    case Fail => Fail
    case Read(triples, rest) =>
      match QuadsTail(rest)
      case Fail => Fail
      case Read(more, rest') => Read(triples + more, rest')
  }

  /** Update1, of which only 'DROP SILENT GRAPH' iri and 'INSERT DATA' '{' Quads '}' are modelled. */
  function Update1(ts: seq<Token>): (r: Parsed<seq<Update>>)
    ensures r.Read? ==> |r.rest| < |ts|
  {
    if StartsWith(ts, DropSilentGraph) then
      if StartsWithTerm(ts[1..]) then Read([Drop(ts[1].text)], ts[2..]) else Fail
    else if StartsWith(ts, InsertData) && StartsWith(ts[1..], LBrace) then
      match Quads(ts[2..])
      case Fail => Fail
      case Read(quads, rest) => if StartsWith(rest, RBrace) then Read(quads, rest[1..]) else Fail
    else Fail
  }

  /** Update ::= ( Update1 ( ';' Update )? )?, read to the end of the text. */
  function ParseUpdate(ts: seq<Token>): Option<seq<Update>>
    decreases |ts|
  {
    if ts == [] then Some([])
    else match Update1(ts)
      case Fail => None
      case Read(first, rest) =>
        if rest == [] then Some(first)
        else if rest[0] != Semicolon then None
        else match ParseUpdate(rest[1..])
          case None => None
          case Some(more) => Some(first + more)
  }

  // ---------------------------------------------------------------- the effect on a store

  function Apply(store: set<Quad>, u: Update): set<Quad> {
    match u
    case Drop(g) => set q | q in store && q.graph != g
    case Insert(q) => store + {q}
  }

  function ApplyAll(store: set<Quad>, us: seq<Update>): set<Quad>
    decreases |us|
  {
    if us == [] then store else ApplyAll(Apply(store, us[0]), us[1..])
  }

  lemma {:induction false} ApplyAllConcat(store: set<Quad>, a: seq<Update>, b: seq<Update>)
    ensures ApplyAll(store, a + b) == ApplyAll(ApplyAll(store, a), b)
    decreases |a|
  {
    if a == [] {
      assert a + b == b;
    } else {
      assert (a + b)[1..] == a[1..] + b;
      ApplyAllConcat(Apply(store, a[0]), a[1..], b);
    }
  }

  // ---------------------------------------------------------------- a left-to-right reader

  /** Where a left-to-right reader stands after a prefix of an update. It knows only the token sequences
      that share graphs, subjects and predicates inside GRAPH blocks, and refuses every other one. */
  datatype Place =
    | BeforeUpdate
    | AfterUpdate
    | DropName
    | OpenData
    | InData
    | GraphName
    | OpenGraph(g: string)
    | AtSubject(g: string)
    | AtVerb(g: string, s: string)
    | AtObject(g: string, s: string, p: string)
    | AfterObject(g: string, s: string, p: string)
    | Refused

  function Next(m: Place, t: Token): Place {
    match (m, t)
    case (BeforeUpdate, DropSilentGraph) => DropName
    case (BeforeUpdate, InsertData) => OpenData
    case (AfterUpdate, Semicolon) => BeforeUpdate
    case (DropName, Term(_)) => AfterUpdate
    case (OpenData, LBrace) => InData
    case (InData, Graph) => GraphName
    case (InData, RBrace) => AfterUpdate
    case (GraphName, Term(g)) => OpenGraph(g)
    case (OpenGraph(g), LBrace) => AtSubject(g)
    case (AtSubject(g), Term(s)) => AtVerb(g, s)
    case (AtVerb(g, s), Term(p)) => AtObject(g, s, p)
    case (AtObject(g, s, p), Term(_)) => AfterObject(g, s, p)
    case (AfterObject(g, s, p), Comma) => AtObject(g, s, p)
    case (AfterObject(g, s, p), Semicolon) => AtVerb(g, s)
    case (AfterObject(g, s, p), Dot) => AtSubject(g)
    case (AfterObject(g, s, p), RBrace) => InData
    case _ => Refused
  }

  /** What reading a token adds to the updates read so far. */
  function Said(m: Place, t: Token): seq<Update> {
    match (m, t)
    case (DropName, Term(g)) => [Drop(g)]
    case (AtObject(g, s, p), Term(o)) => [Insert(Quad(g, s, p, o))]
    case _ => []
  }

  function Reach(m: Place, ts: seq<Token>): Place
    decreases |ts|
  {
    if ts == [] then m else Reach(Next(m, ts[0]), ts[1..])
  }

  function Told(m: Place, ts: seq<Token>): seq<Update>
    decreases |ts|
  {
    if ts == [] then [] else Said(m, ts[0]) + Told(Next(m, ts[0]), ts[1..])
  }

  predicate Final(m: Place) {
    m == BeforeUpdate || m == AfterUpdate
  }

  lemma {:induction false} ReachConcat(m: Place, a: seq<Token>, b: seq<Token>)
    ensures Reach(m, a + b) == Reach(Reach(m, a), b)
    ensures Told(m, a + b) == Told(m, a) + Told(Reach(m, a), b)
    decreases |a|
  {
    hide Next, Said;
    if a == [] {
      assert a + b == b;
    } else {
      assert (a + b)[1..] == a[1..] + b;
      ReachConcat(Next(m, a[0]), a[1..], b);
    }
  }

  lemma {:induction false} RefusedStays(ts: seq<Token>)
    ensures Reach(Refused, ts) == Refused
  {
    if ts != [] {
      RefusedStays(ts[1..]);
    }
  }

  /** The reader at `m`, given `ts`, ends a whole text. */
  ghost predicate Finishes(m: Place, ts: seq<Token>) {
    Final(Reach(m, ts))
  }

  /** One step of a reader that finishes. */
  lemma Step(m: Place, ts: seq<Token>)
    requires Finishes(m, ts) && !Final(m)
    ensures ts != [] && Next(m, ts[0]) != Refused && Finishes(Next(m, ts[0]), ts[1..])
    ensures Told(m, ts) == Said(m, ts[0]) + Told(Next(m, ts[0]), ts[1..])
  {
    if ts != [] {
      RefusedStays(ts[1..]);
    }
  }

  /** A production read `ts` as the left-to-right reader does on its way from `m` to `after`. */
  ghost predicate Agrees(m: Place, ts: seq<Token>, r: Parsed<seq<Update>>, after: Place) {
    && r.Read? && Finishes(after, r.rest)
    && Told(m, ts) == r.value + Told(after, r.rest)
  }

  lemma {:induction false} ReadsObjects(ts: seq<Token>, g: string, s: string, p: string)
    requires Finishes(AtObject(g, s, p), ts)
    ensures Agrees(AtObject(g, s, p), ts, ObjectList(ts, g, s, p), AfterObject(g, s, p))
    ensures !StartsWith(ObjectList(ts, g, s, p).rest, Comma)
    decreases |ts|
  {
    Step(AtObject(g, s, p), ts);
    Step(AfterObject(g, s, p), ts[1..]);
    if ts[1] == Comma {
      assert ts[1..][1..] == ts[2..];
      ReadsObjects(ts[2..], g, s, p);
    }
  }

  lemma {:induction false} ReadsPropertyTail(ts: seq<Token>, g: string, s: string, p: string) returns (p': string)
    requires Finishes(AfterObject(g, s, p), ts) && !StartsWith(ts, Comma)
    ensures Agrees(AfterObject(g, s, p), ts, PropertyTail(ts, g, s), AfterObject(g, s, p'))
    ensures StartsWith(PropertyTail(ts, g, s).rest, Dot) || StartsWith(PropertyTail(ts, g, s).rest, RBrace)
    decreases |ts|, 0
  {
    Step(AfterObject(g, s, p), ts);
    if ts[0] == Semicolon {
      Step(AtVerb(g, s), ts[1..]);
      p' := ReadsProperties(ts[1..], g, s);
    } else {
      p' := p;
    }
  }

  lemma {:induction false} ReadsProperties(ts: seq<Token>, g: string, s: string) returns (p: string)
    requires Finishes(AtVerb(g, s), ts)
    ensures Agrees(AtVerb(g, s), ts, PropertyList(ts, g, s), AfterObject(g, s, p))
    ensures StartsWith(PropertyList(ts, g, s).rest, Dot) || StartsWith(PropertyList(ts, g, s).rest, RBrace)
    decreases |ts|, 1
  {
    hide Reach, Told, ObjectList;
    Step(AtVerb(g, s), ts);
    p := ts[0].text;
    ReadsObjects(ts[1..], g, s, p);
    var objects := ObjectList(ts[1..], g, s, p);
    p := ReadsPropertyTail(objects.rest, g, s, p);
  }

  lemma {:induction false} ReadsTriples(ts: seq<Token>, g: string) returns (s: string, p: string)
    requires Finishes(AtSubject(g), ts)
    ensures Agrees(AtSubject(g), ts, TriplesTemplate(ts, g), AfterObject(g, s, p))
    ensures StartsWith(TriplesTemplate(ts, g).rest, RBrace)
    decreases |ts|
  {
    Step(AtSubject(g), ts);
    s := ts[0].text;
    p := ReadsProperties(ts[1..], g, s);
    var triples := PropertyList(ts[1..], g, s);
    if triples.rest[0] == Dot {
      s, p := ReadsMoreTriples(ts, g, s, p, triples.value, triples.rest);
    }
  }

  lemma {:induction false} ReadsMoreTriples(ts: seq<Token>, g: string, s: string, p: string, first: seq<Update>, rest: seq<Token>)
      returns (s': string, p': string)
    requires Finishes(AtSubject(g), ts) && StartsWithTerm(ts) && PropertyList(ts[1..], g, ts[0].text) == Read(first, rest)
    requires Agrees(AtSubject(g), ts, Read(first, rest), AfterObject(g, s, p)) && StartsWith(rest, Dot)
    ensures Agrees(AtSubject(g), ts, TriplesTemplate(ts, g), AfterObject(g, s', p'))
    ensures StartsWith(TriplesTemplate(ts, g).rest, RBrace)
    decreases |ts|, 0
  {
    hide Reach, Told, PropertyList;
    Step(AfterObject(g, s, p), rest);
    var ts' := rest[1..];
    Step(AtSubject(g), ts');
    s', p' := ReadsTriples(ts', g);
    var more := TriplesTemplate(ts', g);
    assert TriplesTemplate(ts, g) == Read(first + more.value, more.rest);
    Regroup(first, more.value, Told(AfterObject(g, s', p'), more.rest));
  }

  lemma Regroup(a: seq<Update>, b: seq<Update>, c: seq<Update>)
    ensures a + (b + c) == (a + b) + c
  {
  }

  lemma ReadsBlockHead(ts: seq<Token>)
    requires Finishes(InData, ts) && StartsWith(ts, Graph)
    ensures |ts| > 3 && ts[1].Term? && ts[2] == LBrace && ts[3].Term?
    ensures Finishes(AtSubject(ts[1].text), ts[3..])
    ensures Told(InData, ts) == Told(AtSubject(ts[1].text), ts[3..])
  {
    Step(InData, ts);
    Step(GraphName, ts[1..]);
    var g := ts[1].text;
    assert ts[1..][1..] == ts[2..];
    Step(OpenGraph(g), ts[2..]);
    assert ts[2..][1..] == ts[3..];
    Step(AtSubject(g), ts[3..]);
  }

  lemma ReadsBlock(ts: seq<Token>)
    requires Finishes(InData, ts) && StartsWith(ts, Graph)
    ensures Agrees(InData, ts, QuadsNotTriples(ts), InData)
  {
    ReadsBlockHead(ts);
    var g := ts[1].text;
    var s, p := ReadsTriples(ts[3..], g);
    var triples := TriplesTemplate(ts[3..], g);
    Step(AfterObject(g, s, p), triples.rest);
    assert QuadsNotTriples(ts) == Read(triples.value, triples.rest[1..]);
  }

  lemma {:induction false} ReadsQuadsTail(ts: seq<Token>)
    requires Finishes(InData, ts)
    ensures Agrees(InData, ts, QuadsTail(ts), InData)
    ensures StartsWith(QuadsTail(ts).rest, RBrace)
    ensures StartsWith(ts, Graph) || StartsWith(ts, RBrace)
    decreases |ts|
  {
    Step(InData, ts);
    if ts[0] == Graph {
      ReadsBlock(ts);
      var block := QuadsNotTriples(ts);
      ReadsQuadsTail(block.rest);
      var more := QuadsTail(block.rest);
      assert block.value + [] == block.value;
      assert QuadsTail(ts) == Read(block.value + [] + more.value, more.rest);
      Regroup(block.value, more.value, Told(InData, more.rest));
    }
  }

  lemma ReadsQuads(ts: seq<Token>)
    requires Finishes(InData, ts)
    ensures Agrees(InData, ts, Quads(ts), InData)
    ensures StartsWith(Quads(ts).rest, RBrace)
  {
    ReadsQuadsTail(ts);
    assert [] + QuadsTail(ts).value == QuadsTail(ts).value;
  }

  lemma ReadsDrop(ts: seq<Token>)
    requires Finishes(BeforeUpdate, ts) && StartsWith(ts, DropSilentGraph)
    ensures Agrees(BeforeUpdate, ts, Update1(ts), AfterUpdate)
  {
    Step(DropName, ts[1..]);
    assert ts[1..][1..] == ts[2..];
  }

  lemma ReadsInsertHead(ts: seq<Token>)
    requires Finishes(BeforeUpdate, ts) && StartsWith(ts, InsertData)
    ensures StartsWith(ts[1..], LBrace) && Finishes(InData, ts[2..])
    ensures Told(BeforeUpdate, ts) == Told(InData, ts[2..])
  {
    Step(OpenData, ts[1..]);
    assert ts[1..][1..] == ts[2..];
  }

  lemma ReadsInsert(ts: seq<Token>)
    requires Finishes(BeforeUpdate, ts) && StartsWith(ts, InsertData)
    ensures Agrees(BeforeUpdate, ts, Update1(ts), AfterUpdate)
  {
    ReadsInsertHead(ts);
    ReadsQuads(ts[2..]);
    ReadsDataEnd(Quads(ts[2..]).rest);
  }

  lemma ReadsDataEnd(ts: seq<Token>)
    requires Finishes(InData, ts) && StartsWith(ts, RBrace)
    ensures Finishes(AfterUpdate, ts[1..]) && Told(InData, ts) == Told(AfterUpdate, ts[1..])
  {
    Step(InData, ts);
  }

  lemma ReadsUpdate1(ts: seq<Token>)
    requires Finishes(BeforeUpdate, ts) && ts != []
    ensures Agrees(BeforeUpdate, ts, Update1(ts), AfterUpdate)
  {
    RefusedStays(ts[1..]);
    if ts[0] == DropSilentGraph {
      ReadsDrop(ts);
    } else {
      ReadsInsert(ts);
    }
  }

  /** What the left-to-right reader tells of a text that it reads to the end is what the grammar says the text means. */
  lemma {:induction false} ReaderIsSound(ts: seq<Token>)
    requires Finishes(BeforeUpdate, ts)
    ensures ParseUpdate(ts) == Some(Told(BeforeUpdate, ts))
    decreases |ts|
  {
    if ts != [] {
      ReadsUpdate1(ts);
      var first := Update1(ts);
      if first.rest == [] {
        assert first.value + [] == first.value;
      } else {
        RefusedStays(first.rest[1..]);
        assert first.rest[0] == Semicolon;
        ReaderIsSound(first.rest[1..]);
        var more := Told(BeforeUpdate, first.rest[1..]);
        assert Told(AfterUpdate, first.rest) == [] + more == more;
        assert ParseUpdate(ts) == Some(first.value + more);
      }
    }
  }
}
