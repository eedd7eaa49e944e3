/** The text of a list of graph deletions and quad insertions: each call prints what it does not share with the call
    before it (server2/bundle.go:271-363). */
module UpdateLayout {
  import opened Options
  import opened SparqlTerms
  import opened SparqlUpdate
  import opened SparqlText

  function Last(us: seq<Update>): Option<Update> {
    if us == [] then None else Some(us[|us| - 1])
  }

  /** The last call left an INSERT DATA open. */
  predicate Inserting(prev: Option<Update>) {
    prev.Some? && prev.value.Insert?
  }

  /** What ends the update in progress. */
  function Closing(prev: Option<Update>): seq<Piece> {
    if Inserting(prev) then [Gap(" "), Sign(RBrace)] + [Gap(" "), Sign(RBrace)] else []
  }

  /** What ends the update in progress and starts another one. */
  function Separator(prev: Option<Update>): seq<Piece> {
    if prev.None? then [] else Closing(prev) + [Gap(" "), Sign(Semicolon), Gap("\n")]
  }

  function DropPieces(g: string): seq<Piece> {
    [Sign(DropSilentGraph), Gap(" ")] + [Sign(Term(g))]
  }

  function OpenDataPieces(): seq<Piece> {
    [Sign(InsertData), Gap(" ")] + [Sign(LBrace), Gap("\n")]
  }

  function OpenGraphPieces(g: string): seq<Piece> {
    [Gap(" "), Sign(Graph), Gap(" ")] + [Sign(Term(g)), Gap(" ")] + [Sign(LBrace), Gap("\n")]
  }

  function SubjectPieces(s: string): seq<Piece> {
    [Gap("  "), Sign(Term(s)), Gap(" ")]
  }

  function VerbPieces(p: string): seq<Piece> {
    [Sign(Term(p)), Gap(" ")]
  }

  /** The verb and the object of a quad. */
  function FromVerb(q: Quad): seq<Piece> {
    VerbPieces(q.verb) + [Sign(Term(q.obj))]
  }

  function FromSubject(q: Quad): seq<Piece> {
    SubjectPieces(q.subject) + FromVerb(q)
  }

  function FromGraph(q: Quad): seq<Piece> {
    OpenGraphPieces(q.graph) + FromSubject(q)
  }

  /** What is printed for a quad after another one of the same INSERT DATA. */
  function AfterQuad(p: Quad, q: Quad): seq<Piece> {
    if p.graph != q.graph then [Gap(" "), Sign(RBrace), Gap("\n")] + FromGraph(q)
    else if p.subject != q.subject then [Gap(" "), Sign(Dot), Gap("\n")] + FromSubject(q)
    else if p.verb != q.verb then [Gap(" "), Sign(Semicolon), Gap("\n   ")] + FromVerb(q)
    else [Sign(Comma), Gap("\n    ")] + [Sign(Term(q.obj))]
  }

  /** What is printed for a call that starts an update. */
  function Start(u: Update): seq<Piece> {
    match u
    case Drop(g) => DropPieces(g)
    case Insert(q) => OpenDataPieces() + FromGraph(q)
  }

  predicate Continues(prev: Option<Update>, u: Update) {
    u.Insert? && Inserting(prev)
  }

  /** What is printed for one call after `prev`. */
  function Added(prev: Option<Update>, u: Update): seq<Piece> {
    if Continues(prev, u) then AfterQuad(prev.value.quad, u.quad) else Separator(prev) + Start(u)
  }

  function Layout(us: seq<Update>): seq<Piece> {
    if us == [] then [] else
      var n := |us| - 1;
      Layout(us[..n]) + Added(Last(us[..n]), us[n])
  }

  function Finished(us: seq<Update>): seq<Piece> {
    Layout(us) + Closing(Last(us))
  }

  // ---------------------------------------------------------------- what the tokens mean

  function PlaceAfter(prev: Option<Update>): Place {
    match prev
    case None => BeforeUpdate
    case Some(Drop(_)) => AfterUpdate
    case Some(Insert(q)) => AfterObject(q.graph, q.subject, q.verb)
  }

  /** The reader goes from `m` to `after` over the pieces and is told `us`. */
  ghost predicate Leads(m: Place, ps: seq<Piece>, after: Place, us: seq<Update>) {
    Reach(m, Tokens(ps)) == after && Told(m, Tokens(ps)) == us
  }

  lemma LeadsOn(m: Place, ps: seq<Piece>, mid: Place, us: seq<Update>, qs: seq<Piece>, after: Place, vs: seq<Update>)
    requires Leads(m, ps, mid, us) && Leads(mid, qs, after, vs)
    ensures Leads(m, ps + qs, after, us + vs)
    ensures us == [] ==> Leads(m, ps + qs, after, vs)
    ensures vs == [] ==> Leads(m, ps + qs, after, us)
  {
    assert us == [] ==> us + vs == vs;
    assert vs == [] ==> us + vs == us;
    SpellConcat(ps, qs);
    ReachConcat(m, Tokens(ps), Tokens(qs));
  }

  lemma SignTokens(before: string, t: Token, after: string)
    ensures Tokens([Sign(t)]) == [t]
    ensures Tokens([Sign(t), Gap(after)]) == [t]
    ensures Tokens([Gap(before), Sign(t)]) == [t]
    ensures Tokens([Gap(before), Sign(t), Gap(after)]) == [t]
  {
    assert [Gap(after)][1..] == [] && [Sign(t)][1..] == [];
    assert Tokens([Gap(after)]) == [];
    assert [Sign(t), Gap(after)][1..] == [Gap(after)];
    assert [Gap(before), Sign(t)][1..] == [Sign(t)];
    assert [Gap(before), Sign(t), Gap(after)][1..] == [Sign(t), Gap(after)];
  }

  /** A sign with white space around it. */
  lemma SignLeads(m: Place, before: string, t: Token, after: string)
    ensures Leads(m, [Sign(t)], Next(m, t), Said(m, t))
    ensures Leads(m, [Sign(t), Gap(after)], Next(m, t), Said(m, t))
    ensures Leads(m, [Gap(before), Sign(t)], Next(m, t), Said(m, t))
    ensures Leads(m, [Gap(before), Sign(t), Gap(after)], Next(m, t), Said(m, t))
  {
    SignTokens(before, t, after);
    assert Told(m, [t]) == Said(m, t) + [] == Said(m, t);
  }

  lemma VerbLeads(g: string, s: string, q: Quad)
    requires q.graph == g && q.subject == s
    ensures Leads(AtVerb(g, s), FromVerb(q), AfterObject(g, s, q.verb), [Insert(q)])
  {
    hide Leads;
    SignLeads(AtVerb(g, s), "", Term(q.verb), " ");
    SignLeads(AtObject(g, s, q.verb), "", Term(q.obj), "");
    LeadsOn(AtVerb(g, s), VerbPieces(q.verb), AtObject(g, s, q.verb), [], [Sign(Term(q.obj))], AfterObject(g, s, q.verb), [Insert(q)]);
  }

  lemma ObjectLeads(q: Quad)
    ensures Leads(AfterObject(q.graph, q.subject, q.verb), [Sign(Comma), Gap("\n    ")] + [Sign(Term(q.obj))],
                  AfterObject(q.graph, q.subject, q.verb), [Insert(q)])
  {
    hide Leads;
    var m, n := AfterObject(q.graph, q.subject, q.verb), AtObject(q.graph, q.subject, q.verb);
    SignLeads(m, "", Comma, "\n    ");
    SignLeads(n, "", Term(q.obj), "");
    LeadsOn(m, [Sign(Comma), Gap("\n    ")], n, [], [Sign(Term(q.obj))], m, [Insert(q)]);
  }

  lemma SubjectLeads(q: Quad)
    ensures Leads(AtSubject(q.graph), FromSubject(q), AfterObject(q.graph, q.subject, q.verb), [Insert(q)])
  {
    hide Leads;
    SignLeads(AtSubject(q.graph), "  ", Term(q.subject), " ");
    VerbLeads(q.graph, q.subject, q);
    LeadsOn(AtSubject(q.graph), SubjectPieces(q.subject), AtVerb(q.graph, q.subject), [],
            FromVerb(q), AfterObject(q.graph, q.subject, q.verb), [Insert(q)]);
  }

  lemma OpenGraphLeads(g: string)
    ensures Leads(InData, OpenGraphPieces(g), AtSubject(g), [])
  {
    hide Leads;
    var ps, qs := [Gap(" "), Sign(Graph), Gap(" ")], [Sign(Term(g)), Gap(" ")];
    SignLeads(InData, " ", Graph, " ");
    SignLeads(GraphName, "", Term(g), " ");
    SignLeads(OpenGraph(g), "", LBrace, "\n");
    LeadsOn(InData, ps, GraphName, [], qs, OpenGraph(g), []);
    LeadsOn(InData, ps + qs, OpenGraph(g), [], [Sign(LBrace), Gap("\n")], AtSubject(g), []);
  }

  lemma GraphLeads(q: Quad)
    ensures Leads(InData, FromGraph(q), AfterObject(q.graph, q.subject, q.verb), [Insert(q)])
  {
    OpenGraphLeads(q.graph);
    SubjectLeads(q);
    LeadsOn(InData, OpenGraphPieces(q.graph), AtSubject(q.graph), [],
            FromSubject(q), AfterObject(q.graph, q.subject, q.verb), [Insert(q)]);
  }

  lemma AfterQuadLeads(p: Quad, q: Quad)
    ensures Leads(AfterObject(p.graph, p.subject, p.verb), AfterQuad(p, q), AfterObject(q.graph, q.subject, q.verb), [Insert(q)])
  {
    hide Leads, FromGraph, FromSubject, FromVerb;
    var m, after := AfterObject(p.graph, p.subject, p.verb), AfterObject(q.graph, q.subject, q.verb);
    if p.graph != q.graph {
      SignLeads(m, " ", RBrace, "\n");
      GraphLeads(q);
      LeadsOn(m, [Gap(" "), Sign(RBrace), Gap("\n")], InData, [], FromGraph(q), after, [Insert(q)]);
    } else if p.subject != q.subject {
      SignLeads(m, " ", Dot, "\n");
      SubjectLeads(q);
      LeadsOn(m, [Gap(" "), Sign(Dot), Gap("\n")], AtSubject(q.graph), [], FromSubject(q), after, [Insert(q)]);
    } else if p.verb != q.verb {
      SignLeads(m, " ", Semicolon, "\n   ");
      VerbLeads(q.graph, q.subject, q);
      LeadsOn(m, [Gap(" "), Sign(Semicolon), Gap("\n   ")], AtVerb(q.graph, q.subject), [], FromVerb(q), after, [Insert(q)]);
    } else {
      ObjectLeads(q);
    }
  }

  lemma ClosingLeads(prev: Option<Update>)
    requires prev.Some?
    ensures Leads(PlaceAfter(prev), Closing(prev), AfterUpdate, [])
  {
    hide Leads;
    if prev.value.Insert? {
      SignLeads(PlaceAfter(prev), " ", RBrace, "");
      SignLeads(InData, " ", RBrace, "");
      LeadsOn(PlaceAfter(prev), [Gap(" "), Sign(RBrace)], InData, [], [Gap(" "), Sign(RBrace)], AfterUpdate, []);
    } else {
      NothingLeads(AfterUpdate);
    }
  }

  lemma NothingLeads(m: Place)
    ensures Leads(m, [], m, [])
  {
  }

  lemma SeparatorLeads(prev: Option<Update>)
    ensures Leads(PlaceAfter(prev), Separator(prev), BeforeUpdate, [])
  {
    hide Leads, Closing;
    if prev.Some? {
      ClosingLeads(prev);
      SignLeads(AfterUpdate, " ", Semicolon, "\n");
      LeadsOn(PlaceAfter(prev), Closing(prev), AfterUpdate, [], [Gap(" "), Sign(Semicolon), Gap("\n")], BeforeUpdate, []);
    } else {
      NothingLeads(BeforeUpdate);
    }
  }

  lemma StartLeads(g: string)
    ensures Leads(BeforeUpdate, DropPieces(g), AfterUpdate, [Drop(g)])
    ensures Leads(BeforeUpdate, OpenDataPieces(), InData, [])
  {
    hide Leads;
    SignLeads(BeforeUpdate, "", DropSilentGraph, " ");
    SignLeads(DropName, "", Term(g), "");
    LeadsOn(BeforeUpdate, [Sign(DropSilentGraph), Gap(" ")], DropName, [], [Sign(Term(g))], AfterUpdate, [Drop(g)]);
    SignLeads(BeforeUpdate, "", InsertData, " ");
    SignLeads(OpenData, "", LBrace, "\n");
    LeadsOn(BeforeUpdate, [Sign(InsertData), Gap(" ")], OpenData, [], [Sign(LBrace), Gap("\n")], InData, []);
  }

  lemma FreshLeads(u: Update)
    ensures Leads(BeforeUpdate, Start(u), PlaceAfter(Some(u)), [u])
  {
    hide Leads, DropPieces, OpenDataPieces, FromGraph;
    match u {
      case Drop(g) => StartLeads(g);
      case Insert(q) =>
        StartLeads(q.graph);
        GraphLeads(q);
        LeadsOn(BeforeUpdate, OpenDataPieces(), InData, [], FromGraph(q), PlaceAfter(Some(u)), [u]);
    }
  }

  lemma AddedLeads(prev: Option<Update>, u: Update)
    ensures Leads(PlaceAfter(prev), Added(prev, u), PlaceAfter(Some(u)), [u])
  {
    hide Leads, Separator, Start, AfterQuad;
    if Continues(prev, u) {
      AfterQuadLeads(prev.value.quad, u.quad);
    } else {
      SeparatorLeads(prev);
      FreshLeads(u);
      LeadsOn(PlaceAfter(prev), Separator(prev), BeforeUpdate, [], Start(u), PlaceAfter(Some(u)), [u]);
    }
  }

  lemma {:induction false} LayoutLeads(us: seq<Update>)
    ensures Leads(BeforeUpdate, Layout(us), PlaceAfter(Last(us)), us)
  {
    hide Leads, Added;
    if us == [] {
      NothingLeads(BeforeUpdate);
    } else {
      var n := |us| - 1;
      LayoutLeads(us[..n]);
      AddedLeads(Last(us[..n]), us[n]);
      LeadsOn(BeforeUpdate, Layout(us[..n]), PlaceAfter(Last(us[..n])), us[..n], Added(Last(us[..n]), us[n]), PlaceAfter(Last(us)), [us[n]]);
      assert us[..n] + [us[n]] == us;
    }
  }

  lemma NoClosing()
    ensures Finished([]) == [] && Layout([]) == []
  {
  }

  /** The finished text is an update that means exactly the calls, in their order. */
  lemma FinishedLeads(us: seq<Update>)
    ensures Leads(BeforeUpdate, Finished(us), if us == [] then BeforeUpdate else AfterUpdate, us)
  {
    hide Leads, Closing;
    LayoutLeads(us);
    if us == [] {
      NoClosing();
    } else {
      ClosingLeads(Last(us));
      LeadsOn(BeforeUpdate, Layout(us), PlaceAfter(Last(us)), us, Closing(Last(us)), AfterUpdate, []);
    }
  }

  lemma FinishedMeans(us: seq<Update>)
    ensures ParseUpdate(Tokens(Finished(us))) == Some(us)
  {
    FinishedLeads(us);
    LeadsParses(Finished(us), if us == [] then BeforeUpdate else AfterUpdate, us);
  }

  // ---------------------------------------------------------------- the white space

  /** Well spaced, from first piece to last, with a term at the end. */
  ghost predicate Run(ps: seq<Piece>) {
    Spaced(ps) && ps != [] && ps[|ps| - 1].Sign? && ps[|ps| - 1].token.Term?
  }

  /** The first piece may follow a term. */
  predicate Opens(ps: seq<Piece>) {
    ps != [] && ((IsGap(ps[0]) && ps[0].white != "") || ps[0] == Sign(Comma))
  }

  lemma RunOn(a: seq<Piece>, b: seq<Piece>)
    requires Spaced(a) && a != [] && Run(b) && Fits(a[|a| - 1], b[0])
    ensures Run(a + b) && (a + b)[0] == a[0]
  {
    hide Fits, IsGap;
    SpacedConcat(a, b);
  }

  lemma QuadRuns(q: Quad)
    ensures Run(FromVerb(q))
    ensures Run(FromSubject(q)) && FromSubject(q)[0] == Gap("  ")
    ensures Run(FromGraph(q)) && FromGraph(q)[0] == Gap(" ")
  {
    hide FromVerb, FromSubject, FromGraph;
    VerbRuns(q);
    SubjectRuns(q);
    GraphRuns(q);
  }

  lemma VerbRuns(q: Quad)
    ensures Run(FromVerb(q)) && FromVerb(q)[0] == Sign(Term(q.verb))
  {
    RunOn(VerbPieces(q.verb), [Sign(Term(q.obj))]);
  }

  lemma SubjectRuns(q: Quad)
    ensures Run(FromSubject(q)) && FromSubject(q)[0] == Gap("  ")
  {
    hide FromVerb;
    VerbRuns(q);
    RunOn(SubjectPieces(q.subject), FromVerb(q));
  }

  lemma OpenGraphSpaced(g: string)
    ensures Spaced(OpenGraphPieces(g)) && OpenGraphPieces(g) != [] && OpenGraphPieces(g)[0] == Gap(" ")
    ensures OpenGraphPieces(g)[|OpenGraphPieces(g)| - 1] == Gap("\n")
  {
    var a, b, c := [Gap(" "), Sign(Graph), Gap(" ")], [Sign(Term(g)), Gap(" ")], [Sign(LBrace), Gap("\n")];
    SpacedConcat(a, b);
    SpacedConcat(a + b, c);
  }

  lemma GraphRuns(q: Quad)
    ensures Run(FromGraph(q)) && FromGraph(q)[0] == Gap(" ")
  {
    hide FromSubject, OpenGraphPieces, Spaced;
    SubjectRuns(q);
    OpenGraphSpaced(q.graph);
    RunOn(OpenGraphPieces(q.graph), FromSubject(q));
  }

  lemma AfterQuadRuns(p: Quad, q: Quad)
    ensures Run(AfterQuad(p, q)) && Opens(AfterQuad(p, q))
  {
    hide FromGraph, FromSubject, FromVerb;
    QuadRuns(q);
    if p.graph != q.graph {
      RunOn([Gap(" "), Sign(RBrace), Gap("\n")], FromGraph(q));
    } else if p.subject != q.subject {
      RunOn([Gap(" "), Sign(Dot), Gap("\n")], FromSubject(q));
    } else if p.verb != q.verb {
      RunOn([Gap(" "), Sign(Semicolon), Gap("\n   ")], FromVerb(q));
    } else {
      RunOn([Sign(Comma), Gap("\n    ")], [Sign(Term(q.obj))]);
    }
  }

  lemma ClosingSpaced(prev: Option<Update>)
    ensures Spaced(Closing(prev))
    ensures Closing(prev) != [] ==> Opens(Closing(prev)) && Closing(prev)[|Closing(prev)| - 1] == Sign(RBrace)
  {
  }

  lemma SeparatorSpaced(prev: Option<Update>)
    ensures Spaced(Separator(prev))
    ensures Separator(prev) != [] ==> Opens(Separator(prev)) && Separator(prev)[|Separator(prev)| - 1] == Gap("\n")
  {
    hide Closing;
    if prev.Some? {
      ClosingSpaced(prev);
      SpacedConcat(Closing(prev), [Gap(" "), Sign(Semicolon), Gap("\n")]);
    }
  }

  lemma StartRuns(u: Update)
    ensures Run(Start(u))
  {
    hide FromGraph;
    match u {
      case Drop(g) => RunOn([Sign(DropSilentGraph), Gap(" ")], [Sign(Term(g))]);
      case Insert(q) =>
        QuadRuns(q);
        SpacedConcat([Sign(InsertData), Gap(" ")], [Sign(LBrace), Gap("\n")]);
        RunOn(OpenDataPieces(), FromGraph(q));
    }
  }

  lemma AddedRuns(prev: Option<Update>, u: Update)
    ensures Run(Added(prev, u)) && (prev.Some? ==> Opens(Added(prev, u)))
  {
    if Continues(prev, u) {
      AfterQuadRuns(prev.value.quad, u.quad);
    } else {
      StartRuns(u);
      SeparatorSpaced(prev);
      if prev.Some? {
        RunOn(Separator(prev), Start(u));
      } else {
        assert Added(prev, u) == Start(u);
      }
    }
  }

  lemma {:induction false} LayoutSpaced(us: seq<Update>)
    ensures Spaced(Layout(us)) && (us != [] ==> Run(Layout(us)))
  {
    hide Added, Opens, IsGap;
    if us != [] {
      var n := |us| - 1;
      var before, last := Layout(us[..n]), Added(Last(us[..n]), us[n]);
      LayoutSpaced(us[..n]);
      AddedRuns(Last(us[..n]), us[n]);
      if n > 0 {
        OpensFits(before, last);
        RunOn(before, last);
      } else {
        assert Layout(us) == last;
      }
    }
  }

  lemma OpensFits(a: seq<Piece>, b: seq<Piece>)
    requires Run(a) && Opens(b)
    ensures Fits(a[|a| - 1], b[0])
  {
  }

  lemma FinishedSpaced(us: seq<Update>)
    ensures Spaced(Finished(us))
    ensures us != [] ==> Finished(us) != [] && Finished(us)[|Finished(us)| - 1].Sign?
    ensures us == [] ==> Finished(us) == []
  {
    hide Closing, Opens, Spaced;
    LayoutSpaced(us);
    ClosingSpaced(Last(us));
    if us == [] {
      NoClosing();
    } else {
      if Closing(Last(us)) != [] {
        OpensFits(Layout(us), Closing(Last(us)));
      }
      SpacedConcat(Layout(us), Closing(Last(us)));
    }
  }

  lemma StartText(u: Update)
    ensures Spell(Start(u)) != ""
  {
    hide FromGraph;
    var ps := Start(u);
    assert ps[0] == Sign(if u.Drop? then DropSilentGraph else InsertData);
  }

  lemma {:induction false} LayoutText(us: seq<Update>)
    ensures Spell(Layout(us)) == "" <==> us == []
  {
    hide Added, Start, Opens;
    if us != [] {
      var n := |us| - 1;
      LayoutText(us[..n]);
      SpellConcat(Layout(us[..n]), Added(Last(us[..n]), us[n]));
      if n == 0 {
        StartText(us[0]);
        assert Added(None, us[0]) == [] + Start(us[0]) == Start(us[0]) by { FirstAdded(us[0]); }
      }
    }
  }

  lemma FirstAdded(u: Update)
    ensures Added(None, u) == Start(u)
  {
  }

  /** The text is empty if and only if there were no calls. */
  lemma TextIsEmpty(us: seq<Update>)
    ensures Spell(Finished(us)) == "" <==> us == []
  {
    hide Layout, Closing;
    LayoutText(us);
    SpellConcat(Layout(us), Closing(Last(us)));
    if us == [] {
      NoClosing();
    }
  }

  // ---------------------------------------------------------------- the terms

  /** The terms that the printer is given are never empty. */
  ghost predicate Printable(u: Update) {
    u.Insert? ==> u.quad.graph != "" && u.quad.subject != "" && u.quad.verb != "" && u.quad.obj != ""
  }

  ghost predicate AllPrintable(us: seq<Update>) {
    forall i :: 0 <= i < |us| ==> Printable(us[i])
  }

  ghost predicate WholePieces(ps: seq<Piece>) {
    forall i :: 0 <= i < |ps| && ps[i].Sign? && ps[i].token.Term? ==> OneTerm(ps[i].token.text)
  }

  lemma {:induction false} WholePiecesTokens(ps: seq<Piece>)
    requires WholePieces(ps)
    ensures Whole(Tokens(ps))
  {
    hide OneTerm;
    if ps != [] {
      WholePiecesTokens(ps[1..]);
    }
  }

  lemma QuadWhole(q: Quad)
    requires WholeQuad(q) && q.graph != DEFAULT_GRAPH
    ensures WholePieces(FromVerb(q)) && WholePieces(FromSubject(q)) && WholePieces(FromGraph(q))
  {
    hide OneTerm;
    assert WholePieces(VerbPieces(q.verb)) && WholePieces(SubjectPieces(q.subject));
    assert WholePieces(OpenGraphPieces(q.graph));
  }

  lemma SeparatorWhole(prev: Option<Update>)
    ensures WholePieces(Separator(prev))
  {
    hide OneTerm;
  }

  lemma StartWhole(u: Update)
    requires WholeUpdate(u) && Printable(u)
    ensures WholePieces(Start(u))
  {
    hide OneTerm, FromVerb, FromSubject, FromGraph;
    if u.Insert? {
      QuadWhole(u.quad);
    }
  }

  lemma AfterQuadWhole(p: Quad, q: Quad)
    requires WholeQuad(q) && q.graph != DEFAULT_GRAPH
    ensures WholePieces(AfterQuad(p, q))
  {
    hide OneTerm, FromVerb, FromSubject, FromGraph;
    QuadWhole(q);
  }

  lemma AddedWhole(prev: Option<Update>, u: Update)
    requires WholeUpdate(u) && Printable(u)
    ensures WholePieces(Added(prev, u))
  {
    hide OneTerm, Separator, Start, AfterQuad;
    if Continues(prev, u) {
      AfterQuadWhole(prev.value.quad, u.quad);
    } else {
      SeparatorWhole(prev);
      StartWhole(u);
    }
  }

  lemma {:induction false} LayoutWhole(us: seq<Update>)
    requires AllWhole(us) && AllPrintable(us)
    ensures WholePieces(Layout(us))
  {
    hide Added, WholeUpdate, Printable, OneTerm;
    if us != [] {
      var n := |us| - 1;
      LayoutWhole(us[..n]);
      AddedWhole(Last(us[..n]), us[n]);
    }
  }

  lemma FinishedWhole(us: seq<Update>)
    requires AllWhole(us) && AllPrintable(us)
    ensures WholePieces(Finished(us))
  {
    hide Layout, OneTerm;
    LayoutWhole(us);
    assert WholePieces(Closing(Last(us)));
  }

  /** The printed characters mean the calls if and only if each term of the calls is one term of the language. */
  lemma TextMeans(us: seq<Update>)
    requires AllPrintable(us)
    ensures ReadUpdate(Spell(Finished(us))) == Some(us) <==> AllWhole(us)
  {
    hide *;
    FinishedMeans(us);
    FinishedSpaced(us);
    if AllWhole(us) {
      FinishedWhole(us);
      WholePiecesTokens(Finished(us));
    }
    ReadIff(Finished(us), us);
  }

  // ---------------------------------------------------------------- two texts joined

  /** Two texts, the second after the first: a semicolon stands between them unless the first is empty. */
  function Joined(first: seq<Update>, second: seq<Update>): seq<Piece> {
    (if first == [] then [Gap("\n")] else Finished(first) + [Gap(" "), Sign(Semicolon), Gap("\n")]) + Finished(second)
  }

  lemma JoinedMeans(first: seq<Update>, second: seq<Update>)
    ensures ParseUpdate(Tokens(Joined(first, second))) == Some(first + second)
  {
    hide Leads, Finished;
    var sep := [Gap(" "), Sign(Semicolon), Gap("\n")];
    FinishedLeads(second);
    var after := if second == [] then BeforeUpdate else AfterUpdate;
    if first == [] {
      GapLeads();
      LeadsOn(BeforeUpdate, [Gap("\n")], BeforeUpdate, [], Finished(second), after, second);
      assert first + second == second;
    } else {
      FinishedLeads(first);
      SignLeads(AfterUpdate, " ", Semicolon, "\n");
      LeadsOn(BeforeUpdate, Finished(first), AfterUpdate, first, sep, BeforeUpdate, []);
      LeadsOn(BeforeUpdate, Finished(first) + sep, BeforeUpdate, first, Finished(second), after, second);
    }
    LeadsParses(Joined(first, second), after, first + second);
  }

  lemma GapLeads()
    ensures Leads(BeforeUpdate, [Gap("\n")], BeforeUpdate, [])
  {
  }

  lemma LeadsParses(ps: seq<Piece>, after: Place, us: seq<Update>)
    requires Leads(BeforeUpdate, ps, after, us) && Final(after)
    ensures ParseUpdate(Tokens(ps)) == Some(us)
  {
    ReaderIsSound(Tokens(ps));
  }

  lemma JoinedSpaced(first: seq<Update>, second: seq<Update>)
    ensures Spaced(Joined(first, second))
  {
    hide Finished;
    FinishedSpaced(first);
    FinishedSpaced(second);
    if first == [] {
      SpacedConcat([Gap("\n")], Finished(second));
    } else {
      var sep := [Gap(" "), Sign(Semicolon), Gap("\n")];
      SpacedConcat(Finished(first), sep);
      SpacedConcat(Finished(first) + sep, Finished(second));
    }
  }

  /** The joined characters mean the calls of the first text and then those of the second, if and only if each term is one term. */
  lemma JoinedTextMeans(first: seq<Update>, second: seq<Update>)
    requires AllPrintable(first) && AllPrintable(second)
    ensures ReadUpdate(Spell(Joined(first, second))) == Some(first + second) <==> AllWhole(first + second)
  {
    hide ReadUpdate, Spaced, ParseUpdate, Whole, Finished, Printable, WholeUpdate, OneTerm;
    JoinedMeans(first, second);
    JoinedSpaced(first, second);
    if AllWhole(first + second) {
      AllWholeParts(first, second);
      FinishedWhole(first);
      FinishedWhole(second);
      WholePiecesTokens(Joined(first, second));
    }
    ReadIff(Joined(first, second), first + second);
  }

  lemma AllWholeParts(a: seq<Update>, b: seq<Update>)
    ensures AllWhole(a + b) <==> AllWhole(a) && AllWhole(b)
  {
    hide WholeUpdate;
    var c := a + b;
    assert forall i :: 0 <= i < |a| ==> c[i] == a[i];
    assert forall i :: 0 <= i < |b| ==> c[|a| + i] == b[i];
  }

  lemma AllWholeOne(u: Update)
    ensures AllWhole([u]) <==> WholeUpdate(u)
  {
    hide WholeUpdate;
    assert [u][0] == u;
  }

  lemma AllWholeNone()
    ensures AllWhole([])
  {
  }
}
