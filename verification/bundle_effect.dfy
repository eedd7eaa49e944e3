/** What executing the text of a bundle's update does to a store of quads (server2/bundle.go:118-124, 182-268). */
module BundleEffect {
  import opened Options
  import opened SparqlTerms
  import opened SparqlUpdate
  import opened SparqlText
  import opened NQuads
  import opened BundleModel
  import opened SparqlDenote
  import opened BundleMeaning
  import opened BundleStatements

  lemma AcceptedStep(b: Base, sts: seq<Statement>, n: nat)
    requires n < |sts|
    ensures AcceptedGraphs(b, sts[..n + 1]) == AcceptedGraphs(b, sts[..n]) +
            if Accepted(b, sts[n]).Some? then {GraphText(b, Accepted(b, sts[n]).value)} else {}
  {
    var a, c := sts[..n], sts[..n + 1];
    assert forall k :: 0 <= k < n ==> a[k] == c[k];
    assert c[n] == sts[n];
  }

  lemma InsertedStep(b: Base, sts: seq<Statement>, n: nat)
    requires n < |sts|
    ensures InsertedQuads(b, sts[..n + 1]) == InsertedQuads(b, sts[..n]) +
            if Inserted(b, sts, n) then {QuadOf(b, sts, n)} else {}
  {
    var a, c := sts[..n], sts[..n + 1];
    assert forall k :: 0 <= k <= n ==> c[..k] == sts[..k];
    assert forall k :: 0 <= k < n ==> a[..k] == sts[..k] && a[k] == c[k] == sts[k];
    assert c[n] == sts[n];
    forall k | 0 <= k <= n
      ensures Inserted(b, c, k) == Inserted(b, sts, k)
      ensures Inserted(b, c, k) ==> QuadOf(b, c, k) == QuadOf(b, sts, k)
    {
    }
    forall k | 0 <= k < n
      ensures Inserted(b, a, k) == Inserted(b, sts, k)
      ensures Inserted(b, a, k) ==> QuadOf(b, a, k) == QuadOf(b, sts, k)
    {
    }
  }

  /** The quads outside some graphs. */
  ghost function Outside(store: set<Quad>, graphs: set<string>): set<Quad> {
    set q | q in store && q.graph !in graphs
  }

  lemma DropOutside(store: set<Quad>, graphs: set<string>, g: string)
    ensures Apply(Outside(store, graphs), Drop(g)) == Outside(store, graphs + {g})
  {
  }

  lemma {:induction false} DropsEffect(b: Base, sts: seq<Statement>, n: nat, store: set<Quad>)
    requires n <= |sts|
    ensures ApplyAll(store, Drops(b, sts, n)) == Outside(store, AcceptedGraphs(b, sts[..n]))
  {
    if n > 0 {
      hide GraphText, Accepted, AcceptedGraphs, Outside, ApplyAll, Apply;
      var graphs, before := AcceptedGraphs(b, sts[..n - 1]), ApplyAll(store, Drops(b, sts, n - 1));
      DropsEffect(b, sts, n - 1, store);
      AcceptedStep(b, sts, n - 1);
      ApplyAllConcat(store, Drops(b, sts, n - 1), DropsOf(b, sts[n - 1]));
      ApplyOne(before, DropsOf(b, sts[n - 1]));
      if Accepted(b, sts[n - 1]).Some? {
        DropOutside(store, graphs, GraphText(b, Accepted(b, sts[n - 1]).value));
      } else {
        assert graphs + {} == graphs;
      }
    } else {
      assert AcceptedGraphs(b, sts[..0]) == {};
    }
  }

  lemma ApplyOne(store: set<Quad>, us: seq<Update>)
    requires |us| <= 1
    ensures ApplyAll(store, us) == if us == [] then store else Apply(store, us[0])
  {
  }

  lemma {:induction false} InsertsEffect(b: Base, sts: seq<Statement>, n: nat, store: set<Quad>)
    requires n <= |sts|
    ensures ApplyAll(store, Inserts(b, sts, n)) == store + InsertedQuads(b, sts[..n])
  {
    if n > 0 {
      InsertsEffect(b, sts, n - 1, store);
      InsertedStep(b, sts, n - 1);
      ApplyAllConcat(store, Inserts(b, sts, n - 1), InsertsOf(b, sts, n - 1));
      ApplyOne(ApplyAll(store, Inserts(b, sts, n - 1)), InsertsOf(b, sts, n - 1));
    }
  }

  /** The old quads outside the accepted graphs, and the translated quads that followed their graph's declaration. */
  ghost function Replaced(b: Base, sts: seq<Statement>, store: set<Quad>): set<Quad> {
    Outside(store, AcceptedGraphs(b, sts)) + InsertedQuads(b, sts)
  }

  /** The updates that the statements stand for replace the accepted graphs, and nothing else. */
  lemma MeantReplaces(b: Base, sts: seq<Statement>, store: set<Quad>)
    ensures ApplyAll(store, Meant(b, sts)) == Replaced(b, sts, store)
  {
    assert sts[..|sts|] == sts;
    DropsEffect(b, sts, |sts|, store);
    ApplyAllConcat(store, Drops(b, sts, |sts|), Inserts(b, sts, |sts|));
    InsertsEffect(b, sts, |sts|, ApplyAll(store, Drops(b, sts, |sts|)));
  }

  /** The store after a text was executed, if the text is an update of the modelled kinds. */
  function Execute(store: set<Quad>, text: string): Option<set<Quad>> {
    match ReadUpdate(text)
    case None => None
    case Some(us) => Some(ApplyAll(store, us))
  }

  lemma {:induction false} ForeignQuadStays(store: set<Quad>, us: seq<Update>, q: Quad)
    requires AllWhole(us) && !WholeQuad(q)
    ensures q !in store ==> q !in ApplyAll(store, us)
    ensures q in store && !WholeGraph(q.graph) ==> q in ApplyAll(store, us)
    decreases |us|
  {
    hide OneTerm;
    if us != [] {
      assert WholeUpdate(us[0]);
      ForeignQuadStays(Apply(store, us[0]), us[1..], q);
    }
  }

  /** A declared URL is not one term: a quad of that graph stays, where it should be dropped. */
  lemma DropFails(b: Base, sts: seq<Statement>, i: nat, store: set<Quad>)
    requires i < |sts| && Accepted(b, sts[i]).Some? && !UrlOk(b, Accepted(b, sts[i]).value)
    requires store == {Quad(GraphText(b, Accepted(b, sts[i]).value), "", "", "")}
    ensures Execute(store, BundleText(b, sts)) != Some(Replaced(b, sts, store))
  {
    hide ReadUpdate, BundleText, OneTerm, Accepted, GraphText, UrlOk, ApplyAll, WholeQuad;
    var q := Quad(GraphText(b, Accepted(b, sts[i]).value), "", "", "");
    var text := BundleText(b, sts);
    UrlIsOk(b, Accepted(b, sts[i]).value);
    EmptyIsForeign(q);
    TermsAreText(b, Accepted(b, sts[i]).value, sts[i]);
    if ReadUpdate(text).Some? {
      ReadIsWhole(text);
      ForeignQuadStays(store, ReadUpdate(text).value, q);
    }
    assert q.graph in AcceptedGraphs(b, sts);
    NoEmptySubject(b, sts, q);
  }

  lemma EmptyIsForeign(q: Quad)
    requires q.subject == ""
    ensures !WholeQuad(q)
  {
  }

  lemma NoEmptySubject(b: Base, sts: seq<Statement>, q: Quad)
    requires q.subject == ""
    ensures q !in InsertedQuads(b, sts)
  {
    hide GraphUrl, GraphText, IriText, ObjectText, SubjectText;
    forall i | 0 <= i < |sts| && Inserted(b, sts, i)
      ensures QuadOf(b, sts, i).subject != ""
    {
      TextsAreNotEmpty(b, sts[i].subject);
    }
  }

  /** A term of an inserted quad is not one term: the quad is not inserted into the empty store. */
  lemma InsertFails(b: Base, sts: seq<Statement>, i: nat)
    requires i < |sts| && Inserted(b, sts, i) && !WholeQuad(QuadOf(b, sts, i))
    ensures Execute({}, BundleText(b, sts)) != Some(Replaced(b, sts, {}))
  {
    hide ReadUpdate, BundleText, OneTerm, ApplyAll, WholeQuad, QuadOf, Inserted;
    var text := BundleText(b, sts);
    if ReadUpdate(text).Some? {
      ReadIsWhole(text);
      ForeignQuadStays({}, ReadUpdate(text).value, QuadOf(b, sts, i));
    }
    assert QuadOf(b, sts, i) in InsertedQuads(b, sts);
  }

  /** When a printed term is not one term of the language, some store is not changed as it should be. */
  lemma IllFormedDiffers(b: Base, sts: seq<Statement>) returns (store: set<Quad>)
    requires !WellFormed(b, sts)
    ensures Execute(store, BundleText(b, sts)) != Some(Replaced(b, sts, store))
  {
    hide Execute, BundleText, Replaced, Accepted, Inserted, UrlOk, QuadOf, NodeOk, IriOk, WholeQuad;
    if i :| 0 <= i < |sts| && Accepted(b, sts[i]).Some? && !UrlOk(b, Accepted(b, sts[i]).value) {
      store := {Quad(GraphText(b, Accepted(b, sts[i]).value), "", "", "")};
      DropFails(b, sts, i, store);
    } else {
      var i :| 0 <= i < |sts| && !StatementOk(b, sts, i);
      store := {};
      InsertWhole(b, sts, i);
      InsertFails(b, sts, i);
    }
  }

  /** Executing the printed characters replaces the accepted graphs, in every store, if and only if every printed term
      is well formed. */
  lemma BundleReplacesGraphs(b: Base, sts: seq<Statement>)
    ensures (forall store :: Execute(store, BundleText(b, sts)) == Some(Replaced(b, sts, store))) <==> WellFormed(b, sts)
  {
    hide ReadUpdate, BundleText, Meant, WellFormed, Replaced;
    BundleTextMeans(b, sts);
    if WellFormed(b, sts) {
      forall store: set<Quad>
        ensures Execute(store, BundleText(b, sts)) == Some(Replaced(b, sts, store))
      {
        MeantReplaces(b, sts, store);
      }
    } else {
      var store := IllFormedDiffers(b, sts);
    }
  }

  // ---------------------------------------------------------------- the effect, said of RDF terms

  /** The store holds a quad of these terms. */
  ghost predicate Holds(store: set<Quad>, d: RdfQuad) {
    exists q :: q in store && QuadDenotes(q) == Some(d)
  }

  lemma AcceptedDenote(b: Base, sts: seq<Statement>, g: string, t: RdfTerm)
    requires WellFormed(b, sts) && Denotes(g) == Some(t)
    ensures g in AcceptedGraphs(b, sts) <==> GraphDeclared(b, sts, t)
  {
    hide Declares, Accepted, Denotes, Encoded, WellFormed, GraphText, DeclaredName;
    if g in AcceptedGraphs(b, sts) {
      var i :| 0 <= i < |sts| && Accepted(b, sts[i]).Some? && g == GraphText(b, Accepted(b, sts[i]).value);
      AcceptedIff(b, sts[i], DeclaredName(sts[i]), Accepted(b, sts[i]).value);
      UrlDenotes(b, sts, i, Accepted(b, sts[i]).value);
    }
    if GraphDeclared(b, sts, t) {
      var i, name, url :| 0 <= i < |sts| && Declares(b, sts[i], name, url) && t == RdfTerm.Iri(Encoded(b.show(url)));
      AcceptedIff(b, sts[i], name, url);
      UrlDenotes(b, sts, i, url);
      IriTextUnique(g, t.iri);
      IriTextUnique(GraphText(b, url), t.iri);
    }
  }

  lemma InsertedDenote(b: Base, sts: seq<Statement>, d: RdfQuad)
    requires WellFormed(b, sts)
    ensures Holds(InsertedQuads(b, sts), d) <==> exists i :: 0 <= i < |sts| && Adds(b, sts, i, d)
  {
    hide QuadDenotes, Adds, Inserted, QuadOf, WellFormed;
    if Holds(InsertedQuads(b, sts), d) {
      var i :| 0 <= i < |sts| && Inserted(b, sts, i) && QuadDenotes(QuadOf(b, sts, i)) == Some(d);
      InsertedAdds(b, sts, i);
    }
    if i :| 0 <= i < |sts| && Adds(b, sts, i, d) {
      AddsInserted(b, sts, i, d);
      assert QuadOf(b, sts, i) in InsertedQuads(b, sts);
    }
  }

  /** Executing the characters of well-formed statements: the store then holds the quads it held outside the declared
      graphs, and the quads that the statements call for, and no others. */
  lemma EffectOnTerms(b: Base, sts: seq<Statement>, store: set<Quad>)
    requires WellFormed(b, sts)
    ensures Execute(store, BundleText(b, sts)).Some?
    ensures forall d :: Holds(Execute(store, BundleText(b, sts)).value, d) <==>
              || (Holds(store, d) && !GraphDeclared(b, sts, d.graph))
              || exists i :: 0 <= i < |sts| && Adds(b, sts, i, d)
  {
    hide QuadDenotes, Adds, WellFormed, GraphDeclared, Execute, BundleText, AcceptedGraphs, InsertedQuads;
    BundleReplacesGraphs(b, sts);
    assert Execute(store, BundleText(b, sts)) == Some(Replaced(b, sts, store));
    var after := Replaced(b, sts, store);
    forall d
      ensures Holds(after, d) <==> (Holds(store, d) && !GraphDeclared(b, sts, d.graph)) || exists i :: 0 <= i < |sts| && Adds(b, sts, i, d)
    {
      InsertedDenote(b, sts, d);
      forall q | QuadDenotes(q) == Some(d)
        ensures q.graph in AcceptedGraphs(b, sts) <==> GraphDeclared(b, sts, d.graph)
      {
        QuadGraph(q, d);
        AcceptedDenote(b, sts, q.graph, d.graph);
      }
      if q :| q in store && QuadDenotes(q) == Some(d) && !GraphDeclared(b, sts, d.graph) {
        assert q in after;
      }
      if q :| q in InsertedQuads(b, sts) && QuadDenotes(q) == Some(d) {
        assert q in after;
      }
    }
  }

  lemma QuadGraph(q: Quad, d: RdfQuad)
    requires QuadDenotes(q) == Some(d)
    ensures Denotes(q.graph) == Some(d.graph)
  {
  }

  /** Every quad that the statements stand for is in an accepted graph. */
  lemma InsertedIntoAccepted(b: Base, sts: seq<Statement>, q: Quad)
    requires q in InsertedQuads(b, sts)
    ensures q.graph in AcceptedGraphs(b, sts)
  {
    var i :| 0 <= i < |sts| && Inserted(b, sts, i) && q == QuadOf(b, sts, i);
    GraphUrlIsAccepted(b, sts[..i], sts[i].graph.value);
    var j :| 0 <= j < |sts[..i]| && Accepted(b, sts[..i][j]) == GraphUrl(b, sts[..i], sts[i].graph.value);
    assert sts[..i][j] == sts[j];
  }

  /** The executed characters of well-formed statements change the accepted graphs only. */
  lemma OnlyAcceptedChange(b: Base, sts: seq<Statement>, store: set<Quad>, q: Quad)
    requires WellFormed(b, sts) && q.graph !in AcceptedGraphs(b, sts)
    ensures Execute(store, BundleText(b, sts)).Some?
    ensures q in Execute(store, BundleText(b, sts)).value <==> q in store
  {
    hide Execute, BundleText, WellFormed, AcceptedGraphs, InsertedQuads;
    BundleReplacesGraphs(b, sts);
    assert Execute(store, BundleText(b, sts)) == Some(Replaced(b, sts, store));
    if q in InsertedQuads(b, sts) {
      InsertedIntoAccepted(b, sts, q);
    }
  }

  /** No graph outside the base URL is touched: every graph that a well-formed update names was resolved under the base. */
  lemma OutsideBaseUntouched(b: Base, sts: seq<Statement>, store: set<Quad>, g: string)
    requires forall u: Url :: Under(b.url, u) ==> GraphText(b, u) != g
    ensures WellFormed(b, sts) ==>
              var after := Execute(store, BundleText(b, sts));
              after.Some? && forall q: Quad :: q.graph == g ==> (q in after.value <==> q in store)
  {
    hide Execute, BundleText, WellFormed;
    if WellFormed(b, sts) {
      forall u ensures IsSubUrl(b.url, u) <==> Under(b.url, u) {
        UnderIff(b.url, u);
      }
      assert g !in AcceptedGraphs(b, sts);
      var after := Execute(store, BundleText(b, sts));
      forall q: Quad | q.graph == g
        ensures after.Some? && (q in after.value <==> q in store)
      {
        OnlyAcceptedChange(b, sts, store, q);
      }
      OnlyAcceptedChange(b, sts, store, Quad(g, "", "", ""));
    }
  }

  /** Every statement is accounted for: it drops a graph, inserts a quad, is logged, or is skipped for its subject. */
  lemma {:induction false} NothingIsLost(b: Base, sts: seq<Statement>, n: nat)
    requires n <= |sts|
    ensures n == |Drops(b, sts, n)| + |Inserts(b, sts, n)| + |Logs(b, sts, n)| + Skipped(b, sts, n)
  {
    if n > 0 {
      NothingIsLost(b, sts, n - 1);
      var st := sts[n - 1];
      assert |DropsOf(b, st)| + |InsertsOf(b, sts, n - 1)| + |LogsOf(b, sts, n - 1)|
             + (if InAcceptedGraph(b, sts, n - 1) && !Inserted(b, sts, n - 1) then 1 else 0) == 1;
    }
  }

  /** What a client of MakeStatements gets, said of the store: the characters of the method's text, read and executed. */
  method Import(b: Base, items: seq<Item>, ghost store: set<Quad>) returns (r: Result<Statements>, ghost after: Option<set<Quad>>)
    ensures r.Ok? <==> FirstError(items).None?
    ensures r.Ok? ==> after == Execute(store, r.value.text)
    ensures r.Ok? && WellFormed(b, StatementsOf(items)) ==> after == Some(Replaced(b, StatementsOf(items), store))
    ensures r.Ok? && WellFormed(b, StatementsOf(items)) ==>
              var sts := StatementsOf(items);
              forall d :: Holds(after.value, d) <==>
                || (Holds(store, d) && !GraphDeclared(b, sts, d.graph))
                || exists i :: 0 <= i < |sts| && Adds(b, sts, i, d)
    ensures r.Err? ==> after == Some(store)
  {
    hide Execute, WellFormed, Replaced, Holds, GraphDeclared, Adds, BundleText;
    r := MakeStatements(b, items);
    after := Some(store);
    if r.Ok? {
      BundleReplacesGraphs(b, StatementsOf(items));
      if WellFormed(b, StatementsOf(items)) {
        EffectOnTerms(b, StatementsOf(items), store);
      }
      after := Execute(store, r.value.text);
    }
  }
}
