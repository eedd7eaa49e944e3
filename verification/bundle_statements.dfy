/** Turning the statements of a bundle into one SPARQL update (server2/bundle.go:160-268). */
module BundleStatements {
  import opened Options
  import opened SparqlUpdate
  import opened SparqlText
  import opened UpdateLayout
  import opened NQuads
  import opened BundleModel
  import opened BundleMeaning
  import I = Inserter

  // ---------------------------------------------------------------- the method

  datatype Item = Item(st: Statement) | ReadError(error: string)

  datatype Result<+T> = Ok(value: T) | Err(error: string)

  datatype Statements = Statements(text: string, wanted: set<string>, logs: seq<Log>)

  /** The statements of the items before the first error. */
  function StatementsOf(items: seq<Item>): seq<Statement> {
    if items == [] || items[0].ReadError? then [] else [items[0].st] + StatementsOf(items[1..])
  }

  /** The first error among the items, if there is one. */
  function FirstError(items: seq<Item>): Option<string> {
    if items == [] then None
    else if items[0].ReadError? then Some(items[0].error)
    else FirstError(items[1..])
  }

  /** The items from the `i`th on, seen from the statements before them. */
  ghost predicate Reading(items: seq<Item>, i: nat, sts: seq<Statement>) {
    && i <= |items| && i <= |sts|
    && sts[i..] == StatementsOf(items[i..])
    && FirstError(items) == FirstError(items[i..])
  }

  lemma ReadingStep(items: seq<Item>, i: nat, sts: seq<Statement>)
    requires Reading(items, i, sts) && i < |items|
    ensures items[i].ReadError? ==> FirstError(items) == Some(items[i].error)
    ensures items[i].Item? ==> i < |sts| && sts[i] == items[i].st && Reading(items, i + 1, sts)
  {
    assert items[i..][1..] == items[i + 1..];
    if items[i].Item? {
      assert sts[i..][0] == items[i].st;
      assert sts[i..][1..] == sts[i + 1..];
    }
  }

  lemma WantedStep(b: Base, sts: seq<Statement>, i: nat)
    requires i < |sts|
    ensures WantedHashes(b, sts[..i + 1]) == WantedHashes(b, sts[..i]) +
            if InAcceptedGraph(b, sts, i) && sts[i].verb == SW_HASH && sts[i].obj.IriNode? then {sts[i].obj.iri} else {}
  {
    var a, c := sts[..i], sts[..i + 1];
    assert forall k :: 0 <= k <= i ==> c[..k] == sts[..k];
    assert forall k :: 0 <= k < i ==> a[..k] == sts[..k] && a[k] == c[k];
    assert c[i] == sts[i];
  }

  /** A table of graph names holds the URL of the last accepted declaration of each name. */
  ghost predicate Tabulates(b: Base, sts: seq<Statement>, table: map<string, Url>) {
    forall name :: GraphUrl(b, sts, name) == if name in table then Some(table[name]) else None
  }

  lemma TableStep(b: Base, sts: seq<Statement>, i: nat, table: map<string, Url>)
    requires i < |sts| && Tabulates(b, sts[..i], table)
    ensures Tabulates(b, sts[..i + 1],
                      if Accepted(b, sts[i]).Some? then table[DeclaredName(sts[i]) := Accepted(b, sts[i]).value] else table)
  {
    var c := sts[..i + 1];
    assert c[..i] == sts[..i] && c[|c| - 1] == sts[i] && |c| - 1 == i;
    forall name
      ensures GraphUrl(b, c, name) == if Accepted(b, sts[i]).Some? && DeclaredName(sts[i]) == name then Accepted(b, sts[i])
                                      else GraphUrl(b, sts[..i], name)
    {
    }
  }

  /** The statement declares a graph: the declaration is accepted or logged. */
  method Declare(b: Base, st: Statement, graphsRelUri: map<string, Url>, drop: I.Inserter, ghost sts: seq<Statement>, ghost i: nat)
      returns (graphs: map<string, Url>, logs: seq<Log>)
    requires i < |sts| && sts[i] == st && IsDeclaration(st) && drop.Valid()
    modifies drop
    ensures drop.Valid() && drop.calls == old(drop.calls) + DropsOf(b, st)
    ensures logs == LogsOf(b, sts, i) && InsertsOf(b, sts, i) == []
    ensures graphs == if Accepted(b, st).Some? then graphsRelUri[DeclaredName(st) := Accepted(b, st).value] else graphsRelUri
  {
    graphs, logs := graphsRelUri, [];
    var graphUri := b.resolve(RelativeUri(st));
    if graphUri.None? {
      logs := [Unparsable(st)];
    } else if !IsSubUrl(b.url, graphUri.value) {
      logs := [OutsideBase(st)];
    } else {
      graphs := graphsRelUri[DeclaredName(st) := graphUri.value];
      drop.DeleteGraph(GraphText(b, graphUri.value));
    }
  }

  /** The statement is in an accepted graph: it is translated and inserted, unless its subject is a literal. */
  method InsertStatement(b: Base, st: Statement, graphUri: Url, ins: I.Inserter, ghost sts: seq<Statement>, ghost i: nat)
      returns (hashes: set<string>)
    requires i < |sts| && sts[i] == st && st.graph.Some? && GraphUrl(b, sts[..i], st.graph.value) == Some(graphUri) && ins.Valid()
    modifies ins
    ensures ins.Valid() && ins.calls == old(ins.calls) + InsertsOf(b, sts, i)
    ensures !st.subject.LiteralNode? && WellFormed(b, sts) ==>
              exists q :: ins.calls == old(ins.calls) + [Insert(q)]
                          && QuadDenotes(q).Some? && Adds(b, sts, i, QuadDenotes(q).value)
    ensures LogsOf(b, sts, i) == [] && DropsOf(b, st) == []
    ensures hashes == if st.verb == SW_HASH && st.obj.IriNode? then {st.obj.iri} else {}
  {
    hide QuadDenotes, Adds, WellFormed, IriText, ObjectText, GraphText;
    if !st.subject.LiteralNode? && WellFormed(b, sts) {
      InsertedAdds(b, sts, i);
    }
    hashes := {};
    if st.verb == SW_HASH && st.obj.IriNode? {
      hashes := {st.obj.iri};
    }
    var s := SubjectText(b, st.subject);
    if s.Some? {
      TermsAreText(b, graphUri, st);
      ins.InsertQuad(s.value, IriText(b, st.verb), ObjectText(b, st.obj), GraphText(b, graphUri));
    }
  }

  /** What the variables of the loop hold when the first `i` statements are done. */
  ghost predicate Done(b: Base, sts: seq<Statement>, i: nat, drop: I.Inserter, ins: I.Inserter,
                       graphsRelUri: map<string, Url>, logs: seq<Log>, wanted: set<string>)
    requires i <= |sts|
    reads drop, ins
  {
    && drop.Valid() && ins.Valid() && drop != ins
    && drop.calls == Drops(b, sts, i)
    && ins.calls == Inserts(b, sts, i)
    && logs == Logs(b, sts, i)
    && wanted == WantedHashes(b, sts[..i])
    && Tabulates(b, sts[..i], graphsRelUri)
  }

  method HandleStatement(b: Base, st: Statement, drop: I.Inserter, ins: I.Inserter, graphsRelUri: map<string, Url>,
                         ghost sts: seq<Statement>, ghost i: nat, ghost logs: seq<Log>, ghost wanted: set<string>)
      returns (graphs: map<string, Url>, newLogs: seq<Log>, hashes: set<string>)
    requires i < |sts| && sts[i] == st && Done(b, sts, i, drop, ins, graphsRelUri, logs, wanted)
    modifies drop, ins
    ensures Done(b, sts, i + 1, drop, ins, graphs, logs + newLogs, wanted + hashes)
  {
    graphs, newLogs, hashes := graphsRelUri, [], {};
    WantedStep(b, sts, i);
    TableStep(b, sts, i, graphsRelUri);
    if st.graph.None? && st.verb == SW_RELATIVE_PATH {
      graphs, newLogs := Declare(b, st, graphsRelUri, drop, sts, i);
    } else if st.graph.Some? && st.graph.value in graphsRelUri {
      hashes := InsertStatement(b, st, graphsRelUri[st.graph.value], ins, sts, i);
    } else {
      newLogs := [NotInserted(st)];
    }
  }

  /** The two texts are joined into one update: first the deletions, then the insertions. */
  method JoinTexts(drop: I.Inserter, ins: I.Inserter) returns (text: string)
    requires drop.Valid() && ins.Valid() && drop != ins
    modifies drop, ins
    ensures text == Spell(Joined(old(drop.calls), old(ins.calls)))
  {
    hide Spell, Finished, Layout;
    ghost var drops, inserts := drop.calls, ins.calls;
    var statements := drop.Terminate();
    if statements != "" {
      statements := statements + " ;\n";
    } else {
      statements := statements + "\n";
    }
    var insText := ins.Terminate();
    SpellJoined(drops, inserts);
    text := statements + insText;
  }

  lemma SpellJoined(first: seq<Update>, second: seq<Update>)
    ensures Spell(Joined(first, second)) ==
            (if first == [] then "\n" else Spell(Finished(first)) + " ;\n") + Spell(Finished(second))
  {
    hide Finished, Spell, Spelling;
    var sep := [Gap(" "), Sign(Semicolon), Gap("\n")];
    if first == [] {
      SpellConcat([Gap("\n")], Finished(second));
      I.SpellGap("\n");
    } else {
      SpellConcat(Finished(first) + sep, Finished(second));
      SpellConcat(Finished(first), sep);
      I.SpellSign(" ", Semicolon, "\n");
      I.SemicolonIs();
    }
  }

  lemma NothingDone(b: Base, sts: seq<Statement>)
    ensures Drops(b, sts, 0) == [] && Inserts(b, sts, 0) == [] && Logs(b, sts, 0) == []
    ensures WantedHashes(b, sts[..0]) == {} && Tabulates(b, sts[..0], map[])
  {
  }

  lemma StatementsMean(b: Base, sts: seq<Statement>)
    ensures WellFormed(b, sts) ==> Carries(b, sts, Meant(b, sts))
    ensures forall h :: h in WantedHashes(b, sts) <==> AsksFor(b, sts, h)
    ensures forall log :: log in Logs(b, sts, |sts|) <==> WarnsSome(b, sts, log)
    ensures BundleText(b, sts) == Spell(Joined(Drops(b, sts, |sts|), Inserts(b, sts, |sts|)))
  {
    hide Carries, WellFormed, WantedHashes, AsksFor, Logs, Warns;
    if WellFormed(b, sts) {
      MeantCarries(b, sts);
    }
    forall h ensures h in WantedHashes(b, sts) <==> AsksFor(b, sts, h) {
      WantedIff(b, sts, h);
    }
    forall log ensures log in Logs(b, sts, |sts|) <==> WarnsSome(b, sts, log) {
      LogsAre(b, sts, |sts|, log);
    }
  }

  /** The text drops the accepted graphs, in order, then inserts the translated quads, in order. Read by its characters
      it means exactly that, if and only if every printed term is well formed; the updates are then those that the
      statements call for, whatever their texts. */
  method MakeStatements(b: Base, items: seq<Item>) returns (r: Result<Statements>)
    ensures r.Err? <==> FirstError(items).Some?
    ensures r.Err? ==> r.error == FirstError(items).value
    ensures r.Ok? ==> var sts := StatementsOf(items);
                      && r.value.text == BundleText(b, sts)
                      && (ReadUpdate(r.value.text) == Some(Meant(b, sts)) <==> WellFormed(b, sts))
                      && r.value.wanted == WantedHashes(b, sts)
                      && r.value.logs == Logs(b, sts, |sts|)
    ensures r.Ok? && WellFormed(b, StatementsOf(items)) ==> Carries(b, StatementsOf(items), ReadUpdate(r.value.text).value)
    ensures r.Ok? ==> forall h :: h in r.value.wanted <==> AsksFor(b, StatementsOf(items), h)
    ensures r.Ok? ==> forall log :: log in r.value.logs <==> WarnsSome(b, StatementsOf(items), log)
  {
    hide Carries, WellFormed, AsksFor, WarnsSome, BundleText, ReadUpdate, Meant, Drops, Inserts, Logs, WantedHashes, Tabulates;
    var graphsRelUri: map<string, Url> := map[];
    var drop := new I.Inserter();
    var ins := new I.Inserter();
    var logs: seq<Log> := [];
    var wanted: set<string> := {};
    ghost var sts := StatementsOf(items);
    assert items[0..] == items && sts[0..] == sts;
    NothingDone(b, sts);
    for i := 0 to |items|
      invariant Reading(items, i, sts) && fresh(drop) && fresh(ins)
      invariant Done(b, sts, i, drop, ins, graphsRelUri, logs, wanted)
    {
      ReadingStep(items, i, sts);
      if items[i].ReadError? {
        return Err(items[i].error);
      }
      var newLogs, hashes;
      graphsRelUri, newLogs, hashes := HandleStatement(b, items[i].st, drop, ins, graphsRelUri, sts, i, logs, wanted);
      logs, wanted := logs + newLogs, wanted + hashes;
    }
    assert sts[..|items|] == sts;
    var text := JoinTexts(drop, ins);
    BundleTextMeans(b, sts);
    StatementsMean(b, sts);
    r := Ok(Statements(text, wanted, logs));
  }
}
