/** The object that prints a sequence of graph deletions and quad insertions as one SPARQL update,
    sharing statements, graphs, subjects and predicates between neighbours (server2/bundle.go:271-363). */
module Inserter {
  import opened Options
  import opened SparqlUpdate
  import opened SparqlText
  import opened UpdateLayout

  class Inserter {
    var statements: string
    var currentStatement: string
    var currentGraph: string
    var currentSubject: string
    var currentPredicate: string
    var inObject: bool

    /** The calls made so far, and the text printed for them as signs and white space. */
    ghost var calls: seq<Update>
    ghost var pieces: seq<Piece>

    /** The fields say exactly which call was the last one. */
    ghost predicate Remembers(prev: Option<Update>)
      reads this
    {
      match prev
      case Some(Insert(q)) =>
        && currentStatement == "DATA" && inObject
        && q.graph != "" && q.subject != "" && q.verb != ""
        && currentGraph == q.graph && currentSubject == q.subject && currentPredicate == q.verb
      case _ =>
        && currentStatement == (if prev.Some? then "DROP" else "")
        && currentGraph == "" && currentSubject == "" && currentPredicate == "" && !inObject
    }

    ghost predicate Valid()
      reads this
    {
      && statements == Spell(pieces) && pieces == Layout(calls)
      && Remembers(Last(calls))
    }

    constructor ()
      ensures Valid() && calls == []
    {
      statements, currentStatement := "", "";
      currentGraph, currentSubject, currentPredicate, inObject := "", "", "", false;
      calls, pieces := [], [];
    }

    method Emit(text: string, ghost ps: seq<Piece>)
      requires statements == Spell(pieces) && text == Spell(ps)
      modifies this`statements, this`pieces
      ensures statements == old(statements) + text == Spell(pieces) && pieces == old(pieces) + ps
    {
      SpellConcat(pieces, ps);
      statements := statements + text;
      pieces := pieces + ps;
    }

    method CloseObject(suffix: string)
      requires statements == Spell(pieces)
      modifies this`statements, this`pieces, this`inObject
      ensures !inObject && statements == Spell(pieces)
      ensures pieces == old(pieces) + if old(inObject) then [Sign(Comma), Gap(suffix)] else []
      ensures statements == old(statements) + if old(inObject) then "," + suffix else ""
    {
      if inObject {
        SpellSign("", Comma, suffix);
        Emit("," + suffix, [Sign(Comma), Gap(suffix)]);
        inObject := false;
      }
    }

    method ClosePredicate(suffix: string)
      requires statements == Spell(pieces)
      modifies this`statements, this`pieces, this`currentPredicate, this`inObject
      ensures currentPredicate == "" && statements == Spell(pieces)
      ensures inObject == (old(inObject) && old(currentPredicate) == "")
      ensures pieces == old(pieces) + if old(currentPredicate) != "" then [Gap(" "), Sign(Semicolon), Gap(suffix)] else []
      ensures statements == old(statements) + if old(currentPredicate) != "" then " ;" + suffix else ""
    {
      if currentPredicate != "" {
        SpellSign(" ", Semicolon, suffix);
        Emit(" ;" + suffix, [Gap(" "), Sign(Semicolon), Gap(suffix)]);
        currentPredicate := "";
        inObject := false;
      }
    }

    method CloseSubject(suffix: string)
      requires statements == Spell(pieces)
      modifies this`statements, this`pieces, this`currentSubject, this`currentPredicate, this`inObject
      ensures currentSubject == "" && statements == Spell(pieces)
      ensures inObject == (old(inObject) && old(currentSubject) == "")
      ensures currentPredicate == if old(currentSubject) != "" then "" else old(currentPredicate)
      ensures pieces == old(pieces) + if old(currentSubject) != "" then [Gap(" "), Sign(Dot), Gap(suffix)] else []
      ensures statements == old(statements) + if old(currentSubject) != "" then " ." + suffix else ""
    {
      if currentSubject != "" {
        SpellSign(" ", Dot, suffix);
        Emit(" ." + suffix, [Gap(" "), Sign(Dot), Gap(suffix)]);
        currentSubject := "";
        currentPredicate := "";
        inObject := false;
      }
    }

    method CloseGraph(suffix: string)
      requires statements == Spell(pieces)
      modifies this`statements, this`pieces, this`currentGraph, this`currentSubject, this`currentPredicate, this`inObject
      ensures currentGraph == "" && statements == Spell(pieces)
      ensures inObject == (old(inObject) && old(currentGraph) == "")
      ensures currentSubject == if old(currentGraph) != "" then "" else old(currentSubject)
      ensures currentPredicate == if old(currentGraph) != "" then "" else old(currentPredicate)
      ensures pieces == old(pieces) + if old(currentGraph) != "" then [Gap(" "), Sign(RBrace)] + Blank(suffix) else []
      ensures statements == old(statements) + if old(currentGraph) != "" then " }" + suffix else ""
    {
      if currentGraph != "" {
        SpellSign(" ", RBrace, suffix);
        Emit(" }" + suffix, [Gap(" "), Sign(RBrace)] + Blank(suffix));
        currentGraph := "";
        currentSubject := "";
        currentPredicate := "";
        inObject := false;
      }
    }

    /** Ends the statement in progress; what follows it, if there is one, is `suffix`. */
    method CloseStatement(suffix: string, ghost tail: seq<Piece>)
      requires Valid() && suffix == Spell(tail)
      modifies this
      ensures calls == old(calls) && statements == Spell(pieces)
      ensures pieces == old(pieces) + if calls == [] then [] else Closing(Last(calls)) + tail
      ensures currentStatement == "" && currentGraph == "" && currentSubject == "" && currentPredicate == "" && !inObject
    {
      hide Spell, Spelling, Layout;
      if currentStatement == "DATA" {
        CloseGraph("");
        SpellSign(" ", RBrace, "");
        BraceIs();
        SpellConcat([Gap(" "), Sign(RBrace)], tail);
        Emit(" }" + suffix, [Gap(" "), Sign(RBrace)] + tail);
        currentStatement := "";
      } else if currentStatement != "" {
        Emit(suffix, tail);
        currentStatement := "";
      }
    }

    /** After any earlier calls, the text is that of the calls and one more: this graph is dropped. */
    method DeleteGraph(graph: string)
      requires Valid()
      modifies this
      ensures Valid()
      ensures calls == old(calls) + [Drop(graph)]
    {
      hide Spell, Spelling, Layout, DropPieces, Closing;
      SpellSign(" ", Semicolon, "\n");
      SemicolonIs();
      CloseStatement(" ;\n", [Gap(" "), Sign(Semicolon), Gap("\n")]);
      SpellDrop(graph);
      Emit("DROP SILENT" + " GRAPH " + graph, DropPieces(graph));
      currentStatement := "DROP";
      LayoutOne(calls, Drop(graph));
      calls := calls + [Drop(graph)];
    }

    method OpenStatement()
      requires Valid()
      modifies this
      ensures calls == old(calls) && statements == Spell(pieces) && currentStatement == "DATA"
      ensures currentGraph == old(currentGraph) && currentSubject == old(currentSubject)
      ensures currentPredicate == old(currentPredicate) && inObject == old(inObject)
      ensures pieces == old(pieces) + if Inserting(Last(calls)) then [] else Separator(Last(calls)) + OpenDataPieces()
    {
      hide Spell, Spelling, Layout, Closing, OpenDataPieces;
      if currentStatement != "DATA" {
        SpellSign(" ", Semicolon, "\n");
        SemicolonIs();
        CloseStatement(" ;\n", [Gap(" "), Sign(Semicolon), Gap("\n")]);
        SpellOpenData();
        Emit("INSERT DATA" + " {\n", OpenDataPieces());
        currentStatement := "DATA";
      }
    }

    method OpenGraph(graph: string)
      requires statements == Spell(pieces) && graph != ""
      requires currentGraph == "" ==> currentSubject == "" && currentPredicate == "" && !inObject
      modifies this`statements, this`pieces, this`currentGraph, this`currentSubject, this`currentPredicate, this`inObject
      ensures statements == Spell(pieces) && currentGraph == graph
      ensures old(currentGraph) == graph ==> unchanged(this)
      ensures old(currentGraph) != graph ==> currentSubject == "" && currentPredicate == "" && !inObject
      ensures old(currentGraph) == "" ==> pieces == old(pieces) + OpenGraphPieces(graph)
      ensures old(currentGraph) !in {"", graph} ==>
                pieces == old(pieces) + [Gap(" "), Sign(RBrace), Gap("\n")] + OpenGraphPieces(graph)
    {
      hide Spell, Spelling, OpenGraphPieces;
      if currentGraph != graph {
        CloseGraph("\n");
        assert [Gap(" "), Sign(RBrace)] + Blank("\n") == [Gap(" "), Sign(RBrace), Gap("\n")];
        SpellOpenGraph(graph);
        Emit(" GRAPH " + graph + " {\n", OpenGraphPieces(graph));
        currentGraph := graph;
      }
    }

    method OpenSubject(subject: string)
      requires statements == Spell(pieces) && subject != ""
      requires currentSubject == "" ==> currentPredicate == "" && !inObject
      modifies this`statements, this`pieces, this`currentSubject, this`currentPredicate, this`inObject
      ensures statements == Spell(pieces) && currentSubject == subject
      ensures old(currentSubject) == subject ==> unchanged(this)
      ensures old(currentSubject) != subject ==> currentPredicate == "" && !inObject
      ensures old(currentSubject) == "" ==> pieces == old(pieces) + SubjectPieces(subject)
      ensures old(currentSubject) !in {"", subject} ==>
                pieces == old(pieces) + [Gap(" "), Sign(Dot), Gap("\n")] + SubjectPieces(subject)
    {
      hide Spell, Spelling, SubjectPieces;
      if currentSubject != subject {
        CloseSubject("\n");
        SpellSubject(subject);
        Emit("  " + subject + " ", SubjectPieces(subject));
        currentSubject := subject;
      }
    }

    method AddVerbAndObject(verb: string, obj: string)
      requires statements == Spell(pieces) && verb != ""
      requires currentPredicate == "" <==> !inObject
      modifies this`statements, this`pieces, this`currentPredicate, this`inObject
      ensures statements == Spell(pieces) && currentPredicate == verb && inObject
      ensures old(currentPredicate) == "" ==> pieces == old(pieces) + (VerbPieces(verb) + [Sign(Term(obj))])
      ensures old(currentPredicate) == verb ==> pieces == old(pieces) + ([Sign(Comma), Gap("\n    ")] + [Sign(Term(obj))])
      ensures old(currentPredicate) !in {"", verb} ==>
                pieces == old(pieces) + ([Gap(" "), Sign(Semicolon), Gap("\n   ")] + (VerbPieces(verb) + [Sign(Term(obj))]))
    {
      hide Spell, Spelling, VerbPieces;
      if currentPredicate != verb {
        ClosePredicate("\n   ");
        SpellVerb(verb);
        Emit(verb + " ", VerbPieces(verb));
        currentPredicate := verb;
      }
      CloseObject("\n    ");
      SpellObject(obj);
      Emit(obj, [Sign(Term(obj))]);
      inObject := true;
    }

    /** After any earlier calls, the text is that of the calls and one more: this quad is inserted. What it shares
        with the quad before it is not printed again. */
    method InsertQuad(subject: string, verb: string, obj: string, graph: string)
      requires Valid()
      requires subject != "" && verb != "" && obj != "" && graph != ""
      modifies this
      ensures Valid()
      ensures calls == old(calls) + [Insert(Quad(graph, subject, verb, obj))]
    {
      hide Spell, Layout, OpenDataPieces, OpenGraphPieces, SubjectPieces, VerbPieces, Separator, AfterQuad, Start;
      ghost var q, prev, p0 := Quad(graph, subject, verb, obj), Last(calls), pieces;
      OpenStatement();
      ghost var p1 := pieces;
      OpenGraph(graph);
      ghost var p2 := pieces;
      OpenSubject(subject);
      ghost var p3 := pieces;
      AddVerbAndObject(verb, obj);
      if Inserting(prev) {
        ContinuedPieces(prev.value.quad, q, p1, p2, p3, pieces);
      } else {
        StartedPieces(prev, q, p0, p1, p2, p3, pieces);
      }
      LayoutOne(calls, Insert(q));
      calls := calls + [Insert(q)];
    }

    /** The finished text is that of all calls. */
    method Terminate() returns (text: string)
      requires Valid()
      modifies this
      ensures text == Spell(Finished(old(calls)))
      ensures text == "" <==> old(calls) == []
    {
      hide Spell, Layout, Closing;
      SpellNothing();
      CloseStatement("", []);
      if calls == [] {
        NoClosing();
        assert pieces == [];
      } else {
        assert pieces == Finished(calls);
      }
      text := statements;
      TextIsEmpty(old(calls));
    }
  }

  /** Every interleaving of the two calls is read back call by call from the printed characters, if and only if each
      term is one term of the language. */
  method PrintAll(calls: seq<Update>) returns (text: string)
    requires AllPrintable(calls)
    ensures ReadUpdate(text) == Some(calls) <==> AllWhole(calls)
  {
    hide Spell, Layout, Finished, ReadUpdate, AllWhole;
    var ins := new Inserter();
    for i := 0 to |calls|
      invariant ins.Valid() && fresh(ins)
      invariant ins.calls == calls[..i]
    {
      match calls[i] {
        case Drop(g) => ins.DeleteGraph(g);
        case Insert(q) => ins.InsertQuad(q.subject, q.verb, q.obj, q.graph);
      }
      assert calls[..i + 1] == calls[..i] + [calls[i]];
    }
    assert calls[..|calls|] == calls;
    text := ins.Terminate();
    TextMeans(calls);
  }

  // ---------------------------------------------------------------- the characters of the pieces

  function Blank(suffix: string): seq<Piece> {
    if suffix == "" then [] else [Gap(suffix)]
  }

  /** The characters of a sign with white space around it. */
  lemma SpellSign(before: string, t: Token, after: string)
    ensures Spell([Sign(t)]) == Spelling(t)
    ensures Spell([Sign(t), Gap(after)]) == Spelling(t) + after
    ensures Spell([Gap(before), Sign(t)]) == before + Spelling(t)
    ensures Spell([Gap(before), Sign(t), Gap(after)]) == before + Spelling(t) + after
    ensures Spell([Gap(before), Sign(t)] + Blank(after)) == before + Spelling(t) + after
  {
    hide Spelling;
    assert [Gap(after)][1..] == [] && [Sign(t)][1..] == [];
    assert Spell([Gap(after)]) == after + [] == after;
    assert Spell([Sign(t)]) == Spelling(t) + [] == Spelling(t);
    assert [Sign(t), Gap(after)][1..] == [Gap(after)];
    assert [Gap(before), Sign(t)][1..] == [Sign(t)];
    assert [Gap(before), Sign(t), Gap(after)][1..] == [Sign(t), Gap(after)];
    assert after != "" ==> [Gap(before), Sign(t)] + Blank(after) == [Gap(before), Sign(t), Gap(after)];
    assert after == "" ==> [Gap(before), Sign(t)] + Blank(after) == [Gap(before), Sign(t)];
  }

  lemma SpellDrop(g: string)
    ensures Spell(DropPieces(g)) == "DROP SILENT" + " GRAPH " + g
  {
    SpellSign("", DropSilentGraph, " ");
    SpellSign("", Term(g), "");
    SpellConcat([Sign(DropSilentGraph), Gap(" ")], [Sign(Term(g))]);
  }

  lemma SpellOpenData()
    ensures Spell(OpenDataPieces()) == "INSERT DATA" + " {\n"
  {
    SpellSign("", InsertData, " ");
    SpellSign("", LBrace, "\n");
    SpellConcat([Sign(InsertData), Gap(" ")], [Sign(LBrace), Gap("\n")]);
  }

  lemma SpellOpenGraph(g: string)
    ensures Spell(OpenGraphPieces(g)) == " GRAPH " + g + " {\n"
  {
    var a, b, c := [Gap(" "), Sign(Graph), Gap(" ")], [Sign(Term(g)), Gap(" ")], [Sign(LBrace), Gap("\n")];
    SpellSign(" ", Graph, " ");
    SpellSign("", Term(g), " ");
    SpellSign("", LBrace, "\n");
    SpellConcat(a, b);
    SpellConcat(a + b, c);
  }

  lemma SpellSubject(s: string)
    ensures Spell(SubjectPieces(s)) == "  " + s + " "
  {
    SpellSign("  ", Term(s), " ");
  }

  lemma SpellVerb(p: string)
    ensures Spell(VerbPieces(p)) == p + " "
  {
    SpellSign("", Term(p), " ");
  }

  lemma SpellObject(o: string)
    ensures Spell([Sign(Term(o))]) == o
  {
    SpellSign("", Term(o), "");
  }

  lemma SpellGap(white: string)
    ensures Spell([Gap(white)]) == white
  {
    assert [Gap(white)][1..] == [];
  }

  lemma SpellNothing()
    ensures Spell([]) == ""
  {
  }

  lemma SemicolonIs()
    ensures " " + Spelling(Semicolon) + "\n" == " ;\n"
  {
  }

  lemma BraceIs()
    ensures " " + Spelling(RBrace) == " }"
  {
  }

  // ---------------------------------------------------------------- the pieces of one more call

  lemma LayoutOne(us: seq<Update>, u: Update)
    ensures Layout(us + [u]) == Layout(us) + Added(Last(us), u)
  {
    hide Added;
    assert (us + [u])[..|us|] == us;
  }

  /** What the four steps print after another quad. */
  lemma ContinuedPieces(p: Quad, q: Quad, p1: seq<Piece>, p2: seq<Piece>, p3: seq<Piece>, p4: seq<Piece>)
    requires p2 == p1 + if p.graph == q.graph then [] else [Gap(" "), Sign(RBrace), Gap("\n")] + OpenGraphPieces(q.graph)
    requires p3 == p2 + if p.graph != q.graph then SubjectPieces(q.subject)
                        else if p.subject == q.subject then [] else [Gap(" "), Sign(Dot), Gap("\n")] + SubjectPieces(q.subject)
    requires p4 == p3 + if p.graph != q.graph || p.subject != q.subject then FromVerb(q)
                        else if p.verb != q.verb then [Gap(" "), Sign(Semicolon), Gap("\n   ")] + FromVerb(q)
                        else [Sign(Comma), Gap("\n    ")] + [Sign(Term(q.obj))]
    ensures p4 == p1 + AfterQuad(p, q)
  {
    hide OpenGraphPieces, SubjectPieces, FromVerb;
  }

  /** What the four steps print after no quad. */
  lemma StartedPieces(prev: Option<Update>, q: Quad, p0: seq<Piece>, p1: seq<Piece>, p2: seq<Piece>, p3: seq<Piece>, p4: seq<Piece>)
    requires !Inserting(prev)
    requires p1 == p0 + (Separator(prev) + OpenDataPieces()) && p2 == p1 + OpenGraphPieces(q.graph)
    requires p3 == p2 + SubjectPieces(q.subject) && p4 == p3 + FromVerb(q)
    ensures p4 == p0 + Added(prev, Insert(q))
  {
    hide OpenDataPieces, Separator, OpenGraphPieces, SubjectPieces, FromVerb;
  }
}
