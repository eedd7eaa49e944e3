/** A blank node label that is read from N-Quads and, printed as it is (sparql/literals.go:66-68), ends its term early:
    the statement is meant for one graph and the store puts half of it into another. */
module BundleBreakout {
  import opened Options
  import opened Texts
  import opened SparqlLiterals
  import opened SparqlTerms
  import opened SparqlUpdate
  import opened SparqlText
  import opened UpdateLayout
  import opened NQuads
  import opened BundleModel
  import opened BundleEffect
  import opened NQuadsRoundTrip
  import opened NQuadsEscape
  import I = Inserter
  import R = NQuadsReader
  import W = NQuadsWriter
  import SwBundle
  import Turtle

  /** A base that resolves every reference to a URL that is printed as the reference. */
  const ECHO_BASE := Base(Url("", "", None, "", "", ""), (r: string) => Some(Url("", "", None, "", r, "")), (u: Url) => u.path)

  const LABEL := "a" + "<p><o>" + "}GRAPH" + "<g>{" + "_:b"

  /** The calls that write the bundle: a declaration, and a quad about a blank node in the declared graph. */
  const CALLS: seq<W.Call> :=
    [W.Triple(Iri("u"), SW_RELATIVE_PATH, PlainString("u")), W.Quad(Blank(LABEL), "p", Iri("o"), "u")]

  const STATEMENTS: seq<Statement> :=
    [Statement(IriNode("u"), SW_RELATIVE_PATH, LiteralNode("u", "", XSD_STRING), None),
     Statement(BlankNode(LABEL), "p", IriNode("o"), Some("u"))]

  /** The reader takes the label, for it holds no blank. */
  lemma LabelIsRead()
    ensures R.ReadAll(W.Document(CALLS)) == (STATEMENTS, None)
  {
    hide R.ReadAll, W.Document, SafeIri, W.CallError;
    SwBundle.SafeVerbs();
    SwBundle.OrdinaryIsSafe("u");
    SwBundle.OrdinaryIsSafe("p");
    SwBundle.OrdinaryIsSafe("o");
    LabelHasNoBlank();
    CallsMean();
    DocumentRoundTrip(CALLS);
  }

  lemma LabelHasNoBlank()
    ensures NoBlank(LABEL)
  {
    assert NoBlank("a" + "<p><o>") && NoBlank("}GRAPH") && NoBlank("<g>{") && NoBlank("_:b");
  }

  lemma CallsMean()
    ensures IsStatement(CALLS[0]) && Meaning(CALLS[0]) == STATEMENTS[0]
    ensures IsStatement(CALLS[1]) && Meaning(CALLS[1]) == STATEMENTS[1]
    ensures Meanings(CALLS) == STATEMENTS
  {
    hide Turtle.Escaped;
    assert CALLS[1..] == [CALLS[1]] && CALLS[1..][1..] == [];
    FirstMeans();
    SecondMeans();
    TwoMeanings(CALLS);
  }

  lemma FirstMeans()
    ensures IsStatement(CALLS[0]) && Meaning(CALLS[0]) == STATEMENTS[0]
  {
    hide Turtle.Escaped;
  }

  lemma SecondMeans()
    ensures IsStatement(CALLS[1]) && Meaning(CALLS[1]) == STATEMENTS[1]
  {
    hide Turtle.Escaped;
  }

  lemma TwoMeanings(calls: seq<W.Call>)
    requires |calls| == 2 && IsStatement(calls[0]) && IsStatement(calls[1])
    ensures Meanings(calls) == [Meaning(calls[0]), Meaning(calls[1])]
  {
    hide Meaning, IsStatement;
    assert calls[1..][1..] == [];
    assert Meanings(calls[1..]) == [Meaning(calls[1])] + [];
  }

  // ---------------------------------------------------------------- what is meant, and what is printed

  const SUBJECT := "_:" + LABEL

  /** The quad that the statement stands for. */
  const MEANT_QUAD := Quad("<u>", SUBJECT, "<p>", "<o>")

  /** The quads that the text inserts. */
  const FIRST_QUAD := Quad("<u>", "_:a", "<p>", "<o>")
  const SECOND_QUAD := Quad("<g>", "_:b", "<p>", "<o>")

  lemma LettersAreLegal(s: string)
    requires forall k :: 0 <= k < |s| ==> IsAlpha(s[k])
    ensures IriLiteral(s) == "<" + s + ">" && OneTerm("<" + s + ">")
  {
    IriChainIsOnePass(s);
    OnePassLegal(s);
    IriIsTerm(s);
  }

  lemma DeclarationMeans()
    ensures Accepted(ECHO_BASE, STATEMENTS[0]) == Some(ECHO_BASE.resolve("u").value)
    ensures GraphText(ECHO_BASE, ECHO_BASE.resolve("u").value) == "<u>"
    ensures !Inserted(ECHO_BASE, STATEMENTS, 0) && Accepted(ECHO_BASE, STATEMENTS[1]) == None
  {
    hide IriLiteral;
    LettersAreLegal("u");
  }

  lemma QuadMeans()
    ensures Inserted(ECHO_BASE, STATEMENTS, 1) && QuadOf(ECHO_BASE, STATEMENTS, 1) == MEANT_QUAD
  {
    hide IriLiteral, Accepted;
    DeclarationMeans();
    LettersAreLegal("p");
    LettersAreLegal("o");
    assert STATEMENTS[..1] == [STATEMENTS[0]];
    assert GraphUrl(ECHO_BASE, STATEMENTS[..1], "u") == Accepted(ECHO_BASE, STATEMENTS[0]);
  }

  lemma StatementsMean()
    ensures Drops(ECHO_BASE, STATEMENTS, 2) == [Drop("<u>")]
    ensures Inserts(ECHO_BASE, STATEMENTS, 2) == [Insert(MEANT_QUAD)]
    ensures AcceptedGraphs(ECHO_BASE, STATEMENTS) == {"<u>"}
  {
    hide IriLiteral, Accepted, Inserted, QuadOf, GraphText;
    DeclarationMeans();
    QuadMeans();
    assert Drops(ECHO_BASE, STATEMENTS, 1) == [] + [Drop("<u>")];
    assert Inserts(ECHO_BASE, STATEMENTS, 1) == [] + [];
  }

  // ---------------------------------------------------------------- the text, read twice

  /** The text up to the subject, and after it. */
  function Front(): seq<Piece> {
    Finished([Drop("<u>")]) + [Gap(" "), Sign(Semicolon), Gap("\n")] + OpenDataPieces() + OpenGraphPieces("<u>")
  }

  function Back(): seq<Piece> {
    FromVerb(MEANT_QUAD) + Closing(Some(Insert(MEANT_QUAD)))
  }

  /** The subject as the grammar takes it. */
  function BrokenSubject(): seq<Piece> {
    [Gap("  "), Sign(Term("_:a"))] + [Sign(Term("<p>")), Sign(Term("<o>"))] + [Sign(RBrace), Sign(Graph)]
    + [Sign(Term("<g>")), Sign(LBrace)] + [Sign(Term("_:b")), Gap(" ")]
  }

  lemma JoinedParts()
    ensures Joined([Drop("<u>")], [Insert(MEANT_QUAD)]) == Front() + SubjectPieces(SUBJECT) + Back()
  {
    hide Closing, FromVerb, OpenGraphPieces, OpenDataPieces, SubjectPieces, DropPieces;
    var us := [Insert(MEANT_QUAD)];
    assert us[..0] == [];
    assert Layout(us) == [] + Start(us[0]) by { FirstAdded(us[0]); }
    assert Finished(us) == OpenDataPieces() + OpenGraphPieces("<u>") + SubjectPieces(SUBJECT) + Back();
  }

  /** A sign after a sign. */
  lemma PairLeads(m: Place, t: Token, t': Token)
    ensures Leads(m, [Sign(t), Sign(t')], Next(Next(m, t), t'), Said(m, t) + Said(Next(m, t), t'))
    ensures Spell([Sign(t), Sign(t')]) == Spelling(t) + Spelling(t')
  {
    hide Leads, Next, Said, Spelling;
    assert [Sign(t), Sign(t')] == [Sign(t)] + [Sign(t')];
    SignLeads(m, "", t, "");
    SignLeads(Next(m, t), "", t', "");
    LeadsOn(m, [Sign(t)], Next(m, t), Said(m, t), [Sign(t')], Next(Next(m, t), t'), Said(Next(m, t), t'));
    SpellConcat([Sign(t)], [Sign(t')]);
    I.SpellSign("", t, "");
    I.SpellSign("", t', "");
  }

  lemma SpellFive(a: seq<Piece>, b: seq<Piece>, c: seq<Piece>, d: seq<Piece>, e: seq<Piece>)
    ensures Spell(a + b + c + d + e) == Spell(a) + Spell(b) + Spell(c) + Spell(d) + Spell(e)
  {
    hide Spell;
    SpellConcat(a, b);
    SpellConcat(a + b, c);
    SpellConcat(a + b + c, d);
    SpellConcat(a + b + c + d, e);
  }

  lemma LabelCharacters()
    ensures "  " + SUBJECT + " " == "  _:a" + "<p><o>" + "}GRAPH" + "<g>{" + "_:b "
  {
  }

  /** The two readings of the subject have the same characters. */
  lemma SameCharacters()
    ensures Spell(BrokenSubject()) == Spell(SubjectPieces(SUBJECT))
  {
    hide Spell, Leads, SUBJECT;
    I.SpellSubject(SUBJECT);
    LabelCharacters();
    SpellFive([Gap("  "), Sign(Term("_:a"))], [Sign(Term("<p>")), Sign(Term("<o>"))], [Sign(RBrace), Sign(Graph)],
              [Sign(Term("<g>")), Sign(LBrace)], [Sign(Term("_:b")), Gap(" ")]);
    BrokenParts();
  }

  lemma BrokenParts()
    ensures Spell([Gap("  "), Sign(Term("_:a"))]) == "  _:a"
    ensures Spell([Sign(Term("<p>")), Sign(Term("<o>"))]) == "<p><o>"
    ensures Spell([Sign(RBrace), Sign(Graph)]) == "}GRAPH"
    ensures Spell([Sign(Term("<g>")), Sign(LBrace)]) == "<g>{"
    ensures Spell([Sign(Term("_:b")), Gap(" ")]) == "_:b "
  {
    hide Spell, Leads;
    I.SpellSign("  ", Term("_:a"), "");
    PairLeads(AtSubject(""), Term("<p>"), Term("<o>"));
    PairLeads(AtSubject(""), RBrace, Graph);
    PairLeads(AtSubject(""), Term("<g>"), LBrace);
    I.SpellSign("", Term("_:b"), " ");
  }

  lemma BrokenLeads()
    ensures Leads(AtSubject("<u>"), BrokenSubject(), AtVerb("<g>", "_:b"), [Insert(FIRST_QUAD)])
  {
    hide Leads;
    var a, b, c := [Gap("  "), Sign(Term("_:a"))], [Sign(Term("<p>")), Sign(Term("<o>"))], [Sign(RBrace), Sign(Graph)];
    var d, e := [Sign(Term("<g>")), Sign(LBrace)], [Sign(Term("_:b")), Gap(" ")];
    var m, told := AtSubject("<u>"), [Insert(FIRST_QUAD)];
    SignLeads(m, "  ", Term("_:a"), "");
    PairLeads(AtVerb("<u>", "_:a"), Term("<p>"), Term("<o>"));
    assert [] + told == told;
    LeadsOn(m, a, AtVerb("<u>", "_:a"), [], b, AfterObject("<u>", "_:a", "<p>"), told);
    PairLeads(AfterObject("<u>", "_:a", "<p>"), RBrace, Graph);
    assert Said(AfterObject("<u>", "_:a", "<p>"), RBrace) + Said(InData, Graph) == [];
    LeadsOn(m, a + b, AfterObject("<u>", "_:a", "<p>"), told, c, GraphName, []);
    PairLeads(GraphName, Term("<g>"), LBrace);
    assert Said(GraphName, Term("<g>")) + Said(OpenGraph("<g>"), LBrace) == [];
    LeadsOn(m, a + b + c, GraphName, told, d, AtSubject("<g>"), []);
    SignLeads(AtSubject("<g>"), "", Term("_:b"), " ");
    LeadsOn(m, a + b + c + d, AtSubject("<g>"), told, e, AtVerb("<g>", "_:b"), []);
  }

  /** The broken text, taken by the grammar. */
  function Broken(): seq<Piece> {
    Front() + BrokenSubject() + Back()
  }

  const TAKEN := [Drop("<u>"), Insert(FIRST_QUAD), Insert(SECOND_QUAD)]

  lemma FrontLeads()
    ensures Leads(BeforeUpdate, Front(), AtSubject("<u>"), [Drop("<u>")])
  {
    hide Leads, Finished, OpenDataPieces, OpenGraphPieces;
    var drops, sep := Finished([Drop("<u>")]), [Gap(" "), Sign(Semicolon), Gap("\n")];
    var told := [Drop("<u>")];
    FinishedLeads(told);
    SignLeads(AfterUpdate, " ", Semicolon, "\n");
    LeadsOn(BeforeUpdate, drops, AfterUpdate, told, sep, BeforeUpdate, []);
    StartLeads("<u>");
    LeadsOn(BeforeUpdate, drops + sep, BeforeUpdate, told, OpenDataPieces(), InData, []);
    OpenGraphLeads("<u>");
    LeadsOn(BeforeUpdate, drops + sep + OpenDataPieces(), InData, told, OpenGraphPieces("<u>"), AtSubject("<u>"), []);
  }

  lemma BackLeads()
    ensures Leads(AtVerb("<g>", "_:b"), Back(), AfterUpdate, [Insert(SECOND_QUAD)])
  {
    hide Leads, Closing, FromVerb;
    var closing := Some(Insert(SECOND_QUAD));
    VerbLeads("<g>", "_:b", SECOND_QUAD);
    ClosingLeads(closing);
    SameBack();
    LeadsOn(AtVerb("<g>", "_:b"), FromVerb(SECOND_QUAD), AfterObject("<g>", "_:b", "<p>"), [Insert(SECOND_QUAD)],
            Closing(closing), AfterUpdate, []);
  }

  lemma SameBack()
    ensures Back() == FromVerb(SECOND_QUAD) + Closing(Some(Insert(SECOND_QUAD)))
  {
  }

  lemma BrokenMeans()
    ensures ParseUpdate(Tokens(Broken())) == Some(TAKEN)
  {
    hide Leads, Front, BrokenSubject, Back, ParseUpdate, Tokens;
    var first := [Drop("<u>")];
    FrontLeads();
    BrokenLeads();
    BackLeads();
    LeadsOn(BeforeUpdate, Front(), AtSubject("<u>"), first, BrokenSubject(), AtVerb("<g>", "_:b"), [Insert(FIRST_QUAD)]);
    LeadsOn(BeforeUpdate, Front() + BrokenSubject(), AtVerb("<g>", "_:b"), first + [Insert(FIRST_QUAD)],
            Back(), AfterUpdate, [Insert(SECOND_QUAD)]);
    assert first + [Insert(FIRST_QUAD)] + [Insert(SECOND_QUAD)] == TAKEN;
    LeadsParses(Broken(), AfterUpdate, TAKEN);
  }

  lemma FrontSpaced()
    ensures Spaced(Front()) && Front() != [] && Front()[|Front()| - 1] == Gap("\n")
  {
    hide Spaced, Finished, OpenGraphPieces;
    var drops, sep, open := Finished([Drop("<u>")]), [Gap(" "), Sign(Semicolon), Gap("\n")], OpenDataPieces();
    FinishedSpaced([Drop("<u>")]);
    SepSpaced();
    SpacedConcat(drops, sep);
    SpacedConcat(drops + sep, open);
    OpenGraphSpaced("<u>");
    SpacedConcat(drops + sep + open, OpenGraphPieces("<u>"));
  }

  lemma SepSpaced()
    ensures Spaced([Gap(" "), Sign(Semicolon), Gap("\n")]) && Spaced(OpenDataPieces())
  {
    SpacedConcat([Sign(InsertData), Gap(" ")], [Sign(LBrace), Gap("\n")]);
  }

  lemma BackSpaced()
    ensures Spaced(Back()) && Back() != []
  {
    hide Closing, FromVerb;
    VerbRuns(MEANT_QUAD);
    ClosingSpaced(Some(Insert(MEANT_QUAD)));
    SpacedConcat(FromVerb(MEANT_QUAD), Closing(Some(Insert(MEANT_QUAD))));
  }

  lemma BrokenSubjectSpaced()
    ensures Spaced(BrokenSubject())
  {
    var ps := BrokenSubject();
    assert |ps| == 10;
    forall i | 0 <= i < 9
      ensures Fits(ps[i], ps[i + 1])
    {
    }
  }

  lemma BrokenSpaced()
    ensures Spaced(Broken())
  {
    hide Spaced, Front, Back;
    FrontSpaced();
    BrokenSubjectSpaced();
    BackSpaced();
    SpacedConcat(Front(), BrokenSubject());
    SpacedConcat(Front() + BrokenSubject(), Back());
  }

  lemma ShortTerms()
    ensures OneTerm("<u>") && OneTerm("<g>") && OneTerm("<p>") && OneTerm("<o>") && OneTerm("_:a") && OneTerm("_:b")
  {
    hide OneTerm;
    assert "<" + "u" + ">" == "<u>" && "<" + "g" + ">" == "<g>" && "<" + "p" + ">" == "<p>" && "<" + "o" + ">" == "<o>";
    assert BlankLiteral("a") == "_:a" && BlankLiteral("b") == "_:b";
    LettersAreLegal("u");
    LettersAreLegal("g");
    LettersAreLegal("p");
    LettersAreLegal("o");
    BlankIsTerm("a");
    BlankIsTerm("b");
  }

  lemma BrokenWhole()
    ensures WholePieces(Broken()) && AllWhole(TAKEN)
  {
    hide OneTerm, Finished, OpenDataPieces, OpenGraphPieces, FromVerb, Closing, BrokenSubject;
    ShortTerms();
    FinishedWhole([Drop("<u>")]);
    QuadWhole(SECOND_QUAD);
    OpeningWhole();
    BrokenSubjectWhole();
    SameBack();
  }

  lemma OpeningWhole()
    requires OneTerm("<u>")
    ensures WholePieces(OpenDataPieces()) && WholePieces(OpenGraphPieces("<u>"))
    ensures WholePieces(Closing(Some(Insert(SECOND_QUAD))))
  {
    hide OneTerm;
  }

  lemma BrokenSubjectWhole()
    ensures WholePieces(BrokenSubject())
  {
    hide OneTerm;
    ShortTerms();
  }

  lemma BrokenCharacters()
    ensures Spell(Broken()) == BundleText(ECHO_BASE, STATEMENTS)
  {
    hide Spell, Front, Back, BrokenSubject, SubjectPieces, Joined, Drops, Inserts;
    StatementsMean();
    JoinedParts();
    SameCharacters();
    SpellConcat(Front(), BrokenSubject());
    SpellConcat(Front() + BrokenSubject(), Back());
    SpellConcat(Front(), SubjectPieces(SUBJECT));
    SpellConcat(Front() + SubjectPieces(SUBJECT), Back());
  }

  /** The characters printed for the two statements: the grammar finds two quads, one of them in a graph that no
      statement declared. */
  lemma LabelBreaksOut()
    ensures ReadUpdate(BundleText(ECHO_BASE, STATEMENTS)) == Some(TAKEN)
  {
    hide *;
    BrokenCharacters();
    BrokenMeans();
    BrokenSpaced();
    BrokenWhole();
    WholePiecesTokens(Broken());
    ReadIff(Broken(), TAKEN);
  }

  lemma TakenEffect()
    ensures ApplyAll({}, TAKEN) == {FIRST_QUAD, SECOND_QUAD}
  {
    var drops: set<Quad> := Apply({}, TAKEN[0]);
    assert drops == {};
    assert TAKEN[1..] == [TAKEN[1], TAKEN[2]] && TAKEN[1..][1..] == [TAKEN[2]] && TAKEN[1..][1..][1..] == [];
    assert Apply(drops, TAKEN[1]) == {FIRST_QUAD};
    assert ApplyAll(drops, TAKEN[1..]) == ApplyAll({FIRST_QUAD}, [TAKEN[2]]);
    assert ApplyAll({FIRST_QUAD}, [TAKEN[2]]) == {FIRST_QUAD, SECOND_QUAD};
  }

  /** Executed in the empty store, the text puts a quad into a graph that no statement declared. */
  lemma LabelEscapes()
    ensures Execute({}, BundleText(ECHO_BASE, STATEMENTS)) == Some({FIRST_QUAD, SECOND_QUAD})
    ensures SECOND_QUAD.graph !in AcceptedGraphs(ECHO_BASE, STATEMENTS)
    ensures !WellFormed(ECHO_BASE, STATEMENTS)
  {
    hide ReadUpdate, ApplyAll, AcceptedGraphs, WellFormed, Meant, BundleText, Drops, Inserts;
    LabelBreaksOut();
    TakenEffect();
    StatementsMean();
    BundleTextMeans(ECHO_BASE, STATEMENTS);
    MeantIsOther();
  }

  lemma MeantIsOther()
    ensures Meant(ECHO_BASE, STATEMENTS) != TAKEN
  {
    hide Drops, Inserts;
    StatementsMean();
  }
}
