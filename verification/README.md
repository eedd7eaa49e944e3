# Verification of SmartWeb

A Dafny model of the parts of SmartWeb whose correctness rests on text that is printed by one function and read by
another, or on state that many calls share. `dafny verify dfyconfig.toml` checks the whole project.

What is modelled, and the main results:

* **The bundle pipeline.** `swbundle.dfy` walks a directory tree (`bundle_walk.dfy`) and writes an archive with N-Quads;
  `bundle_tree.dfy` says which places of the tree the archive and its statements cover. `nquads_writer.dfy` and
  `nquads_reader.dfy` are the two languages as the code has them: `nquads_standard.dfy` compares what is written with RDF
  1.1 N-Quads, `nquads_cfg.dfy` and `nquads_ends.dfy` say which texts are read, and `nquads_escape.dfy` and
  `nquads_roundtrip.dfy` when a document is read back. `bundle_model.dfy` and `bundle_statements.dfy` turn statements
  into one SPARQL update through the prefix-compressing printer of `inserter.dfy`, whose characters `update_layout.dfy`
  specifies; `sparql_terms.dfy` and `sparql_text.dfy` read these characters as tokens, `sparql_update.dfy` reads the
  tokens under the grammar of SPARQL 1.1 and executes them, `sparql_denote.dfy` says which RDF term a text denotes,
  `bundle_meaning.dfy` what the statements say in RDF terms, and `bundle_effect.dfy` what the execution does to any store,
  and exactly when; `sparql_literals.dfy` covers the escaping of terms, and `bundle_breakout.dfy` a label that is not
  printed as one term.
* **The URL parser of `webcomponents-lite.js`.** `jurl.dfy` has every state of the loop and its termination for all
  inputs, bases and state overrides; `jurl_spec.dfy` and `jurl_file.dfy` give every field of the result, read off the text
  or taken from the base as section 5.2.2 of RFC 3986 says, for every text and base; `jurl_normal.dfy` and
  `jurl_preserve.dfy` have the invariant of the loop and the normal form it leads to; `jurl_fixpoint.dfy` and
  `jurl_prints.dfy` the round trip through `href`; `jurl_dots.dfy`, `jurl_dotfree.dfy` and `jurl_resolve.dfy` the dot
  segments and the resolution of paths; `jurl_throws.dfy` the exceptions; `jurl_object.dfy` the object whose fields the
  loop updates.
* **The mutation observers** of the same file (`mutation_observer.dfy`): how one event, met by any number of
  registrations on a node and its ancestors, becomes one record per interested observer.
* **The Authorization header.** `header_grammar.dfy` is the grammar with its parse trees, and `header_cfg.dfy` its
  productions as relations, without order and backtracking; `header_parser.dfy` the generated machine with its shared
  position, overwritten token array and backtracking; `header_actions.dfy` the deferred actions; `header_roundtrip.dfy`
  the challenges that the server prints, read back.
* **Smaller cores.** The digest nonce cache (`digest_cache.dfy`), the md5crypt packer and its entries
  (`md5crypt.dfy`, `bits.dfy`), the path algebra of file-system entries (`filesystem.dfy`, `paths.dfy`), and the parent
  chain of a URL (`url_parents.dfy`).

Where the code departs from its evident intent, the model keeps the code, and a theorem gives the exact inputs on which
the intended property holds:

* Digit escapes are accumulated with a misplaced shift (nquads/reader.go:376; a Go shift binds like a product), so a
  character printed as `\uXXXX` is read back only if its code is a multiple of 16 (`NQuadsEscape.MangledSame`); IRIs with
  a brace, a bracket, a bar and so on do not survive (`NQuadsEscape.IriReads`).
* `^^` and `@` after a literal are looked at but not consumed (nquads/reader.go:247-291), so typed and tagged literals
  are refused (`NQuadsRoundTrip.SuffixedRefused`).
* A comment with a carriage return can uncover statements or errors (`NQuadsRoundTrip.CommentSkips`,
  `NQuadsRoundTrip.CommentBecomesStatement`).
* U+001A is written as `%1B` and U+001B is not escaped (sparql/literals.go:108, `SparqlLiterals.IriDepartures`).
* An IRI with a tab, a backslash, a double quote or one of four other control characters is written with a short
  escape (turtle/escape.go:19-32), which no IRIREF of RDF 1.1 N-Quads may hold (`NQuadsStandard.IriReads`).
* A file URL that names no path of its own takes over the user name, the password and the port of a base of any scheme
  (webcomponents-lite.js:202-217), which its print then makes a part of the host (`JUrlPrints.PrintsBack`,
  `JUrlPrints.BorrowsCredentials`). Of several at signs in an authority, each but the last is kept as `%40` behind the text
  that follows it (line 299; `JUrlSpec.RunsCredentials`).
* Credentials of the Basic scheme, and a second challenge behind a blank and a comma, are not accepted by the grammar of
  the header (server/headerparse.peg:10-15; `HeaderCfg.BasicRefused`, `HeaderCfg.BlankBeforeComma`).
* A header that opens with a lone token68 is an index out of range (server/headerparse.go:19-22,
  `HeaderActions.MeaningsFail`, `HeaderActions.TokenAlone`), and U+0004 inside a header is taken for its end (`HeaderRoundTrip.ListRoundTrip`).
* A request with counter zero can be replayed until a positive counter arrives (auth/digest.go:160,
  `DigestCache.OnlyZeroReplays`), and the bound on the cache needs 1 <= tolerance <= size + 1 (`DigestCache.BoundedIff`).
* The loop over parent directories does not end on a relative path (server2/server.go:160, `UrlParents.EndsIffRooted`).
* In the URL parser a question mark after a scheme without authority assigns an undeclared variable in strict mode
  (webcomponents-lite.js:167), and a file URL may need a base that is missing (lines 201-240); on which texts and bases
  the parser ends in an exception is `JUrlThrows.ThrowsIff`, and `JUrlThrows.ThrowsOn` has two of them.
* Blank node labels and language tags are printed as they are (sparql/literals.go:42-44, 66-68), and the N-Quads reader
  takes any label without blanks. The update sent to the store therefore has the meant effect on every store if and only
  if every printed label is a BLANK_NODE_LABEL, every tag a LANGTAG, and no printed IRI holds U+001B
  (`BundleEffect.BundleReplacesGraphs`, `BundleModel.TermIsOneToken`); `BundleBreakout.LabelEscapes` is a label that
  makes half of its statement go to a graph that nothing declared.

Library functions are parameters: URL resolution and printing of the Go library (`BundleModel.Base`), the SHA-1
digest and media type detection (`BundleWalk.Library`), the MD5 digest of a password (`Md5Crypt.AcceptsIff`). Clocks,
random keys and the events of the user agent are arguments of the steps.

## Model

| member | source | states |
|---|---|---|
| Replacements.ChainIsOnePass | sparql/literals.go:29-36 | a chain of global one-character replacements equals one left-to-right pass, for any table in which no replacement text contains a character replaced later |
| SparqlLiterals.StringLiteralRoundTrip | sparql/literals.go:29-36 | for every text and whatever follows it, the printed literal is read as exactly one STRING_LITERAL2 (section 19.8 of the SPARQL 1.1 Query Language) and its ECHARs decode to the text |
| SparqlLiterals.IriLiteralIsOneIriref | sparql/literals.go:81-124 | the printed IRI is read as one IRIREF, whatever follows it, if and only if the IRI has no U+001B (the character the chain forgets) |
| SparqlLiterals.IriChainIdempotent | sparql/literals.go:81-124 | escaping what stands inside the brackets a second time changes nothing |
| SparqlLiterals.IriDecodeRoundTrip | sparql/literals.go:81-124 | percent-decoding the printed text gives back a percent-free IRI if and only if it has no U+001A (written as %1B) |
| SparqlLiterals.IriDepartures | sparql/literals.go:107-110 | the two departures, each on a concrete input |
| SparqlTerms.TermLocal | sparql/literals.go:21-44 | what a reader of one term takes (IRIREF, BLANK_NODE_LABEL, STRING_LITERAL2, LANGTAG, RDFLiteral of section 19.8) is one term by itself, and a term is read whatever follows that cannot continue it |
| SparqlTerms.IriIsTerm | sparql/literals.go:81-124 | a printed IRI is one term if and only if it has no U+001B |
| SparqlTerms.BlankIsTerm | sparql/literals.go:66-68 | a printed blank node is one term if and only if its label is a BLANK_NODE_LABEL |
| SparqlTerms.StringIsTerm | sparql/literals.go:29-36 | a printed plain literal is always one term, and never opens a long string |
| SparqlTerms.TaggedIsTerm | sparql/literals.go:42-44 | a printed tagged literal is one term if and only if its tag is a LANGTAG |
| SparqlTerms.TypedIsTerm | sparql/literals.go:38-40 | a printed typed literal is one term if and only if the IRI of its type has no U+001B |
| SparqlDenote.DenotesIff | sparql/literals.go:21-124 | a text denotes an RDF term (an IRI, a blank node, or a literal with its text and its tag, its type or neither) if and only if it is one term |
| SparqlDenote.IriDenotes | sparql/literals.go:81-124 | a printed IRI without U+001B denotes the IRI with every character that no IRIREF may hold percent-encoded; with U+001B it denotes nothing |
| SparqlDenote.BlankDenotes | sparql/literals.go:66-68 | a printed blank node denotes its label |
| SparqlDenote.StringDenotes | sparql/literals.go:29-36 | a printed plain literal denotes exactly its text |
| SparqlDenote.TaggedDenotes | sparql/literals.go:42-44 | a printed tagged literal denotes its text and its tag |
| SparqlDenote.TypedDenotes | sparql/literals.go:38-40 | a printed typed literal denotes its text and its type |
| SparqlDenote.EncodedDecodes | sparql/literals.go:81-124 | what a printed IRI denotes decodes to the IRI, for an IRI without percent signs, if and only if it has no U+001A |
| SparqlUpdate.ReaderIsSound | server2/bundle.go:315-363 | a recursive-descent reading of Update, DROP, INSERT DATA, GRAPH blocks, property lists and object lists (section 19.8) agrees with the left-to-right reader that the layout theorems use, on every token sequence the latter accepts |
| SparqlUpdate.ApplyAllConcat | server2/bundle.go:260-267 | executing two updates one after the other is executing their concatenation |
| SparqlText.LexIff | server2/bundle.go:281-358 | a text of signs, words, terms and white space is read, character by character, as exactly these tokens if and only if each term is one term |
| SparqlText.ReadIsWhole | server2/bundle.go:118-124 | whatever text is sent, the updates that the grammar finds in its characters are made of whole terms |
| SparqlText.ReadIff | server2/bundle.go:281-358 | the printed characters mean what their tokens mean if and only if each term of the meant updates is one term |
| UpdateLayout.AfterQuadLeads | server2/bundle.go:334-358 | after a quad, what is printed for the next one, with the graph, subject or predicate they share left out, tells the reader exactly the next quad |
| UpdateLayout.SeparatorLeads | server2/bundle.go:315-324 | closing an update and separating it from the next tells the reader nothing and leaves it before an update |
| UpdateLayout.FinishedLeads | server2/bundle.go:271-363 | for every list of calls, the tokens of the text tell the reader exactly the calls, in order |
| UpdateLayout.FinishedSpaced | server2/bundle.go:271-363 | the white space of the text keeps words, terms and dots apart |
| UpdateLayout.TextIsEmpty | server2/bundle.go:260-265 | the text is empty if and only if there were no calls, which is what decides the separator between the two texts |
| UpdateLayout.TextMeans | server2/bundle.go:271-363 | the printed characters, read under the grammar, are exactly the calls if and only if each term of the calls is one term |
| UpdateLayout.JoinedTextMeans | server2/bundle.go:260-267 | likewise for the text of the deletions followed by that of the insertions |
| Inserter.Inserter.CloseObject | server2/bundle.go:281-286 | an open object is followed by a comma and the given white space, and is no longer open; otherwise nothing is printed |
| Inserter.Inserter.ClosePredicate | server2/bundle.go:288-294 | likewise with a semicolon for an open predicate; clears the fields below it |
| Inserter.Inserter.CloseSubject | server2/bundle.go:296-303 | likewise with a dot for an open subject |
| Inserter.Inserter.CloseGraph | server2/bundle.go:305-313 | likewise with a closing brace for an open graph block |
| Inserter.Inserter.CloseStatement | server2/bundle.go:315-324 | ends the open update with what closes it and the given suffix; nothing is printed when there is none |
| Inserter.Inserter.DeleteGraph | server2/bundle.go:326-332 | after any earlier calls, the characters are those laid out for the calls and one more: drop this graph |
| Inserter.Inserter.InsertQuad | server2/bundle.go:334-358 | after any earlier calls, the characters are those laid out for the calls and one more: insert this quad; a shared predicate, subject or graph is not printed again |
| Inserter.Inserter.Terminate | server2/bundle.go:360-363 | the finished text is that laid out for all calls, and is empty if and only if there were none |
| Inserter.PrintAll | server2/bundle.go:271-363 | for every list of drops and insertions with non-empty terms, printing and then reading the characters gives back the list if and only if each term is one term |
| BundleStatements.WantedStep | server2/bundle.go:213-219 | the wanted hashes grow by the hash of a statement about a hash in an accepted graph, and by nothing else |
| BundleStatements.TableStep | server2/bundle.go:193-212 | the table of declared graphs holds, for each name, the URL of its last accepted declaration |
| BundleStatements.Declare | server2/bundle.go:194-212 | a declaration under the base is recorded and dropped; any other is logged and changes nothing |
| BundleStatements.InsertStatement | server2/bundle.go:213-248 | a statement of an accepted graph becomes one insertion, and when it is well formed the terms of the quad denote what the statement says: the URL of its graph, its subject and verb resolved, and its object with exactly its text, its tag, or its type unless that is xsd:string; one whose subject is a literal is passed over |
| BundleStatements.HandleStatement | server2/bundle.go:187-259 | one round of the loop keeps: what the two inserters have printed, the table, the log and the wanted hashes are functions of the statements read |
| BundleStatements.JoinTexts | server2/bundle.go:260-267 | the characters of the drops and of the insertions, with a semicolon between them exactly when there are drops |
| BundleModel.TermIsOneToken | server2/bundle.go:225-247 | a printed term, before anything that cannot continue it, is read as exactly this term if and only if a label is a BLANK_NODE_LABEL, a tag a LANGTAG, and no printed IRI has a U+001B |
| BundleModel.BundleTextMeans | server2/bundle.go:182-268 | the characters printed for a list of statements mean its drops and insertions if and only if every printed term is well formed |
| BundleMeaning.NodeDenotes | server2/bundle.go:225-247 | the printed subject and object of a well-formed statement denote the node: the literal with its text, tag or type, the label, or the resolved IRI |
| BundleMeaning.GraphUrlIff | server2/bundle.go:193-219 | a graph name has this URL if and only if the last declaration of the name under the base resolves to it |
| BundleMeaning.InsertedAdds | server2/bundle.go:213-248 | every quad that is inserted for a well-formed statement denotes the quad that the statement says |
| BundleMeaning.AddsInserted | server2/bundle.go:213-248 | and every quad that a statement in an earlier declared graph says is inserted |
| BundleMeaning.MeantCarries | server2/bundle.go:182-268 | for all well-formed statements: the updates drop exactly the declared graphs and insert exactly what the statements say, as RDF terms |
| BundleMeaning.WantedIff | server2/bundle.go:213-219 | a hash is wanted if and only if a statement about it stands in a graph declared before it |
| BundleStatements.MakeStatements | server2/bundle.go:182-268 | fails exactly on the first read error. Otherwise, for well-formed statements, the characters, read under the grammar, are updates that drop exactly the graphs that some statement declares under the base and insert exactly the quads that the statements in earlier declared graphs say, all as RDF terms; a hash is wanted if and only if a statement in such a graph asks for it; a warning is logged if and only if a statement could not be used for that reason |
| BundleEffect.MeantReplaces | server2/bundle.go:182-268 | for every statement list and every store: the updates that are meant leave exactly the old quads outside the accepted graphs plus the translated quads that followed the declaration of their graph |
| BundleEffect.BundleReplacesGraphs | server2/bundle.go:118-124 | executing the printed characters has that effect on every store if and only if every printed term is well formed |
| BundleEffect.EffectOnTerms | server2/bundle.go:118-124 | for all well-formed statements and every store: after the characters are executed the store holds exactly the quads of RDF terms it held outside the declared graphs, and those that the statements say |
| BundleEffect.IllFormedDiffers | server2/bundle.go:118-124 | when some printed term is not well formed, there is a store that the characters do not change as meant |
| BundleModel.GraphUrlIsAccepted | server2/bundle.go:193-219 | a graph name has a URL if and only if an earlier declaration of it was accepted |
| BundleEffect.InsertedIntoAccepted | server2/bundle.go:213-248 | every quad that is meant to be inserted is in an accepted graph |
| BundleEffect.OnlyAcceptedChange | server2/bundle.go:118-124 | executing the characters of well-formed statements changes no quad outside the accepted graphs |
| BundleEffect.OutsideBaseUntouched | server2/bundle.go:165-180 | for well-formed statements, the quads of a graph that no URL under the base prints as are the same before and after the characters are executed |
| BundleEffect.NothingIsLost | server2/bundle.go:187-259 | every statement is counted once: a drop, an insertion, a log line, or a passed-over subject |
| BundleEffect.Import | server2/bundle.go:182-268 | the characters of MakeStatements, executed, have the effect above on RDF terms when every printed term is well formed; on a read error the store is untouched |
| BundleBreakout.LabelIsRead | nquads/reader.go:166-204 | a bundle with a blank node label that holds angle brackets, braces and a keyword is read as it was written |
| BundleBreakout.LabelBreaksOut | sparql/literals.go:66-68 | printed as it is, the label ends its term: the characters mean one quad in the declared graph and another in a graph that nothing declared |
| BundleBreakout.LabelEscapes | server2/bundle.go:213-248 | executed in the empty store, that text puts a quad outside the accepted graphs |
| Turtle.Escape | turtle/escape.go:15-39 | the loop computes the per-character escape of the whole text |
| NQuadsWriter.NQuadWriter.WriteQuad | nquads/writer.go:27-36 | appends one line, or nothing and the error for a subject or object that cannot be encoded |
| NQuadsWriter.NQuadWriter.WriteQuadIri | nquads/writer.go:38-46 | the same with an IRI as object |
| NQuadsWriter.NQuadWriter.WriteTriple | nquads/writer.go:48-56 | the same without a graph |
| NQuadsWriter.NQuadWriter.WriteTripleIri | nquads/writer.go:58-64 | the same without a graph and with an IRI as object |
| NQuadsWriter.NQuadWriter.WriteComment | nquads/writer.go:22-25 | appends a comment whose line feeds each start a new comment line |
| NQuadsWriter.NQuadWriter.WriteEmptyLine | nquads/writer.go:17-20 | appends a line feed |
| NQuadsEscape.MangledSame | nquads/reader.go:366-382 | reading back the four digits printed for a character below 128 gives the character if and only if its code is a multiple of 16 (the digit shift is misplaced) |
| NQuadsEscape.DigitsRead | turtle/escape.go:33-35 | what the digit loop makes of the printed four digits of a character below 128, for both digits |
| NQuadsEscape.EscapedReads | nquads/reader.go:222-235 | escaped text is read up to the delimiter exactly, whatever follows it, and gives the text with its digit escapes mangled |
| NQuadsEscape.IriReads | nquads/reader.go:316-329 | every IRI is read up to its bracket, and is the same if and only if none of its characters is lossy |
| NQuadsEscape.StringReads | nquads/reader.go:222-235 | the content of a string literal is read back exactly, for every string and whatever follows |
| NQuadsEscape.BraceIsLossy | nquads/reader.go:371-379 | an IRI with a brace is a concrete input that is not read back |
| NQuadsReader.Reader.ReadSpaces | nquads/reader.go:386-413 | the loop over blanks and comments is the function of the remaining text, and the end of the text is an error |
| NQuadsReader.Reader.ReadEscapeSeq | nquads/reader.go:336-384 | consumes one escape sequence, with the source's errors |
| NQuadsReader.Reader.ReadHexDigits | nquads/reader.go:366-382 | the digit loop with its shift as written |
| NQuadsReader.Reader.ReadContent | nquads/reader.go:222-235 | reads up to the closing delimiter, unescaping |
| NQuadsReader.Reader.ReadIriNode | nquads/reader.go:300-334 | reads an IRI, or puts back what does not start one |
| NQuadsReader.Reader.ReadBlankNode | nquads/reader.go:166-204 | reads a blank node label up to a blank |
| NQuadsReader.Reader.ReadSubjectNode | nquads/reader.go:134-153 | an IRI or a blank node |
| NQuadsReader.Reader.ReadLanguageTag | nquads/reader.go:268-291 | the tag loop, which keeps only hyphens and swallows the character that ends it |
| NQuadsReader.Reader.ReadLiteralSuffix | nquads/reader.go:240-298 | the suffix after the closing quote, peeked at but not consumed |
| NQuadsReader.Reader.ReadLiteralNode | nquads/reader.go:206-298 | a literal, with the errors of its suffix |
| NQuadsReader.Reader.ReadTail | nquads/reader.go:76-131 | verb, object, optional graph and final dot |
| NQuadsReader.Reader.NextStatement | nquads/reader.go:53-64 | one statement, the end, or an error; the end inside a statement is told from the end before one |
| NQuadsReader.Reader.ReadStatements | nquads/reader.go:53-132 | repeated reading is the function ReadAll of the text |
| NQuadsCfg.EscapeIff | nquads/reader.go:336-384 | an escape sequence is read exactly when the text has one: a letter for its character, or four or eight digits shifted as the source shifts them |
| NQuadsCfg.IriIff | nquads/reader.go:300-334 | an IRI is read exactly when, behind blanks and comments, the text has the form of one |
| NQuadsCfg.SubjectIff | nquads/reader.go:134-204 | likewise for an IRI or a blank node, whose label goes up to a blank |
| NQuadsCfg.ObjectIff | nquads/reader.go:155-298 | likewise for an object; a literal has neither tag nor type |
| NQuadsCfg.StatementIff | nquads/reader.go:66-132 | for every text, statement and rest: the statement is read and the rest left if and only if the text is spaces, a subject, a predicate, an object, an optional graph and a dot of these forms, and then the rest |
| NQuadsEnds.EndsIff | nquads/reader.go:53-60 | the reader reports the end of the input if and only if the text ends before a subject or inside one |
| NQuadsEnds.RefusedIff | nquads/reader.go:61-125 | each of the six errors about a missing or misplaced part is reported if and only if the text has that fault behind parts that have none |
| NQuadsEnds.ReadsChain | nquads/reader.go:53-132 | for every text: the statements read are a chain of statement forms that nothing extends, and the rest decides the end or the error |
| NQuadsEnds.ChainIsRead | nquads/reader.go:53-132 | whatever chain of statement forms a text opens with is read first |
| NQuadsEnds.ReadText | nquads/reader.go:53-132 | the same of the reader object |
| NQuadsRoundTrip.StatementReads | nquads/reader.go:66-132 | a written statement followed by anything is read back as itself, leaving exactly the rest, if and only if it is readable (no lossy character, no blank in a label, no tag or type) |
| NQuadsRoundTrip.SuffixedRefused | nquads/reader.go:247-291 | literals with a language tag or a type are refused, always |
| NQuadsRoundTrip.CommentSkips | nquads/reader.go:386-413 | a written comment disappears if and only if its carriage returns uncover nothing |
| NQuadsRoundTrip.CommentUncovers | nquads/reader.go:386-413 | a carriage return in front of the line of any readable statement makes the comment be read as that statement |
| NQuadsRoundTrip.CommentBecomesStatement | nquads/reader.go:386-413 | a comment from which a statement is read, concretely |
| NQuadsRoundTrip.NoReturnIsClean | nquads/writer.go:22-25 | in particular a comment without carriage returns disappears |
| NQuadsRoundTrip.DocumentRoundTrip | nquads/reader.go:53-132 | any sequence of writer calls, with blank lines and clean comments anywhere, is read back as exactly the written statements in order and then the end of the input, if and only if all of them are readable |
| NQuadsRoundTrip.WriteThenRead | nquads/writer.go:17-64 | the same of the writer object and the reader object |
| NQuadsStandard.IriReads | nquads/literals.go:81-83 | a written IRI is an IRIREF of RDF 1.1 N-Quads that means the IRI, if and only if it has none of the seven characters that the writer gives a short escape; otherwise it is none |
| NQuadsStandard.QuotedReads | nquads/literals.go:69-79 | a written string means exactly its text, with whatever its mark says |
| NQuadsStandard.ObjectReads | nquads/literals.go:101-125 | a written value means the term it stands for (label, IRI, text with tag, text with type) if and only if its label is a BLANK_NODE_LABEL, its tag a LANGTAG, and its IRI free of short escapes |
| NQuadsStandard.LineReads | nquads/writer.go:27-64 | a written statement, whatever follows it, is one statement of RDF 1.1 N-Quads that means the call, if and only if its terms are lawful |
| NQuadsStandard.DocumentMeans | nquads/writer.go:17-64 | any sequence of writer calls with clean comments is an N-Quads document that means exactly their quads in order, if and only if all their terms are lawful |
| NQuadsStandard.WriteDocument | nquads/writer.go:17-64 | the same of the writer object |
| SwBundle.Writer.constructor | bundle/writer.go:22-52 | a new writer has the media type entry and the statements about the bundle itself |
| SwBundle.Writer.InsertFile | bundle/writer.go:54-99 | adds the content under its digest name, and the blank line, comment, declaration and hash of the file |
| SwBundle.Writer.LinkToParent | cmd/swbundle/main.go:95-104 | the link from the parent, in the graph of the parent, and nothing for the root |
| SwBundle.Writer.ReadFile | cmd/swbundle/main.go:114-154 | link, file and content type, in this order |
| SwBundle.Writer.ReadDir | cmd/swbundle/main.go:75-157 | the recursive walk makes exactly the calls and archive entries of Emits, which BundleTree.WalkIsComplete compares with the tree |
| SwBundle.Writer.ReadEntries | cmd/swbundle/main.go:106-113 | the loop over the names of a directory, compared with the tree by BundleTree.EntriesAreComplete |
| SwBundle.Writer.Close | bundle/writer.go:101-114 | the statements become the last entry of the archive |
| SwBundle.WriteBundle | cmd/swbundle/main.go:35-54 | succeeds if and only if no list of names leads to an entry that cannot be opened; the archive holds the media type, exactly the files that lists of names lead to before the first such entry, each under its digest name, and the statements, whose text is read back as the statements of the bundle |
| SwBundle.EmitsStop | cmd/swbundle/main.go:109-112 | after a failure the walk emits nothing more |
| BundleTree.WholeIff | cmd/swbundle/main.go:75-92 | nothing is broken if and only if no list of names leads to a broken entry |
| BundleTree.WholeReaches | cmd/swbundle/main.go:106-113 | when nothing is broken, everything that a list of names leads to is reached |
| BundleTree.WalkIsComplete | cmd/swbundle/main.go:75-157 | for every tree and place: a file is emitted if and only if a list of names leads to it before the first broken entry, with its path and content; a statement is emitted if and only if it is the declaration, the link from its own parent, the hash or the type of something so reached; the walk succeeds if and only if nothing is broken |
| BundleTree.EntriesAreComplete | cmd/swbundle/main.go:106-113 | the same for the first n entries of a directory |
| BundleTree.BundleSays | bundle/writer.go:35-50 | the statements of a bundle are those about itself and those about the places of the tree, and no others |
| BundleTree.BundleKeeps | bundle/writer.go:54-99 | the files of a bundle are the files of the tree that are reached |
| BundleTree.BundleWantsFiles | server2/bundle.go:213-219 | for every tree and base: a hash is asked for if and only if it is that of a file of the tree whose path resolves under the base |
| BundleWalk.TreeClosed | cmd/swbundle/main.go:75-157 | for every tree, each quad emitted names a graph declared earlier in the stream |
| BundleWalk.BundleClosed | bundle/writer.go:35-50 | the same for the whole bundle, starting from nothing declared |
| BundleWalk.InsertedIff | server2/bundle.go:193-219 | a statement of such a stream is inserted if and only if the name of its graph resolves under the base |
| BundleWalk.BundleInserts | cmd/swbundle/main.go:75-157 | for every tree and base: each quad of the bundle is inserted if and only if the name of its graph resolves under the base |
| BundleWalk.TreeHashes | bundle/writer.go:90-96 | the hash statements are those of the files put into the archive, in order |
| BundleWalk.BundleWants | server2/bundle.go:213-219 | the hashes asked for are exactly those of the files whose paths resolve under the base |
| SwBundle.TreeLegible | nquads/reader.go:53-132 | the calls of a tree with plain names are all read back |
| SwBundle.Publish | server2/bundle.go:182-268 | directory to archive to text to statements to update: the hashes asked for are exactly those of the files of the tree whose paths resolve under the base, and the statements received are exactly those about the bundle and its places; the characters of the update mean what is meant if and only if every term is well formed |
| JUrl.ProgressAuthority | webcomponents-lite.js:295-324 | in the authority state the buffer is the input just before the cursor, so the rewind lands inside the input, and the round descends |
| JUrl.ProgressScheme | webcomponents-lite.js:117-163 | the reset of the cursor at the scheme descends |
| JUrl.ProgressRelative | webcomponents-lite.js:199-244 | the relative states descend |
| JUrl.ProgressPath | webcomponents-lite.js:397-438 | the path states descend |
| JUrl.Progress | webcomponents-lite.js:114-456 | for every input, base and state override, each round keeps the configuration well formed and descends in (state rank, remaining input), so the loop ends |
| JUrlPreserve.Keeps | webcomponents-lite.js:114-456 | one round keeps the invariant: the fields read so far are normal for their state |
| JUrlPreserve.HostIsOk | webcomponents-lite.js:89-93 | a host is lower-cased and normal |
| JUrlPreserve.PortIsOk | webcomponents-lite.js:374-389 | a port is decimal without leading zeros and never the default of the scheme |
| JUrlPreserve.SegmentAdded | webcomponents-lite.js:410-427 | for schemes other than file, a segment pushed on the path is normal: escaped, without slash, and no dot segment |
| JUrlPreserve.RunKeeps | webcomponents-lite.js:114-456 | the invariant holds to the end of every run |
| JUrlPreserve.NewIsNormal | webcomponents-lite.js:471-477 | for every text and every admissible base: the result is invalid, a file URL, without an authority, or in normal form |
| JUrlPreserve.EveryUrlIsNormal | webcomponents-lite.js:471-477 | so is every URL reached by resolving any list of references one against the other |
| JUrlDotFree.SegmentKeeps | webcomponents-lite.js:410-427 | for every scheme, file included, no segment pushed on the path is a dot segment or an encoded variant of one |
| JUrlDotFree.ParseIsDotFree | webcomponents-lite.js:109-457 | for every text, base and state override: no dot segment in the path of the result if none was in the fields and the base |
| JUrlDotFree.EveryUrlIsDotFree | webcomponents-lite.js:471-477 | no URL reached by resolving any list of references, file URLs included, has a dot segment in its path |
| JUrlFixpoint.NormalIsFixpoint | webcomponents-lite.js:482-489 | a URL in normal form prints as a text that parses to the same URL |
| JUrlFixpoint.HrefRoundTrip | webcomponents-lite.js:482-489 | printing any parsed hierarchical URL and parsing it without a base gives the same value in every field |
| JUrlFixpoint.CredentialsReadBack | webcomponents-lite.js:301-314 | printed user name and password are read back into the same two fields |
| JUrlFixpoint.ReadsHost | webcomponents-lite.js:345-372 | a printed host is read back up to the path, with or without a port |
| JUrlFixpoint.ReadsSegment | webcomponents-lite.js:405-438 | a printed segment is pushed as itself |
| JUrlDots.StackIsRemoveDots | webcomponents-lite.js:410-427 | the path stack computes remove_dot_segments of section 5.2.4 of RFC 3986 for every list of segments |
| JUrlDots.ResolvesRelativePath | webcomponents-lite.js:230-243 | for a reference that starts with a segment: the base path up to its last slash, followed by the reference, with dot segments removed (section 5.2.3) |
| JUrlDots.ResolvesAbsolutePath | webcomponents-lite.js:246-266 | for a reference that starts with one slash: the reference itself with dot segments removed |
| JUrlResolve.RunsReference | webcomponents-lite.js:199-266 | from the relative state on, for a reference of any form (empty, query, fragment, segment, one slash, two slashes), the path is the target path of section 5.2.2 of RFC 3986 with dot segments removed, or the URL is invalid |
| JUrlResolve.RunsSlashes | webcomponents-lite.js:268-293 | from the slashes before an authority on, the path is the text after the authority with dot segments removed, or the URL is invalid |
| JUrlResolve.ReferenceResolves | webcomponents-lite.js:179-266 | every text without a scheme against a base in normal form, references with an authority included |
| JUrlResolve.SchemeResolves | webcomponents-lite.js:131-163 | every text with a scheme whose URLs have an authority: an absolute URL, or a reference when the base has the same scheme and no two slashes follow |
| JUrlSpec.ReferenceComponents | webcomponents-lite.js:179-266 | for every text without a scheme and every base in normal form: scheme, user name, password, host and port are those of the base unless two slashes open the text; the query is that of the base for an empty text or one that opens with a hash, otherwise the escaped text from the first question mark before any hash; the fragment is the text from the first hash (section 5.2.2 of RFC 3986) |
| JUrlSpec.SchemeComponents | webcomponents-lite.js:131-163 | the same for every text with a scheme whose URLs have an authority: all fields of an absolute URL are read off the text, and scheme:path against a base of the same scheme resolves like a reference |
| JUrlSpec.RunsWholeAuthority | webcomponents-lite.js:295-395 | for every text behind the slashes: user name, password, host and port are the parts of the text before the first slash, question mark or hash |
| JUrlSpec.CredentialsAre | webcomponents-lite.js:301-314 | the loop over the buffer adds the escaped text before its first colon to the user name, and makes the escaped text behind it the password |
| JUrlSpec.PortIs | webcomponents-lite.js:374-389 | a port is its digits without leading zeros, and none when it is the default of the scheme |
| JUrlFile.OpaqueComponents | webcomponents-lite.js:165-177 | every text whose scheme has no authority: the data are the escaped text up to a hash; a question mark is an exception |
| JUrlFile.FileComponents | webcomponents-lite.js:199-343 | every field of a file URL, with any base or none, drive letters included |
| JUrlFile.FileSegmentIs | webcomponents-lite.js:410-427 | a segment of a file URL changes the path as it does for any other scheme, but for a drive letter with a bar at its start |
| JUrlFile.DotMappingIs | webcomponents-lite.js:76-80 | a segment is taken for a dot segment if and only if it is one or two dots once its percent-encoded dots are decoded |
| JUrlFile.EscapesAre | webcomponents-lite.js:94-107 | which characters stand for themselves; any other is written as the percent-encoded bytes of its UTF-8 form (section 3 of RFC 3629) |
| JUrlFile.TrimIs | webcomponents-lite.js:475 | the text that is parsed is the given one without the white space at its ends |
| JUrlFile.ParseMakes | webcomponents-lite.js:109-457 | for every text and every admissible base, with or without a scheme, of any kind: all fields of the result |
| JUrlPrints.NewIsSettled | webcomponents-lite.js:471-477 | whatever the text and the base: the result is invalid, in normal form, a file URL or a URL without authority, each with nothing left to escape |
| JUrlPrints.OpaquePrints | webcomponents-lite.js:482-489 | the print of a URL without authority is parsed as the same URL |
| JUrlPrints.FilePrints | webcomponents-lite.js:482-489 | so is the print of a file URL that is its own |
| JUrlPrints.PrintsBack | webcomponents-lite.js:482-489 | a valid URL of any kind prints as a text that is parsed as the same URL, if and only if it is no file URL with borrowed credentials, port, drive-letter host or path |
| JUrlPrints.EveryUrlPrints | webcomponents-lite.js:471-489 | the same of every URL reached by resolving any list of references one against the other |
| JUrlPrints.BorrowsCredentials | webcomponents-lite.js:199-217 | a file URL that borrows a user name, concretely |
| JUrlThrows.ThrowsIff | webcomponents-lite.js:131-266 | the parser, on cleared fields, ends in an exception if and only if the text has a scheme without authority and then a question mark before any hash, or the scheme file with no base and then neither a slash nor a drive letter |
| JUrlThrows.ThrowsOn | webcomponents-lite.js:165-168 | two such texts |
| JUrlThrows.SettersNeverThrow | webcomponents-lite.js:496-547 | started by the setter of a single component, on any text, fields and base, the parser never ends in an exception |
| JUrlObject.Url.Clear | webcomponents-lite.js:458-470 | resets every field |
| JUrlObject.Url.RoundSchemeStart | webcomponents-lite.js:117-129 | the round on the object is the step on its value |
| JUrlObject.Url.RoundScheme | webcomponents-lite.js:131-163 | likewise |
| JUrlObject.Url.RoundNoScheme | webcomponents-lite.js:165-197 | likewise for scheme data, no scheme, and relative or authority |
| JUrlObject.Url.RoundRelative | webcomponents-lite.js:199-244 | likewise |
| JUrlObject.Url.RoundSlash | webcomponents-lite.js:246-293 | likewise for the slash states |
| JUrlObject.Url.AppendCredentials | webcomponents-lite.js:302-314 | the loop over the buffer of the authority |
| JUrlObject.Url.RoundAuthority | webcomponents-lite.js:295-324 | likewise |
| JUrlObject.Url.RoundHost | webcomponents-lite.js:326-372 | likewise for the two host states |
| JUrlObject.Url.RoundPort | webcomponents-lite.js:374-395 | likewise |
| JUrlObject.Url.EndSegment | webcomponents-lite.js:410-427 | the end of a segment changes the path in place as the stack function does |
| JUrlObject.Url.RoundPath | webcomponents-lite.js:397-438 | likewise |
| JUrlObject.Url.RoundEnd | webcomponents-lite.js:440-453 | likewise for query and fragment |
| JUrlObject.Url.Parse | webcomponents-lite.js:109-457 | the loop on the object ends and leaves it with the value of the run, or throws; on cleared fields every field is the one that section 5.2.2 of RFC 3986 and the text give it (Made), and it throws exactly on the texts and bases of Throws; it never throws when a setter started it |
| JUrlObject.Url.ToString | webcomponents-lite.js:482-489 | prints the value |
| JUrlObject.Create | webcomponents-lite.js:471-477 | constructing an object parses the trimmed text: every field is the one read off the text or taken from the base (Made); throws exactly on the texts and bases of Throws |
| JUrlObject.PrintAndParse | webcomponents-lite.js:471-489 | of two objects, the second made from the print of the first has the same value if and only if the first, when it is a file URL, has borrowed nothing from a base of another scheme |
| MutationObserver.MergeKeepsOne | webcomponents-lite.js:793-807 | merging one more matching registration keeps what a mutation added to a queue at one record, and upgrades it when the old value is asked for |
| MutationObserver.GrownMerged | webcomponents-lite.js:793-807 | the same for one observer in the middle of the walk, with its scheduling |
| MutationObserver.GrownApart | webcomponents-lite.js:678-691 | a registration that does not concern an observer leaves it alone |
| MutationObserver.NeverHears | webcomponents-lite.js:723-736 | an observer without registrations is not interested in any event, wherever it happens |
| MutationObserver.WithoutOne | webcomponents-lite.js:726-733 | dropping the first registration of an observer from a list drops them all |
| MutationObserver.Globals.GetRecordWithOldValue | webcomponents-lite.js:769-774 | the copy of the current record is made once |
| MutationObserver.Globals.SelectRecord | webcomponents-lite.js:778-785 | which record takes the place of the last one |
| MutationObserver.Globals.Enqueue | webcomponents-lite.js:793-807 | the queue after one more record, and the scheduling of a queue that was empty |
| MutationObserver.Globals.RecordFor | webcomponents-lite.js:861-905 | no record unless the options want the event; the current record when they do; and its one copy with the previous value when they ask for that too |
| MutationObserver.Globals.VisitRegistration | webcomponents-lite.js:682-688 | one registration of the walk keeps, for every observer, what the mutation has added so far |
| MutationObserver.Globals.EnqueueAll | webcomponents-lite.js:678-691 | the whole walk over ancestors and registrations |
| MutationObserver.Globals.HandleEvent | webcomponents-lite.js:850-908 | for one mutation and any table of registrations: the queue of an observer grows by one record if and only if it has a registration, on the node or with subtree on an ancestor, that sets childList for a node inserted or removed, characterData for a text, or attributes for an attribute, with a filter that is empty or holds its name or namespace; the record tells the event, with the old value if and only if such a registration asks for it; every other queue is unchanged; observers are scheduled exactly when their queue was empty |
| MutationObserver.Globals.NewObserver | webcomponents-lite.js:693-698 | a new observer has no records and no nodes, and disturbs no other |
| MutationObserver.Globals.Observe | webcomponents-lite.js:700-722 | rejects exactly the options that watch nothing, or ask for old values or filter attributes without watching them; otherwise there is one registration of the observer on the node, with these options |
| MutationObserver.HearsIff | webcomponents-lite.js:678-691 | what the walk over ancestors and registrations finds is exactly what is said of the table |
| MutationObserver.Globals.ObserveFirst | webcomponents-lite.js:700-722 | for an observer without registrations, the one on the node is then its only one |
| MutationObserver.Globals.ObserveThenMutate | webcomponents-lite.js:700-908 | observe and then one mutation: the observer gets one record if and only if the node is where it happened, or above it with subtree, and the given options want the event |
| MutationObserver.Globals.Disconnect | webcomponents-lite.js:723-736 | leaves exactly the registrations of the other observers, on every node |
| MutationObserver.Observer.TakeRecords | webcomponents-lite.js:737-741 | hands out the queue and empties it |
| HeaderGrammar.TokenEnd | server/headerparse.peg:42 | a token extends exactly over the run of token characters |
| HeaderGrammar.QuotedItems | server/headerparse.peg:14 | the content of a quoted string never contains the end mark |
| HeaderGrammar.AuthParams | server/headerparse.peg:12 | a match stays inside the header, consumes something, and recovers no value with an end mark |
| HeaderGrammar.ChallengeCred | server/headerparse.peg:11 | either alternative recovers credentials without an end mark |
| HeaderGrammar.Start | server/headerparse.peg:9 | a match stops at the end mark and means one or two credentials |
| HeaderCfg.StartIff | server/headerparse.peg:9-43 | for every header: the ordered, backtracking grammar accepts it with these credentials if and only if the productions, as relations without order or look-ahead, derive them from its text |
| HeaderCfg.DerivedStarts | server/headerparse.peg:9-43 | whatever the productions derive from a header is what is recovered from it, so there is at most one reading |
| HeaderCfg.TokenChars | server/headerparse.peg:42-43 | the token characters are those of section 3.2.6 of RFC 7230, and those of a token68 the ones of section 2.1 of RFC 7235 |
| HeaderCfg.MeaningIff | server/headerparse.go:12-27 | the methods of a header: one for each scheme, with, for each key, the value that comes last; a second token68 is the parameter base64 of the first, a first one is an exception, and a header that the productions do not derive has no methods |
| HeaderCfg.HeadersMean | server/auth.go:66-84 | the same for a list of headers |
| HeaderCfg.BasicRefused | server/headerparse.peg:11 | credentials of the Basic scheme are not accepted: a scheme needs a parameter |
| HeaderCfg.BlankBeforeComma | server/headerparse.peg:10-15 | two challenges with a blank before the comma are not accepted, concretely |
| HeaderParser.Matcher.Expand | server/headerparse.peg.go:616-636 | makes room without changing the tokens that count |
| HeaderParser.Matcher.Add | server/headerparse.peg.go:769-775 | writes an entry over whatever an abandoned alternative left; in range, the 16-bit fields hold it exactly |
| HeaderParser.Matcher.MatchDot | server/headerparse.peg.go:777-783 | takes a character unless it is the end mark |
| HeaderParser.Matcher.MatchWs | server/headerparse.peg.go:1612-1640 | fails with everything restored, or adds exactly the tokens of its match |
| HeaderParser.Matcher.SkipWs | server/headerparse.peg.go:812-821 | the loop undoes its last, failing round |
| HeaderParser.Matcher.MatchToken | server/headerparse.peg.go:1363-1609 | as MatchWs, for the token rule |
| HeaderParser.Matcher.MatchToken68 | server/headerparse.peg.go:929-1071 | the token68 rule expanded in place: on failure the tokens recorded before are still there |
| HeaderParser.Matcher.MatchQuotedStrChar | server/headerparse.peg.go:1337-1362 | as MatchWs |
| HeaderParser.Matcher.MatchQuotedItem | server/headerparse.peg.go:1216-1258 | one round of the string loop, with its two look-aheads and its alternative |
| HeaderParser.Matcher.MatchQuotedString | server/headerparse.peg.go:1199-1265 | expanded in place |
| HeaderParser.Matcher.MatchAuthParamVal | server/headerparse.peg.go:1188-1300 | the quoted alternative is abandoned without a trace before the token alternative |
| HeaderParser.Matcher.MatchWsOrComma | server/headerparse.peg.go:1096-1145 | the two alternatives of the separator |
| HeaderParser.Matcher.MatchParamHead | server/headerparse.peg.go:1096-1187 | separator, name and equals sign |
| HeaderParser.Matcher.MatchAuthParams | server/headerparse.peg.go:1090-1318 | the recursive parameter rule: restored, or exactly its tokens |
| HeaderParser.Matcher.MatchAuthParamsStar | server/headerparse.peg.go:1301-1310 | the loop of parameter rules |
| HeaderParser.Matcher.MatchChallengeCred | server/headerparse.peg.go:891-1089 | scheme and parameters, or a lone token68, with backtracking between them |
| HeaderParser.Matcher.MatchSecondCred | server/headerparse.peg.go:825-858 | the optional second credentials, undone when they fail |
| HeaderParser.Matcher.MatchStart | server/headerparse.peg.go:803-888 | the start rule refines the grammar: fails with position, token index and tokens restored, or adds exactly the tokens of the derivation |
| HeaderParser.HeaderParser.Parse | server/headerparse.peg.go:742-763 | succeeds exactly on the headers of the grammar, with the token list of the derivation |
| HeaderParser.HeaderParser.Set | server/headerparse.go:19-27 | sets a parameter of the last method, or is an index out of range |
| HeaderParser.HeaderParser.AddScheme | server/headerparse.go:12-17 | adds a method without parameters |
| HeaderParser.HeaderParser.Execute | server/headerparse.peg.go:714-740 | the loop over the tokens is the function of the token list |
| HeaderParser.GetAuthParams | server/auth.go:66-84 | for all headers together: the methods that the productions of the grammar give each header, joined in order; an exception if and only if some header is accepted and opens with a lone token68 |
| HeaderActions.ExecuteIsMeaning | server/headerparse.peg.go:714-740 | on an accepted header, running the tokens yields the denotation of the grammar; abandoned alternatives have no effect |
| HeaderActions.ExecuteFails | server/headerparse.go:19-27 | running the tokens is an exception if and only if the header opens with a lone token68, which no scheme precedes |
| HeaderActions.MeaningsFail | server/auth.go:66-84 | a list of headers is an exception if and only if one of them is accepted and opens with a lone token68 |
| HeaderActions.TokenAlone | server/headerparse.go:19-22 | the header of one letter is such a header |
| HeaderActions.MeaningIsClean | server/headerparse.peg.go:777-783 | whatever the header, no value recovered from it contains U+0004 |
| HeaderRoundTrip.ItemsRead | server/auth.go:54-56 | an escaped text is unescaped up to its closing quote, whatever follows |
| HeaderRoundTrip.ListRoundTrip | server/auth.go:54-56 | a scheme and its parameters, printed with escape and joined by a comma and a blank, are recovered exactly and in order if and only if no value contains U+0004 |
| HeaderRoundTrip.ListMeaning | server/auth.go:54-56 | with distinct keys, the parsed header is one method that maps each key to its value and nothing else, if and only if no value contains U+0004 |
| HeaderRoundTrip.ChallengeIsPrinted | server/auth.go:275-277 | the text of Authenticate is such a list |
| HeaderRoundTrip.ChallengeRoundTrip | server/auth.go:275-277 | it parses back to exactly the scheme and every parameter if and only if realm and path have no U+0004 |
| DigestCache.DigestAuth.SortedEntries | auth/digest.go:61-66 | the entries of the cache, each nonce once, sorted by when they were last seen, in whatever order the map is walked |
| DigestCache.OldestFirst | auth/digest.go:67-69 | the first entries in sorted order are the oldest: none that stays was seen earlier than one that goes |
| DigestCache.DigestAuth.Purge | auth/digest.go:60-70 | removes that many oldest entries, or is an exception exactly when there are not as many |
| DigestCache.DigestAuth.RequireAuth | auth/digest.go:76-88 | fails exactly when a purge is due and too few nonces are live; otherwise purges 2 * tolerance nonces when there are more than size + tolerance, none of which was issued or accepted later than one that stays, and then issues the new nonce; one event more in the history |
| DigestCache.DigestAuth.CheckSession | auth/digest.go:153-166 | in terms of the events of the run: accepts exactly a nonce issued and not purged since, whose last accepted counter is zero or smaller |
| DigestCache.RunKeeps | auth/digest.go:60-166 | every run keeps: the cache holds exactly the live nonces, each with the last counter accepted |
| DigestCache.CacheIsHistory | auth/digest.go:60-166 | for every run: the cache is a function of its events: the live nonces, each with its last accepted counter and the time of the last event that issued it or was accepted for it |
| DigestCache.SeenAt | auth/digest.go:161-166 | that time is the time of an event of the run, and no later event issued the nonce or was accepted for it |
| DigestCache.PurgeTakesOldest | auth/digest.go:60-88 | in every run, no nonce that a purge removes was issued or accepted later than one that stays |
| DigestCache.NoReplay | auth/digest.go:159-164 | in every run the positive counters accepted for a nonce increase strictly |
| DigestCache.OnlyWhileLive | auth/digest.go:153-158 | nothing is accepted for a nonce before it is issued or after it is purged |
| DigestCache.OnlyZeroReplays | auth/digest.go:159-164 | some run accepts a pair twice if and only if its counter is zero and nonces can be issued at all |
| DigestCache.BoundedIff | auth/digest.go:76-80 | in every run the cache stays within size + tolerance + 1 entries and no purge fails, if and only if 1 <= tolerance <= size + 1 |
| Bits.OrDisjoint | auth/md5crypt.go:83 | the bitwise or of numbers without common bits is their sum |
| Md5Crypt.CarriesByte | auth/md5crypt.go:82-84 | one more byte keeps v < 2^bits and the number written so far |
| Md5Crypt.CarriesSymbol | auth/md5crypt.go:84-87 | one more symbol keeps them |
| Md5Crypt.PackBytes | auth/md5crypt.go:79-89 | for any non-empty input the streaming loop writes ceil(8n/6) symbols: the digits in base 64 of the number whose digits in base 256 are the bytes |
| Md5Crypt.PackRoundTrip | auth/md5crypt.go:79-89 | the bytes are recovered from the symbols |
| Md5Crypt.PackSixteen | auth/md5crypt.go:79-89 | on 16 bytes: five groups of three bytes in four symbols each, and a last byte in two |
| Md5Crypt.SwapsPermute | auth/md5crypt.go:8 | the table is a permutation of the digest |
| Md5Crypt.HashTextForm | auth/md5crypt.go:8-89 | the text of a digest has 22 symbols, in the classical grouping |
| Md5Crypt.HashTextInjective | auth/md5crypt.go:79-89 | different digests have different texts |
| Md5Crypt.EntryRoundTrip | auth/md5crypt.go:14-27 | an entry is read back if and only if neither identifier nor salt contains the separator |
| Md5Crypt.AcceptsIff | auth/basic.go:46-53 | an entry made from a password accepts exactly the passwords with the same digest, whatever the digest function |
| FileSystem.ChildPath | server/filesystem.go:224-258 | a child stands below the directory of the entry: the joined and cleaned path is the path of the place |
| FileSystem.NavigateStands | server/filesystem.go:180-273 | after any navigation by child names, parameters and directories the entry stands at the place of the navigation |
| FileSystem.SameFileIff | server/filesystem.go:12-19 | two navigations lead to the same data file if and only if they lead to the same place |
| FileSystem.ChildComposes | server/filesystem.go:224-258 | going down by a and then by b is going down by a/b: same path, name and level |
| FileSystem.AnyChild | server/filesystem.go:224-258 | whatever its name (dot segments, doubled slashes, parents), a child is the one with the cleaned name |
| FileSystem.SameFileForAnyNames | server/filesystem.go:12-19 | two lists of requests, with names of any form, lead to the same data file if and only if their cleaned forms lead to the same place |
| FileSystem.LevelIs | server/filesystem.go:180-273 | for requests with names of any form: the level counts the names and parameters on the way, and the name of the entry is the last one on the way |
| FileSystem.ParametersOfChild | server/filesystem.go:12-19 | the data file of the parameters of a/b, concretely |
| UrlParents.NextShorter | server2/server.go:160-173 | from a rooted path other than the root, one round gives a shorter rooted path |
| UrlParents.EndsIffRooted | server2/server.go:160-173 | the loop reaches the root if and only if the path is rooted; on the empty path it fails, on any other relative path it never ends |
| UrlParents.Urls | server2/server.go:150-175 | the returned chain: the URL if it has a fragment, without it if it has a query, and then bare with its path and each shorter path of the loop |
| UrlParents.ChainOfClean | server2/server.go:160-173 | a clean path of k names has k + 1 path entries: itself and its directories, the nearest first, down to the root |
| UrlParents.ChainOfAny | server2/server.go:160-173 | for any rooted path, clean or not: the paths of the chain are the path as it is and then its directories, cleaned |
| UrlParents.ParentLinks | server2/server.go:122-126 | one link for each neighbouring pair of the chain, from the root on, spelled by position |
| UrlParents.LinksConnect | server2/server.go:122-126 | the links form one chain from the root to the URL, and no URL appears twice |

## Left out

- Characters are Unicode scalars: offsets of the header parser are offsets of characters, which are bytes only for ASCII headers.
- NQuadsReader.Reader.ReadHexDigits: stops with an error of its own at a character outside ASCII, where the source goes on with the bytes of its encoding.
- NQuadsReader.Reader.ReadLanguageTag: likewise, where the first byte ends the tag in the source.
- SparqlText: prefixed names, numbers, long and single-quoted strings, variables, collections and the code point escapes of section 19.2 of the SPARQL 1.1 Query Language are not read; well-formed terms hold none of them, and a text that uses them is no update of the model.
- BundleEffect.BundleReplacesGraphs: for statements that are not well formed it says that some store is not changed as meant, and not what a store does with the text.
- Blank nodes are constants of the store: the renaming of blank node labels per request is not modelled.
- MakeStatements: the warnings are kept as which statement was logged and why, not as formatted text.
- HTTP handlers, the SPARQL client, zip, file and temporary-file I/O, logging and timing; the archive is a list of entries.
- JUrl: code points outside the basic plane, ports beyond the precision of a double, the error list of the parser (it has no effect), and the setters of single components other than as state overrides of Parse.
- JUrlResolve.SchemeResolves: the path of a file URL is not compared with remove_dot_segments of RFC 3986; it is computed segment by segment in `JUrlFile.FileComponents`, differs from other schemes only by a drive letter (`JUrlFile.FileSegmentIs`), and holds no dot segment (`JUrlDotFree.EveryUrlIsDotFree`).
- JUrlFile.ParseMakes: says nothing of a base that has an authority and is not in normal form, which no parse produces.
- NQuadsEnds.RefusedIff: of the errors inside an escape sequence and of an end of the text behind the subject it is not said which one is reported.
- NQuadsStandard.DocumentMeans: a comment whose carriage returns uncover something is excluded by a precondition; what it uncovers for the reader of the repository is `NQuadsRoundTrip.CommentSkips`.
- MutationObserver: the delivery of records to callbacks is not modelled.
- MutationObserver.Globals.HandleEvent: the transient registration that a removed node gets is not made (a table that holds such registrations is covered), and a removed node enqueues as an inserted one does.
- MutationObserver.Globals.Observe: the event listeners on the node are not modelled.
- MutationObserver.Globals.Disconnect: likewise; and a node carries at most one registration of an observer, as Observe alone leaves it.
- HeaderParser.Matcher.Add: headers of 2^15 characters or more, whose positions the 16-bit token fields truncate, are excluded by a precondition; the truncation itself is modelled.
- HeaderParser.HeaderParser.Parse: likewise.
- HeaderParser.GetAuthParams: likewise.
- The debugging code of the generated parser (Order, PreOrder, Print, Highlighter, error text), its goroutine channels, and splitHeader of server/auth.go.
- DigestCache: requests are atomic steps, a nonce is never drawn twice, and the digest of a request has been verified before CheckSession.
- The rounds of MD5Crypt before the packing loop: the digest is an unknown function of password, salt and magic.
- Md5Crypt: the aliasing of the slices that MD5Crypt appends to is not modelled.
- FileSystem: Parent, File, Exists, Children, Write and Delete of an entry.
- UrlParents.Urls: paths that are not rooted, on which the loop of the source does not end (`UrlParents.EndsIffRooted`), are excluded by a precondition.
- SwBundle: names read from a directory are not empty, hold no slash and are not dot names, as the operating system guarantees, so joining appends them; the recognition of style sheets and scripts by extension is part of the media type parameter.
- TLS, keys, certificates, httpmux, rdf/rdf.go, access-control lists, HTML imports, custom elements, templates and the other scripts: plumbing or foreign bindings.
