# PathwayMatcher core, modelled in Dafny

PathwayMatcher maps a list of biological identifiers onto the reactions and
pathways of the Reactome knowledge base. This project models the part of
its entry point and matching stages that works on plain data:

- the run settings the entry point keeps (`outputPath`, `matchType`,
  `margin`, the input lines), their defaults, and how the output directory
  is normalised to end with `/`;
- the validation loops over RSID and chromosome/base-pair input rows: empty
  rows draw `EMPTY_ROW`, rows the input pattern rejects draw `INVALID_ROW`,
  and the others are collected into a set of RSIDs or a multimap from
  chromosome to base pairs;
- `getSnpFromChrBp`, which splits a row at whitespace and reads the
  chromosome as an `Integer` and the base pair as a `Long`;
- `writeSearchResults`, which writes each result row as one tab-separated line;
- `writeConnectionGraph`, which writes a vertex file with one line per hit
  protein, plus an internal and an external edge file. The edge files hold
  the ordered participant pairs of every reaction and complex a hit protein
  belongs to, and the ordered member pairs of every set that the
  set-to-members table lists under a hit protein's identifier. Each
  container is expanded once. The pair of participants or members decides
  the file: internal when both are hit proteins, external when exactly one
  is. For reactions and complexes those two are also the two ends written.
  A set edge is written from the hit protein that listed the set to the
  second member, so its written ends need not be the pair that chose its
  file;
- the protein preprocessor, which trims every line, keeps the lines that
  look like UniProt accessions as proteoforms, and reports the others;
- the proteoform matcher's coordinate test `matches(Long, Long)`. It
  treats -1 and null as "unset", and unset matches anything. Two set
  coordinates match when they lie at most `margin` apart. `match` itself
  returns an empty mapping, because its whole loop body is disabled.

Files:

- `wrappers.dfy`: `Option`.
- `pap_model.dfy`: proteoforms, variants, warnings and match types.
- `java_text.dfy`: the Java string operations the code relies on (`trim`,
  `split("\\s")`, `Integer.valueOf`/`Long.valueOf`, joining).
- `matcher_proteoforms.dfy`, `preprocessor_proteins.dfy`,
  `pathway_matcher.dfy` and `connection_graph.dfy`: one per source file.

Output files are instances of class `Writer`. A `Writer` records the text
written to it and the line separator its `NewLine` writes. The operations
that loop and write are methods. Each method is proved against a function
that states what the whole loop produces. Lemmas about those functions
state what the source promises: iff characterisations, row numbering and
ordering, round trips, and the consistency of the checked sets with the
containers expanded.

Four behaviours that the surrounding names and comments do not lead one
to expect are modelled as the code is written:

- The preprocessor numbers rows from 2: the counter starts at 1 and is
  incremented before use.
- The read-input loop trims only a local variable, so the stored lines
  keep their padding.
- A set edge's first column is the hit protein that listed the set, not
  the member the pair starts from, although the comment above the loop
  speaks of pairs of members.
- The sets of a hit protein are looked up in the set-to-members table
  (`imapSetsToMembersAndCandidates.get(protein)`), the same table the pair
  loops then read for the set's members. So a hit protein lists the sets
  stored under its own identifier as a key of that table, not the sets it
  is a member of (`ProteinStep` and `Table`).

## Model

| member | source | states |
|---|---|---|
| MatcherProteoforms.ClearSentinel | src/main/java/no/uib/pap/pathwaymatcher/Matching/MatcherProteoforms.java:72-73 | the coordinate becomes null exactly when it is null or the sentinel -1; any other coordinate is kept unchanged |
| MatcherProteoforms.Matches | src/main/java/no/uib/pap/pathwaymatcher/Matching/MatcherProteoforms.java:71-82 | an unset coordinate on either side matches; two set coordinates with a non-negative margin match iff their distance is at most the margin |
| MatcherProteoforms.SentinelIsWildcard | src/main/java/no/uib/pap/pathwaymatcher/Matching/MatcherProteoforms.java:72-81 | null and -1 on either side match any coordinate under any margin |
| MatcherProteoforms.MismatchBeyondMargin | src/main/java/no/uib/pap/pathwaymatcher/Matching/MatcherProteoforms.java:74-79 | two set coordinates fail to match iff they lie more than the margin apart |
| MatcherProteoforms.MarginIsInclusive | src/main/java/no/uib/pap/pathwaymatcher/Matching/MatcherProteoforms.java:76 | a distance equal to the margin matches and one more does not |
| MatcherProteoforms.MatchesSymmetric | src/main/java/no/uib/pap/pathwaymatcher/Matching/MatcherProteoforms.java:71-82 | swapping input and reference coordinate does not change the outcome |
| MatcherProteoforms.MatchesReflexive | src/main/java/no/uib/pap/pathwaymatcher/Matching/MatcherProteoforms.java:75-76 | every coordinate matches itself, whatever the margin |
| MatcherProteoforms.MatchesNotTransitive | src/main/java/no/uib/pap/pathwaymatcher/Matching/MatcherProteoforms.java:76 | with margin 5, 10 matches 15 and 15 matches 20 but 10 does not match 20: tolerance is not an equivalence |
| MatcherProteoforms.Match | src/main/java/no/uib/pap/pathwaymatcher/Matching/MatcherProteoforms.java:22-67 | the loop over the input proteoforms adds nothing: the mapping returned is empty for every input set |
| PreprocessorProteins.Process | src/main/java/no/uib/pathwaymatcher/model/stages/PreprocessorProteins.java:21-36 | the proteoforms returned are those of the trimmed lines the pattern accepts, and the warnings are those of the trimmed lines it rejects, in line order |
| PreprocessorProteins.AcceptedFromLine | src/main/java/no/uib/pathwaymatcher/model/stages/PreprocessorProteins.java:25-29 | every kept proteoform is built from some trimmed line that the pattern accepts |
| PreprocessorProteins.LineIsAccepted | src/main/java/no/uib/pathwaymatcher/model/stages/PreprocessorProteins.java:25-29 | the proteoform of every trimmed line the pattern accepts is kept |
| PreprocessorProteins.AcceptedMembership | src/main/java/no/uib/pathwaymatcher/model/stages/PreprocessorProteins.java:25-29 | a proteoform is kept iff some trimmed line passes the pattern and builds it |
| PreprocessorProteins.KeptIffValid | src/main/java/no/uib/pathwaymatcher/model/stages/PreprocessorProteins.java:26-29 | when the constructor is injective, a line's proteoform is kept iff its trimmed form passes the pattern |
| PreprocessorProteins.AcceptedSize | src/main/java/no/uib/pathwaymatcher/model/stages/PreprocessorProteins.java:22-29 | the set of proteoforms never holds more elements than there are lines |
| PreprocessorProteins.RejectedRowRange | src/main/java/no/uib/pathwaymatcher/model/stages/PreprocessorProteins.java:24-31 | every warning is INVALID_ROW and reports a row between 2 and the number of lines plus 1 |
| PreprocessorProteins.RejectedIffInvalid | src/main/java/no/uib/pathwaymatcher/model/stages/PreprocessorProteins.java:24-32 | the line at index k draws a warning for row k + 2 iff its trimmed form fails the pattern |
| PreprocessorProteins.RejectedInOrder | src/main/java/no/uib/pathwaymatcher/model/stages/PreprocessorProteins.java:25-32 | warnings are logged in line order, with strictly increasing row numbers |
| PreprocessorProteins.PaddingIsIgnored | src/main/java/no/uib/pathwaymatcher/model/stages/PreprocessorProteins.java:26 | lines that trim to the same text give the same proteoforms and the same warnings |
| JavaText.Trim | src/main/java/no/uib/pathwaymatcher/model/stages/PreprocessorProteins.java:26 | `trim` returns a slice of the line that neither starts nor ends with a character at or below a space |
| JavaText.TrimSlice | src/main/java/no/uib/pathwaymatcher/model/stages/PreprocessorProteins.java:26 | `trim` removes exactly a run of blanks from each end and keeps the middle unchanged |
| JavaText.TrimIdempotent | src/main/java/no/uib/pap/pathwaymatcher/PathwayMatcher.java:128 | trimming a trimmed line changes nothing |
| JavaText.SplitJoin | src/main/java/no/uib/pap/pathwaymatcher/PathwayMatcher.java:635 | splitting at single separators inverts joining fields free of separators |
| JavaText.RegexSplitTwoFields | src/main/java/no/uib/pap/pathwaymatcher/PathwayMatcher.java:635 | `split("\\s")` of a field, one whitespace, a field and a whitespace-led tail yields those two fields first |
| JavaText.ParseShow | src/main/java/no/uib/pap/pathwaymatcher/PathwayMatcher.java:636-637 | the decimal reading of a written integer in range gives that integer back |
| PathwayMatcher.Driver.constructor | src/main/java/no/uib/pap/pathwaymatcher/PathwayMatcher.java:44-58 | the settings start as an empty output path, SUPERSET matching and margin 0 |
| PathwayMatcher.Driver.ReadInput | src/main/java/no/uib/pap/pathwaymatcher/PathwayMatcher.java:126-129 | the stored input is exactly the lines read; the trimming loop leaves them as they were |
| PathwayMatcher.Driver.SetOutputPath | src/main/java/no/uib/pap/pathwaymatcher/PathwayMatcher.java:136-139 | with the -o option the output path becomes its normalised value; without it, it is unchanged |
| PathwayMatcher.NormalizeOutputPath | src/main/java/no/uib/pap/pathwaymatcher/PathwayMatcher.java:138 | the result ends with `/`, extends the given path by at most one character, and is the path itself when it already ends with `/` |
| PathwayMatcher.NormalizeOutputPathIdempotent | src/main/java/no/uib/pap/pathwaymatcher/PathwayMatcher.java:136-139 | normalising a normalised path leaves it unchanged |
| PathwayMatcher.RowWarningsRange | src/main/java/no/uib/pap/pathwaymatcher/PathwayMatcher.java:222-232 | every warning reports a row between 1 and the number of rows |
| PathwayMatcher.RowWarningsIff | src/main/java/no/uib/pap/pathwaymatcher/PathwayMatcher.java:222-232 | row k + 1 draws EMPTY_ROW iff it is empty, and INVALID_ROW iff it is non-empty and the pattern rejects it |
| PathwayMatcher.RowWarningsInOrder | src/main/java/no/uib/pap/pathwaymatcher/PathwayMatcher.java:222-232 | warnings are sent in row order, at most one per row |
| PathwayMatcher.AcceptedRowsSnoc | src/main/java/no/uib/pap/pathwaymatcher/PathwayMatcher.java:225-233 | one more row joins the RSID set iff it is non-empty and the pattern accepts it |
| PathwayMatcher.CollectRsIds | src/main/java/no/uib/pap/pathwaymatcher/PathwayMatcher.java:220-234 | the RSID set is exactly the distinct non-empty rows the pattern accepts, and the warnings are those of the other rows, in order |
| PathwayMatcher.GetSnpFromChrBp | src/main/java/no/uib/pap/pathwaymatcher/PathwayMatcher.java:634-640 | a variant read from a row has a chromosome in Integer range and a base pair in Long range |
| PathwayMatcher.SnpReadIff | src/main/java/no/uib/pap/pathwaymatcher/PathwayMatcher.java:634-640 | a row with fewer than two whitespace-separated fields gives none (the exception the Java code throws), and otherwise a variant is read iff the first field is a decimal in Integer range and the second one in Long range |
| PathwayMatcher.SnpRowRoundTrip | src/main/java/no/uib/pap/pathwaymatcher/PathwayMatcher.java:630-640 | a row written as chromosome, one whitespace, base pair and an optional whitespace-led tail reads back as that variant |
| PathwayMatcher.Put | src/main/java/no/uib/pap/pathwaymatcher/PathwayMatcher.java:267 | the multimap gains exactly the pair (chromosome, base pair) and keeps no chromosome without base pairs |
| PathwayMatcher.ReadingsSnoc | src/main/java/no/uib/pap/pathwaymatcher/PathwayMatcher.java:256-267 | one more row adds its variant iff it is non-empty and the pattern accepts it |
| PathwayMatcher.ReadRowsAccepted | src/main/java/no/uib/pap/pathwaymatcher/PathwayMatcher.java:256-268 | collecting row by row gives the variants of exactly the accepted rows |
| PathwayMatcher.CollectedAreAccepted | src/main/java/no/uib/pap/pathwaymatcher/PathwayMatcher.java:254-268 | a multimap holding the row-by-row readings holds the variants of the accepted rows |
| PathwayMatcher.CollectChrBps | src/main/java/no/uib/pap/pathwaymatcher/PathwayMatcher.java:254-268 | the multimap holds exactly the variants of the non-empty rows the pattern accepts, with no empty key, and the warnings are those of the other rows, in order |
| PathwayMatcher.WriteFields | src/main/java/no/uib/pap/pathwaymatcher/PathwayMatcher.java:588-593 | the fields of one row are appended with a tab between consecutive fields |
| PathwayMatcher.WriteSearchResults | src/main/java/no/uib/pap/pathwaymatcher/PathwayMatcher.java:585-596 | the file gains every row, in order, as its tab-joined fields followed by a line end |
| PathwayMatcher.SearchTextIsJoinedLines | src/main/java/no/uib/pap/pathwaymatcher/PathwayMatcher.java:587-595 | with a one-character line end, the text written is the row lines joined by it, with a final line end |
| PathwayMatcher.SearchTextDecodes | src/main/java/no/uib/pap/pathwaymatcher/PathwayMatcher.java:585-596 | what is written reads back as the rows given, when no field holds a tab or the line end |
| ConnectionGraph.LexLessStrict | src/main/java/no/uib/pap/pathwaymatcher/PathwayMatcher.java:388 | `compareTo(...) < 0` is a strict total order: never both ways round and never for equal strings, and one way round for distinct ones |
| ConnectionGraph.PairEdgesIff | src/main/java/no/uib/pap/pathwaymatcher/PathwayMatcher.java:388-405 | one pair gives an internal edge iff it is ordered with both ends hit, and an external edge iff it is ordered with exactly one end hit |
| ConnectionGraph.RowInternalIff | src/main/java/no/uib/pap/pathwaymatcher/PathwayMatcher.java:387-407 | the internal edges of one inner pair loop are exactly those of its internal pairs |
| ConnectionGraph.RowExternalIff | src/main/java/no/uib/pap/pathwaymatcher/PathwayMatcher.java:387-407 | the external edges of one inner pair loop are exactly those of its external pairs |
| ConnectionGraph.ContainerInternalIff | src/main/java/no/uib/pap/pathwaymatcher/PathwayMatcher.java:386-408 | the internal edges of a container are exactly those of its internal pairs |
| ConnectionGraph.ContainerExternalIff | src/main/java/no/uib/pap/pathwaymatcher/PathwayMatcher.java:386-408 | the external edges of a container are exactly those of its external pairs |
| ConnectionGraph.PairEndpoints | src/main/java/no/uib/pap/pathwaymatcher/PathwayMatcher.java:388-460 | a reaction or complex edge joins two different participants in compareTo order, both hit if internal and exactly one hit if external; a set edge starts at the protein that listed the set |
| ConnectionGraph.EdgeEndpoints | src/main/java/no/uib/pap/pathwaymatcher/PathwayMatcher.java:386-464 | the endpoint facts hold for every edge a container contributes, which always names that container and its kind |
| ConnectionGraph.MarkChecked | src/main/java/no/uib/pap/pathwaymatcher/PathwayMatcher.java:384 | marking a container checked adds it to the checked set of its kind only, and changes nothing else |
| ConnectionGraph.ExpandChecked | src/main/java/no/uib/pap/pathwaymatcher/PathwayMatcher.java:380-384 | one container-loop turn adds exactly that container to the checked set of its kind |
| ConnectionGraph.ExpandConsistent | src/main/java/no/uib/pap/pathwaymatcher/PathwayMatcher.java:380-408 | one turn keeps the checked sets equal to the containers expanded, none twice, with the files holding their edges |
| ConnectionGraph.ExpandAllChecked | src/main/java/no/uib/pap/pathwaymatcher/PathwayMatcher.java:378-409 | a whole container loop adds exactly the listed containers to the checked set of their kind |
| ConnectionGraph.ExpandAllConsistent | src/main/java/no/uib/pap/pathwaymatcher/PathwayMatcher.java:378-409 | a whole container loop keeps the state consistent and every container expanded was listed for a protein already visited |
| ConnectionGraph.GraphChecked | src/main/java/no/uib/pap/pathwaymatcher/PathwayMatcher.java:376-466 | after the protein loop, each checked set is exactly the containers of its kind listed for the proteins visited |
| ConnectionGraph.GraphConsistent | src/main/java/no/uib/pap/pathwaymatcher/PathwayMatcher.java:376-466 | after the protein loop the state is consistent and every expanded container was listed for a visited protein |
| ConnectionGraph.GraphExpandsEachOnce | src/main/java/no/uib/pap/pathwaymatcher/PathwayMatcher.java:376-466 | every reaction, complex and set listed for a hit protein is expanded exactly once, no other is, and the edge files hold their edges in expansion order |
| ConnectionGraph.AllInternalIff | src/main/java/no/uib/pap/pathwaymatcher/PathwayMatcher.java:376-466 | an edge is in the internal file iff some expanded container contributes it as internal |
| ConnectionGraph.AllExternalIff | src/main/java/no/uib/pap/pathwaymatcher/PathwayMatcher.java:376-466 | an edge is in the external file iff some expanded container contributes it as external |
| ConnectionGraph.ExpandedEdgeEndpoints | src/main/java/no/uib/pap/pathwaymatcher/PathwayMatcher.java:376-466 | the endpoint facts hold for every edge of containers listed for hit proteins |
| ConnectionGraph.GraphEdgeEndpoints | src/main/java/no/uib/pap/pathwaymatcher/PathwayMatcher.java:376-466 | over the whole run, a reaction or complex edge in the internal file joins two different hit proteins, one in the external file joins a hit protein and a non-hit entity, and every set edge starts at a hit protein |
| ConnectionGraph.SetRowsExample | src/main/java/no/uib/pap/pathwaymatcher/PathwayMatcher.java:449-462 | for set S = {A, P} with only P hit, the row of A gives one external edge from P to P, and the row of P gives none |
| ConnectionGraph.SetContainerExample | src/main/java/no/uib/pap/pathwaymatcher/PathwayMatcher.java:449-464 | that set contributes exactly one external edge, from P to P |
| ConnectionGraph.SetEdgeFromListingProtein | src/main/java/no/uib/pap/pathwaymatcher/PathwayMatcher.java:440-465 | with hit protein P in set S = {A, P}, the whole graph has no internal edge and exactly one external edge, from P to P, because a set edge's first column is the listing protein |
| ConnectionGraph.EdgeTextAppend | src/main/java/no/uib/pap/pathwaymatcher/PathwayMatcher.java:399-403 | the text of consecutive edges is the text of the first ones followed by the text of the rest |
| ConnectionGraph.EmitRow | src/main/java/no/uib/pap/pathwaymatcher/PathwayMatcher.java:387-407 | the inner pair loop appends each ordered pair's edge line to the internal or the external file, as the pair requires |
| ConnectionGraph.EmitPairs | src/main/java/no/uib/pap/pathwaymatcher/PathwayMatcher.java:386-408 | the pair loops of one container append exactly the container's internal and external edge lines |
| ConnectionGraph.EmitContainer | src/main/java/no/uib/pap/pathwaymatcher/PathwayMatcher.java:378-408 | one turn skips a checked container; otherwise it adds the container to the checked set and appends the container's edges |
| ConnectionGraph.EmitContainers | src/main/java/no/uib/pap/pathwaymatcher/PathwayMatcher.java:378-409 | one container loop leaves the checked sets and the files as the specification of the whole loop says |
| ConnectionGraph.WriteVertices | src/main/java/no/uib/pap/pathwaymatcher/PathwayMatcher.java:366-370 | the vertex file gains one line per hit protein: its identifier, a tab, and its name or `null` |
| ConnectionGraph.WriteEdges | src/main/java/no/uib/pap/pathwaymatcher/PathwayMatcher.java:376-466 | the edge files gain exactly the internal and external edges of the graph state the protein loop reaches |
| ConnectionGraph.NewFile | src/main/java/no/uib/pap/pathwaymatcher/PathwayMatcher.java:347-354 | a new output file holds its header line and nothing else |
| ConnectionGraph.WriteConnectionGraph | src/main/java/no/uib/pap/pathwaymatcher/PathwayMatcher.java:343-471 | three new files: the vertex file holds its header and one line per hit protein; each edge file holds its header and the edges of the graph |

## Left out

- Command-line parsing, help output, exit codes and the calls into Search and Analysis are not modelled: they are control flow around the core, or code in other files.
- File handling is not modelled: opening, reading, flushing, closing and their I/O exceptions. An output file is a `Writer` holding the text written to it, and the file names built from `outputPath` are not modelled.
- `getSerializedObject` and the gzip-serialised static tables are not modelled. The tables are the `StaticData` parameter of the graph writer.
- `writeAnalysisResult` and the header writers are not modelled. The first works on floating point; the second write fixed text.
- The abstract `matches(Proteoform, Proteoform)` and the EXACT, ONE and SUPERSET policies are not modelled: the implementing matcher classes are not part of this model.
- The input patterns are the parameters `isRsid`, `isChrBp` and `isUniProt`, and the `Proteoform(String)` constructor is the parameter `parse`: their regular expressions and parser are not part of this model. The `ParseException` the constructor may throw is not modelled.
- PreprocessorProteins.Process: the `TreeSet` the Java code returns is ordered and merges duplicates by `Proteoform.compareTo`, which is not part of this model. The model returns an unordered `set` that merges proteoforms by equality, so it assumes that `compareTo` returns 0 exactly for equal proteoforms. The order of the result is not modelled.
- Logger and `sendWarning` calls become the sequence of warnings a loop returns. The message text is not modelled.
- HashSet iteration order and the value order of the multimaps are inputs: `hitProteins` and the table entries are sequences in that order.
- Strings are sequences of Unicode scalar values, not UTF-16 code units. Surrogate pairs are not modelled.
- MatcherProteoforms.Matches: `iC != rC` compares boxed `Long` references. The model compares values. The two agree whenever the margin is non-negative. With a negative margin, Java rejects equal coordinates held in distinct boxes, but the model accepts them. The overflow of `iC - rC` and `Math.abs` at the ends of the Long range is not modelled either.
- MatcherProteoforms.Matches: the margin read from the configuration map is a parameter.
- PathwayMatcher.GetSnpFromChrBp: only ASCII digits are read. `Integer.valueOf` and `Long.valueOf` also accept other Unicode decimal digits. The exceptions for a missing field or a malformed or out-of-range number all become `None`.
- PathwayMatcher.CollectChrBps: it requires every non-empty row the pattern accepts to be readable by `getSnpFromChrBp`. The Java code expects the pattern to guarantee this and would throw otherwise.
- ConnectionGraph.WriteConnectionGraph: it requires every reaction listed for a hit protein to be in the reaction table. The Java code would throw a NullPointerException otherwise. The platform `eol` and the separator that `newLine` writes are taken to be the same string. The unused `hitPathways` and `iPathways` parameters are dropped.
- The run settings other than the input, output path, match type and margin are not modelled. These are `inputType`, the search and analysis results, and the open writers.
