# zag in Dafny

A model of zag's whole-program passes and of the emit machinery behind them, with proofs of what they compute.
zag reads a Zig program into columnar fact tables, works out from them who owns what, and writes Rust. Every pass is
a function of the tables, so each one is stated here against a meaning that does not mention its loops: chains of
calls, chains of call arguments, a direct scan of a table, a bijection, a printer that writes straight from the tables.

Loops, buffers, stamps, cursors and columns are kept as methods, arrays and fields. Each such method is proved
against a specification function, and the lemmas are about that function.

| file | models |
|---|---|
| `Tables.dfy` | the fact tables and their lookups |
| `Grouping.dfy`, `Index.dfy` | the counting sort behind every index, and the emitter's own grouping |
| `Provenance.dfy`, `Slots.dfy` | which allocator reaches each parameter, and which parameter an index names |
| `CallGraph.dfy` | the call table as compressed sparse rows, and the stamped search |
| `Ownership.dfy`, `Analysis.dfy`, `Reasons.dfy` | field ownership, the cached `deinit` closure, and what the classes and the evidence mean end to end |
| `Expressions.dfy` | expression rows, chains of rows, and trees built bottom up |
| `Failure.dfy`, `Reading.dfy`, `Claims.dfy`, `Naming.dfy` | error-set inference: reading bodies and what a row says, propagation, naming |
| `ErrorTypes.dfy` | which type a generated name is, and what the port declares for it |
| `Wire.dfy`, `WireTables.dfy`, `WireLayout.dfy` | the fact file format, and where each number of a file is |
| `Validate.dfy`, `Build.dfy` | what the validator lets through, its range and string checks, and the builders that keep them satisfied |
| `Arena.dfy`, `Lower.dfy`, `Render.dfy` | the flat syntax tree, lowering types into it and printing them out of it |
| `Integers.dfy` | what the name of an integer type says |
| `Body.dfy`, `Gates.dfy` | writing a function body, all of it or none of it, and what keeps one from being written |
| `Printing.dfy`, `BodyText.dfy`, `BodyPrints.dfy` | printing expressions, the text of a body straight from its rows, and that the two agree |
| `Layout.dfy`, `ModuleShape.dfy` | rendering a module and splitting a file back into modules |
| `Repair.dfy` | planning and applying span repairs |
| `RepairOrder.dfy` | what of the outcome depends on the order repairs arrive in |

Where the code and its comments disagree, the code is what is modelled:

- `crates/zag-analysis/src/ownership.rs:136-138` says the alignment test looks through an optional the way the
  reference test does. The code follows every element link, a slice's and a pointer's too
  (`Ownership.OverAlignedIsSomeElement` against `Facts.ReferencesAreBehindOptions`).
- `crates/zag-emit/src/failure.rs:12-14` says a function with a failure that could not be attributed gets no set.
  The code carries that flag and never consults it when naming, so it blocks nothing.
- `crates/zag-emit/src/failure.rs:289-290` says the rounds settle the deepest chain. They are capped at 64, and a
  longer program can lose a failure: `Naming.CapLeavesCallersUnnamed` gives its tables.
  `Failure.ExactExactlyWhenSettled` says exactly when a program loses none, and `Naming.FailuresAreExact` is a test
  for it.
- `crates/zag-emit/src/failure.rs:204-205` says two functions of one name in one module do not share an error set. The
  owner's and the function's names are folded before they are joined, so two functions can still be named alike, and
  then the port declares one type with the variants of whichever came first. `ErrorTypes.OneNameTwoLists` gives tables;
  `ErrorTypes.TypesTellVariantsApartExactlyWhen` says exactly when it does not happen.
- `crates/zag-emit/src/body.rs:490-492` says everything but the last statement of a block is wrapped. The last one is
  wrapped too unless the block ends the function.

Row counts are taken to fit the `u32` columns that store them wherever the code casts one, as a `requires` on the
method that casts or on the lemma that says which row is found (`Claims.Numbered`).

## Model

| member | source | states |
|---|---|---|
| Provenance.JoinIsLeastUpperBound | crates/zag-analysis/src/provenance.rs:36-46 | the join of two classes is below a bound exactly when both are: it is the least upper bound of the four-point order |
| Slots.SlotsAreAsFarApart | crates/zag-analysis/src/provenance.rs:48-60 | two indexes of one function that both resolve name rows as far apart as the indexes are, and index 0 names the row its parameters start at |
| Slots.IndexesAreTheParameters | crates/zag-analysis/src/provenance.rs:48-60 | where the parameter ranges tile, the indexes below a function's count map one to one and in ascending order onto its parameters, hitting every one, and no other index resolves |
| Slots.ArgumentFills | crates/zag-analysis/src/provenance.rs:109-119 | a call argument fills a parameter exactly when its call has a callee of which that parameter is the one at the argument's index |
| Slots.ParameterSourceReads | crates/zag-analysis/src/provenance.rs:62-92 | a parameter source stands for the parameter of its function at its index, and for a conflict where there is none |
| Provenance.ClassOfSourceReadsItsOrigin | crates/zag-analysis/src/provenance.rs:62-92 | a source's class is its own, or what the parameter it names holds; unknown, missing and dangling sources conflict |
| Provenance.MeaningIsASolution | crates/zag-analysis/src/provenance.rs:94-152 | the join over all chains of call arguments satisfies the constraint of every argument, for any tables |
| Provenance.MeaningIsLeast | crates/zag-analysis/src/provenance.rs:94-152 | that join is below every assignment of classes that satisfies all the constraints |
| Provenance.ApplyArgument | crates/zag-analysis/src/provenance.rs:103-140 | one argument raises the class it fills, records the witness row, and logs a disagreement exactly when two real classes first meet |
| Provenance.StepKeepsInvariant | crates/zag-analysis/src/provenance.rs:103-140 | every step keeps each held class delivered by a real row, each conflict explained, and each disagreement justified and the only one of its parameter |
| Provenance.RunRound | crates/zag-analysis/src/provenance.rs:103-146 | a round that changes something raises the total height, and one that changes nothing has met every constraint |
| Provenance.ResolveAllocatorProvenance | crates/zag-analysis/src/provenance.rs:94-152 | it converges within its round limit; every parameter holds the join over all chains that reach it; every disagreement names two different real rows that deliver Global and Arena; a parameter conflicts exactly when an unknown source reaches it or a disagreement flows to it |
| Provenance.MeaningReadsBack | crates/zag-analysis/src/provenance.rs:36-152 | Unset exactly when nothing reaches; Global exactly when a Global source reaches and nothing else does; Arena likewise |
| Provenance.MeaningIsMonotone | crates/zag-analysis/src/provenance.rs:94-152 | a program whose arguments are all matched in another never has a higher class |
| Provenance.ArgumentOrderIsIrrelevant | crates/zag-analysis/src/provenance.rs:94-152 | reordering or repeating the argument rows leaves every class unchanged |
| Grouping.CountingSort | crates/zag-analysis/src/ownership.rs:71-87 | each bucket is exactly the values of its key in their original order, between two consecutive starts |
| CallGraph.BuildCallGraph | crates/zag-analysis/src/call_graph.rs:11-42 | the range of each function holds exactly its call rows and their callees, in table order, and the ranges tile the edge columns |
| CallGraph.EdgesAreCalls | crates/zag-analysis/src/call_graph.rs:44-50 | an edge of the graph is a row of the call table and the other way round |
| CallGraph.VisitCallees | crates/zag-analysis/src/call_graph.rs:60-72 | visiting a function appends to the queue, and stamps, each callee nothing has stamped, once, in the order of the edges, and nothing else |
| CallGraph.MarkReachable | crates/zag-analysis/src/call_graph.rs:56-74 | for any buffer, an entry is stamped exactly when a walk over functions not stamped before leads to it, every other entry keeps its value, cycles terminate, and the functions ever pushed are exactly those, each pushed once |
| CallGraph.CleanSearchIsExact | crates/zag-analysis/src/call_graph.rs:52-74 | with a buffer that covers every function and a generation nothing holds, stamped means reachable |
| CallGraph.GraphReachesIsCallReaches | crates/zag-analysis/src/call_graph.rs:11-81 | reaching along edges is reaching along a chain of rows of the call table |
| CallGraph.ReachableFrom | crates/zag-analysis/src/call_graph.rs:76-81 | the answer for each function is whether it is reachable from the root |
| Facts.ReferencesAreBehindOptions | crates/zag-facts/src/tables.rs:517-536 | a type is a reference exactly when fewer than eight options wrap a slice or a pointer |
| Facts.ReferenceType | crates/zag-facts/src/tables.rs:517-536 | the eight-step walk decides just that |
| Ownership.RowsOperatingAre | crates/zag-analysis/src/ownership.rs:91-101 | the rows of a direct scan are exactly the operations of that kind on that field |
| Reasons.OperatesMeans | crates/zag-analysis/src/ownership.rs:91-101 | an operation is on a field exactly when it is of that kind, its place is the field of a parameter, and the field is that one and exists |
| Ownership.BuildFieldIndex | crates/zag-analysis/src/ownership.rs:103-134 | for every field the three indexes list exactly the rows a direct scan of both tables would, in order |
| Ownership.DeinitClosure.ClosureHolds | crates/zag-analysis/src/ownership.rs:186-206 | the answer is whether the function is call-reachable from that owner's `deinit`, whoever was asked about before; one more generation only on a change of owner |
| Ownership.DeinitClosure.Refill | crates/zag-analysis/src/ownership.rs:193-201 | after a change of owner no older stamp reads as current |
| Ownership.AnswerAll | crates/zag-analysis/src/ownership.rs:180-206 | any run of questions in any owner order is answered as a fresh search would answer each |
| Ownership.OverAlignedIsSomeElement | crates/zag-analysis/src/ownership.rs:139-159 | over-aligned exactly when some type within eight element links asks for an alignment |
| Ownership.GatherFreeFacts | crates/zag-analysis/src/ownership.rs:208-242 | the facts and the evidence are those of the free rows in order, inside or outside the owner's `deinit` closure |
| Ownership.GatherResizeFacts | crates/zag-analysis/src/ownership.rs:247-270 | resized exactly when a row resizes the field, one entry of evidence per row |
| Ownership.GatherAssignmentFacts | crates/zag-analysis/src/ownership.rs:272-351 | the facts and the evidence are those of the assignment rows in order, then the allocator's entry or the entry for no assignments |
| Ownership.ClassifyField | crates/zag-analysis/src/ownership.rs:424-458 | class, confidence and evidence are those of a direct scan of the whole tables |
| Ownership.ClassifyOwnership | crates/zag-analysis/src/ownership.rs:410-460 | every field gets the verdict of its direct scan, with its evidence where its start and count say |
| Analysis.OwnedMeans | crates/zag-analysis/src/ownership.rs:357-460 | Owned or Grown exactly when the field is a reference, not over-aligned, freed by some row, assigned and only by allocations, and Global alone reaches those allocators along every chain; Grown exactly when resized too; High exactly when a freeing function is call-reachable from the `deinit` |
| Analysis.ArenaMeans | crates/zag-analysis/src/ownership.rs:357-460 | Arena exactly when some assignment allocates, Arena alone reaches the allocators, and nothing resizes the field; High when every assignment allocates and nothing frees it, Medium otherwise |
| Analysis.StaticAndBorrowedMean | crates/zag-analysis/src/ownership.rs:357-460 | Static, with High, or Borrowed, with Medium, exactly when nothing frees the field and it is only ever set from literals, or from parameters |
| Analysis.ValueMeans | crates/zag-analysis/src/ownership.rs:424-458 | Value, with High, exactly when the field has a type that is no reference |
| Analysis.UnknownMeans | crates/zag-analysis/src/ownership.rs:357-460 | Unknown, with Low, exactly when the field has no type, is a reference that is over-aligned, or is carried and none of the other five classes claims it by what the tables record |
| Reasons.EvidenceMeans | crates/zag-analysis/src/ownership.rs:208-351 | an entry is recorded about a field exactly when its type is a reference and the tables give the reason: a free row inside or outside the `deinit` closure, a resize row, an assignment row of that source, what reaches its allocators, no assignment at all, or an alignment |
| Analysis.UncarriedScan | crates/zag-analysis/src/ownership.rs:424-458 | a field that is no reference, or over-aligned, or without a type, is never classed as owning or borrowing |
| Analysis.Analyze | crates/zag-analysis/src/ownership.rs:410-460 | the passes run in turn give the graph, the classes and the verdicts the theorems above speak of |
| Analysis.FieldEvidenceIsItsOwn | crates/zag-analysis/src/ownership.rs:462-470 | the evidence rows of a field are the evidence of its own verdict, in that order |
| Analysis.EvidenceTiles | crates/zag-analysis/src/ownership.rs:410-470 | the evidence ranges start at zero, follow one another without gap or overlap, and end with the columns |
| Expressions.ChildrenAre | crates/zag-facts/src/tables.rs:426-435 | the children of a row are the slots from its start on, as many as its count and the column allow, in order |
| Expressions.EverywhereIsEveryChain | crates/zag-emit/src/body.rs:54-131 | a recursive test with a depth limit holds exactly when every chain of rows is short enough and ends in a row that passes |
| Expressions.SomewhereIsSomeChain | crates/zag-emit/src/body.rs:587-650 | a recursive search with a depth limit finds a row exactly when a short enough chain leads to one |
| Expressions.FoldedIsEverywhere | crates/zag-emit/src/body.rs:133-148 | children first, then the row: a tree is built exactly when every row under it can be |
| Reading.FirstColons | crates/zag-emit/src/failure.rs:73-81 | the split of an error's name is at the first `::`, and there is none exactly when the text has none |
| Claims.ErrorSetNamedIs | crates/zag-emit/src/failure.rs:72-81 | a text names an error set exactly when it is that set's name, `::` and anything, no `::` starts inside the name or at its last colon, and no earlier set has the name |
| Claims.StructBehindIs | crates/zag-emit/src/failure.rs:187-202 | the struct a type reaches is the first row declared for the first struct type within eight element links |
| Claims.MethodCalledIs | crates/zag-emit/src/failure.rs:166-185 | a method call reaches the first function of its name on the struct behind the type of its receiver |
| Claims.RowReadingMeans | crates/zag-emit/src/failure.rs:98-157 | for each kind of row and each thing it can say, when it says it: an identifier its error set, a `try` the function or method it is on, an allocation or that it cannot be read, an unsupported row by the `try` test, and every other row nothing |
| Claims.BodySays | crates/zag-emit/src/failure.rs:86-164 | a body says exactly what some row at most 32 deep says in that sense, and that it cannot be read also when some chain goes on longer |
| Reading.ReadFailures | crates/zag-emit/src/failure.rs:86-164 | reading adds exactly what the tree says to what was found before, failures and functions reached in order |
| Reading.ReadingMeans | crates/zag-emit/src/failure.rs:86-164 | a failure or a reached function is read exactly when a chain of at most 32 rows leads to a row that says so; unreadable also when some chain is longer |
| Reading.ReadBodies | crates/zag-emit/src/failure.rs:240-249 | every function's reading is that of its own body, and nothing where it has none |
| Failure.CollectReaches | crates/zag-emit/src/failure.rs:256-263 | the loop over the call table builds the list of what the body tries and then each new callee in table order |
| Failure.ReachesAre | crates/zag-emit/src/failure.rs:256-263 | that list starts with what the body tries and holds just that and every callee the call table gives |
| Failure.Collect | crates/zag-emit/src/failure.rs:236-286 | each function owns what its body says, an allocation where an operation of its allocates, and its declared set |
| Failure.HeldNextRound | crates/zag-emit/src/failure.rs:291-310 | one more in-place round in row order brings what the callees hold when the function looks: this round's value for a callee before it, the last round's for one after |
| Failure.RunRound | crates/zag-emit/src/failure.rs:293-306 | the in-place round reaches that state, and reports no change exactly when nothing changed |
| Failure.Propagate | crates/zag-emit/src/failure.rs:291-310 | whenever the loop stops, each function holds exactly what the capped number of rounds would bring, and stopping before the cap means the rounds have settled |
| Failure.SettledStays | crates/zag-emit/src/failure.rs:307-309 | once a round brings nothing new no later one does, so stopping early loses nothing |
| Failure.HeldBetweenHopsAndReach | crates/zag-emit/src/failure.rs:236-310 | after k rounds a function holds everything owned within k hops, and nothing no chain reaches |
| Failure.SmallProgramsAreExact | crates/zag-emit/src/failure.rs:236-310 | up to 65 functions the result is exactly the reachability closure |
| Failure.CapLosesAFailure | crates/zag-emit/src/failure.rs:291 | with 66 functions in a row the first one misses a failure it reaches |
| Failure.StaircaseIsExactExactlyWhen | crates/zag-emit/src/failure.rs:291 | functions in a row lose nothing exactly up to 65 of them, so the bound on small programs is tight |
| Failure.StaircaseTablesMakeIt | crates/zag-emit/src/failure.rs:236-286 | tables with one call per step and one declared set are collected into just that row of functions |
| Failure.StaircasePasses | crates/zag-facts/src/validate.rs:60-76 | for any number of steps those tables are ones the validator lets through |
| Failure.ExactExactlyWhenSettled | crates/zag-emit/src/failure.rs:291-310 | for each program, the cap loses nothing exactly when one more round would bring nothing |
| Failure.ClosedExactlyWhenExact | crates/zag-emit/src/failure.rs:291-310 | the result alone tells: nothing is lost exactly when no function lacks anything one of its callees has |
| Failure.CapIsHarmless | crates/zag-emit/src/failure.rs:291-310 | a test a caller can make on a program: it answers yes exactly when the cap loses nothing |
| Failure.CapIsHarmlessExactlyWhen | crates/zag-emit/src/failure.rs:291 | whatever the functions own, the cap loses nothing exactly when every two functions joined by a chain are joined by one that arrives within the cap |
| Failure.LabelsDecide | crates/zag-emit/src/failure.rs:291 | that holds exactly when the same calls lose nothing while each function owns one set of its own |
| Failure.CapIsHarmlessForAll | crates/zag-emit/src/failure.rs:291 | a test a caller can make on the calls alone: it answers yes exactly when the cap loses nothing whatever the functions own |
| Naming.VariantsAreNames | crates/zag-emit/src/failure.rs:332-351 | the variants are exactly the member names of the sets, with `OutOfMemory` where it allocates, none twice |
| Naming.VariantsCarry | crates/zag-emit/src/failure.rs:332-351 | whoever holds all of another's failures lists all of its variants |
| Naming.CallersCoverCallees | crates/zag-emit/src/failure.rs:236-351 | for any number of functions, where the rounds have settled every variant of a reached function is among its caller's |
| Naming.SmallCallersCoverCallees | crates/zag-emit/src/failure.rs:236-351 | up to 65 functions that always holds |
| Naming.ListVariants | crates/zag-emit/src/failure.rs:332-351 | the loop over sets in ascending order and fields in row order lists those variants |
| Naming.NameOne | crates/zag-emit/src/failure.rs:318-383 | a lone declared set keeps its name, otherwise the set of the first function with the same variants is shared, otherwise a new one is minted |
| Naming.ResolveFailures | crates/zag-emit/src/failure.rs:236-385 | reading, propagation and naming in turn name every function from what the capped rounds leave it |
| Claims.NamedByTheSetItNames | crates/zag-emit/src/failure.rs:236-385 | a fallible function with no declared set that calls and allocates nothing, and whose body fails with one error set alone, is named by that set, or by nothing where the set is empty |
| Naming.MintingIs | crates/zag-emit/src/failure.rs:368-380 | a generated type is called after the struct and then the function, folded, with `Error` after them, and belongs to the function's module |
| Naming.ToPascalCase | crates/zag-emit/src/lower.rs:436-452 | the loop over the bytes builds the folded name |
| Naming.PascalCaseIsLetters | crates/zag-emit/src/lower.rs:436-452 | each byte of a folded name depends on one byte and the one before it: underscores dropped, and what comes first or after one in upper case |
| Naming.FailuresAreExact | crates/zag-emit/src/failure.rs:236-310 | a test a caller can make on the tables: it answers yes exactly when the cap loses nothing for the program in them |
| Naming.NamesCoverWhatIsLetThrough | crates/zag-emit/src/failure.rs:236-385 | where the rounds have settled, whenever a function tries or calls one with a variant to give, declared or inferred, and has no declared set itself, it is given a name, and the record it is given lists the variant |
| Naming.LoneSetsOnlyMeetThemselves | crates/zag-emit/src/failure.rs:354-357 | and a function that keeps one declared set only lets through functions of that same set or of none |
| Naming.CapLeavesCallersUnnamed | crates/zag-emit/src/failure.rs:291 | tables the validator lets through, of any number of functions in a row, a set declared on the last: those within 64 calls of it keep the set, those further away get no name though they reach it |
| Naming.SameFailureSameName | crates/zag-emit/src/failure.rs:314-383 | two undeclared fallible functions with the same sets and allocation flag get the identical name |
| Naming.GeneratedNamesFollowVariants | crates/zag-emit/src/failure.rs:358-383 | two functions are given one and the same generated record, module, name and variants, exactly when they list the same variants in the same order |
| ErrorTypes.TypesTellVariantsApartExactlyWhen | crates/zag-emit/src/failure.rs:358-383 | a generated type, that is a module and a name, stands for one list of variants exactly when no two functions that are first to need different lists share a module and a folded owner and function name |
| ErrorTypes.NamesApartTellVariantsApart | crates/zag-emit/src/failure.rs:314-383 | so it does wherever the compiled test on the function names alone says that no two functions to be named are named alike |
| ErrorTypes.DeclareGenerated | crates/zag-emit/src/lower.rs:560-598 | the loop that declares a module's generated types takes the first to come of each name |
| ErrorTypes.DeclarationsAre | crates/zag-emit/src/lower.rs:560-598 | a module declares no name twice, only types some function was given, and the name of every type of that module a function was given |
| ErrorTypes.DeclaredAsListedExactlyWhen | crates/zag-emit/src/lower.rs:560-598 | every function's type is declared with the variants the function lists exactly when types tell variant lists apart |
| ErrorTypes.DeclaredTypesCoverWhatIsLetThrough | crates/zag-emit/src/lower.rs:560-598 | where the rounds have settled and the names stay apart, the type a caller's module declares has every variant of whatever the caller lets through |
| ErrorTypes.OneNameTwoLists | crates/zag-emit/src/failure.rs:204-217 | tables the validator lets through where that fails: `a_b` and `aB` are both given `ABError`, the type is declared for the first, and it lacks a variant the second needs |
| WireTables.ExpressionKindInverse | crates/zag-facts/src/wire.rs:170-205 | raw numbers and expression kinds are a bijection on 0 to 26 |
| WireTables.TypeKindInverse | crates/zag-facts/src/wire.rs:87-104 | raw numbers and type kinds are a bijection on 0 to 9 |
| WireLayout.TypeKindsAreNumbered | crates/zag-facts/src/wire.rs:87-104 | the number of each type kind is its place among them, both ways |
| WireLayout.FirstNineKinds | crates/zag-facts/src/wire.rs:170-205 | the numbers of expression kinds 0 to 8 are their places, both ways |
| WireLayout.NextNineKinds | crates/zag-facts/src/wire.rs:170-205 | and of kinds 9 to 17 |
| WireLayout.LastNineKinds | crates/zag-facts/src/wire.rs:170-205 | and of kinds 18 to 26 |
| WireLayout.ContainerKindsAreNumbered | crates/zag-facts/src/wire.rs:106-118 | likewise for containers |
| WireLayout.ArtifactKindsAreNumbered | crates/zag-facts/src/wire.rs:120-131 | likewise for artifacts |
| WireLayout.AllocatorSourceKindsAreNumbered | crates/zag-facts/src/wire.rs:133-144 | likewise for allocator sources |
| WireLayout.MemoryOperationKindsAreNumbered | crates/zag-facts/src/wire.rs:146-156 | likewise for memory operations |
| WireLayout.PlaceKindsAreNumbered | crates/zag-facts/src/wire.rs:158-168 | likewise for places |
| WireLayout.AssignmentSourcesAreNumbered | crates/zag-facts/src/wire.rs:207-218 | likewise for assignment sources |
| WireLayout.KindColumnsAre | crates/zag-facts/src/wire.rs:87-218 | the eight columns that hold kinds, how many kinds each has, and what a number that is none is reported under |
| WireTables.TablesRoundTrip | crates/zag-facts/src/wire.rs:220-335 | the columns of a set of tables, read back table by table, are those tables |
| WireTables.TablesBackAgain | crates/zag-facts/src/wire.rs:357-623 | columns of the right kinds become tables whose columns are those columns |
| Wire.WordsRoundTrip | crates/zag-facts/src/wire.rs:22-48 | little-endian words read back as themselves |
| WireLayout.WordsByPlace | crates/zag-facts/src/wire.rs:22-48 | byte i of a word is its value divided by 256 to the i, modulo 256 |
| Wire.ColumnRoundTrip | crates/zag-facts/src/wire.rs:50-85 | a column written anywhere reads back as itself and ends where it ended |
| Wire.ColumnBackAgain | crates/zag-facts/src/wire.rs:50-85 | a column that reads is written back as the bytes it was read from |
| Wire.ColumnCutShort | crates/zag-facts/src/wire.rs:38-85 | a column cut short reads as truncated |
| WireLayout.HeaderIs | crates/zag-facts/src/wire.rs:341-345 | a file opens with the magic, version 2 and the target |
| WireLayout.ColumnsAreInOrder | crates/zag-facts/src/wire.rs:220-355 | which column of which table comes in which place |
| WireLayout.ColumnIsAt | crates/zag-facts/src/wire.rs:341-355 | each column starts after the header and what the columns before it take, with its count and then its values |
| Wire.DecodeEncode | crates/zag-facts/src/wire.rs:341-355 | decoding an encoding gives the tables back, for every set of tables whose columns fit the format |
| Wire.EncodeDecode | crates/zag-facts/src/wire.rs:632-656 | whatever decodes is the encoding of what it decoded to: one file for every set of tables |
| Wire.DecodingAfterEncoding | crates/zag-facts/src/wire.rs:632-656 | an encoding followed by any bytes decodes to trailing bytes at the encoding's length |
| Wire.CutShort | crates/zag-facts/src/wire.rs:38-85 | every strict prefix of an encoding that keeps the magic decodes to truncated |
| Wire.Encode | crates/zag-facts/src/wire.rs:341-355 | the writer appends exactly the encoding |
| Wire.Decode | crates/zag-facts/src/wire.rs:632-656 | the cursor reader gives exactly that decoding, error for error |
| Wire.ByteReader.ReadColumn | crates/zag-facts/src/wire.rs:50-85 | the cursor reader agrees with the column's specification and moves to its end |
| Validate.TilingMeansOneOwner | crates/zag-facts/src/validate.rs:873-960 | where ranges tile, a row exists exactly when some range holds it, and then only one does |
| Validate.CheckFieldRanges | crates/zag-facts/src/validate.rs:873-902 | with equal column lengths, no violation exactly when the field ranges tile the fields and the owners are grouped |
| Validate.CheckParameterRanges | crates/zag-facts/src/validate.rs:936-960 | with equal column lengths, no violation exactly when the parameter ranges tile the parameters |
| Slots.FieldsAreTheRange | crates/zag-facts/src/tables.rs:488-494 | where the field ranges tile, the fields of a struct are exactly the rows its range claims |
| Validate.CheckStrings | crates/zag-facts/src/validate.rs:452-481 | no violation exactly when the offsets start at zero, ascend and end with the blob |
| Validate.SoundStringsCoverTheBlob | crates/zag-facts/src/validate.rs:452-481 | the strings of sound offsets, end to end, are the blob |
| Build.AppendedKeepsStrings | crates/zag-facts/src/build.rs:96-103 | a pushed string is named by the new handle, the offsets stay sound, and every other string is as it was |
| Build.StringPool.PushString | crates/zag-facts/src/build.rs:96-103 | the bytes and offsets after a push are those, and the handle is the new one |
| Build.StringPool.Intern | crates/zag-facts/src/build.rs:107-114 | the handle is the first that names the text, the pool grows only for a new text, and two handles name one text afterwards exactly when two did before |
| Build.NewRowKeepsTilingExactlyWhenNewest | crates/zag-facts/src/build.rs:343-358 | one more row keeps the ranges tiling exactly when it goes to the newest owner |
| Build.StepKeepsAcceptedExactlyWhenNewest | crates/zag-facts/src/build.rs:314-466 | a builder step keeps the tables acceptable to the range checks exactly when it adds to the newest owner |
| Build.EveryRunStaysAccepted | crates/zag-facts/src/build.rs:314-466 | any run of such steps, however long, leaves tables the range checks accept |
| Build.BuiltFromNothingIsAccepted | crates/zag-facts/src/tables.rs:339-363 | so does any such run from the empty tables |
| Build.CheckRanges | crates/zag-facts/src/validate.rs:873-960 | the two range checks find nothing exactly on the tables those lemmas call acceptable |
| Build.Builder.PushStruct | crates/zag-facts/src/build.rs:314-335 | every column of the struct table grows by its entry, the range starting where the fields end |
| Build.NewStructIs | crates/zag-facts/src/build.rs:314-335 | every column of the struct table has one more entry, each the one pushed: root module, no fields, no `deinit`; nothing else changes |
| Build.Builder.PushField | crates/zag-facts/src/build.rs:343-358 | the field columns grow by one row and its owner's count by one |
| Build.NewFieldIs | crates/zag-facts/src/build.rs:343-358 | every column of the field table has the entry pushed, its owner one field more; nothing else changes |
| Build.Builder.PushFunction | crates/zag-facts/src/build.rs:364-378 | every column of the function table grows by its entry, the range starting where the parameters end |
| Build.NewFunctionIs | crates/zag-facts/src/build.rs:364-378 | every column of the function table has one more entry, each the one pushed: root module, no parameters, result, error set or body; nothing else changes |
| Build.Builder.PushParameter | crates/zag-facts/src/build.rs:453-466 | the parameter columns grow by one row and its owner's count by one |
| Build.NewParameterIs | crates/zag-facts/src/build.rs:453-466 | every column of the parameter table has the entry pushed, its function one parameter more; nothing else changes |
| Index.Group | crates/zag-emit/src/index.rs:21-56 | reading the rows of any owner back gives exactly its rows in order, out-of-range owners dropped |
| Arena.ColumnsSettleTheTrees | crates/zag-render/src/ast.rs:86-97 | the parallel columns determine the tree every node stands for |
| Arena.Ast.PushNode | crates/zag-render/src/ast.rs:124-145 | the new node stands for its kind, texts, numbers and the trees of its children, and every earlier node still stands for what it did |
| Arena.Ast.PushString | crates/zag-facts/src/build.rs:96-103 | a new text changes what no node stands for |
| Arena.Ast.NodeChildren | crates/zag-render/src/ast.rs:147-155 | the children are earlier nodes that stand for the tree's children, and there are none past the end |
| Lower.RustIntegerWidth | crates/zag-emit/src/lower.rs:33-40 | the narrowest of the five Rust widths that holds the declared one, and none exactly for zero and above 128 |
| Lower.LowerTypeBody | crates/zag-emit/src/lower.rs:111-216 | for any type and any tables, cyclic links included, the node stands for the type's tree cut off at the depth limit, and no earlier node changes |
| Lower.LoweredTypePrints | crates/zag-emit/src/lower.rs:111-216 | that tree always prints, as the text a direct depth-bounded printer writes from the tables without any of the functions that build the tree |
| Lower.QualifiedIs | crates/zag-emit/src/lower.rs:82-106 | a name is written with the way to its module in front: nothing, or the module's name and `super::` from inside another, exactly when it is declared in another module that has a name |
| Integers.IntegerReadsBack | crates/zag-emit/src/lower.rs:20-40 | the name written for an integer reads back, by the rules the repairs read types with, as its sign and the narrowest width that holds it |
| Lower.OptionalLinksEndEarly | crates/zag-emit/src/lower.rs:247-263 | optional links that ever run out do so within as many steps as there are types |
| Lower.LowerFieldType | crates/zag-emit/src/lower.rs:237-287 | the node stands for the options around the ownership wrapper around the type |
| Lower.LoweredFieldPrints | crates/zag-emit/src/lower.rs:237-287 | a field's lowered type prints as the direct text: the wrapper inside every option, a vector without its slice's brackets |
| Lower.SpellFieldType | crates/zag-render/src/lib.rs:220-305 | lowering and then rendering writes exactly that text and disturbs no earlier node |
| Render.DecimalReadsBack | crates/zag-render/src/lib.rs:280-286 | an array's length reads back from the digits written for it |
| Render.DecimalStartsWithItsFirstDigit | crates/zag-render/src/lib.rs:280-286 | and no zero is written before the first digit that counts |
| Render.MutableReferencePrints | crates/zag-render/src/lib.rs:251-259 | a mutable reference prints its lifetime and then `mut` |
| Render.ResultPrints | crates/zag-render/src/lib.rs:285-296 | a result prints what it holds and then what it fails with |
| Render.OnlyChild | crates/zag-render/src/lib.rs:67-73 | the one child where there is one, an error naming the node otherwise |
| Render.KindOf | crates/zag-render/src/lib.rs:51-57 | the node's kind, or an error naming a node out of range |
| Render.RenderType | crates/zag-render/src/lib.rs:220-305 | either the print of the node's tree is appended, or the error raised is the reason the tree has none; a node out of range writes nothing |
| Body.ToSnakeCase | crates/zag-emit/src/function.rs:22-36 | the loop over the letters builds the snake case of the name |
| Body.SnakeCaseSettles | crates/zag-emit/src/function.rs:22-36 | a name in snake case is left alone, so a call and its declaration agree |
| Body.SnakeCaseIsLetters | crates/zag-emit/src/function.rs:22-36 | each letter comes across by itself and the one before it: a capital in lower case, an underscore in front unless it comes first or after one |
| Body.ShapeIsThere | crates/zag-emit/src/body.rs:133-423 | whether a row can be written depends on the row alone: its kind, a struct literal's type name, a call's path |
| Body.GatesAreEveryChain | crates/zag-emit/src/body.rs:54-131 | the three gates and the lowering together hold exactly when every chain down from the body nests at most 32 rows and ends in one that is spellable, can be written, names no allocator parameter and takes no Owned or Grown field |
| Body.WrittenExactlyWhenAllOfItCanBe | crates/zag-emit/src/body.rs:652-710 | a body is written exactly when its signature is settled, it is a block with something in it, and every chain down from it, however long, is as above |
| Gates.BodyIsWrittenExactlyWhen | crates/zag-emit/src/body.rs:18-710 | the same over the tables alone: no parameter reaches a struct with an unfinished field, there is a block with something in it, and no chain down from it is longer than 32 or ends in a row that has no spelling, says the wrong thing, takes a bare number, makes nothing, calls out of reach, names the allocator or takes what is owned |
| Body.LowerStatements | crates/zag-emit/src/body.rs:497-542 | each statement is kept, unwrapped from a closing return, or ended with a semicolon, by its kind and whether it is last |
| Body.LowerExpression | crates/zag-emit/src/body.rs:133-423 | a node comes back exactly when the expression has a tree, stands for it, and disturbs no earlier node |
| Body.LowerBody | crates/zag-emit/src/body.rs:652-710 | what comes back is a function of the tables alone, so a verdict on a scratch tree is the verdict on the real one |
| Printing.RenderExpression | crates/zag-render/src/lib.rs:408-640 | what is written for a node is what its tree prints as, or the error raised is the first reason it has no print |
| Printing.RenderStatements | crates/zag-render/src/lib.rs:366-387 | a body is written statement by statement, each on a line of its own |
| BodyPrints.LoweredExpressionPrints | crates/zag-emit/src/body.rs:133-423 | an expression that comes across prints as the text written straight from its rows, by kind and without the trees, for every kind and whatever stands in a struct literal, or neither can be written |
| BodyPrints.LoweredBodyPrints | crates/zag-emit/src/body.rs:652-710 | so does a whole body: semicolons, the returned value without its `return`, and the closing `Ok(())` |
| BodyPrints.SpellBody | crates/zag-emit/src/body.rs:652-710 | lowering a body and printing it writes exactly that text |
| Layout.NormalisedExactlyWhen | crates/zag-emit/src/layout.rs:134-158 | reading a text line by line loses nothing exactly when no line ends in a carriage return |
| Layout.RenderModule | crates/zag-render/src/lib.rs:92-117 | the header, the body one level in with blank lines left alone, and the brace |
| ModuleShape.ModuleIs | crates/zag-render/src/lib.rs:92-117 | a module is `pub mod`, its name and a brace; its body's lines, blank ones aside, four spaces further in; and a brace |
| Layout.UnindentingUndoes | crates/zag-emit/src/layout.rs:134-158 | taking one level of indentation off an indented body gives back its lines |
| Layout.TakeBody | crates/zag-emit/src/layout.rs:140-152 | the body runs to the first bare closing brace, and reading goes on after it |
| Layout.SplitModules | crates/zag-emit/src/layout.rs:134-158 | the line iterator gives the split of the file's lines |
| ModuleShape.RootLine | crates/zag-emit/src/layout.rs:134-158 | a line that opens no module goes to the root with a newline, and the rest is split on |
| ModuleShape.ModuleLine | crates/zag-emit/src/layout.rs:134-158 | a line that does takes the lines up to the first bare brace, or all that are left, each without its four spaces, and the rest is split on |
| Layout.SplitChunks | crates/zag-emit/src/layout.rs:134-158 | a file of root items and rendered modules splits into those, carriage returns at line ends aside |
| Layout.SplittingUndoesRendering | crates/zag-emit/src/layout.rs:134-158 | without carriage returns, splitting gives back every root item, module name and body byte for byte, in order |
| Repair.NothingIsLostExactlyWhen | crates/zag-repair/src/lib.rs:60-68 | between any two different sized types nothing is lost exactly when the infallible conversion is chosen or an unsigned type goes into a wider signed one, for which it is not chosen: so it never loses a value |
| Repair.PlannedSpansAreOrdered | crates/zag-repair/src/lib.rs:70-100 | a planned repair never ends before it starts |
| Integers.DecimalParses | crates/zag-repair/src/lib.rs:37-58 | the number in a type's name is read as what it is written for in decimal, with or without a plus sign |
| Repair.SizesAreNamed | crates/zag-repair/src/lib.rs:37-49 | `usize` and `isize` are read as integers of no width, unsigned and signed |
| Repair.RepairsConvert | crates/zag-repair/src/lib.rs:70-96 | a diagnostic has a repair exactly when it is a mismatch between two different integer types on an ordered span, and the repair writes the expected type's `from` or, unless that loses nothing by width alone, its `try_from` and `unwrap` around what was found |
| Repair.PlanIsInOrder | crates/zag-repair/src/lib.rs:98-100 | the plan has the repairs of the diagnostics that have one, in their order |
| Repair.SortBySpan | crates/zag-repair/src/lib.rs:102-106 | the order is a permutation sorted by span, equal spans in arrival order |
| Repair.NeighboursSuffice | crates/zag-repair/src/lib.rs:107-121 | checking neighbours in sorted order is as good as checking every pair |
| Repair.OnePassSplicesEach | crates/zag-repair/src/lib.rs:122-135 | one pass writes what splicing each repair alone from right to left would |
| Repair.LengthAfterRepairs | crates/zag-repair/src/lib.rs:122-135 | the output is as long as the source and all prefixes and suffixes together |
| Repair.ApplyRepairs | crates/zag-repair/src/lib.rs:102-135 | it succeeds exactly when every span is in range and every two are apart, writes the spliced text, and otherwise names the first span out of range as they arrived, or the first overlap in sorted order |
| Repair.SourceBytesSurvive | crates/zag-repair/src/lib.rs:122-135 | the bytes of the output that no repair added are the source, in order |
| RepairOrder.SuccessIsOrderFree | crates/zag-repair/src/lib.rs:102-135 | two calls with the same repairs in different orders succeed or fail together |
| RepairOrder.ArrivalOrderIsIrrelevant | crates/zag-repair/src/lib.rs:102-106 | with no two spans equal, repairs that arrive in any order are sorted into one list |
| RepairOrder.ArrivalOrderDecidesNothing | crates/zag-repair/src/lib.rs:102-135 | and where no two spans are equal they write the same text |
| RepairOrder.SwapNeighbours | crates/zag-repair/src/lib.rs:122-135 | swapping two neighbours of one span in a list that applies leaves the output alone exactly when their texts commute |
| RepairOrder.TextIsOrderFreeExactlyWhen | crates/zag-repair/src/lib.rs:102-135 | repairs that apply write one text in every arrival order exactly when any two of one span have texts that commute |
| RepairOrder.RangeFaultIsOrderFreeExactlyWhen | crates/zag-repair/src/lib.rs:105-112 | where spans are out of range, every arrival order names the same one exactly when all the repairs out of range have one span |
| RepairOrder.OverlapNamesTheSameSpans | crates/zag-repair/src/lib.rs:102-121 | where spans are in range and overlap, every arrival order names two repairs of the same two spans, and the same two repairs where no two spans are equal |
| RepairOrder.OverlapIsOrderFreeExactlyWhen | crates/zag-repair/src/lib.rs:102-121 | and the same two repairs in general exactly when every repair with the span of the later one is that same repair |
| RepairOrder.ArrivalOrderDecidesTheFault | crates/zag-repair/src/lib.rs:105-112 | two repairs past the end of a source, where the one that came first is named |
| RepairOrder.EqualSpansKeepArrivalOrder | crates/zag-repair/src/lib.rs:104-106 | two insertions at one point that do not commute come out in the order they arrived |

## Left out

- The command line, running `zig`, temporary files, directory walking and path handling.
- The frontend's reading of tool output: its rules are about spellings and have no independent meaning to prove
  against. The tables are taken as given.
- Report wording, `dump`, Cargo manifests, binary stubs and the rest of `layout.rs`: text assembly.
- Constructor and signature lifetimes, struct flags and derives: they follow Rust's own type rules, which the
  repository does not define. The lifetimes of named types are a parameter of the lowering.
- Rendering of items: structs, enums, implementations, function headers and assertions. Types, expressions and the
  statements of a body are printed, against printers that read the tables.
- The validator's handle, length, place, index and order checks and `check_module_ranges` as methods: what they let
  through is stated, as the predicates of `Validate.Passes`, without the violations they would report. Builder tiling
  does not extend to unresolved imports, whose modules are all declared before any import is pushed.
- Reading.ReadingMeans: does not model Unicode words or lossy UTF-8. Whether an unsupported text has `try` among its
  words is a parameter, and names are compared byte for byte, as the code does for names that are valid UTF-8.
- Lower.LowerFieldType: requires optional links that run out, because the code follows them without a depth limit and
  would not return on a cycle. `Lower.EndsWithin` with the number of types is the check a caller can make.
- Layout.RenderModule: takes the rendered items of the module as given, because printing items is not modelled.
- Arena.Ast.PushString: does not model the byte and offset columns, for the same reason as `Arena.Ast.PushNode`.
- Arena.Ast.PushNode: does not model the width of node and text handles, because they are unbounded here and the absent
  text is an option. The text pool is the sequence of its strings; `Build.StringPool` is the same operation on byte and
  offset columns.
- ErrorTypes.DeclareGenerated: gives the types a module declares rather than their nodes in the syntax tree, with the
  variants as the tables name them rather than in the Pascal case they are written in.
- Repair.SortBySpan: models the library's stable sort by an insertion sort.
- WireTables.TablesRoundTrip: models the per-table encoders and decoders by one list of columns and their kinds per
  table, in file order, rather than by a function per table.
- Sums of a start and a count are unbounded here; the code adds them as 64-bit `usize`, where they cannot overflow.
