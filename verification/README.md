# Verification of the client/server reporting system and of its test framework

The repository holds two layers. The upper one is a small reporting system: a client whose timer
sends one line of machine figures per interval, and a server that reads each line, checks the
client's key, inserts a row into a database and answers with one character. The lower one is the
single-header test framework (Catch 1.5.8) its tests run on, which is where most of the state,
branching and arithmetic lives. This project models both in Dafny and proves what they promise.
`dafny verify dfyconfig.toml` checks everything.

## What is modelled

**Sections and the run loop.** A test body is a tree of nested sections that is run again and
again; a tree of mutable trackers decides which section opens in each cycle. `SectionSpec` says
what one cycle does, as recursive functions over the body and the trackers discovered so far.
An exception is a number of program points (the fuse) after which the body throws, chosen afresh
for every cycle. `TestCaseTracking` and `RunContext` are the objects themselves, with their parent
and child links, the current tracker, the stack of active sections and the unfinished sections kept
during unwinding; they are proved to compute exactly those functions (`TrackerArena` and
`TrackerPasses` carry that proof on an indexed copy of the heap). On the functions it is then
proved that

- without exceptions the cycles are the leaves of the body in source order, one path each, so
  there are as many cycles as leaves (`SectionLeaves`);
- with exceptions anywhere, every cycle completes a tracker, so the loop ends; nothing that a cycle
  ended in is entered again; leaves are entered in source order (`SectionTheorems`,
  `SectionLosses`);
- what a cycle will do is known before it runs, from the body, the trackers and the program point
  that throws: what it enters, whose body throws, and whether it completes the test case
  (`SectionForecast`);
- what an exception costs is known exactly: all that was owed below the section whose body throws,
  and every leaf is entered if and only if no cycle, so judged, gives anything up (`SectionLosses`);
- looking at the last child only, when a tracker is closed, is looking at all of them, and closing
  never meets the "Illogical state" error.

**Generators.** The indices of a test's generators form an odometer with the first generator
turning fastest. Every combination is run exactly once, also when generators are registered only as
they are first reached (`Generators`), and `TestRuns` puts the two loops together: every leaf under
every combination.

**Totals.** Counting of assertions and test cases over whole runs, with tests that may or should
fail, and the coloured bar that divides the console line between the three counts (`Totals`).

**Parsers and printers.** Test specifications (`TestSpec`, `TestSpecTheorems`, and `TestSpecNames`
for unquoted names and the ways to exclude), tags and wildcards (`TestCaseInfo`), which test cases
a specification selects (`TestSelection`), the command-line tokenizer (`Clara`), the text wrapper
(`TextWrap`), XML escaping and the XML writer (`XmlEncode`, `XmlWriter`), and replacement in place
(`Strings`). Each parser is an object with the original's variables, proved against a function, and
the function against its printed form or against an independent reader.

**Reporting protocol.** The line and the statement (`WireFormat`), read back by an independent
reader of statements (`StatementReader`), the server's sessions as a transition system over
completion handlers in any interleaving, with its inserts and emails (`ServerProtocol`), the timer
that re-arms itself until a flag is raised, with works that may overrun (`RepeatTimer`), and a
client and the server together, with reads that fail and connections that break (`ClientServer`).
The handlers are also given as methods on objects sharing one client map, one database and one count
of emails, proved to make the steps of the transition system.

Strings are sequences of characters and integers are unbounded, except where the width shows: an
`int` stored in a `size_t` wraps (`WireFormat.ToSize`).

## Model

| member | source | states |
|---|---|---|
| `SectionTheorems.LastMeansAll` | include/catch.h:5676-5679 | in every tracker shape that occurs, the last discovered child is complete if and only if all of them are |
| `SectionTheorems.RunBodyShape` | include/catch.h:5658-5734 | every pass over a body, wherever it throws, keeps siblings in the form complete, at most one partly run, never started; it enters a section only if none was entered before, and leaves everything complete if it entered none |
| `SectionTheorems.CycleKeepsShape` | include/catch.h:5951-5958 | the same for the whole tracker tree over one cycle |
| `SectionTheorems.CycleMakesProgress` | include/catch.h:5951-5958 | every cycle, wherever it throws, lowers the number of incomplete trackers, that of the test case included |
| `SectionTheorems.CyclesAreBounded` | include/catch.h:5951-5958 | the cycles of a test case are at most as many as it had incomplete trackers |
| `SectionTheorems.RunCompletes` | include/catch.h:5951-5958 | without an abort the loop ends with the test case completed successfully |
| `SectionTheorems.CompleteStaysComplete` | include/catch.h:5716-5734 | a completed section stays complete and no later pass enters it |
| `SectionTheorems.InnermostCompletes` | include/catch.h:5658-5696 | the innermost section a cycle enters is complete when the cycle has ended, however it was left |
| `SectionTheorems.NoSectionRunsTwice` | include/catch.h:5951-5958 | over a whole run with exceptions anywhere, the path one cycle ended in is never entered again |
| `SectionLeaves.LeafIffListed` | include/catch.h:2329-2335 | a path leads to a section without sections if and only if it is in the list of leaves |
| `SectionLeaves.LeavesAreDistinct` | include/catch.h:2329-2335 | with distinct sibling names no leaf is listed twice |
| `SectionLeaves.CycleVisitsNextLeaf` | include/catch.h:5716-5734 | a cycle left normally, or by an exception from inside the leaf it entered, takes exactly the first leaf still owed, or none |
| `SectionLeaves.EveryLeafOnceInOrder` | include/catch.h:5951-5958 | when exceptions come only from inside leaves, the leaves entered and those still owed are all leaves in source order |
| `SectionLeaves.OneLeafPerCycle` | include/catch.h:5951-5958 | without exceptions every cycle is one leaf, the next one in source order |
| `SectionLeaves.CyclesAreTheLeaves` | include/catch.h:5951-5958 | without exceptions and aborts the cycles are exactly the leaves in source order, one root-to-leaf path each; a body without sections is one leaf |
| `SectionLeaves.ExceptionBesideSectionsLosesLeaves` | include/catch.h:5673-5679 | a body of two sections with an exception between them completes without ever entering the second |
| `SectionForecast.PassFollows` | include/catch.h:5658-5734 | which sections a pass enters, the section whose body throws, and how many program points it takes are known before it runs, from the body, the trackers discovered and the point that throws |
| `SectionForecast.FinishingPass` | include/catch.h:5673-5679 | a pass in which nothing throws leaves every section complete if and only if, at each level, at most the first incomplete section was left to run and it was the last one |
| `SectionForecast.InterruptedPass` | include/catch.h:5676-5679 | a pass whose own body throws after a section has opened leaves no discovered section incomplete if and only if that section was to finish and none behind it had been reached |
| `SectionForecast.CycleFollows` | include/catch.h:5658-5685 | a test case is complete after a cycle if and only if nothing throws and the pass finishes, or its own body throws with no section opened or none of those discovered left incomplete |
| `SectionLosses.CycleSettles` | include/catch.h:5658-5696 | for an exception anywhere, the leaves a cycle strikes off are a leading block of those owed: the leaf entered, or everything below the section whose body throws, or everything if the body of the test case throws and is abandoned; it is abandoned if and only if no section has opened or no section discovered by then stays incomplete |
| `SectionLosses.LossIsExact` | include/catch.h:5658-5696 | a cycle loses no leaf if and only if, judged before it runs, nothing but the leaf it enters is owed below the section whose body throws, or in a test case that is abandoned |
| `SectionLosses.EveryLeafUnlessGivenUp` | include/catch.h:5951-5958 | over a run, the leaves entered followed by those owed at the end are those owed at the start, in order, if and only if no cycle gives anything up, each judged by the trackers it finds and the point that throws; otherwise there are fewer |
| `SectionLosses.LeavesInSourceOrder` | include/catch.h:5951-5958 | whatever is thrown, the leaves entered are some of those owed, in source order |
| `SectionLosses.NoLeafTwice` | include/catch.h:5951-5958 | whatever is thrown, and even if the run aborts, no leaf of a test case is entered twice |
| `SectionLosses.AllLeavesIffNothingGivenUp` | include/catch.h:5951-5958 | a run without an abort enters every leaf in source order if and only if none of its cycles, so judged, gives anything up |
| `TrackerPasses.FoundOrAdded` | include/catch.h:5716-5728 | the tracker a section acquires is the one at the section's own position among its siblings, and nothing else changes |
| `TrackerPasses.OpenedIsReady` | include/catch.h:5640-5656 | opening a section changes the states of it and its parent only, and its body can be passed over next |
| `TrackerPasses.CloseEffect` | include/catch.h:5664-5683 | closing an open tracker never finds an illogical state, and decides by the children discovered |
| `TrackerPasses.LeavingSection` | include/catch.h:5658-5696 | leaving a section normally, by failing it, or by closing it during unwinding has the specified effect and spares all siblings and ancestors |
| `TrackerPasses.PassComposed` | include/catch.h:5716-5734 | a pass over a body is its first section and, unless that threw, a pass over the rest |
| `TrackerPasses.CycleStarts` | include/catch.h:5954-5955 | acquiring the test case's tracker below the root opens it |
| `TrackerPasses.CycleEnds` | include/catch.h:6146-6147 | closing the test case's tracker at the end of a cycle never finds an illogical state |
| `TrackerArena.SiblingsAreApart` | include/catch.h:5594-5606 | no tracker descends from two siblings |
| `TrackerArena.ViewKept` | include/catch.h:5594-5606 | what a tracker's children show depends only on the trackers below them |
| `TestCaseTracking.TrackerContext.StartRun` | include/catch.h:5787-5792 | a run starts with a new tree holding the root only, and no current tracker |
| `TestCaseTracking.TrackerContext.StartCycle` | include/catch.h:5557-5560 | a cycle starts at the root |
| `TestCaseTracking.SectionTracker.OpenChild` | include/catch.h:5640-5646 | the tracker and its ancestors, up to one that already is, become "executing children" |
| `TestCaseTracking.SectionTracker.Open` | include/catch.h:5651-5656 | the tracker executes, is the current one, and its ancestors are executing their children |
| `TestCaseTracking.SectionTracker.Close` | include/catch.h:5658-5686 | trackers still open below are closed first, from the innermost out, which terminates; the result says whether a state was illogical |
| `TestCaseTracking.SectionTracker.Finish` | include/catch.h:5664-5685 | the current tracker is closed by its own state and its last child, its parent becomes current and the cycle is complete |
| `TestCaseTracking.SectionTracker.Fail` | include/catch.h:5687-5693 | the tracker fails, its parent needs another run and becomes current, and the cycle is complete |
| `TestCaseTracking.SectionTracker.MarkAsNeedingAnotherRun` | include/catch.h:5694-5696 | only the state of this tracker changes |
| `TestCaseTracking.SectionTracker.FindChild` | include/catch.h:5629-5634 | the first child of that name, or none |
| `TestCaseTracking.SectionTracker.AddChild` | include/catch.h:5625-5627 | one new, never started child behind the others |
| `TestCaseTracking.SectionTracker.Acquire` | include/catch.h:5716-5734 | the child of that name is found or added, and opened if and only if the cycle is not complete and the child is not |
| `RunContext.RunContext.SectionStarted` | include/catch.h:6004-6024 | true if and only if acquiring opened the section in this cycle; then it is pushed on the stack, which stays the tracker path from the test case to the current tracker |
| `RunContext.RunContext.SectionEnded` | include/catch.h:6037-6048 | the innermost active section is closed and popped; with none active nothing is closed |
| `RunContext.RunContext.SectionEndedEarly` | include/catch.h:6050-6058 | during unwinding the first section left fails, the others are closed; each is popped and kept as unfinished |
| `RunContext.RunContext.HandleUnfinishedSections` | include/catch.h:6178-6187 | reporting the unfinished sections touches no tracker and empties the list |
| `RunContext.RunContext.RunSection` | include/catch.h:7915-7935 | one SECTION block does to the trackers and the stack what the specification says, its destructor choosing by whether an exception is under way; closing succeeds |
| `RunContext.RunContext.RunBody` | include/catch.h:6163-6167 | running the body does what the specification says, leaves stack and current tracker as they were, and no call to close meets an illogical state |
| `RunContext.RunContext.RunCurrentTest` | include/catch.h:6117-6147 | the body is run once, whatever it throws; the test case's tracker is closed and no section stays active or unfinished |
| `RunContext.RunContext.RunOneCycle` | include/catch.h:5953-5957 | one turn of the loop takes the test case from one specified state to the next |
| `RunContext.RunContext.RunCycles` | include/catch.h:5951-5958 | the loop over heap objects reports exactly the cycles of the specified run, terminates, and never fails |
| `TestRuns.RunsFollowTheOdometer` | include/catch.h:5951-5961 | each run of cycles is the leaves of the body under the next index tuple |
| `TestRuns.EveryLeafUnderEveryCombination` | include/catch.h:5951-5961 | without exceptions and aborts the number of runs is the product of the sizes, their index tuples are all combinations, each once, and every run meets the leaves of its combination once each |
| `TestRuns.ReachGenerators` | include/catch.h:6950-6953 | the generators reached in a run ask for their indices: known ones keep theirs, new ones are registered behind them with index zero |
| `TestRuns.AdvanceGenerators` | include/catch.h:6955-6958 | the generators registered by the end of a run make one step |
| `TestRuns.RunTest` | include/catch.h:5951-5961 | both loops over heap objects, from no generators registered on, produce exactly the specified runs |
| `TestRuns.LateAllRunsAreAll` | include/catch.h:5951-5961 | when the last run has reached every generator there is, or aborts, the runs are the same as if all of them had been registered from the start |
| `Generators.StepCounts` | include/catch.h:7226-7270 | a step counts up by one in mixed radix, and stops, from the last tuple only, with all indices at zero |
| `Generators.PositionInRange` | include/catch.h:7262-7270 | the position of a tuple in the count is below the product of the sizes |
| `Generators.PositionOfTuple` | include/catch.h:7262-7270 | every number below the product is the position of the tuple made of its digits |
| `Generators.TupleOfPosition` | include/catch.h:7262-7270 | and every tuple is the tuple at its position |
| `Generators.RunsCount` | include/catch.h:5951-5961 | the tuples run from some tuple on are those at the following positions, none left out |
| `Generators.EveryCombinationOnce` | include/catch.h:5951-5961 | for positive sizes, from all zeros, every tuple is run exactly once |
| `Generators.PrefixStep` | include/catch.h:7262-7270 | while the first generators do not all wrap around, others behind them at zero make no difference to a step |
| `Generators.LateIsEarly` | include/catch.h:7251-7270 | registering each generator, at the back with index zero, in the run that first reaches it gives the same index tuples as registering all of them at the start |
| `Generators.GeneratorInfo.MoveNext` | include/catch.h:7226-7232 | one index counts up and wraps around at its size |
| `Generators.GeneratorsForTest.GetGeneratorInfo` | include/catch.h:7251-7260 | one generator per source location; a new one starts at zero behind all others |
| `Generators.GeneratorsForTest.MoveNext` | include/catch.h:7262-7270 | the objects' indices make one step of the odometer |
| `Generators.ContentsOfConcat` | include/catch.h:2453-2457 | the values of joined parts are the joined values |
| `Generators.ContentsOfOne` | include/catch.h:2354-2392 | a range gives exactly the numbers between its bounds, both included, in ascending order; a list gives its values |
| `Generators.CompositeGenerator.Add` | include/catch.h:2434-2437 | the generator's values come behind the others |
| `Generators.CompositeGenerator.ThenValue` | include/catch.h:2444-2449 | one more value |
| `Generators.CompositeGenerator.Then` | include/catch.h:2439-2457 | the other's values are appended and the other is emptied, its total size staying behind |
| `Generators.CompositeGenerator.ValueAt` | include/catch.h:2416-2432 | the value at that index of all values in a row, and the error exactly past the end |
| `Totals.RunTotals.AssertionEnded` | include/catch.h:5988-5994 | one passed, one failed, or neither |
| `Totals.RunTotals.RunCurrentTest` | include/catch.h:6150-6157 | a cycle books its assertions, its failures as tolerated ones if the test may fail |
| `Totals.RunTotals.RunTest` | include/catch.h:5963-5979 | a test is booked as one test case, in the delta failed if and only if a failed assertion is reported, failed as expected if and only if only tolerated ones are, else passed; every assertion not suppressed is counted once, failures being tolerated exactly in tests that may or should fail, and one failure more is reported for a test that should fail and does not |
| `Totals.RunTotals.RunTests` | include/catch.h:2234-2243 | over any sequence of tests, deltas count one test case per test and agree with the context's; no test case has failed if and only if no failed assertion is reported; their assertions are the context's, plus one failure per test that should have failed and did not |
| `Totals.SharesNearlyFill` | include/catch.h:9939-9942 | three shares rounded down miss the width by at most two |
| `Totals.RatiosNearlyFill` | include/catch.h:9939-9942 | with small shares rounded up, the three ratios are within two of the width and vanish exactly with their counts |
| `Totals.FitToLine` | include/catch.h:9957-9960 | both adjustment loops end with the line filled exactly, no segment appearing, vanishing or moving by more than three |
| `Totals.TotalsDivider` | include/catch.h:9952-9973 | the segments fill the line exactly, a segment is missing if and only if its count is zero, and the warning is drawn if and only if there are no test cases |
| `Strings.Find` | include/catch.h:7831-7841 | the first occurrence from a position on, or none if there is none |
| `Strings.ReplaceInPlace` | include/catch.h:7831-7843 | terminates with every occurrence in the original replaced from the left, even if the replacement contains the search string; true if and only if there was one |
| `Strings.ReplacedJoinsPieces` | include/catch.h:7831-7843 | the original is its pieces joined by the search string, which none of them contains, and the result the same pieces joined by the replacement |
| `TestSpec.TestSpecParser.Parse` | include/catch.h:3272-3282 | the loop over a string, after alias expansion, computes the parser function |
| `TestSpec.TestSpecParser.VisitChar` | include/catch.h:3288-3315 | one character, with the mode it opens or closes and the character an opening delimiter skips |
| `TestSpec.TestSpecParser.AddPattern` | include/catch.h:3321-3336 | the token becomes a pattern unless empty; "exclude:" is taken off and excludes |
| `TestSpec.TestSpecParser.AddFilter` | include/catch.h:3337-3342 | a non-empty filter is added and a new one begun |
| `TestSpec.ParseTestSpec` | include/catch.h:3344-3346 | the filters of a whole string |
| `TestSpecTheorems.TokenScanned` | include/catch.h:3311-3314 | a tag or quoted name runs to its closing delimiter |
| `TestSpecTheorems.PatternParsed` | include/catch.h:3288-3336 | one pattern in canonical form adds exactly itself to the current filter, from any state between tokens |
| `TestSpecTheorems.FilterParsed` | include/catch.h:3288-3336 | the same for a whole filter |
| `TestSpecTheorems.SpecParsed` | include/catch.h:3272-3342 | the same for filters separated by commas |
| `TestSpecTheorems.SpecRoundTrip` | include/catch.h:3272-3346 | printing any list of non-empty filters in canonical form and parsing it gives back the same filters and exclusion flags |
| `TestSpecNames.NameAtEnd` | include/catch.h:3278-3280 | an unquoted name at the end of the string is a name pattern of the current filter |
| `TestSpecNames.NameAtComma` | include/catch.h:3298-3310 | one in front of a comma is the last pattern of its filter |
| `TestSpecNames.NameAtBracket` | include/catch.h:3298-3310 | one directly in front of a bracket is a pattern of the same filter as the tag, except that `exclude:` alone is a mark of exclusion |
| `TestSpecNames.WrittenRoundTrip` | include/catch.h:3272-3346 | filters written with unquoted names, excluded or not, and tags directly behind them, joined by commas, are parsed to exactly those filters |
| `TestSpecNames.NameAlone` | include/catch.h:3272-3346 | a name alone is one name pattern, and with `~` in front the same, excluded |
| `TestSpecNames.ExcludePrefix` | include/catch.h:3321-3336 | `exclude:` in front of a name, in front of a tag or inside its brackets excludes it |
| `TestSpecNames.MarksSkipped` | include/catch.h:3288-3297 | between patterns, spaces and `~` in any number and order do nothing but exclude the next pattern, if there is a `~` |
| `TestCaseInfo.MakeTestCase` | include/catch.h:7402-7460 | the loop over a description gives the specified description, ordered tags, lower-case tags and printed tags, or none for a reserved tag |
| `TestCaseInfo.Insert` | include/catch.h:7430 | inserting adds exactly that tag to the set |
| `TestCaseInfo.InsertKeepsOrder` | include/catch.h:7430 | and keeps the set in ascending order |
| `TestCaseInfo.OrderedIsUnique` | include/catch.h:7411 | a set of tags has one ordered form, hence one printed form |
| `TestCaseInfo.MadeIsSettled` | include/catch.h:7402-7460 | no tag of a registered test case is reserved or holds a closing bracket, and a hidden one carries both markers |
| `TestCaseInfo.RegisteredWith` | include/catch.h:7369-7445 | registration is refused if and only if one of the tags in brackets is reserved; else the text is the description and the tags are those listed, with both markers if the name or a tag hides the test case |
| `TestCaseInfo.PropertiesByTag` | include/catch.h:7447-7460 | hidden, throwing, may fail and should fail, if and only if a tag read in lower case says so; no other property is set |
| `TestCaseInfo.LessIsLexicographic` | include/catch.h:7411 | tags are ordered by the first character in which they differ, a prefix coming first |
| `TestCaseInfo.TagsRead` | include/catch.h:7414-7437 | reading printed tags inserts exactly those tags |
| `TestCaseInfo.TagsRoundTrip` | include/catch.h:7402-7460 | registering with the printed tags of a test case succeeds and gives the same tags, printed the same, if and only if the new name does not hide a test case that was not hidden |
| `TestCaseInfo.WildcardIsGlob` | include/catch.h:3132-3157 | with stars at the ends only, the four kinds of pattern match what the stars suggest |
| `TestCaseInfo.PatternIsGlobIffNoStarInside` | include/catch.h:3132-3157 | a pattern matches what its stars suggest, for every text, if and only if no star is left inside |
| `TestCaseInfo.TagFilterMatches` | include/catch.h:3201-3231 | a filter of tags matches exactly the test cases carrying all of them |
| `TestCaseInfo.PrintedTagsSelect` | include/catch.h:3201-3244 | used as a specification, the printed tags select exactly the test cases carrying all of them in whatever case, itself included |
| `TestSelection.SameLower` | include/catch.h:7812-7822 | two texts are the same in lower case if and only if they differ at most in the case of their letters |
| `TestSelection.MadeIsProper` | include/catch.h:7447-7460 | what a registered test case is selected by follows from its name and tags |
| `TestSelection.NameCovered` | include/catch.h:3132-3157 | a name pattern matches if and only if its letters appear in the name, in either case, with other text around them only where a star was taken off an end |
| `TestSelection.CoversIsResembles` | include/catch.h:3132-3157 | with no star left inside, that is what the stars suggest, in either case |
| `TestSelection.FilterSelects` | include/catch.h:3188-3232 | a filter matches if and only if the test case carries every tag listed plainly, none of those excluded, and has a name that every plain name pattern covers and no excluded one does |
| `TestSelection.SpecSelects` | include/catch.h:3238-3244 | a specification matches if and only if one of its filters is so met |
| `TestSelection.ParsedSpecSelects` | include/catch.h:3188-3346 | the same for the text of a specification, parsed |
| `TestSelection.ExcludedTagSelects` | include/catch.h:3212-3219 | `~[tag]` selects exactly the test cases without the tag, and `[tag]` those with it |
| `TestSelection.NameSelects` | include/catch.h:3188-3199 | `name` selects exactly the test cases with a name it covers, and `~name` exactly the others |
| `TestSelection.PrintedTagsSelectCarriers` | include/catch.h:3201-3244 | printed tags select exactly the test cases carrying each of them, whatever the case of their letters |
| `Clara.Parser.ParseArgs` | include/catch.h:4143-4147 | all arguments from the second up to a lone double dash, the mode carried over between them |
| `Clara.Parser.ParseArg` | include/catch.h:4149-4156 | one argument, its terminating NUL included |
| `Clara.Parser.DoHandleMode` | include/catch.h:4157-4209 | one character in each of the modes |
| `Clara.Parser.DoHandleOpt` | include/catch.h:4188-4201 | a cluster of short options gives one token per letter, a long option one |
| `Clara.ArgumentRoundTrip` | include/catch.h:4149-4209 | a printed option, cluster, option with value behind `=` or `:`, or positional gives its tokens back and leaves the mode None |
| `Clara.ArgumentsRoundTrip` | include/catch.h:4143-4209 | the same for every list of arguments |
| `Clara.ValueMayBeSeparate` | include/catch.h:4143-4209 | `--name=value` and `--name:value` give the tokens of `--name value` |
| `Clara.StopsAtTerminator` | include/catch.h:4143-4147 | whatever follows a lone `--` makes no difference |
| `Clara.NothingBehindTerminator` | include/catch.h:4143-4147 | so a printed list of arguments gives its tokens back whatever stands behind a `--` after it |
| `Clara.QuotedIsPositional` | include/catch.h:4152-4209 | an argument in quotes is one positional token, options and separators in it included |
| `TextWrap.Text.constructor` | include/catch.h:3692-3746 | the wrapping loop terminates with the specified lines |
| `TextWrap.Text.NextLine` | include/catch.h:3706-3744 | one turn of it: the line cut, what remains, and the next indent |
| `TextWrap.Text.BreakLine` | include/catch.h:3730-3739 | a line that is too long is broken before its last wrappable character, or hyphenated |
| `TextWrap.Text.SpliceLine` | include/catch.h:3748-3751 | the line is indented and taken off the text |
| `TextWrap.CutIsSound` | include/catch.h:3706-3739 | content, separator and remainder are the text; the separator is nothing, a space or a newline; the line keeps to the width |
| `TextWrap.BreaksAreLate` | include/catch.h:3730-3739 | a broken line is the longest that fits, and a word is hyphenated only if no break was possible |
| `TextWrap.WrappingIsFaithful` | include/catch.h:3692-3746 | lines keep to the width, at most a thousand and the notice, which is there if and only if the text was truncated; unless truncated the text is the contents joined by what was dropped, else they are a prefix of it |
| `TextWrap.FittingText` | include/catch.h:3701-3746 | a text whose pieces between newlines fit is shown piece by piece, one line each |
| `XmlEncode.EncodeTo` | include/catch.h:8937-8972 | the loop writes the escaped text |
| `XmlEncode.EncodingRoundTrip` | include/catch.h:8937-8972 | resolving references in the result succeeds and gives the text back (references as in section 2.4 of XML 1.1) if and only if the text is 7-bit; other bytes, compared as signed characters, become references to no character |
| `XmlEncode.EncodingIsSafe` | include/catch.h:8937-8972 | no raw `<` is left, and no raw quote in attributes |
| `XmlEncode.EncodingIsPlain` | include/catch.h:8963-8969 | only printable 7-bit characters and tab to carriage return are left |
| `XmlEncode.PlainTextUnchanged` | include/catch.h:8942-8971 | text of such characters that holds nothing to be escaped is unchanged |
| `XmlEncode.CdataEndEscapedUnlessFirst` | include/catch.h:8948-8954 | `]]>` is in the result if and only if the text begins with it, where the test on the position misses it |
| `XmlWriter.ReadAppend` | include/catch.h:9042-9070 | reading a document in pieces |
| `XmlWriter.PrefixIsWellFormed` | include/catch.h:9042-9070 | every prefix of a document that reads well does |
| `XmlWriter.AttributeRead` | include/catch.h:9072-9076 | an attribute whose value is escaped reads as one attribute |
| `XmlWriter.XmlWriter.constructor` | include/catch.h:9018-9035 | the header reads as a document with nothing open |
| `XmlWriter.XmlWriter.StartElement` | include/catch.h:9042-9050 | what is written for any name, the indent being two per open element; for a name that XML accepts it opens exactly this element inside those open |
| `XmlWriter.XmlWriter.EndElement` | include/catch.h:9058-9070 | what is written, and that it closes exactly the innermost element |
| `XmlWriter.XmlWriter.WriteAttribute` | include/catch.h:9072-9076 | what is written, in a start tag or not; with a name that XML accepts the document stays well formed |
| `XmlWriter.XmlWriter.WriteBoolAttribute` | include/catch.h:9078-9081 | a boolean attribute is always written |
| `XmlWriter.XmlWriter.WriteText` | include/catch.h:9090-9100 | escaped text changes no element; an empty one writes nothing |
| `XmlWriter.XmlWriter.WriteComment` | include/catch.h:9102-9107 | what is written for any text; a comment whose text XML allows changes no element |
| `XmlWriter.XmlWriter.WriteBlankLine` | include/catch.h:9109-9113 | nor does a blank line |
| `XmlWriter.XmlWriter.Finish` | include/catch.h:9037-9040 | the destructor ends every element, so the document is balanced |
| `XmlWriter.XmlWriter.EnsureTagClosed` | include/catch.h:9127-9132 | an open start tag is ended |
| `XmlWriter.XmlWriter.NewlineIfNecessary` | include/catch.h:9134-9139 | a newline owed is written |
| `WireFormat.DigitsRoundTrip` | src/utils.cpp:65-66 | the digits of a printed number are its value |
| `WireFormat.AtoiOfDecimal` | src/utils.cpp:78-80 | `atoi` of a printed number is the number |
| `WireFormat.AtoiOfSigned` | src/utils.cpp:78-80 | white space and a sign in front of the digits are read, and nothing behind them |
| `WireFormat.SizeOfInt` | src/utils.cpp:78-80 | a negative `int` stored in a `size_t` wraps around |
| `WireFormat.FieldsAppend` | src/utils.cpp:74 | splitting distributes over a bar |
| `WireFormat.FieldsOfJoined` | src/utils.cpp:74 | splitting undoes joining of bar-free fields |
| `WireFormat.JoinedFields` | src/utils.cpp:74 | and joining undoes splitting of any line |
| `WireFormat.ReplacingNewlines` | src/utils.cpp:82 | replacing newlines by nothing removes exactly the newlines |
| `WireFormat.ParseToClientDetail` | src/utils.cpp:71-86 | key, three numbers as `atoi` reads them and a `size_t` stores them, and the time without newlines |
| `WireFormat.KeyOfLine` | src/utils.cpp:51-86 | the key the server sees is the client's up to its first bar; every line has five fields |
| `WireFormat.LineRoundTrip` | src/utils.cpp:51-86 | key, numbers below 2^31 and time survive; fields after the fifth do not matter |
| `WireFormat.KeySurvivesIffBarFree` | src/utils.cpp:51-86 | the key survives if and only if it holds no bar |
| `StatementReader.ColumnsOfJoined` | src/utils.cpp:91 | reading a list of columns separated by commas gives those columns |
| `StatementReader.ValuesRead` | src/utils.cpp:92-93 | reading the values gives key and time quoted and the three figures plain, in this order |
| `StatementReader.StatementHoldsRow` | src/utils.cpp:88-101 | for every table, a reader that pairs columns with values finds the key, memory, cpu and process figures and the time each under its own column |
| `StatementReader.StatementDeterminesRow` | src/utils.cpp:88-101 | hence different rows are inserted by different statements |
| `ServerProtocol.StaysSafe` | src/sys_info_server_session.cpp:22-85 | in every interleaving each session has exactly one operation outstanding unless it has ended, a pending write is that of its last reply, one accept is outstanding, and the client map never changes |
| `ServerProtocol.EndsIffWriteFails` | src/sys_info_server_session.cpp:67-85 | a session has no operation outstanding if and only if a write of it has failed |
| `ServerProtocol.SessionsAreIndependent` | src/sys_info_server_session.cpp:22-85 | a session ends up where its own handlers alone would take it |
| `ServerProtocol.RepliesAreVerdicts` | src/sys_info_server_session.cpp:32-61 | a session's replies are the verdicts on its reads |
| `ServerProtocol.EveryReadIsAnswered` | src/sys_info_server_session.cpp:32-61 | in every interleaving the i-th reply of a session answers its i-th read: "1" for a failed one, else "0" or "2" by authorization |
| `ServerProtocol.InsertsFollowReads` | src/sys_info_server_session.cpp:88-99 | inserts are attempted for exactly the authorized chunks in processing order; those executed are the ones the database accepted |
| `ServerProtocol.OneFigureIsEnough` | src/utils.cpp:103-107 | there is no alert if and only if each figure is at most its own limit; each figure alone is enough for one, and raising figures never withdraws it |
| `ServerProtocol.EmailsFollowReads` | src/sys_info_server_session.cpp:48-52 | over a run in any interleaving the emails sent number the authorized chunks with a figure above its client's limit |
| `ServerProtocol.SessionsAreAccepted` | src/sys_info_server.cpp:25-40 | there are as many sessions as connections were accepted, none for a failed one |
| `ServerProtocol.ClientMap.IsClientAuthorized` | src/utils.cpp:46-49 | true if and only if the key is in the map |
| `ServerProtocol.ClientMap.ShouldSendEmail` | src/utils.cpp:103-107 | true if and only if memory, cpu or the number of processes is greater than the client's own limit for it, the map unchanged for a known key; an unknown key would be inserted |
| `ServerProtocol.Database.Execute` | src/sys_info_server_session.cpp:88-99 | a statement is attempted, and executed unless the database fails |
| `ServerProtocol.Outbox.SendEmail` | src/sys_info_server_session.cpp:101-106 | one more email |
| `ServerProtocol.Session.OnRead` | src/sys_info_server_session.cpp:28-62 | the read handler starts exactly one write with the verdict, inserts for an authorized key only, sends an email if and only if that client's report is not within its limits, and leaves the map alone |
| `ServerProtocol.Session.Record` | src/sys_info_server_session.cpp:45-52 | one insert attempt, and an email unless all three figures are within the client's limits |
| `ServerProtocol.Session.DoRead` | src/sys_info_server_session.cpp:22-28 | one read is started |
| `ServerProtocol.Session.DoWrite` | src/sys_info_server_session.cpp:67-72 | one write of that reply is started |
| `ServerProtocol.Session.OnWritten` | src/sys_info_server_session.cpp:73-85 | the write handler starts a read, or ends the session |
| `ServerProtocol.Server.constructor` | src/sys_info_server.cpp:6-14 | one accept is outstanding and there are no sessions |
| `ServerProtocol.Server.OnAccepted` | src/sys_info_server.cpp:25-40 | a new session is started unless accepting failed, and the next accept in either case |
| `ServerProtocol.Server.OnReadDone` | src/sys_info_server_session.cpp:28-62 | the objects make the step of the transition system |
| `ServerProtocol.Server.OnWriteDone` | src/sys_info_server_session.cpp:73-85 | likewise |
| `RepeatTimer.AlwaysOnSchedule` | src/repeat_timer.cpp:24-43 | the k-th firing and the expiry waited for stay on the schedule of the start |
| `RepeatTimer.AlwaysInTurn` | src/repeat_timer.cpp:24-43 | every work starts at its firing's time or, if later, when the work before it has ended |
| `RepeatTimer.FiringsAreScheduled` | src/repeat_timer.cpp:12-43 | whatever the works take, the k-th firing is scheduled at start plus k intervals, its work starts no earlier, and on time if and only if the work before it has ended by then |
| `RepeatTimer.NextLag` | src/repeat_timer.cpp:32-38 | a work is as late as the one before it plus its duration less the interval, and never early |
| `RepeatTimer.LagShrinks` | src/repeat_timer.cpp:32-38 | works that leave some of the interval over make up for a lag by that much each |
| `RepeatTimer.CatchesUp` | src/repeat_timer.cpp:32-38 | after an overrun, once the time left over makes up for the lag, works start on time again |
| `RepeatTimer.StopIsFinal` | src/repeat_timer.cpp:30-42 | once the flag is up at most the work waited for still starts, and none once it has been seen |
| `RepeatTimer.RefusedFiringIsLast` | src/repeat_timer.cpp:24-43 | a firing answered "2" is the last one |
| `RepeatTimer.ThrowingFiringIsLast` | src/repeat_timer.cpp:24-43 | a firing whose work ends with an exception is the last one, since nothing arms the timer again |
| `RepeatTimer.Task.Call` | src/client_main.cpp:50-95 | one request; the flag is raised exactly for "2" |
| `RepeatTimer.Timer.constructor` | src/repeat_timer.cpp:5-9 | the first expiry is one interval away |
| `RepeatTimer.Timer.StartTimer` | src/repeat_timer.cpp:12-22 | the wait begins |
| `RepeatTimer.Timer.Work` | src/repeat_timer.cpp:24-43 | the object makes the step of the client's state machine |
| `ClientServer.StaysConsistent` | src/client_main.cpp:50-95 | in every interleaving with other sessions, the reply to the client's request under way is "1" if reading its line failed, else decided by its own authorization |
| `ClientServer.ReplyStopsIffReadSucceeded` | src/client_main.cpp:80-92 | in every run, a reply delivered to an unknown client stops it if and only if reading its line had succeeded; otherwise it waits for its next firing |
| `ClientServer.RequestsAreAnswered` | src/client_main.cpp:50-95 | every request but the one under way has had its reply delivered |
| `ClientServer.UnknownClientStopsWhenRead` | src/client_main.cpp:80-92 | an unknown client makes at most one request more than it is told of failed reads; once told of a line that was read it has stopped with exactly that many, and only that or its user ever stops it |
| `ClientServer.UnknownClientStopsAfterOneRequest` | src/client_main.cpp:80-92 | in particular, if no read of its line fails it makes at most one request, and exactly one, stopping, once a reply has been delivered |
| `ClientServer.FailedReadAllowsSecondRequest` | src/sys_info_server_session.cpp:56-61 | a run in which the read fails: the unknown client is answered "1" and sends a second request |
| `ClientServer.AttemptsAccountedFor` | src/sys_info_server_session.cpp:38-55 | the inserts attempted are those of the other connections and, for a known client only, one for each of its lines that is read, even after the client has given the connection up |
| `ClientServer.LineIsStored` | src/utils.cpp:51-101 | from the client's line to the row in CLIENT_INFO: every figure the client sent stands under its own column |
| `ClientServer.KnownClientGoesOn` | src/repeat_timer.cpp:24-43 | a known client is never stopped by the server, whether its lines are read or not |

## Left out

- SectionLeaves.EveryLeafOnceInOrder: gives a sufficient condition; the exact one is in `SectionLosses.EveryLeafUnlessGivenUp`. That one follows the trackers from cycle to cycle, because what earlier exceptions have left behind decides what a later one costs.
- Test bodies are fixed trees during a run, with distinct keys among siblings; loops around sections and sections chosen by run-time conditions are not modelled.
- Exceptions are raised at program points between and inside sections; user code that catches the framework's own exceptions, and fatal signals, are not modelled.
- Whether a run is aborting is an input of each cycle; the count of failures that decides it is in `Totals`, which does not model aborting.
- `IndexTracker` (nothing acquires one), messages, reporters, random ordering, macros, matchers and stringification.
- TestRuns.RunTest: how many generators each run reaches is an input, in the order of their first reach; the body is given zero for the index of one not yet reached.
- Generators of size zero, for which the odometer never wraps.
- Generators.CompositeGenerator.Then: requires another generator, because appending one to itself is undefined in the source.
- Totals.RunTotals.RunTest: takes a warning about missing assertions as one more failure of its cycle; counters do not overflow.
- Strings.ReplaceInPlace: requires a non-empty search string; with an empty one the source does not terminate.
- TextWrap.Text.constructor: requires a text without the tab character and indents at least two below the width, because the source's widths underflow otherwise; tab stops are not modelled. The second copy of the wrapper in the header is the same code.
- XmlEncode.EncodeTo: characters are bytes, compared as signed ones; on a platform where `char` is unsigned, bytes from 0x80 on are written as they are.
- XmlWriter.XmlWriter.EndElement: requires an open element, because the source takes the last of an empty list otherwise.
- Clara.ArgumentsRoundTrip: leaves out NULs, empty arguments and a lone dash, which change the mode of the arguments after them, and quotes, for which `Clara.QuotedIsPositional` stands; the Windows form of options is not modelled.
- TestSpecTheorems.SpecRoundTrip: requires tokens that are not empty, hold no closing delimiter and do not begin with "exclude:", because no canonical text stands for others; texts in other forms are in `TestSpecNames`. Tag aliases are an arbitrary function applied first.
- TestCaseInfo.PrintedTagsSelect: requires at least one tag, none of them empty or beginning with "exclude:", because those are not parsed as tags.
- TestSelection.PrintedTagsSelectCarriers: likewise; the test case selected from is any whose description follows from its tags, as `TestSelection.MadeIsProper` says of registered ones.
- TestCaseInfo.MakeTestCase: reports a reserved tag as no result where the source ends the program; letters are those of the C locale.
- WireFormat.ParseToClientDetail: requires five fields, because the source reads past the end of its fields without checking; `atoi` beyond the range of `int` is undefined there and unbounded here.
- StatementReader.StatementHoldsRow: requires keys and times without quotes, because the source does not escape them; `StatementReader.StatementDeterminesRow` and `ClientServer.LineIsStored` likewise.
- ClientServer.UnknownClientStopsWhenRead: a connection that the client gives up ends its work with an exception, which leaves the timer unarmed; a client process started again is a new client.
- Sockets, resolver, threads, the I/O service, the 1024-byte read limit and TCP framing: a completed read is one chunk with five fields or a failure.
- The database is a log of attempted and executed statements; the insert started asynchronously is taken as done before the handler goes on, which is what discarding its future amounts to.
- The client's one-byte reply is taken as a code; the source compares a buffer it has not terminated.
- Random figures, the clock's text, configuration files, the connection string, loggers and console prompts are inputs or absent.
