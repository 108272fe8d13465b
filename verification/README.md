# The documentation gates and fixture tools, verified

minfer keeps its documents, its decision records, its source layout and its test fixtures
honest with Python programs under `scripts/`. This project models the ones that do real work on
text and state, and proves what they promise:

- **Anchor drift** (`LineMap`, `Pairing`, `Drift`, `MergeBase`, `DiffText`, `DiffHarm`,
  `Anchors`): a zero-context diff is reduced to hunks, cited line numbers are shifted by sums of
  hunk deltas, old and new citations are paired, and each pair gets a verdict. The shift arithmetic is proved against actually
  editing a sequence of lines; the verdicts against the text of the two revisions; the diff
  parser against a printer, with the exact condition under which it reads what was printed.
- **Code spans and citations** (`Spans`, `Symbols`, `Documents`, `Judging`): backticks are
  paired line by line with one carried bit, or on the two sides of an anchor. Both are proved to
  agree with the pairing of the whole paragraph, with the exact condition under which they do.
  The verdicts on an anchor are reduced to what the gate passes.
- **Launch audit** (`CLexer`, `CTokens`, `LaunchSites`, `Launches`): a two-channel C lexer against a
  recursive reference lexer and against the spelling of tokens, the launch sites it lets the audit see, function and macro bodies as
  intervals, and the end of a launch statement.
- **Fixture regeneration** (`Fixtures`, `Counts`, `Survival`, `Regenerate`, `ManifestRules`): a state
  machine over the fixture cache and the record of it. The fixtures come through every sequence
  of producer outcomes exactly if none bears a name that a run takes for a backup or a rejected
  copy, and re-recording keeps the rules of the record.
- **GGUF** (`Bytes`, `Gguf`, `GgufReader`): the writer of the toy model, and a reader after the
  "File Structure" section of the GGUF specification that gets everything back.
- **Source layout** (`SourceLayout`, `CfgPredicate`): the module walk finds exactly the files a
  chain of declarations leads to, and the text search for test gates agrees with the predicate
  as a tree.
- **Commit hashes** (`DocHashes`, `HashMeaning`): a clean scan says exactly that every hash
  resolves or is excused and that no exemption is idle.
- **Decision records** (`Adr`): the loops are silent exactly when the records are numbered
  without a gap and supersession is a forest.

`Common`, `Text`, `Paths` and `Decimal` hold what the models share. Where a program changes
things step by step, the model is a method or a class proved against a function or a predicate,
and the lemmas are about that function or predicate. What these rest on in turn, the reading of
lines, names, numbers and bytes, has lemmas that say what is accepted without naming the function
that does it. `dafny verify dfyconfig.toml` checks everything.

Places where the code says less than its documentation, or other than it, and what was done:

- *Adjacent backticks.* Pairing by match differs from pairing by parity on some lines.
  `Spans.SpansAreClosedRuns` gives the exact condition: they agree if and only if no pair of
  adjacent backticks, met outside a span, is followed by text and then another backtick.
  Lines with single backticks only never meet it; three backticks with a letter before the last
  do (`Spans.AdjacentTicksMislead`).
- *Body lines of a diff.* `parse_diff` looks at every line, so an added line that displays as
  `+++ …` is taken for a file header, and the hunks behind it go astray. A removed line that
  displays as `--- …` does no harm. `DiffHarm.ReadPrintedIffHarmless` gives the exact condition
  and `DiffHarm.PlusLineMisleads` a transcript that is misread.
- *Line 0.* Rule B is documented to demand a real line, but the code only looks at the upper
  end: `path:0` passes every rule (`Judging.LineZeroPasses`). Whatever else is live cites lines
  that exist (`Judging.LiveIsInFile`), which is what the verdicts on drift assume.
- *The window of a symbol.* Since a symbol outside the cited lines fails, the window of 25 lines
  decides nothing the plain gate reports (`Judging.PassesIff`); a symbol can be "far" without
  being missed only in a range that reaches beyond the window (`Judging.FarOnlyInLongRange`).
- *The window of a site.* `resolve_window` is documented to widen the window of a macro inside a
  function. On what `owners` yields it never does: `Launches.OneOwnerPerLine`.
- *The base of the diff.* The base anchors and files are those of `rev`, but the diff is
  `git diff rev...head`, which starts at the merge base. For an anchor into a file that the diff
  changes in place, the numbers a verdict names hold the cited text if and only if the merge base
  has the cited lines where `rev` has them (`MergeBase.VerdictIffSameCited`); the same goes for
  every pair under a green strict run (`MergeBase.GreenIffSameCited`). `MergeBase.MergeBaseMisleads` is a correct verdict
  on a citation that changed its text. A file the diff does not touch is `unchanged`, and nothing
  about it is compared.
- *Quoted paths.* git shows a path with unusual characters escaped and in quotes, in front of the
  `b/`. `_strip_prefix` leaves that alone, so the file is entered under its quoted name, and every
  anchor into it is `unchanged`, whatever the diff does to it (`Drift.QuotedFileIsNotSeen`).
- *Fixture names.* A run uses two more names beside its output, for the backup and the rejected
  copy. A fixture of that name, recorded for any entry, selected or not, can be lost; every other
  one is safe. `Survival.SurviveIffNoNameTaken` is the exact statement, over all producer
  outcomes and all starting files, and `Survival.NoNameTaken` is what to look at before a run.
- *Parentheses in a cfg option.* The stripper counts parentheses inside quoted options too. A
  negation goes to its own parenthesis if and only if what it holds is balanced
  (`CfgPredicate.NegationGoesIffBalanced`); an option such as `feature = "("` inside a `not` takes
  the rest of the predicate with it, and a gate on `test` behind it is missed
  (`CfgPredicate.ParenthesisHidesTest`). `CfgPredicate.GateOfNegation` says for each of the three
  things a negated text can be whether the gate of `all(not(...), ...)` is right. Options without parentheses may hold any words, `not`
  and `test` included (`CfgPredicate.WithoutParenthesesIsPlain`).
- *A marker inside another's block.* Overlapping blocks share their end and the earlier marker
  takes every credit, so the later one is reported. A clean report therefore means disjoint
  blocks: the last clause of `HashMeaning.Honest`.

## Model

| member | source | states |
|---|---|---|
| LineMap.MapIsProvenance | scripts/check_anchor_drift.py:181-190 | For the hunks a zero-context diff prints for any ordered edits of any file: old line `l` maps to `m` if and only if `m` is a line of the edited file and is `l`, kept. |
| LineMap.OriginsAreEdited | scripts/check_anchor_drift.py:140-190 | Where each line comes from is the edit itself, applied to a file whose lines are their own numbers. |
| LineMap.RemovedIffNoImage | scripts/check_anchor_drift.py:163-190 | A line has no image if and only if an edit removed it. |
| LineMap.ImageKeepsText | scripts/check_anchor_drift.py:185-190 | A mapped number names a line of the edited file that holds the same text. |
| LineMap.ImagesAndAddedBlocksPartition | scripts/check_anchor_drift.py:44-49 | Every line of the edited file is an image or in an added block, never both, and no two old lines share an image. |
| LineMap.AddedBlockHoldsAdded | scripts/check_anchor_drift.py:140-151 | The new lines a hunk header counts are the lines its edit added, at their places. |
| LineMap.RangeStaysForward | scripts/check_anchor_drift.py:538-549 | The map is strictly increasing on surviving lines, and a range's width changes by the net delta of the hunks between its endpoints. |
| DiffText.ParsePrintedHunk | scripts/check_anchor_drift.py:131-134 | A printed hunk header is read back, with an elided count of 1 and an explicit count of 0, whatever context text follows it. |
| DiffText.HunkHasForm | scripts/check_anchor_drift.py:131-134 | Nothing else is read as one: a line read as a header is spelt `@@ -a +b @@` and anything, and its numbers are those spelt. |
| DiffText.ParseDiff | scripts/check_anchor_drift.py:202-241 | The line loop, with one mutable file section at a time, computes the line-by-line reading that the lemmas are about. |
| DiffHarm.ReadPrinted | scripts/check_anchor_drift.py:202-245 | Reading a printed transcript of any number of files gives exactly their hunk lists, renames and deletions, as long as every body line that displays as a `+++` line is harmless; paths are shown unquoted. |
| DiffHarm.ReadPrintedIffHarmless | scripts/check_anchor_drift.py:211-240 | A transcript of any number of files, each path changed once, no body line naming another section's file and deletions adding no line, is read as meant if and only if no body line displays as a `+++` line, except, in a file's last hunk, as `+++ /dev/null` while no old path is in force. |
| DiffHarm.ReadAsMeantIffHarmless | scripts/check_anchor_drift.py:211-240 | For the transcript of one changed file the condition is exact without further assumptions. |
| DiffHarm.PlusLineMisleads | scripts/check_anchor_drift.py:214-225 | A well-formed transcript whose added line `++ b/g` makes the reader lose a hunk. |
| Pairing.GroupByLine | scripts/check_anchor_drift.py:389-394 | Grouping gives each normalised line its anchors in order, and the keys once each. |
| Pairing.PairByLine | scripts/check_anchor_drift.py:396-406 | The first pass pairs exactly the anchors at the same place of equally normalised lines that have the same shape, each once. |
| Pairing.PairBySignature | scripts/check_anchor_drift.py:414-421 | The second pass pairs exactly the anchors that are the only ones of their signature on both sides, whatever the order of the signatures. |
| Pairing.SignaturesAgree | scripts/check_anchor_drift.py:411-412 | Two anchors have one signature if and only if path, symbol, shape and, of ranges, width are the same. |
| Pairing.SecondPassIff | scripts/check_anchor_drift.py:408-421 | The second pass pairs two anchors if and only if both were left free and they agree with each other and with no other free anchor. |
| Pairing.RemoveFirstIsFilter | scripts/check_anchor_drift.py:417-420 | Removing by equality removes exactly the paired anchor, because its signature is unique at that moment. |
| Pairing.Pair | scripts/check_anchor_drift.py:377-421 | The pairs are exactly the intended matching, once each, and the rest are the base anchors without a partner, in order. |
| Pairing.PairedIsOneToOne | scripts/check_anchor_drift.py:377-421 | No base anchor and no head anchor is in two pairs, across both passes. |
| Pairing.PairedIsOfBothSides | scripts/check_anchor_drift.py:401-412 | A pair joins an anchor of each side, of the same shape. |
| Pairing.PairsAndLeftoversAreTheBase | scripts/check_anchor_drift.py:408-421 | The paired base anchors and the leftovers are the base anchors as a multiset. |
| Drift.Judge | scripts/check_anchor_drift.py:505-559 | When each verdict and each reason is given, and which numbers it names. |
| Drift.JudgedByTarget | scripts/check_anchor_drift.py:507-559 | In terms of the file both sides resolved to, however the path is written: unchanged if and only if that file is neither renamed nor deleted and has no hunk; ambiguous, and correct, exactly when the maps of its hunks say so. |
| Drift.VerdictIsSound | scripts/check_anchor_drift.py:505-559 | In terms of the two texts of the file the anchor resolved to: ambiguous if and only if an edit removed a cited endpoint; otherwise the mapped numbers name the same text, correct says the head carries them, stale that it does not. |
| Drift.TouchesIffRemovesWithin | scripts/check_anchor_drift.py:167-171 | A hunk touches a range if and only if it removed a line of it. |
| Drift.DriftReport.Worst | scripts/check_anchor_drift.py:311-314 | The exit code is 1 exactly for a stale verdict, or an ambiguous one under the strict flag. |
| Drift.DriftReport.AddDocument | scripts/check_anchor_drift.py:469-496 | A compared document adds one judged verdict per pair and one leftover verdict per unpaired base anchor; a skipped one adds nothing. |
| Drift.Check | scripts/check_anchor_drift.py:468-498 | The report is the verdicts of every document, sorted by document and line. |
| Drift.SortedIsInOrder | scripts/check_anchor_drift.py:497 | Sorting orders the verdicts, loses none, and keeps those of one line as they were found. |
| Drift.OneVerdictPerAnchor | scripts/check_anchor_drift.py:476-496 | A compared document gets as many verdicts as it has live base anchors. |
| Drift.ComparedIff | scripts/check_anchor_drift.py:468-475 | A document that is gone, frozen or excluded gets no verdict; any other gets those of its live anchors. |
| Drift.LeftOverIs | scripts/check_anchor_drift.py:484-496 | An anchor without a partner is reported under its own line, file and numbers, as not compared. |
| Drift.GreenMeansSameText | scripts/check_anchor_drift.py:424-498 | If the strict gate is green and the merge base has the file the anchors were read from, every paired citation into a file that was changed in place names the same text before and after. |
| MergeBase.MappedIffSameCited | scripts/check_anchor_drift.py:440-451 | With anchors of one file and hunks of another: the mapped numbers name the cited text if and only if the cited lines stand in both files, in the same places. |
| MergeBase.VerdictIffSameCited | scripts/check_anchor_drift.py:505-559 | The same for the numbers of every correct and every stale verdict, and for the head's numbers under a correct one. |
| MergeBase.GreenIffSameCited | scripts/check_anchor_drift.py:424-498 | Under a green strict run a paired citation into a file that was changed in place names the same text before and after if and only if the merge base has the cited lines where the revision has them. |
| MergeBase.MergeBaseMisleads | scripts/check_anchor_drift.py:440-451 | A file of two lines, rewritten on one side and prefixed on the other, whose re-pointed citation is correct and cites another text. |
| Drift.QuotedFileIsNotSeen | scripts/check_anchor_drift.py:533-536 | An anchor into a changed file that git shows under a quoted path is unchanged, whatever the hunks. |
| DiffHarm.QuotedPathIsTheKey | scripts/check_anchor_drift.py:244-245 | The hunks of such a file are entered under the quoted path, quotes and prefix included. |
| Spans.SpansAreClosedRuns | scripts/check_doc_line_anchors.py:542-582 | The spans reported for a line are exactly the maximal non-empty runs of inside characters that a backtick closes if and only if no misleading pair of adjacent backticks is on it. |
| Spans.AdjacentTicksMislead | scripts/check_doc_line_anchors.py:566-582 | On three backticks with a letter before the last, a span is reported where by parity there is none. |
| Spans.SingleTicksNeverMislead | scripts/check_doc_line_anchors.py:542-582 | Without adjacent backticks the agreement is unconditional. |
| Spans.SpansInOrder | scripts/check_doc_line_anchors.py:570-582 | Spans come in written order, do not overlap and end within the line. |
| Spans.CutAgreesWithWholeLine | scripts/check_doc_line_anchors.py:608-632 | Scanned from the state the text before the anchor leaves, the two sides have exactly the whole line's spans; the one that holds the anchor is dropped on the left and clipped on the right. |
| Spans.SidesMislead | scripts/check_doc_line_anchors.py:621-632 | Cutting the line at an anchor makes no new misleading pair. |
| Symbols.SymbolOfWholeLine | scripts/check_doc_line_anchors.py:599-639 | The symbol found next to an anchor is the one the whole line's pairing puts next to it: the nearest span before, else the nearest behind. |
| Symbols.AdjacentIff | scripts/check_doc_line_anchors.py:339-343 | What may stand between an anchor and its span: at most six characters, each white space or one of the listed marks. |
| Documents.CarriedStep | scripts/check_doc_line_anchors.py:793-819 | The carried bit goes on through a line of text by its backticks; a fence or a blank line loses it. |
| Documents.FenceOnIff | scripts/check_doc_line_anchors.py:240 | A line opens a fence if and only if it is at most three white-space characters, at least three equal marks of one kind, and no further such mark; the marker is all of them. |
| Documents.ClosesFenceIff | scripts/check_doc_line_anchors.py:590-596 | A line closes it if and only if it has that form with the same mark, no fewer of them, and only white space behind. |
| Documents.FenceBeforeIff | scripts/check_doc_line_anchors.py:811-818 | A line stands in a block of marker `m`, or closes it, if and only if a line outside of any opened one with `m` and none between closes it. |
| Documents.StateIsParagraphParity | scripts/check_doc_line_anchors.py:793-819 | Under the state the loop passes to a text line, each character is inside exactly when it is under the parity of all backticks since the last break. |
| Documents.LineSpansAreParagraphRuns | scripts/check_doc_line_anchors.py:542-587 | The spans read on a text line are exactly the closed runs the paragraph's backticks make on it. |
| Documents.ContinuationTakesNearestPath | scripts/check_doc_line_anchors.py:751-772 | A bare continuation takes its own numbers and the path of the nearest path anchor strictly before it, and attaches unless there is none. |
| Documents.ContinuationIff | scripts/check_doc_line_anchors.py:250 | A span is a continuation if and only if it is `:N` or `:N-M` with any white space around it, and the numbers are those written. |
| Documents.ContinuationsAttachedOrCounted | scripts/check_doc_line_anchors.py:751-772 | What is attached is exactly what the continuation spans of the line yield, and never more than they are. |
| Documents.SilentIsCount | scripts/check_doc_line_anchors.py:751-772 | The silent ones counted are the spans that read as continuations and have no path anchor beginning before them. |
| Documents.SortSorts | scripts/check_doc_line_anchors.py:773-774 | Sorting by place orders the entries and loses none. |
| Documents.Checker.AnchorsOnLine | scripts/check_doc_line_anchors.py:720-774 | A line yields its path anchors and its attached continuations in written order; the silent ones are added to the counter. |
| Documents.Checker.RunDocument | scripts/check_doc_line_anchors.py:793-819 | Every line of a document yields its anchors under the paragraph's parity, with the adjacent symbol of each path anchor, and the counter grows by all silent continuations. |
| Judging.ResolvesTo | scripts/check_doc_line_anchors.py:519-527 | The candidates are exactly the file itself, else those the written path ends, else those of its name, once each. |
| Judging.IsMissingPathIff | scripts/check_doc_line_anchors.py:530-539 | An unresolved path is missing if and only if it has a file in one of the seven named directories of the root, and that directory is there. |
| Judging.SymbolParts | scripts/check_doc_line_anchors.py:317-319 | The identifier of a token is its last component, with or without call parentheses; its container the first, if there are two. |
| Judging.DefinitionLines | scripts/check_doc_line_anchors.py:301-314 | The lines that define the symbol, in order; only those the named container owns, if it owns any. |
| Judging.ContainerOf | scripts/check_doc_line_anchors.py:291-298 | The owner named on the nearest line at or above the definition, at most 400 lines up. |
| Judging.NearestOwnerIs | scripts/check_doc_line_anchors.py:291-298 | The search answers an owner if and only if a line fewer than 400 above names it and no line between them names one. |
| Judging.Judge | scripts/check_doc_line_anchors.py:855-931 | When each verdict is given: by how many files the path could name, then by the order and the bounds of the numbers, then by where the symbol stands; and which line a range miss points at. |
| Judging.PassesIff | scripts/check_doc_line_anchors.py:435-445 | The plain gate passes an anchor into the tree if and only if its numbers are in order and not beyond the file and its symbol, if it names one, stands in the cited lines or nowhere in the file and the sources. |
| Judging.PassesByNumbers | scripts/check_doc_line_anchors.py:435-445 | The same in line numbers, from line 1 on: the symbol stands on a line from the first number to the last, or on no line of the file and nowhere in the sources. |
| Judging.LinesAreNumbers | scripts/check_doc_line_anchors.py:895-921 | For an anchor within the file the cited lines are those from the first number to the last, the window those at most 25 away from the first. |
| Judging.FarOnlyInLongRange | scripts/check_doc_line_anchors.py:895-921 | A symbol that is far although its range holds it is cited by a range that reaches beyond the window. |
| Judging.LiveIsInFile | scripts/check_doc_line_anchors.py:872-881 | An anchor that is not failed already cites lines that exist, in order, if and only if its first line is not 0. |
| Judging.LiveIff | scripts/check_anchor_drift.py:364-366 | A judged anchor takes part in the comparison of revisions if and only if its numbers are in order and within the file and its symbol has not moved. |
| Judging.LineZeroPasses | scripts/check_doc_line_anchors.py:878-881 | An anchor to line 0 without a symbol passes every rule. |
| CLexer.CodeOnly | scripts/check_cuda_launch_returns.py:72-138 | The state machine that overwrites two character arrays writes exactly the two channels of the recursive reference lexer. |
| CTokens.LexesAsSpelt | scripts/check_cuda_launch_returns.py:72-138 | Text put together from comments, literals and other characters is lexed as it was put together, whatever quotes, escapes and comment marks stand inside them. |
| CLexer.ChannelsKeepPlaces | scripts/check_cuda_launch_returns.py:72-83 | Length and every line break stay; only comments change in the first channel, and literal bodies as well in the second. |
| CLexer.LaunchIsSeenIffCode | scripts/check_cuda_launch_returns.py:75-83 | `<<<` stands in the blanked channel exactly where all three characters were lexed as code. |
| CLexer.ChannelsAreStable | scripts/check_cuda_launch_returns.py:72-138 | Lexing the code channel again gives the same two channels, and lexing the blanked one gives it twice. |
| LaunchSites.ColumnsAgree | scripts/check_cuda_launch_returns.py:72-83 | Column `c` of line `i` is the same offset in the raw text and in both channels. |
| LaunchSites.SplitIsLines | scripts/check_cuda_launch_returns.py:328-330 | The lines hold no line break, and joined with line breaks they are the text. |
| LaunchSites.AnglesAreOfOneKind | scripts/check_cuda_launch_returns.py:72-138 | Neighbouring angle brackets are lexed alike: nothing begins or ends between them. |
| LaunchSites.Sites | scripts/check_cuda_launch_returns.py:336-350 | The audit visits only launches that are code, in order and without overlap, and passes over none but inside a longer run of brackets. |
| LaunchSites.JustAfterLaunch | scripts/check_cuda_launch_returns.py:236-248 | The place behind the first `>>>` at or after the launch; it fails exactly when there is none. |
| Launches.Owners | scripts/check_cuda_launch_returns.py:148-186 | The owners are ordered, pairwise disjoint bodies, each ending where its kind of opening says, and every line that opens something is owned. |
| Launches.OpeningIff | scripts/check_cuda_launch_returns.py:148-176 | What a line opens: a macro where its pattern matches; else, in column 0, outside comments and not ending in a semicolon, a one-line or longer function. |
| Launches.ContinuesIff | scripts/check_cuda_launch_returns.py:157-161 | A macro goes on behind a line if and only if that line ends in a backslash, white space behind it aside. |
| Launches.OneOwnerPerLine | scripts/check_cuda_launch_returns.py:189-196 | A line has at most one owner, so there is no tie to break and no body around another. |
| Launches.OwnerOf | scripts/check_cuda_launch_returns.py:189-196 | The name of the latest-starting holder of the line, or `?` if nothing holds it. |
| Launches.ResolveWindow | scripts/check_cuda_launch_returns.py:303-322 | The whole file for a line nothing holds; else from the nearest body around the holder, or the holder's own start if none is, to the holder's end. |
| Launches.StatementEnd | scripts/check_cuda_launch_returns.py:213-233 | The line of the first semicolon at balanced depth after an opening parenthesis; it fails exactly when there is none. |
| Launches.ClosesIff | scripts/check_cuda_launch_returns.py:213-233 | That semicolon: between it and the launch stand as many closing parentheses as opening ones, and at least one. |
| Regenerate.SelectGroups | scripts/check_f6_fixtures.py:866-889 | One group per selected path, as first seen, with exactly the selected entries of that path in order. |
| Regenerate.SelectsIff | scripts/check_f6_fixtures.py:866-879 | An entry is selected if and only if it has the wanted path, and the box named with it, and was recorded on the wanted box first or also, as far as these are asked for. |
| Regenerate.Run.RestoreFixture | scripts/check_f6_fixtures.py:831-838 | The backup is the fixture again and gone, what lay there is the rejected copy, and no other file moves. |
| Regenerate.Run.MoveAside | scripts/check_f6_fixtures.py:966-976 | Either the move fails as the box says, or the fixture is the backup and its place is free. |
| Regenerate.Run.RunProducer | scripts/check_f6_fixtures.py:966-1034 | Moving, running, and keeping or rejecting is the state machine's step on the cache and the record. |
| Regenerate.Run.Rerecord | scripts/check_f6_fixtures.py:1019-1031 | Only `bytes` and `date` of the reproduced entries move, and the counter grows by the entries that are different behind it. |
| Regenerate.Run.Refuse | scripts/check_f6_fixtures.py:893-954 | No refusal if and only if the command is one, its program is the right one and here, the kind may be run here, every selected content is recorded in full, and no entry of a minfer group names another commit; more than one refusal counts exactly the entries that do. |
| Regenerate.Run.Regenerate | scripts/check_f6_fixtures.py:841-1057 | The whole command: selection, the run of all groups and every exit code. The counter is the number of entries that changed; a run that is neither aborted nor dry leaves the record on disk equal to its entries, exits 1 if and only if some group that may run does not reproduce a recorded content or the changed record is ill formed, and 0 if and only if, besides, every group may run. |
| Counts.ChangesAreEntries | scripts/check_f6_fixtures.py:1019-1031 | A run of any groups counts exactly the entries that are different after it, each once. |
| Counts.CountersAreGroups | scripts/check_f6_fixtures.py:891-1017 | Of a run that is neither dry nor stopped: the runs are the groups that may run, the findings those of them that reproduce no recorded content, and there is a refusal if and only if some group may not run. |
| Counts.StepStops | scripts/check_f6_fixtures.py:966-1017 | A run stops at a group that may run exactly when its fixture is there and it, or an old backup of it, cannot be moved. |
| Fixtures.RunsIffMayRun | scripts/check_f6_fixtures.py:893-954 | The cascade of refusals lets a group run if and only if all its conditions hold at once. |
| Survival.FixturesSurvive | scripts/check_f6_fixtures.py:891-1034 | Whatever the producers do and wherever the run stops: each fixture of any recorded entry that was there is there, with its own bytes or bytes a selected entry records for it, and no backup is left that was not there before, if no fixture's name is taken. |
| Survival.SurviveIffNoNameTaken | scripts/check_f6_fixtures.py:891-1034 | The fixtures come through all outcomes from all starting files if and only if none bears the name of the backup or the rejected copy of an output that is written. |
| Survival.TakenNameIsLost | scripts/check_f6_fixtures.py:831-838 | For every name that is taken there are producers and files with which what bears it is gone or overwritten. |
| Survival.RunKeeps | scripts/check_f6_fixtures.py:957-1034 | Any file at all, fixture or not, whose name no run takes keeps its bytes or gets recorded ones. |
| Fixtures.RunTouches | scripts/check_f6_fixtures.py:957-1034 | A run touches no path but the outputs of the groups that run, their backups and their rejected copies. |
| Fixtures.DryRunChangesNothing | scripts/check_f6_fixtures.py:960-964 | A dry run leaves the cache, the record and the change counter as they are. |
| Fixtures.SeparateIffNamesApart | scripts/check_f6_fixtures.py:957-959 | The groups that run touch no common path, as the second-run result asks, if and only if none of their outputs is another's output, backup or rejected copy. |
| Fixtures.AllReproduced | scripts/check_f6_fixtures.py:1002-1034 | After a run every group's kept content is in place and on record with its size and the date, or its rejected content lies beside the fixture. |
| Fixtures.SecondRunChangesNothing | scripts/check_f6_fixtures.py:1019-1031 | A second run on the same day with deterministic producers changes neither a file nor the record, if no output bears another's name, backup or rejected copy and no file is stuck. |
| ManifestRules.CheckManifest | scripts/check_f6_fixtures.py:496-576 | No problem of rules S3, S4 and S6 if and only if contents of a path differ, divergences are explained and references are unique and rightly marked. |
| ManifestRules.TruncatesIff | scripts/check_f6_fixtures.py:519-526 | A truncated digest records a content twice if and only if a full digest goes on from it. |
| ManifestRules.CheckReference | scripts/check_f6_fixtures.py:549-575 | Silent exactly when the marked entry is a contracting quantized build, there is at most one, and there is one wherever a quantized build is recorded. |
| ManifestRules.RerecordingKeepsRules | scripts/check_f6_fixtures.py:1019-1054 | Changing only `bytes` and `date` changes no verdict of the rules. |
| ManifestRules.RunsKeepRules | scripts/check_f6_fixtures.py:1041-1054 | A record satisfies the rules after any sequence of runs if and only if it did before. |
| Gguf.Pad | scripts/gen_toy_gguf.py:50-51 | The least multiple of 32 not below `n`. |
| Gguf.Build | scripts/gen_toy_gguf.py:156-226 | The loops over pairs, offsets, infos and payloads write the file as a whole. |
| Gguf.HeaderLayout | scripts/gen_toy_gguf.py:194-222 | The four letters, version 3 and the two counts in 8 bytes, then pairs and infos. |
| Gguf.PairLayout | scripts/gen_toy_gguf.py:54-84 | Each pair is its key, the number of its type in 4 bytes and the value. |
| Gguf.InfoLayout | scripts/gen_toy_gguf.py:212-222 | Each info is its name, the number of its dimensions in 4 bytes, the dimensions, type 0 and the offset in 8 bytes. |
| Gguf.DimsLayout | scripts/gen_toy_gguf.py:219-220 | Each dimension takes 8 bytes, in order. |
| Bytes.PackLowFirst | scripts/gen_toy_gguf.py:54-84 | Numbers are written with the lowest byte first. |
| Gguf.Dims | scripts/gen_toy_gguf.py:214-217 | The dimension count drops exactly the trailing ones, never the first. |
| Gguf.Offsets | scripts/gen_toy_gguf.py:205-210 | Each offset is the sum of the padded payloads before it. |
| GgufReader.PayloadsTile | scripts/gen_toy_gguf.py:205-226 | Offsets are multiples of 32 and padded payloads tile the data section in order. |
| GgufReader.ReadWrittenValue | scripts/gen_toy_gguf.py:59-84 | Every value is read back and the reader stops where it ends. |
| GgufReader.ReadWrittenInfo | scripts/gen_toy_gguf.py:212-222 | A tensor info is read back with its name, its four padded dimensions and its offset. |
| GgufReader.ReadWrittenFile | scripts/gen_toy_gguf.py:156-226 | For all pairs and tensors that fit their fields: reading the written file gives every pair and every tensor back. |
| SourceLayout.Walk | scripts/check_source_layout.py:171-183 | The walk ends, whatever cycles there are, and has seen exactly the files to which a chain of `mod` declarations leads from the root, each read as the file it names in the directory of its module. |
| SourceLayout.ModuleDirIff | scripts/check_source_layout.py:122-130 | The children of `d/main.rs`, `d/lib.rs` and `d/mod.rs` are in `d`, those of `d/name.rs` in `d/name`; nothing else is a directory of children. |
| SourceLayout.NamesIffDeclares | scripts/check_source_layout.py:174-183 | `mod n;` in a file with children in `m` names `m/n.rs`, and `m/n/mod.rs` only if that is not there. |
| SourceLayout.ReachedIffReachable | scripts/check_source_layout.py:171-183 | The chains of these names are the chains the walk follows. |
| SourceLayout.FileFaults | scripts/check_source_layout.py:147-165 | Exactly the inline modules behind a test gate, with the first such gate, and the path attributes are reported. |
| SourceLayout.Check | scripts/check_source_layout.py:139-191 | All faults of all files and nothing else; of the files, in order, exactly those that are not reachable. |
| SourceLayout.ShadowedModuleIsReported | scripts/check_source_layout.py:180-183 | Beside `d/name.rs`, `d/name/mod.rs` is reported, unless a module is itself called `mod`. |
| CfgPredicate.WithoutNegations | scripts/check_source_layout.py:83-104 | The scan with its depth counter removes what the recursive reading removes. |
| CfgPredicate.NotOpensIff | scripts/check_source_layout.py:94-97 | A negation opens where `not` stands at the beginning of a word, white space and a parenthesis behind it. |
| CfgPredicate.HasTestIff | scripts/check_source_layout.py:63 | The search finds `test` if and only if it stands in the text as a word. |
| CfgPredicate.PrintsBalanced | scripts/check_source_layout.py:99-103 | A predicate whose options balance prints balanced. |
| CfgPredicate.NegationGoesIffBalanced | scripts/check_source_layout.py:99-103 | Where text follows, the scan removes a negation up to its own parenthesis if and only if what it holds is balanced. |
| CfgPredicate.KeptIffOpensNoNot | scripts/check_source_layout.py:93-98 | An option by itself is kept as it is if and only if it opens no `not(`. |
| CfgPredicate.StripsToKept | scripts/check_source_layout.py:83-104 | The stripper leaves of a printed predicate exactly the parts with no `not` around them. |
| CfgPredicate.GateIffBare | scripts/check_source_layout.py:107-119 | Stripping and searching finds a gate if and only if an option that names `test` has no enclosing `not`, at any depth, if what each negation holds is balanced and no other option opens a `not(`. |
| CfgPredicate.ThreeCases | scripts/check_source_layout.py:99-103 | What a negation holds is balanced, leaves a parenthesis open, or closes one too many; there is no fourth case. |
| CfgPredicate.GateOfNegation | scripts/check_source_layout.py:83-119 | When the gate of `all(not(...), ...)` is right: always if the negated text is balanced; if it leaves a parenthesis open, if and only if no bare `test` follows; if it closes one too many and what is left over opens no `not(`, if and only if a bare `test` follows or the rest of the negated text names none. |
| CfgPredicate.WithoutParenthesesIsPlain | scripts/check_source_layout.py:83-90 | Options without parentheses meet that condition, whatever their words. |
| CfgPredicate.TestGate | scripts/check_source_layout.py:107-119 | The first of the attributes that is a gate, if any is. |
| CfgPredicate.ParenthesisHidesTest | scripts/check_source_layout.py:99-103 | For all `a` and `b` without parentheses, the gate of `all(not(a(b), test)`, where `a(b` is one option, is missed. |
| DocHashes.ScanDocument | scripts/check_doc_hashes.py:291-350 | One pass finds the citations, the markers with their blocks, and the failures of a document, outside fences. |
| DocHashes.Block | scripts/check_doc_hashes.py:331-349 | The block of a marker: the next run of non-blank lines behind blank and marker lines. |
| DocHashes.Report.Scan | scripts/check_doc_hashes.py:284-403 | What the scan adds to each field of the report; seen equals resolved plus unresolved. |
| DocHashes.ResolvedIsCount | scripts/check_doc_hashes.py:356-362 | The resolved counter is the number of citations whose hash names a commit. |
| DocHashes.Report.Judge | scripts/check_doc_hashes.py:356-388 | Each citation's decision, and which entries and markers earn credit. |
| DocHashes.Report.Ratchet | scripts/check_doc_hashes.py:390-403 | Exactly the entries and markers without credit are stale. |
| HashMeaning.OverlapSharesEnd | scripts/check_doc_hashes.py:330-350 | If the blocks of two markers of a document overlap, they end together and the earlier one holds the later. |
| HashMeaning.CoversIffInBlock | scripts/check_doc_hashes.py:136-137 | From the lines alone: a marker covers a citation if and only if the citation is in the run of non-blank lines behind the marker, blanks and other markers before that run aside. |
| HashMeaning.FenceIs | scripts/check_doc_hashes.py:294-304 | Which lines are fenced, from the lines alone: those between a fence line and the next of its character. |
| HashMeaning.CreditedDisjoint | scripts/check_doc_hashes.py:376-382 | A marker that earned credit overlaps no block of an earlier one. |
| HashMeaning.CleanIsHonest | scripts/check_doc_hashes.py:150-151 | A clean report: every hash resolves or is excused, every entry is cited and unresolvable, every marker has a block that needs it, and blocks are disjoint. |
| HashMeaning.HonestIsClean | scripts/check_doc_hashes.py:150-151 | Documents of which all that holds get a clean report. |
| HashMeaning.Check | scripts/check_doc_hashes.py:406-431 | The gate passes exactly those documents. |
| Adr.OrderIsNumeric | scripts/check_adr.py:326-341 | Comparing zero-padded numbers as strings is comparing them as numbers. |
| Adr.PaddedIsNumber | scripts/check_adr.py:310-311 | A four-digit number equals the padded numeral of `i` if and only if it stands for `i`. |
| Adr.Check | scripts/check_adr.py:285-347 | Exactly the numbering and supersession problems there are; none if and only if the corpus is in order. |
| Adr.CleanIffInOrder | scripts/check_adr.py:309-347 | No problem if and only if the numbers are 1 to N, successors are later records, and what a record supersedes is what names it as successor. |
| Adr.ChainsEnd | scripts/check_adr.py:318-347 | Every chain of supersession rises, is no longer than the records left, and leads to one record. |
| Adr.StandingIsReached | scripts/check_adr.py:318-347 | From every record a chain leads to one that is not superseded. |

## Left out

- Running git, cargo, compilers and producers, archive extraction, directory walks, TOML and JSON, argument parsing and message wording: their results are inputs.
- Regular expressions other than the ones modelled by hand (hunk header, fence, continuation, code span, `not(`, the word `test`): anchor matches, function and macro names, module declarations, attributes, hash tokens and marker lines are inputs. Digits and word characters are the ASCII ones.
- Judging.Judge: file contents, the index and what the symbol patterns match on a line are inputs; so is `looks_like_symbol` in `Symbols`. A pattern searched in joined lines is searched line by line: an identifier holds no line break. In `Drift` an anchor's target and status are inputs.
- Rule G of `check_doc_line_anchors.py` and the frozen-record ratchet of `Checker.run`; `Documents.Checker.RunDocument` collects the anchors, `Judging.Judge` judges one.
- Drift.Check: documents and the anchors of each come in some order; the results hold for any, so the sorts before pairing are not modelled.
- Drift.QuotedFileIsNotSeen: a quoted path in a rename or a deletion is not modelled.
- DiffHarm.ReadPrinted: lines are given; a source line that holds a form feed or another separator `splitlines` honours would reach the parser in pieces. A rename without content has no `+++` line, and the code records nothing for it; so does the model.
- DiffHarm.ReadPrintedIffHarmless: where a body line names the file of another section, a harmful line can be undone by that section; whether it is depends on the order of the sections and is not worked out.
- LaunchSites.Sites: what `audit` does at a site with the tokens its patterns find there (`site_string`, `kernel_fragment`, the prelude and read searches).
- Survival.FixturesSurvive: uninterrupted runs and producers that write only their own output; a crash between two moves is not promised by the code. SHA-256 is an uninterpreted function, so "recorded bytes" are bytes whose digest is recorded.
- Survival.SurviveIffNoNameTaken: some content must be on record nowhere; were every digest recorded, an overwritten rejected copy would always count as recorded.
- Regenerate.Run.Regenerate: `output_path`, `recorded_commit`, program lookup and the re-check of the written record are parameters; an aborted run leaves the record on disk as it was.
- ManifestRules.CheckManifest: rules S2, S5 and S7 look at fields and files that a run does not change.
- GgufReader.ReadWrittenFile: the reader knows the value types and the tensor type the writer emits. Text is its UTF-8 bytes and a float its bit pattern; the encoding of both, and the values of the toy model, are not modelled. The declared alignment must be the writer's 32, as its own metadata says or by default.
- CTokens.LexesAsSpelt: comments and literals that the end of the text cuts off.
- SourceLayout.ModuleDirIff: paths end in `.rs`, hold a slash, and have one slash between directories, as joining listed names gives them.
- SourceLayout.Check: line counting and `code_lines` belong to the given matches.
- CfgPredicate.GateOfNegation: the negation stands first, and what follows it is as `GateIffBare` wants it; where the text left over from an early stop opens another `not(`, the same three cases arise again for that one.
- CfgPredicate.GateIffBare: predicates are printed with one space behind a comma and any white space between `not` and its parenthesis.
- DocHashes.Report.Scan: `load_ledger` and `resolve` are inputs; documents have distinct names, as a listing of files has.
- Adr.Check: titles, dates, sections, the index, the citation and map ledgers, and the sort of the listing; the result holds for records in any order.
- Thin checkers (`check_env_vars.py`, `check_support_matrix.py`, `check_docs_links.py` and their like) compare sets and would add easy members only; `check_figures.py` estimates geometry in floating point.
