# Verified models of bsl-analyzer

This project models the parts of bsl-analyzer whose correctness depends on more than one function
at a time, and proves what they promise. Each Dafny module stands for one component; the classes
carry the fields the program updates in place, and their methods are proved equal to functions on
values, about which the laws are then stated.

**The incremental source store** (`TextEdits`, `SourceStore`, `StoreInvariants`, `StoreWrites`,
`StoreReads`, `StoreRuns`, `StoreAnswers`, `StoreReuse`, `SourceDatabase`, `FileChange`). Inputs carry a stamp (the revision they
were written in, and a durability); memos carry a value, the inputs they read and the revision they
were last found valid in. Overlays and parse snapshots are plain maps the memo engine cannot see. The
disk is a map that changes on its own. A run is any sequence of registrations, evictions, disk changes
and reads. The content hash, the parser and the method reparse are functions given to the model. What
reads return of texts and flags is shown for any of them. That a held text is the one a fresh read
would find needs a hash free of collisions; what is said of parses needs that and a reparse that
honours its contract, unless every splice is checked on the spot. A read can end in a panic or be
abandoned because the disk drifted.

**The structure scanner** (`PathFolding`, `ScanStats`, `ScanPaths`, `ScanWalk`, `ScanTables`,
`ScanContents`, `ScanFolding`, `Observation`). A document is a tree; the walk sees its start and end
events. Statistics are compared with what a reader of the trees would write down, in one pass, in
chunks, and folded.

**The analysis scope** (`ScopeIndex`, `ScopeGates`, `ScopeLifecycle`, `ScopeEvents`). The suffix index against a scan of all keys;
the background rebuilds as interleaved events, with generations that wrap at 64 bits.

**Protocols** (`Framing`, `FrameStreams`, `FramingLaws`, `Demux`, `DemuxRequests`, `Publisher`,
`PublisherSafety`, `PublisherLog`). Base-protocol
framing (LSP 3.17, Base Protocol, Header Part) and the relay in front of it; the response demultiplexer
step by step; the issue publisher against a tracker behind calls that may fail before or after taking
effect.

**The release gate** (`Calibration`, `CalibrationLaws`, `RecordRatchet`, `GateRules`, `GateRunner`). Ratios are reals.

**The configuration key** (`ConfigKey`), with string order and sorting in `Order`. What the modules
share is in `Common`.

## Where the code does not keep its promise

Each of these is proved with inputs that show it, and with the condition under which the promise holds.

- Asking whether a file is unread before anybody registered it records no dependency: the answer can
  go stale (`StoreRuns.UnregisteredAnswerGoesStale`), and lasts exactly if the file was registered
  (`StoreRuns.UnreadAnswerLastsIffRegistered`).
- A change set maps its files before it registers their roots, so a mapping does not inherit its
  root's durability although the comment on it says so (`FileChange.ChangeSetFloorsALibrary`); it
  does exactly if it had that durability before (`FileChange.MappingInheritsIff`).
- The suffix index is looked up by the file name of the path as given, its keys and the comparison use
  the normalised one; with keys and paths spelled as their components, one is missed in some scope
  exactly if the path names a file other than it ends in once normalised, or goes up
  (`ScopeIndex.LookupIsExactIff`; `ScopeIndex.MissedBelow` gives the scope).
- `Failed` is documented as "analyzing without a filter"; discarding an obsolete result passes through
  it with the old filter still in use (`ScopeLifecycle.FailedStillFilters`), exactly where the rebuild
  it makes way for finds no room (`ScopeLifecycle.FailureUnfiltersIff`).
- A reload of the configuration is said not to drop the filter silently. It does while a build runs
  (`ScopeLifecycle.ReloadDropsTheFilter`), and exactly where a filter is in use without a published
  scope (`ScopeLifecycle.ReloadKeepsTheFilterIff`).
- The relay hides that a stream broke off (`FrameStreams.LoneByteIsHidden`), exactly if it did inside a
  header (`FrameStreams.CutStreamIsRelayed`).
- A request registered after the connection closed is never signalled
  (`Demux.LateRequestWaitsInVain`), one registered before always (`Demux.SignalledIffInTime`).
- The publisher looks only at issues labelled `perf`; an open issue whose label was taken off is
  duplicated (`PublisherSafety.UnlabelledIsDuplicated`, `PublisherSafety.AnotherOpensIff`).
- The calibration of memory growth accepts itself only if its middle series was ready with at least
  the median memory (`Calibration.GrowthCalibrationIsConsistentIff`); for any other memory there are
  values that it reports (`Calibration.ShortMiddleRejects`).
- Waiting for a quiet machine can pass the budget by a poll and a run together, not one of them
  (`GateRunner.PollAndRunAddUp`): exactly if the run that did not count, being no shorter than a poll,
  was launched with the budget passed already (`GateRunner.Runner.Run`, `GateRunner.Runner.RunAll`).

## Model

| member | source | states |
|---|---|---|
| TextEdits.CommonPrefix | crates/parser/src/reparse.rs:46-56 | the block-wise scan finds the longest common prefix, defined element by element |
| TextEdits.CommonSuffix | crates/parser/src/reparse.rs:58-70 | the same from the end |
| TextEdits.FindEdit | crates/parser/src/reparse.rs:26-41 | the imperative form computes the edit between two texts |
| TextEdits.EditRebuildsTheNewText | crates/parser/src/reparse.rs:26-41 | there is no edit exactly between equal texts; an edit has ordered ranges and, applied to the old text, gives the new one |
| TextEdits.EditIsNarrow | crates/parser/src/reparse.rs:26-41 | a replacement differs at both ends: nothing shared is left inside |
| TextEdits.EditStartsAtTheFirstDifference | crates/parser/src/reparse.rs:26-41 | an edit starts where the texts first differ, and what follows it is shared and cannot begin earlier |
| StoreInvariants.ShieldIsSound | crates/base-db/src/lib.rs:329-340 | a memo accepted by durability alone would be accepted by its dependencies |
| StoreInvariants.AdvanceKeepsInv | crates/base-db/src/lib.rs:253-399 | whatever only writes stamped fields keeps every memo, snapshot and overlay consistent |
| StoreWrites.RevisionWriteIsSeen | crates/base-db/src/lib.rs:348-383 | registering a known file is a write every reader of its revision sees; the flag is written only when it flips |
| StoreWrites.SetTextAdvances | crates/base-db/src/lib.rs:253-288 | opening or editing a file moves no value under an unmoved stamp, presence of the overlay included |
| StoreWrites.SetFromDiskAdvances | crates/base-db/src/lib.rs:317-327 | nor does closing it onto the disk, although the overlay map is untracked |
| StoreWrites.SetRootAdvances | crates/base-db/src/lib.rs:433-456 | nor registering a source root |
| StoreWrites.SetRootOfAdvances | crates/base-db/src/lib.rs:475-509 | nor mapping a file to a root |
| StoreReads.ValidTextIsFromScratchText | crates/base-db/src/queries.rs:187-216 | a text memo still held valid is what a read without memo returns, unless the file is disk-backed and its bytes are gone or no longer the recorded ones; then that read panics or is superseded |
| StoreReads.FetchTextKeepsInv | crates/base-db/src/queries.rs:187-216 | reading a text, from the memo or anew, keeps the store consistent and answers with the registered text |
| StoreReads.ReparseRefinesFullParse | crates/base-db/src/queries.rs:122-156 | spliced, refused, mismatched or equal: the parse is the full parse of the new text |
| StoreReads.CountMovesOneCounter | crates/base-db/src/lib.rs:212-221 | counting an outcome moves that counter by one and no other |
| StoreReads.FetchParseIsFullParse | crates/base-db/src/queries.rs:92-156 | a parse served in any way is the full parse of the text registered, as far as hash and reparse can be trusted; flags, texts and counters stay right regardless |
| StoreReads.FetchUnreadKeepsInv | crates/base-db/src/lib.rs:397-399 | asking whether a file is unread keeps the store consistent |
| StoreRuns.RunReflects | crates/base-db/src/lib.rs:253-399 | after any run the store says of each file what its last registration said |
| StoreRuns.UnreadExactlyWhenMarked | crates/base-db/src/lib.rs:385-399 | a file is unread exactly when its last registration marked it unreadable, whatever the hash and the parser do |
| StoreRuns.TextAfterAnyRun | crates/base-db/src/queries.rs:187-243 | after any run of registrations, evictions, disk changes and reads, a text read is the registered overlay, or bytes under the recorded revision, or no answer, whatever the hash and the parser do |
| StoreRuns.ParseAfterAnyRun | crates/base-db/src/queries.rs:92-156 | and a parse read is the full parse of that text, however many splices lie behind it |
| StoreRuns.MemoIsFromScratchAfterAnyRun | crates/base-db/src/queries.rs:187-216 | with a hash free of collisions, in every reachable state a valid text memo equals a fresh recomputation, with the disk exceptions named |
| StoreRuns.OverlayNeverStale | crates/base-db/src/queries.rs:245-253 | in every reachable state a resident overlay hashes to the recorded revision, so the check never fires, even for a hash with collisions |
| StoreAnswers.ClosedTextAfterAnyRun | crates/base-db/src/queries.rs:200-262 | with a hash free of collisions, a text of a file closed onto the disk is looked for after any run where its last mapping and the last registration of that root say: without them the read panics so, bytes that hash to the recorded revision are the answer, others supersede the read; a memo may answer only with such bytes, and only for a file that has its place |
| StoreAnswers.UnregisteredIsRefused | crates/base-db/src/queries.rs:200-203 | a file nobody registered has no revision to read |
| StoreAnswers.StaleOverlayIsRefused | crates/base-db/src/queries.rs:245-253 | an overlay that does not hash to the recorded revision makes the read panic, reachable or not |
| StoreAnswers.ClosedParseAfterAnyRun | crates/base-db/src/queries.rs:92-156 | with the recorded bytes at its place a closed file parses, as those bytes do |
| StoreAnswers.FilesAreAsDurableAsTheirRoot | crates/base-db/src/lib.rs:317-421 | after any run a registration stamps revision and overlay with the durability of the kind of root the file was last mapped to, LOW without one |
| StoreAnswers.MappingsAreAsDurableAsTheirRoot | crates/base-db/src/lib.rs:475-509 | and a mapping with that of the root it names; mapped again to the same root, a file keeps its stamp |
| StoreAnswers.RootStamped | crates/base-db/src/input.rs:65-71 | a root is as durable as its kind: local LOW, metadata MEDIUM, library HIGH |
| StoreRuns.ShortcutIsSoundAfterAnyRun | crates/base-db/src/lib.rs:329-340 | in every reachable state the durability shortcut agrees with walking the dependencies, for all three queries |
| StoreRuns.EveryExecutionIsCounted | crates/base-db/src/lib.rs:212-221 | over any run, from any consistent store, the outcomes counted are as many as the executions of the parse query, no more and no fewer |
| StoreRuns.UnregisteredAnswerGoesStale | crates/base-db/src/lib.rs:397-399 | asked about an unregistered file, the memoised answer is wrong once the file is registered as unreadable |
| StoreRuns.UnreadAnswerLastsIffRegistered | crates/base-db/src/lib.rs:393-399 | a first answer stays true through every later run exactly if the file was registered when it was given |
| StoreRuns.FlagStampMovesOnlyOnFlip | crates/base-db/src/lib.rs:366-380 | a registration restamps the unread flag exactly when the answer changes |
| StoreReuse.WritesAreSeenUpTo | crates/base-db/src/lib.rs:329-340 | a write is seen by the durabilities up to that of what was written, and by no other |
| StoreReuse.SyntheticWriteMovesTheClock | crates/ide-db/benches/salsa_incremental.rs:284-312 | a synthetic write moves the clock for that durability and below, and no input |
| StoreReuse.TypingPassesTheShield | crates/base-db/src/lib.rs:329-340 | typing in an open local file leaves the shortcut of every more durable memo standing |
| StoreReuse.FreshTextIsTight | crates/base-db/src/queries.rs:187-216 | a text just read is exactly as durable as the least durable thing it was read from; and as old as the newest, unless the same value was held before |
| StoreReuse.OthersDoNotReread | crates/base-db/src/queries.rs:187-216 | it is answered again after any registration that concerns neither the file, its mapping nor its root, whatever becomes of the disk |
| StoreReuse.DriftIsCounted | crates/base-db/src/queries.rs:222-243 | a drift is counted exactly if the read is superseded |
| StoreReuse.SameTextIsNotParsedAgain | crates/base-db/src/queries.rs:92-115 | an open file registered again with its own text is not parsed again, exactly if it is registered no less durable than it was read |
| StoreReuse.StandingParseIsAnswered | crates/base-db/src/queries.rs:92-115 | a parse is run over a text that stands exactly if its own shortcut fails and the text is newer |
| StoreReuse.ParseNotRunIsRemembered | crates/base-db/src/queries.rs:92-115 | a parse that is not run is the one remembered |
| StoreReuse.ParseIsCountedAsTaken | crates/base-db/src/queries.rs:92-156 | a parse of an open file leaves its text and tree as the snapshot, and counts as full, refused, mismatched or spliced as the reparse said |
| StoreReuse.ClosedParseIsFull | crates/base-db/src/queries.rs:92-115 | a parse of any other file is counted as full and leaves no snapshot |
| StoreReuse.FreshParseFollowsItsText | crates/base-db/src/queries.rs:92-115 | a parse that was run depends on what its text does, as old and as durable |
| StoreReuse.EvictedTextIsReadAgain | crates/base-db/src/queries.rs:187-191 | an evicted text is read anew |
| StoreReuse.EvictedParseIsRunAgain | crates/base-db/src/queries.rs:92-93 | an evicted parse is run anew, if there is a text |
| StoreReuse.StaleEvictedTextIsParsedAgain | crates/base-db/src/queries.rs:187-191 | a stale text that was evicted counts as changed |
| StoreReuse.FreshFlagFollowsItsField | crates/base-db/src/lib.rs:393-399 | what is remembered of a flag hangs on that flag alone, and of an unregistered file on nothing |
| SourceDatabase.Database.SetFileRevisionWithDurability | crates/base-db/src/lib.rs:348-383 | updates the maps in place as the write on values that the invariants speak of |
| SourceDatabase.Database.SetFileTextMarked | crates/base-db/src/lib.rs:253-288 | likewise, the text input first and the revision after it |
| SourceDatabase.Database.SetFileTextSmart | crates/base-db/src/lib.rs:401-421 | an edit is written at the durability of the file's root, LOW without one |
| SourceDatabase.Database.SetFileUnreadable | crates/base-db/src/lib.rs:385-388 | an unreadable file is an empty overlay with the flag set |
| SourceDatabase.Database.SetFileRevisionFromDisk | crates/base-db/src/lib.rs:317-327 | drops overlay and snapshot and records the revision |
| SourceDatabase.Database.SetSourceRoot | crates/base-db/src/lib.rs:433-456 | registers a root at its own durability |
| SourceDatabase.Database.SetFileSourceRoot | crates/base-db/src/lib.rs:475-509 | maps a file at the durability the root has by then, and not again to the same root |
| SourceDatabase.Database.FileIsUnread | crates/base-db/src/lib.rs:397-399 | reads the flag, false for an unregistered file |
| SourceDatabase.Database.FileTextUnmemoized | crates/base-db/src/queries.rs:200-243 | reads overlay or disk in place as the read of which the answers after any run are told; a drifted file is counted and the read superseded |
| SourceDatabase.Database.FileTextQuery | crates/base-db/src/queries.rs:187-191 | answers from the memo exactly while it holds |
| SourceDatabase.Database.ReparseOrParse | crates/base-db/src/queries.rs:122-156 | takes the splice, the fallback or the mismatch branch and counts that outcome |
| SourceDatabase.Database.ParseQuery | crates/base-db/src/queries.rs:92-115 | answers from the memo or parses, storing the snapshot of an open file |
| FileChange.MappingInheritsIff | crates/base-db/src/change.rs:47-51 | after a change set of any roots, the mapping of each of their files has its root's durability exactly if the mapping, or else the root its id named, had that durability before |
| FileChange.ChangeSetFloorsALibrary | crates/base-db/src/change.rs:26-64 | on a new store every library file of any change set is mapped, and read, at LOW, although its root is registered at HIGH |
| FileChange.RootFirstKeepsDurability | crates/base-db/src/lib.rs:470-509 | registered root first, the file is read at the root's own durability |
| FileChange.Apply | crates/base-db/src/change.rs:26-64 | every root is registered, every file mapped to the last root that holds it, every changed file open with its last text, as durable as the root it belongs to by then; roots, mappings and registrations the set does not name stay as they were |
| FileChange.BatchRegisters | crates/bsl-analyzer/src/call_hierarchy_index_overlay.rs:102-131 | replaying a frozen view registers each file of the batch as it was captured |
| FileChange.BatchReadsTheFrozenView | crates/bsl-analyzer/src/call_hierarchy_index_overlay.rs:102-131 | every read of a batch database is a read of the frozen view: an open module gives its captured text, a closed one the bytes at its captured path if they are those recorded |
| PathFolding.FoldedAtMostTwice | scripts/metadata_schema.py:272-283 | a key has every name at most twice and ends in the visited tag |
| PathFolding.FoldStaysUnderItsParent | scripts/metadata_schema.py:272-283 | an element below a key is counted under it if the key has its tag less than twice; else under the part of that key that ends in the second occurrence of the tag |
| PathFolding.FoldIsIdempotent | scripts/metadata_schema.py:272-283 | folding twice is folding once; a path is its own key exactly without a third occurrence |
| PathFolding.FoldIsACongruence | scripts/metadata_schema.py:272-283 | paths with one key have one key after any common extension |
| PathFolding.KeyLengthIsBounded | scripts/metadata_schema.py:275-281 | a key is at most twice as long as the alphabet is large, however deep the nesting |
| ScanStats.MergeValuesIsCommutative | scripts/metadata_schema.py:108-116 | merging values does not depend on the order |
| ScanStats.MergeValuesIsAssociative | scripts/metadata_schema.py:108-116 | nor on the grouping, although the cap forgets values |
| ScanStats.AddToMerge | scripts/metadata_schema.py:100-106 | a value added after a merge is a value added before it, cap and all |
| ScanStats.DomainIsExact | scripts/metadata_schema.py:48-51 | a domain is open exactly if more than the cap of distinct collectable values were met; else it holds each with its occurrences by source |
| ScanPaths.MergePathIsCommutative | scripts/metadata_schema.py:162-183 | merging statistics of a path does not depend on the order |
| ScanPaths.MergePathIsAssociative | scripts/metadata_schema.py:162-183 | nor on the grouping |
| ScanPaths.VisitIsMerge | scripts/metadata_schema.py:135-160 | apart from documents, a visit merges what it alone would leave |
| ScanWalk.WalkRefinesRecursion | scripts/metadata_schema.py:227-256 | the stack walk over any document never pops an empty stack, ends with none, and records what recursion over the tree does |
| ScanWalk.RecordsOfDocument | scripts/metadata_schema.py:233-245 | every visit is published under the fold of its full path |
| ScanTables.DocumentIsMerged | scripts/metadata_schema.py:135-183 | all visits of one document add up to one merge, its being counted once included |
| ScanTables.ParallelScanIsSequential | scripts/metadata_schema.py:294-300 | chunks scanned apart and merged give the tables of one pass |
| ScanTables.OrderDoesNotShow | scripts/metadata_schema.py:200-211 | one pass gives the same tables for any order of the documents |
| ScanTables.AnyPartitionInAnyOrder | scripts/metadata_schema.py:351-375 | any partition into chunks merged in any order gives the tables of one pass in any order |
| ScanContents.TablesAreExact | scripts/metadata_schema.py:119-160 | a path is in the table exactly if an element has it, and its counts, documents, sources, versions, values, texts, child ranges and first place are those of the elements |
| ScanContents.DocumentsAreCounted | scripts/metadata_schema.py:139-142 | a document counts once per path, however often it visits it |
| ScanFolding.PublishedIsMerged | scripts/metadata_schema.py:189-192 | the published entry of a key is the merge of the entries of all full paths that fold onto it, documents aside |
| ScanFolding.PublishedDocumentsLieBetween | scripts/metadata_schema.py:189-192 | its document count lies between the largest of theirs and their sum |
| Observation.MergeInto | scripts/metadata_schema.py:108-116 | the loop over values, the cap looked at once at the end, is the merge |
| Observation.EnterStats | scripts/metadata_schema.py:135-146 | entering updates every field as the specification says, attributes in any order |
| Observation.LeaveStats | scripts/metadata_schema.py:148-160 | leaving widens the range of every child name, in any order |
| Observation.MergeStats | scripts/metadata_schema.py:162-183 | the field-by-field loops are the merge |
| Observation.MergeTable | scripts/metadata_schema.py:200-207 | merging tables key by key, in any order, adopting what is new |
| Observation.Observation.Merge | scripts/metadata_schema.py:200-211 | both tables and the errors of another observation are merged in |
| Observation.Observation.Walk | scripts/metadata_schema.py:227-256 | the loop with its stack applies to both tables exactly the records of the recursion, and never misses a key it leaves |
| Observation.Observation.ScanDocument | scripts/metadata_schema.py:213-225 | a malformed file is an error record and nothing else |
| Observation.ScanChunk | scripts/metadata_schema.py:294-300 | a chunk gives the settled tables of its well-formed files |
| Observation.Scan | scripts/metadata_schema.py:362-373 | for any number of workers, a negative one included, the merged tables are those of one pass over all well-formed files, and the errors are those of the malformed ones, by source and path |
| Observation.OneInput | scripts/metadata_schema.py:213-225 | a file is a document if it could be parsed, and reported if it could not |
| Order.PairBeforeIff | scripts/metadata_schema.py:143-144 | pairs by their first components, and by the second where those are equal |
| ScopeIndex.SuffixKeepsLast | crates/base-db/src/scope.rs:234-240 | a suffix on a `/` boundary has the same last component |
| ScopeIndex.Build | crates/base-db/src/scope.rs:122-144 | the index holds each key once under its file name; the fingerprint is of the contents in key order, however the table iterates |
| ScopeIndex.EqualityIsOfContents | crates/base-db/src/scope.rs:252-268 | equality is equality of contents, whatever the hash, and so equal scopes hash alike |
| ScopeIndex.FindEntry | crates/base-db/src/scope.rs:180-224 | the loop over a bucket finds none, the one or more than one match |
| ScopeIndex.ScanIsAFunction | crates/base-db/src/scope.rs:180-224 | the scan the index is compared with has exactly one answer for any keys and path |
| ScopeIndex.FindIsTheScan | crates/base-db/src/scope.rs:180-224 | through the index the answer is that of a scan of all keys (exact hit; else none is out, one decides, several are the whole file), if the path names what it ends in once normalised |
| ScopeIndex.SlashPathsAreScanned | crates/base-db/src/scope.rs:180-224 | so it is for every path without a backslash that ends in the name of a file |
| ScopeIndex.LookupIsExactIff | crates/base-db/src/scope.rs:197-206 | over keys spelled as their components, it is so in every scope exactly for the paths that name what they end in once normalised, and for the root and the current directory; any other path is missed in some scope |
| ScopeIndex.OverlapIsASharedLine | crates/base-db/src/scope.rs:26-33 | a hunk counted from 1 overlaps lines counted from 0 exactly if they share a line |
| ScopeIndex.GatesAgree | crates/base-db/src/scope.rs:156-178 | the file gate never drops a line the line gate keeps, and passes only files with such a line |
| ScopeGates.GatesByTheTable | crates/base-db/src/scope.rs:156-231 | where one key decides, a file passes exactly if no hunks were given for it or there are some, and lines pass exactly if no hunks were given or one holds a line of them |
| ScopeGates.GatesUndecided | crates/base-db/src/scope.rs:156-224 | where none does, all passes if several keys match and nothing if none |
| ScopeGates.NormalizedSpelling | crates/base-db/src/scope.rs:246-250 | normalising turns backslashes around and drops one leading `./`, and changes nothing else |
| ScopeGates.NameOfClean | crates/base-db/src/scope.rs:197-206 | a path spelled as its components names the last of them, unless that is no name |
| ScopeGates.TrailingNamesNothing | crates/base-db/src/scope.rs:197-206 | a separator or a dot behind a path does not change what it names |
| ScopeGates.FingerprintTellsContents | crates/base-db/src/scope.rs:122-144 | with a hash that tells its arguments apart, scopes of one fingerprint have the same base, kind of keys and files |
| ScopeLifecycle.GlobalState.RequestScopeRebuild | crates/bsl-analyzer/src/analysis_scope.rs:61-66 | a request is accepted if there is a base or a state to undo |
| ScopeLifecycle.GlobalState.MaybeSpawnScopeBuild | crates/bsl-analyzer/src/analysis_scope.rs:71-149 | spawns, drops the filter, gives up or waits, branch by branch |
| ScopeLifecycle.GlobalState.HandleAnalysisScopeReady | crates/bsl-analyzer/src/analysis_scope.rs:153-200 | drops, discards or publishes a result |
| ScopeLifecycle.GlobalState.ShowScopeWarning | crates/bsl-analyzer/src/analysis_scope.rs:268-280 | one warning per distinct failure in a row |
| ScopeLifecycle.GlobalState.CheckScopeRefDrift | crates/bsl-analyzer/src/analysis_scope.rs:206-221 | moved references ask for a rebuild |
| ScopeLifecycle.GlobalState.AdoptSharedProject | crates/bsl-analyzer/src/workspace.rs:46-102 | an adopted project asks for a rebuild only if its base differs |
| ScopeLifecycle.GlobalState.SetWorkspaceRoot | crates/bsl-analyzer/src/workspace.rs:122-200 | a loaded project always does |
| ScopeLifecycle.StepKeepsInv | crates/bsl-analyzer/src/analysis_scope.rs:61-227 | every event keeps single flight, the filter in use and freshness |
| ScopeLifecycle.SingleFlightInEveryRun | crates/bsl-analyzer/src/analysis_scope.rs:159-166 | in every run: loading exactly while one build is in flight, which carries the awaited generation although generations wrap; ready means its scope is the filter, disabled means none |
| ScopeLifecycle.PublishedIsFresh | crates/bsl-analyzer/src/analysis_scope.rs:168-200 | a scope is published only by a build spawned after the last request accepted, for the base configured now |
| ScopeLifecycle.AtRestIsCurrent | crates/bsl-analyzer/src/analysis_scope.rs:10-14 | at rest no request is lost: the scope is current, or the last build failed and nothing is filtered, or there is no base |
| ScopeLifecycle.FilterChangesAreShown | crates/bsl-analyzer/src/analysis_scope.rs:229-239 | in every run, whatever step changes the filter has diagnostics driven again, but for a reload that meets a filter without a published scope behind it |
| ScopeLifecycle.ReloadKeepsTheFilterIff | crates/bsl-analyzer/src/diagnostics_state.rs:33-37 | in every run a reload of the configuration keeps the filter exactly if there is none or a scope is published |
| ScopeLifecycle.ReloadDropsTheFilter | crates/bsl-analyzer/src/diagnostics_state.rs:33-37 | a run in which a reload while a build runs drops it, and the reload itself has nothing driven again |
| ScopeLifecycle.SaveIsHeard | crates/bsl-analyzer/src/analysis_scope.rs:61-66 | in every run a save is ignored only without a base and without anything built, building or filtering |
| ScopeLifecycle.DriftIsNoticedIff | crates/bsl-analyzer/src/analysis_scope.rs:206-221 | an idle tick asks for a rebuild exactly if the references moved since the last build, and changes nothing else |
| ScopeLifecycle.WarningsAreNews | crates/bsl-analyzer/src/analysis_scope.rs:268-280 | in every run a failure is warned of only if it is not the one whose warning stands; a warning stands until the next one or until a scope is published |
| ScopeLifecycle.FailureUnfiltersIff | crates/bsl-analyzer/src/analysis_scope.rs:171-176 | when a build is answered, a failed state has no filter exactly unless a rebuild is queued, a filter is in use, and the rebuild has a base but finds no room |
| ScopeLifecycle.FailedStillFilters | crates/bsl-analyzer/src/analysis_scope.rs:171-176 | a run that ends failed with a filter in use |
| ScopeLifecycle.QuietRunsSettle | crates/bsl-analyzer/src/analysis_scope.rs:71-200 | once requests stop at most three events have an effect, through discard and respawn too |
| ScopeLifecycle.NeverStuck | crates/bsl-analyzer/src/analysis_scope.rs:71-149 | short of rest there is always an event that has |
| ScopeEvents.SaveAsksIff | crates/bsl-analyzer/src/analysis_scope.rs:61-66 | a save queues a rebuild exactly if there is a base or a state to undo |
| ScopeEvents.RequestIsMet | crates/bsl-analyzer/src/analysis_scope.rs:71-149 | a queued request is met as far as the pool allows: without a base the filter goes, without a root it is dropped, without room or acceptance it stays queued; else one build more, of the base configured, under the next generation |
| ScopeEvents.GenerationIsInRange | crates/bsl-analyzer/src/analysis_scope.rs:71-149 | in every run generations stay below two to the 64 |
| ScopeEvents.BuildIsPublished | crates/bsl-analyzer/src/analysis_scope.rs:153-200 | when nothing was asked meanwhile, what a build computed becomes the state and the filter, or its error the warning with no filter; its references are noted and diagnostics driven again |
| ScopeEvents.ObsoleteIsDropped | crates/bsl-analyzer/src/analysis_scope.rs:168-176 | when something was, the result and its references are dropped |
| ScopeEvents.StaleIsIgnored | crates/bsl-analyzer/src/analysis_scope.rs:159-166 | a result that is not awaited changes nothing |
| ScopeEvents.TickComparesWithTheLastBuild | crates/bsl-analyzer/src/analysis_scope.rs:206-221 | after a build an idle tick asks for another exactly if it finds references other than those of that build |
| ScopeEvents.ProjectIsTakenOver | crates/bsl-analyzer/src/workspace.rs:46-200 | a loaded project is always built for, an adopted one only if its base is another, and both become the project and its root |
| Framing.DigitsParse | scripts/lsp-bench/lsp_client.py:152-152 | a printed length parses back |
| FramingLaws.NumeralsParse | scripts/lsp-bench/lsp_client.py:141-141 | digits parse exactly if single underscores at most stand between them |
| FramingLaws.DigitShifts | scripts/lsp-bench/lsp_client.py:141-141 | one more digit shifts the number by one place |
| FramingLaws.OneDigit | scripts/lsp-bench/lsp_client.py:141-141 | starting from the ten digits |
| FramingLaws.SignsCount | scripts/lsp-bench/lsp_client.py:141-141 | a minus negates, a plus does not |
| FramingLaws.CaseDoesNotMatter | scripts/lsp-bench/lsp_client.py:137-138 | header names that differ in case are one |
| FramingLaws.SpaceAroundGoes | scripts/lsp-bench/lsp_client.py:137-139 | white space around a name or a value is no part of it |
| FramingLaws.LastLengthCounts | scripts/lsp-bench/lsp_client.py:131-139 | of several lengths the last counts |
| FramingLaws.EmptyLineEndsHeaders | scripts/lsp-bench/lsp_client.py:131-136 | an empty line ends the headers, with or without a carriage return |
| FramingLaws.LineWithoutColon | scripts/lsp-bench/lsp_client.py:137-138 | a line without a colon is an error |
| FramingLaws.CutFieldReads | scripts/lsp-bench/lsp_client.py:131-139 | a header cut before its colon is an error of the line, cut behind it the stream closed among headers |
| FramingLaws.ReadByLength | scripts/lsp-bench/lsp_client.py:126-148 | what a header block of any length announced gives: an error without a number, an empty body for none or less, else so many bytes or a stream closed in a frame |
| Framing.FramesRoundTrip | scripts/lsp-bench/lsp_client.py:126-148 | any list of well-framed messages, further headers included, is read back body by body, then a clean end |
| Framing.SentRoundTrips | scripts/lsp-bench/lsp_client.py:126-156 | what the client writes it reads |
| Framing.SentIsInjective | scripts/lsp-bench/lsp_client.py:150-156 | different messages have different bytes |
| Framing.CutFrameIsMalformed | scripts/lsp-bench/lsp_client.py:115-143 | a frame cut short is an error, never a message nor an end of stream |
| Framing.CutStream | scripts/lsp-bench/lsp_client.py:126-148 | a stream cut anywhere yields its complete messages and ends cleanly exactly between frames |
| FrameStreams.RelayedIsAPrefix | scripts/perf-nightly/relay.py:67-81 | what the relay writes is a prefix of what it was given, for any bytes |
| FrameStreams.FramesAreRelayed | scripts/perf-nightly/relay.py:21-33 | well-framed streams pass byte for byte |
| FrameStreams.RelayIsTransparent | scripts/perf-nightly/relay.py:21-33 | a client behind the relay reads the same messages |
| FramingLaws.RelayByLength | scripts/perf-nightly/relay.py:21-33 | what the relay makes of the same: no length is none, minus one is all there is, less breaks it off |
| FrameStreams.CutStreamIsRelayed | scripts/perf-nightly/relay.py:21-33 | of a stream of frames cut anywhere no message is lost, and the client reads the same to the end exactly unless the cut is inside a header; then an error looks like a clean end |
| FrameStreams.LoneByteIsHidden | scripts/perf-nightly/relay.py:21-33 | the first byte of any message alone is such a stream |
| FrameStreams.Pipe.ReadExact | scripts/lsp-bench/lsp_client.py:115-124 | short reads are collected until all bytes are there, or the stream ends |
| FrameStreams.ReceiveHeaders | scripts/lsp-bench/lsp_client.py:131-139 | the header loop reads what the specification does |
| FrameStreams.ReceiveMessage | scripts/lsp-bench/lsp_client.py:126-148 | one message, or how the stream ended |
| FrameStreams.ReceiveAll | scripts/lsp-bench/lsp_client.py:160-176 | the reader's loop returns all messages and the end |
| FrameStreams.ReadLsp | scripts/perf-nightly/relay.py:21-33 | the byte-by-byte loop finds the same message |
| FrameStreams.Forwarding | scripts/perf-nightly/relay.py:67-81 | the forwarding loop writes the relayed stream, a prefix of its input |
| Demux.StepKeepsInv | scripts/lsp-bench/lsp_client.py:160-252 | every step of callers, reader, timeouts and closing keeps each waiter in exactly one place |
| Demux.CompletedOnce | scripts/lsp-bench/lsp_client.py:182-195 | in every interleaving a waiter is signalled at most once, with a response of its own id or the error, never both |
| Demux.EveryOutcomeIsHonest | scripts/lsp-bench/lsp_client.py:234-252 | no wait ever returns another request's response |
| Demux.SignalledWaitEnds | scripts/lsp-bench/lsp_client.py:234-252 | a signalled wait ends in the error, or in the response exactly if it came by the deadline |
| Demux.TakenMeansDelivered | scripts/lsp-bench/lsp_client.py:189-195 | a response that finds its waiter pending reaches it, whatever happens between the reader's steps |
| Demux.NobodyIsForgotten | scripts/lsp-bench/lsp_client.py:182-187 | after closing, whoever registered before the swap and did not give up was signalled |
| Demux.LateIsNeverSignalled | scripts/lsp-bench/lsp_client.py:226-232 | whoever registers after the swap is never signalled |
| Demux.SignalledIffInTime | scripts/lsp-bench/lsp_client.py:182-232 | after closing, one who did not give up was signalled exactly if registered before the swap |
| Demux.LateRequestWaitsInVain | scripts/lsp-bench/lsp_client.py:182-232 | a run in which a request made after closing waits for a signal that never comes |
| Demux.ClosingProceeds | scripts/lsp-bench/lsp_client.py:177-187 | no caller delays closing, and the reader can always go on until it is through |
| DemuxRequests.RequestIsAnswered | scripts/lsp-bench/lsp_client.py:160-252 | after any run that leaves the reader waiting, a request made, answered and collected ends in its own response if that came by the deadline, else as timed out |
| DemuxRequests.PendingIsToldOfClosing | scripts/lsp-bench/lsp_client.py:177-187 | a request pending when the stream ends is told so |
| DemuxRequests.LateResponseIsDropped | scripts/lsp-bench/lsp_client.py:189-252 | a request given up is no longer pending, and a response for it changes nothing |
| DemuxRequests.WaitsEndOneWay | scripts/lsp-bench/lsp_client.py:234-252 | a signalled wait cannot be given up, and one that was not cannot be collected |
| Publisher.Publication.PublishPerf | scripts/perf-nightly/publish.py:202-224 | the loop over groups acts on the tracker and the log as the specification does |
| Publisher.Publication.PublishOne | scripts/perf-nightly/publish.py:227-263 | one group: closed by the owner, refused, created, or commented and labelled |
| Publisher.Publication.CommentOnce | scripts/perf-nightly/publish.py:266-283 | tells an open issue of the night, unless its body or a comment bears the night's mark, or the text may not be published |
| PublisherSafety.NightIsSafe | scripts/perf-nightly/publish.py:202-283 | for any tracker and any failures: an issue gains at most one comment of the night and one label, of the plan; an issue is opened only for a key with no open one and not closed by the owner last, never two for one key |
| PublisherSafety.OneCommentPerNight | scripts/perf-nightly/publish.py:266-283 | however often a night is published, an issue gets at most one comment of it |
| PublisherSafety.NeverTwoOpen | scripts/perf-nightly/publish.py:227-252 | over all nights and retries, and whatever others do between them that leaves at most one open issue per key, no key gets a second open issue |
| PublisherSafety.ClosingIsOrderly | scripts/perf-nightly/publish.py:227-252 | closing issues, commenting on them and taking labels off are such edits |
| PublisherSafety.CleanNightServes | scripts/perf-nightly/publish.py:227-283 | after a night without an error in the log every group is served: told on its open issue, with the label of a block, or opened where wanted |
| PublisherSafety.SecondRunDoesNothing | scripts/perf-nightly/publish.py:202-283 | after a night without an error in the log, publishing it again changes nothing, whatever fails |
| PublisherSafety.AnotherOpensIff | scripts/perf-nightly/publish.py:209-252 | for any groups of distinct keys: with a group's issue open, exactly when the night opens another for it |
| PublisherSafety.UnlabelledIsDuplicated | scripts/perf-nightly/publish.py:209-210 | a tracker on which it is |
| PublisherLog.NightWritesAsPlanned | scripts/perf-nightly/publish.py:80-83 | whatever fails: every issue a night opens is one group's, with its text, key and night, labelled `perf` and `regression` always and `release-blocker` exactly if the group blocks; an issue that was there gains only comments of groups that have it open, and that label only from one that blocks |
| PublisherLog.GroupIsLogged | scripts/perf-nightly/publish.py:227-283 | what the log says of one group: an error exactly if a call made for it failed, opened or labelled only where that was done, closed by the owner exactly where it was |
| PublisherLog.NightIsLogged | scripts/perf-nightly/publish.py:202-224 | the log of a night has an error exactly if one of its calls failed or a thousand issues or more are labelled `perf`; without groups no call is made |
| PublisherLog.FailedCallsMayTakeEffect | scripts/perf-nightly/publish.py:227-283 | the failures allowed for: a call that fails may have changed the tracker as one that succeeds does, or not at all |
| Calibration.BuildNoise | scripts/perf-nightly/verdict.py:256-290 | the loop over series collects medians and scales the spread, or says there is no noise |
| CalibrationLaws.MedianIsBetweenTheMiddles | scripts/perf-nightly/verdict.py:280-282 | the median is halfway between two of the values that leave no more than half on either side, one and the same for an odd number |
| CalibrationLaws.NoiseIsTheShareOfTheSpread | scripts/perf-nightly/verdict.py:277-288 | where every series is valid the noise is the share that lies between the least and the greatest value, of the median of the values or of the memory the series were ready with |
| CalibrationLaws.NoNoiseWithoutValues | scripts/perf-nightly/verdict.py:277-288 | there is none without series, without a value of each, or for growth without the memory of each |
| CalibrationLaws.RelativeIsTheShare | scripts/perf-nightly/verdict.py:283-286 | nor relative to a median of zero |
| CalibrationLaws.MediansInOrder | scripts/perf-nightly/verdict.py:268-275 | the medians kept are those of the valid series, in order |
| Calibration.ReportedIff | scripts/perf-nightly/verdict.py:341-351 | growth is reported exactly if it reaches the issue threshold and exceeds the noise, shrinking likewise as an improvement |
| CalibrationLaws.JudgedByTheChange | scripts/perf-nightly/verdict.py:341-397 | said of the values, without dividing: what blocks, what is an issue, an improvement or too noisy to judge |
| CalibrationLaws.JudgedAgainstNothing | scripts/perf-nightly/verdict.py:341-397 | against a base of zero or unknown any change, up or down, blocks if it passes the floor and is an issue if not |
| CalibrationLaws.JudgedIsTheShare | scripts/perf-nightly/verdict.py:341-397 | the judged change is the share of the base that the value changed by |
| Calibration.SelfCheck | scripts/perf-nightly/verdict.py:526-548 | every other series is judged against the middle one, whatever the kind, the number of series and their values; the violations are exactly those judged a regression |
| CalibrationLaws.MiddleStands | scripts/perf-nightly/verdict.py:537-539 | the series in the middle is the first with the upper of the two middle values |
| CalibrationLaws.ViolationIsAReport | scripts/perf-nightly/verdict.py:532-547 | a violation is another series that is judged an issue or a block against the middle one by a noise that can judge |
| CalibrationLaws.ReportedRise | scripts/perf-nightly/verdict.py:341-397 | and that is a rise by the issue threshold and by more than the noise |
| Calibration.DeltaCalibrationIsConsistent | scripts/perf-nightly/verdict.py:526-531 | for a `delta` metric of positive median, over any number of series, none is ever a violation, whatever the floor and the threshold |
| Calibration.GrowthCalibrationIsConsistentIff | scripts/perf-nightly/verdict.py:256-290 | for memory growth this holds for all measured values, at the threshold in use and at every other, exactly if the middle series was ready with at least the median |
| RecordRatchet.WorstCell | scripts/perf-nightly/gate.py:846-848 | no round is worse than the one chosen |
| RecordRatchet.RecordRow | scripts/perf-nightly/gate.py:877-921 | said of the rounds: a row blocks exactly if in some round the run failed or gave a value above the record and its margin that a traded metric does not repay; it is incomplete exactly if none blocks and there are no rounds or a value is missing; with nothing to compare with it is incomplete; the cell shown is a worst one |
| RecordRatchet.AnotherRoundErasesNothing | scripts/perf-nightly/gate.py:877-881 | adding rounds never makes a row better |
| RecordRatchet.ProposedIff | scripts/perf-nightly/gate.py:996-1016 | a value is proposed exactly if both rounds of a held candidate with the same answers beat the record by more than its noise, and it is the worse of the two |
| RecordRatchet.MovesIff | scripts/perf-nightly/gate.py:996-1016 | the record moves to it exactly if it is committed |
| RecordRatchet.ProposalBeatsTheRecord | scripts/perf-nightly/gate.py:996-1016 | a proposal is below the record by more than the noise, and both its rounds pass against it |
| RecordRatchet.RecordGoesDown | scripts/perf-nightly/gate.py:996-1016 | after n moves the record is at most its first value times the n-th power of one minus the noise |
| RecordRatchet.PassingNeverDrifts | scripts/perf-nightly/gate.py:877-921 | over any number of releases an untraded passing value is within the first record and its margin |
| RecordRatchet.OnlyTradesGoPast | scripts/perf-nightly/gate.py:897-910 | a value passes at some wall time exactly if the metric is traded or the value is within the limit, and at every wall time exactly if it is within the limit |
| RecordRatchet.PreviousRuleDrifts | scripts/perf-nightly/verdict.py:461-471 | against the previous release alone growth compounds release by release |
| GateRules.Row.constructor | scripts/perf-nightly/gate.py:580-609 | the first round of a metric, wall, work or traded work |
| GateRules.Row.ConfirmRow | scripts/perf-nightly/gate.py:612-622 | the confirming round changes outcome and confirmation in place and nothing else |
| GateRules.ConfirmsIff | scripts/perf-nightly/verdict.py:461-481 | a confirming round is asked for exactly by the wall past a noise above the bar |
| GateRules.BlocksIff | scripts/perf-nightly/gate.py:551-609 | exactly when a metric blocks, one or two rounds taken together, the growth of traded work forgiven where the wall fell by as much |
| GateRules.GrewIff | scripts/perf-nightly/gate.py:538-542 | growth past a limit, said of the two values; from zero any change is past it |
| GateRules.ForgivenIff | scripts/perf-nightly/gate.py:551-566 | growth of traded work is forgiven exactly where the wall fell by at least the same share |
| GateRules.EndsIff | scripts/perf-nightly/verdict.py:461-481 | when exactly a metric, one or two rounds taken together, ends without noise, too noisy, incomplete, within the noise or passing |
| GateRules.RuleRows | scripts/perf-nightly/gate.py:580-609 | the loop over the metrics of a comparison judges traded work by the wall compared before it, if that could be compared |
| GateRules.TradedAgainstTheLastWall | scripts/perf-nightly/gate.py:580-609 | that is the growth of the last wall before it if both its sides are valid, and nothing if there is none |
| GateRules.TradesNeedAFasterWall | scripts/perf-nightly/gate.py:551-566 | growth past the bar is forgiven only where the wall fell by more than the bar, so that the wall itself does not block |
| GateRules.ConfirmingDecides | scripts/perf-nightly/verdict.py:461-481 | nothing is open after it, and passing needs valid sides and a calibrated noise |
| GateRules.MoreNeverHelps | scripts/perf-nightly/verdict.py:484-497 | more rows or reasons never improve a verdict; it passes exactly if all rows do and nothing is wrong beside them |
| GateRunner.Runner.WaitQuiet | scripts/perf-nightly/gate.py:477-484 | every look but the last is followed by a charged poll; it passes the budget by less than one |
| GateRunner.Runner.Attempt | scripts/perf-nightly/gate.py:491-515 | a wait and a run, and what exactly is charged for them |
| GateRunner.Runner.Run | scripts/perf-nightly/gate.py:486-515 | it ends for any machine; what it returns is not a run under foreign load; the launches are such runs and then the returned one; the excess is less than a poll and a run, and within one of them exactly if the last launch had room for it; an attempt that decides ends it |
| GateRunner.Runner.RunAll | scripts/perf-nightly/gate.py:455-515 | over a sequence the launches that count are the returned records in order; all waiting exceeds the budget by less than a poll and a run, and by at most one of them exactly if the last launch had room for it |
| GateRunner.PollAndRunAddUp | scripts/perf-nightly/gate.py:477-515 | a measurement in which both excesses come together |
| GateRunner.ChargedIsTheirSum | scripts/perf-nightly/gate.py:477-515 | what is charged is a poll for every sleep and the duration of every run under foreign load |
| ConfigKey.CanonicalHoldsFirst | crates/base-db/src/input.rs:248-259 | sorted and deduplicated, a list is strictly ascending and keeps for each code the entry supplied first |
| ConfigKey.SameKeyIffSameAnswers | crates/base-db/src/input.rs:248-259 | two lists become equal exactly if they answer alike for every code |
| ConfigKey.OrderDoesNotShow | crates/base-db/src/input.rs:248-259 | permuting entries with distinct codes gives an equal key |
| ConfigKey.BinarySearch | crates/base-db/src/input.rs:302-311 | finds a code exactly if it is there |
| ConfigKey.IsDisabled | crates/base-db/src/input.rs:302-304 | agrees with membership in the codes supplied |
| ConfigKey.GetParameters | crates/base-db/src/input.rs:306-311 | returns the first parameters supplied for the code |
| ConfigKey.SameConfigIff | crates/base-db/src/input.rs:238-272 | two configurations are one key exactly if they answer alike |
| ConfigKey.SameFiltersIff | crates/base-db/src/input.rs:274-290 | likewise for the filters |
| ConfigKey.RawIsKept | crates/base-db/src/input.rs:238-272 | a configuration holds each list under its own name, in strict order, each code with the first supplied for it |
| ConfigKey.FiltersAreKept | crates/base-db/src/input.rs:274-290 | filters are put beside that and leave it alone; none is not the empty list |
| Order.BeforeIff | crates/base-db/src/input.rs:248-259 | strings are in order by the first place they differ in, a prefix before what it begins |

## Left out

- Salsa beyond memos, stamps, durabilities and eviction: cancellation, cycles and parallel readers.
- Collisions of `content_revision`, which is probabilistic: the hash is assumed injective where a result needs it.
- The parser, the tree it builds and the method reparse: functions with contracts; `collect_methods_in_regions` and the case-insensitive path scan.
- Decoding of disk bytes, JSON and XML: texts, opaque bodies and trees instead; stripping of element text.
- `_layout`, file lists and digests, `public_values` and the reports of the structure scanner.
- Aliasing of statistics adopted by `Observation.merge`: path and value statistics are values in the tables, updated by methods that return the new value.
- ScopeIndex.LookupIsExactIff: two spellings of one path (doubled or trailing separators, `.` components) are two keys in the model, whereas `PathBuf` compares and orders components; so it speaks of paths and keys spelled as their components. Paths that are not Unicode; the constructors that join report keys to a work directory.
- ScopeIndex.OverlapIsASharedLine: line numbers are unbounded, so the overflow of adding one to the largest 32-bit line is not modelled.
- ScopeIndex.FindEntry: a backslash is taken to separate nothing but where paths are normalised, as on Unix; the component rules of Windows paths are not modelled.
- The git computation of a scope, the task pool beyond room and acceptance, and the workspace batch.
- Real threads: the demultiplexer is a state machine over single accesses, its waiters values in a map; server requests, notifications and the ready event.
- Framing.DigitsParse: the limit Python puts on the digits of an integer is not modelled.
- `publish_record`, the grouping of rows by key, the wording of issues, the leak scan and label checks beyond a predicate; edits of the tracker by others while a night is being published.
- `load_series`, `side`, `table_outcome`, `lookup_noise` for uncalibrated corpora, night verdicts, trends, ceilings and answers.
- Calibration.DeltaCalibrationIsConsistent: real numbers stand for floats, so rounding at the thresholds is not modelled.
- RecordRatchet.RecordRow: the reasons for which nothing compares are one case, and the rows of observed metrics, which never block, are not modelled.
- Process control, sampling, cargo, SQLite and HTTP.
