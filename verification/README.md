# A verified model of the VSS requester

This project models the parts of the VSS snapshot library that a backup has to trust, and proves what
they are for:

- **the incremental chain**: cursors into the NTFS change journal, the scan that folds its records into
  one change per file, and runs of backups against a volume and a journal that never stop changing;
- **the manifest walk**: the sorted, callback-driven walk of a snapshot, the wildcard matcher, and the
  exclusion rules that cut whole subtrees;
- **extents**: cluster runs read in rounds and turned into byte ranges of the raw volume;
- **the requester's life**: creating a snapshot set, waiting for VSS, unwinding a failure, and closing.

Code that changes things step by step is a method or a class with loops, each proved against a
specification function; what the source promises is then proved about that function.

## How it is arranged

| file | module | models |
|---|---|---|
| `text.dfy` | `Options`, `WinText` | optional values; path text, upper-casing, segments |
| `glob.dfy` | `Glob` | the wildcard matcher |
| `exclude.dfy` | `Exclude` | exclusion rules, one path and one subtree at a time |
| `path.dfy` | `RelativePath` | validation of volume-relative paths |
| `walk.dfy` | `Walk` | the walk, with the callback as an oracle over the history |
| `walkorder.dfy` | `WalkOrder` | sorting, and independence from enumeration order |
| `walkreplay.dfy` | `WalkReplay` | what a callback's verdicts mean |
| `walkprune.dfy` | `WalkPrune` | pruning and annotating |
| `walksub.dfy` | `WalkSub` | walking a subdirectory |
| `walkpaths.dfy` | `WalkPaths` | the paths a walk reports |
| `walkenter.dfy` | `WalkEnter` | what a walk enters and shows |
| `usncursor.dfy` | `UsnCursor` | journal positions |
| `usnrecord.dfy` | `UsnRecord` | version-2 journal records, byte by byte |
| `usnscan.dfy` | `UsnScan` | the batch loop and the table of changed files |
| `usnreplies.dfy` | `UsnReplies` | a scan of any device, honest or not |
| `usnchanges.dfy` | `UsnChanges` | the change set of one call |
| `usnchain.dfy` | `UsnChain` | runs of backups as a step system, and its invariant |
| `extents.dfy` | `Extents` | the mapping of runs to byte ranges, in 64-bit arithmetic |
| `extentrounds.dfy` | `ExtentRounds` | the resume loop |
| `session.dfy` | `Session` | the automaton of legal sessions |
| `requester.dfy` | `Requester` | `createSet`, `awaitAsync`, the worker, `Close` |
| `lifecycle.dfy` | `Lifecycle` | what every legal session has in common |
| `lifescript.dfy` | `LifeScript` | the script of a session, the writers' status, the thread |

## How the world is modelled

Foreign code is a parameter with a stated contract.

- A Go string is a sequence of runes, and upper-casing is any rune map that fixes the separators, the
  colon, the wildcards and the dot and sends no other rune to one of them.
- The snapshot is a tree of entries; the callback and the context are one oracle that may look at
  everything the walk did so far, so any stateful callback and any moment of cancellation is covered.
- The journal device and the retrieval-pointers device are functions from the number of a request and
  its start to a reply. Honest devices are described by predicates (`UsnChanges.Honest`,
  `ExtentRounds.Honest`); both may still fail at any request.
- VSS, the clock, the context and the worker thread are one environment whose answers depend on
  everything so far; each call is an event of a log. Every call a method makes is one the automaton
  allows next, whether that call succeeds or fails.

Four places where the code and its documentation part, or where a tempting statement is false:

- `WalkFunc`'s comment reads as if `SkipDir` for an unreadable directory only left that directory out
  (`walk.go:54-58`). The code returns it from every enclosing directory and ends the walk without an
  error (`walk_windows.go:91`, `137-139`, `57`). `WalkReplay.DeniedSkipEndsTheWalk` says exactly when
  that loses something; `WalkReplay.DeniedSkipLosesASibling` is a case.
- `matchSpec` tries literal equality before `*` (`exclude.go:106-109`), so a star in a name is taken
  for the pattern's star. `Glob.StarFreeNamesAreTheBoundary`: the matcher is right for every pattern
  exactly on names without a star, which is all names Windows allows.
- "The catalogue after a backup is its snapshot" is false (`UsnChain.CatalogueMayLag`).
  `UsnChain.CatalogueIsSnapshotIff` says exactly when it holds, in terms of the journal, and
  `UsnChain.StaleEntriesAreReportedAgain` is the promise that takes its place.
- Validation lets one separator at the end of a path pass (`path.go:34`), and a walk from such a root
  reports paths with a doubled separator. `WalkPaths.ReportedPathsComeBack` says that these are exactly
  the walks whose paths are not accepted again; `WalkPaths.TrailingSeparatorDoubles` is a case.

## Model

| member | source | states |
|---|---|---|
| `Glob.MatchSpecLoop` | exclude.go:99-123 | the backtracking loop decides `MatchSpec`, in at most (pattern + 1) * (name + 1) turns of its main loop |
| `Glob.MatchSpecSound` | exclude.go:95-123 | whatever the name, a match is a match of the recursive reading of `*` and `?` |
| `Glob.MatchSpecExact` | exclude.go:95-123 | on names without a star, keeping only the last star loses no match: the loop decides the recursive reading, for every pattern |
| `Glob.StarFreeNamesAreTheBoundary` | exclude.go:104-117 | the loop agrees with the recursive reading for all patterns if and only if the name has no star |
| `Exclude.NormWinPath` | exclude.go:84-93 | separators are made backslashes and trailing ones stripped, but for a drive root's |
| `Exclude.Stripped` | exclude.go:86-91 | what is left cannot be stripped further, and every longer prefix could be |
| `Exclude.RuleMatches` | exclude.go:42-80 | the rule's decision is `Matches`: scope of the directory, then the filespec |
| `Exclude.MatchesBySegments` | exclude.go:42-93 | on canonical paths, in scope means: the rule's upper-cased segments are the file's directory, or for a recursive rule a prefix of it |
| `Exclude.MatchesMeaning` | exclude.go:42-123 | the same with the filespec read as a wildcard pattern, for file names without a star |
| `Exclude.NoPathNoScope` | exclude.go:55-58 | a rule with an empty path matches nothing and covers nothing |
| `Exclude.NothingToScope` | exclude.go:43-47 | a path without a directory component is matched by no rule |
| `Exclude.CanonicalNorm` | exclude.go:84-93 | slash style and trailing separators do not matter to a canonical path: only its segments are left |
| `Exclude.DriveRootsAreThreeBytes` | exclude.go:86-91 | a root keeps its separator if and only if its drive letter is one byte |
| `WinText.PrefixIsSegmentPrefix` | exclude.go:62-68 | the prefix test with a separator appended is a prefix of whole segments, so `C:\TempX` is not under `C:\Temp` |
| `Exclude.MatchExclude` | walk.go:112-119 | the loop returns `FirstMatch` |
| `Exclude.FirstMatchIsFirst` | walk.go:111-119 | a rule returned matches and none before it does; nothing returned means that none does |
| `Exclude.SubtreeExcluded` | walk.go:124-150 | the loop returns `FirstPruning` |
| `Exclude.FirstPruningIsFirst` | walk.go:121-150 | a rule returned covers the directory and none before it does; nothing returned means that none does |
| `Exclude.PruningGoesDown` | walk.go:121-150 | a rule that covers a directory covers every directory in it |
| `Exclude.PruningMatchesFiles` | walk.go:121-150 | a rule that covers a directory matches every file in it, as the per-file test has it |
| `Exclude.PrunesBySegments` | walk.go:121-150 | on canonical paths a rule covers a directory if and only if it is recursive, its filespec is empty, `*` or `*.*`, and its upper-cased segments are the directory's or a prefix of them |
| `RelativePath.Validate` | path.go:18-43 | a path is accepted if and only if it is the root or proper: no NUL, no colon, every segment a name; the accepted form has backslashes |
| `RelativePath.ProperIsStable` | path.go:11-43 | what was accepted is accepted again, unchanged |
| `RelativePath.ProperSegmentsAreNames` | path.go:11-43 | no accepted path leaves the volume: each of its segments is a file name other than `.` and `..` |
| `Walk.BeforeIsStrictTotalOrder` | walk_windows.go:178-184 | the comparator is irreflexive, total on different names, and transitive |
| `Walk.OrderIgnoresCase` | walk_windows.go:19-22 | siblings are in alphabetical order of their upper-cased names; names that are the same but for case are in alphabetical order as they are |
| `Walk.VolumeRoot` | walk_windows.go:43-49 | the root for exclusion is the one given with the rules, else the snapshot's volume path, with one separator added if it has none |
| `Walk.ReadDir` | walk_windows.go:149-186 | a directory's entries come back in the comparator's order, none lost or added |
| `WalkOrder.SortedIsOrdered` | walk_windows.go:178-185 | siblings with different names end up strictly ordered |
| `WalkOrder.SortIsUnique` | walk_windows.go:178-185 | any rearrangement of the entries that the comparator does not contradict is this one, so an unstable sort has one result |
| `Walk.Walker.RuleFor` | walk_windows.go:103-114 | a directory to be entered is asked about as a subtree, anything else as a file |
| `Walk.Walker.WalkDir` | walk_windows.go:79-143 | the walk of a directory makes the calls, and ends as, `RunDir` says |
| `Walk.Walker.WalkEntry` | walk_windows.go:94-141 | one turn of the loop over siblings makes the calls, and ends as, `RunKid` says |
| `Walk.WalkSnapshot` | walk_windows.go:35-61 | a snapshot without a device or a root that is not accepted gives an error and no call; a SkipDir that comes all the way up gives nil, an abort its own error |
| `WalkOrder.EnumerationOrderIsIrrelevant` | walk_windows.go:19-22 | under any callback, two enumerations of the same tree give the same calls in the same order and the same end |
| `WalkReplay.WalkIsReplay` | walk_windows.go:79-143 | for every callback, the walk delivers the pre-order list of everything, less the contents of skipped directories, less what follows a skipped file in its directory, cut at the first abort and with its error |
| `WalkReplay.ContinueDeliversAll` | walk.go:54-59 | a callback that always continues is shown the whole list |
| `WalkReplay.DeniedSkipEndsTheWalk` | walk_windows.go:86-92 | the walk of any tree falls short of the documented walk if and only if a read error was answered with SkipDir while something was left to deliver; it then stops at the first such answer, and the call answers nil |
| `WalkReplay.WithoutDeniedSkips` | walk.go:54-58 | under a callback that never answers a read error with SkipDir, the walk of any tree is the documented one |
| `WalkReplay.DeniedSkipLosesASibling` | walk_windows.go:137-139 | a volume with an unreadable directory and a file, walked with what cannot be read skipped: the call answers nil, and shows the file if and only if its name comes first; the documented walk always shows it |
| `WalkPrune.PruningIsFiltering` | walk_windows.go:94-141 | the walk that cuts subtrees is the uncut walk, filtered one entry at a time |
| `WalkPrune.DeliveredIffNoRuleMatches` | walk_windows.go:103-123 | a file is delivered if and only if no rule matches its absolute path, though files of a cut subtree are never asked about |
| `WalkPrune.AnnotateThenDrop` | walk.go:70-73 | for a callback that always continues, the annotated walk with its excluded entries removed is the walk that drops them |
| `WalkPrune.MarkedByFirstRule` | walk_windows.go:103-122 | under any callback, an entry delivered is marked with the first rule that covers it (a directory to be entered) or matches it (anything else), and has no mark if none does or no root is known |
| `WalkPrune.MarkedIsNotEntered` | walk_windows.go:119-121 | under any callback, nothing at or below an excluded entry is delivered, except the entry |
| `WalkPrune.ReparsePointIsNotEntered` | walk_windows.go:27-30 | under any callback, nothing at or below a reparse point is delivered, except the reparse point |
| `WalkEnter.EnteredIffPlainAndWanted` | walk_windows.go:103-141 | under any callback, the walk enters a directory right after an event if and only if that event was a directory, no reparse point and not excluded, and the callback said to go on |
| `WalkEnter.AnnotatedShowsTheRest` | walk.go:70-73 | the annotated walk, marks aside, is the walk without rules less what lies strictly within covered directories |
| `WalkEnter.NoRootNoExclusion` | walk.go:74-78 | with no root known the rules make no difference, under any callback |
| `WalkSub.SubWalkIsABlock` | walk_windows.go:79-143 | a walk from a readable subdirectory shows one contiguous block of the whole walk's calls, and outside the block the whole walk says nothing about anything beneath |
| `WalkSub.PrunedReachesPruned` | walk.go:121-150 | everything reached from a cut directory is cut |
| `WalkPaths.ReportedPathsComeBack` | walk_windows.go:96-100 | under any callback, a reported path is one validation accepts if and only if the walk's root has no separator at its end |
| `WalkPaths.TrailingSeparatorDoubles` | path.go:34-42 | started at `a\`, which is accepted, a walk reports `b` in it as `a\\b`, which is not |
| `WalkEnter.PathsSpellTheWay` | walk_windows.go:96-100 | in a walk of the whole volume, the segments of a path are the names that lead to the entry, its own name last |
| `UsnRecord.LookAt` | usn_windows.go:276-297 | a record that passes the checks lies within the reply, is at least a header long, and is below the bound |
| `UsnRecord.AcceptedIsWritten` | usn_windows.go:276-312 | whatever is accepted is a version-2 record: its bytes are those of writing one, and what is taken from it is that record with its name cut at the first NUL |
| `UsnRecord.RefusedIff` | usn_windows.go:276-295 | a record is refused if and only if its length does not fit the reply, its version is not 2, or, below the bound, its name does not fit; it is beyond the bound if and only if length and version are right and its USN is |
| `UsnRecord.CutAtNul` | usn_windows.go:296-297 | the name is what precedes the first NUL |
| `UsnRecord.LookAtEncoded` | usn_windows.go:276-312 | reading where a version-2 record was written gives that record, or says that it is at or beyond the bound |
| `UsnRecord.ParseEncoded` | usn_windows.go:274-315 | the inner loop on any list of encoded records gives that list back, in order, up to the first at or beyond the bound, and tells which of the two ended it |
| `UsnRecord.StopExplained` | usn_windows.go:275-314 | on arbitrary bytes, the records read lie end to end in the reply, each passing every check at its own offset, and reading ends right after the last one: less than a header is left, or a record there is at or beyond the bound, or fails the check reported |
| `UsnScan.OrBit` | usn_windows.go:307 | a bit is in the accumulated reasons if and only if it is in one of the two |
| `UsnScan.OverflowIffTooManyFiles` | usn_windows.go:299-306 | folding gives up if and only if there are more than `maxUSNChanges` different files; otherwise the table has exactly the files recorded |
| `UsnScan.FoldMeans` | usn_windows.go:299-313 | each entry has its newest record's name, parent, attributes and USN, and a reason bit if and only if some record of the file has it |
| `UsnScan.FoldConcat` | usn_windows.go:252-324 | records may be folded batch by batch |
| `UsnScan.Scanner.ReadWith` | usn_windows.go:274-315 | the inner loop leaves in the table the fold of the records read, and reports why it ended |
| `UsnScan.Scanner.Scan` | usn_windows.go:240-324 | the outer loop, with its reused buffer, computes `ScanFrom`; it ends because the start rises towards the bound |
| `UsnReplies.ScanExplained` | usn_windows.go:252-324 | for any device: each reply before the last has only good records and names a later start; the last decides, a purge or a malformed record being a reset and a failed read an error; only if it is good too is there a table, the fold of all records of all replies |
| `UsnChanges.AdvanceCoversWindow` | usn_windows.go:285-323 | what a reply adds and what is still wanted after it are what was wanted before it |
| `UsnChanges.ScanIsOneFold` | usn_windows.go:240-324 | however an honest device splits its replies, the table is one fold over exactly the records with cursor <= usn < bound, unless the device failed or the scan was cancelled |
| `UsnChanges.IdResolver.PathById` | usn_windows.go:371-378 | with its cache, a lookup still answers what the snapshot does |
| `UsnChanges.ResolveOne` | usn_windows.go:331-355 | an entry becomes `ChangeOf`: its path in the snapshot, or deleted with a path by way of its parent |
| `UsnChanges.ResolveAll` | usn_windows.go:326-358 | one change for each file of the table, none twice, whatever order the table is read in |
| `UsnChanges.USNChangesSince` | usn_windows.go:190-359 | a zero bound, another journal, a recreated journal, a cursor before the oldest record kept, past the bound, or not aligned: each is a reset; otherwise the scan from the cursor to the bound decides, and the cursor to persist is the bound |
| `UsnChanges.ChangesAreTheWindowsFiles` | usn_windows.go:173-189 | a file is in the change set if and only if the journal has a record of it between the two cursors; it is marked deleted if and only if the snapshot lacks it |
| `UsnChanges.ScannedChangesExplain` | usn_windows.go:240-358 | against an honest device, the changes returned are those of exactly the records with cursor <= usn < bound |
| `UsnChanges.ChangesReportTheWindow` | usn.go:46-80 | each change has its file's newest name, parent, kind and USN and every reason recorded; its path is the snapshot's, or failing that the parent's and the last name, or unknown |
| `UsnChain.TouchKeeps` | usn_windows.go:177-182 | a file changing on the live volume at any moment of a backup keeps the invariant |
| `UsnChain.JournalKeeps` | usn_windows.go:216-231 | trimming, recreating or switching off the journal at any moment keeps the invariant |
| `UsnChain.CaptureKeeps` | usn_windows.go:158-171 | a captured cursor, zero on any failure, keeps the invariant; the files the catalogue is behind on then are those the journal names below the bound |
| `UsnChain.FreezeKeeps` | create_windows.go:170-189 | freezing after the capture keeps the invariant |
| `UsnChain.BeginKeeps` | usn_windows.go:195-231 | checking the cursor and starting the scan, or falling back to a full walk, keeps the invariant |
| `UsnChain.ScanBeginsInJournal` | usn_windows.go:216-231 | in every run, a scan begins at an aligned cursor of the journal that is both the captured and the active one, and no record from there on has been purged |
| `UsnChain.ApplyExcuses` | usn_windows.go:285-291 | after the scan, an entry the snapshot contradicts was recorded at or beyond the bound before the freeze |
| `UsnChain.ReplyKeeps` | usn_windows.go:252-324 | each reply of the journal keeps the invariant, also the last, which updates the catalogue |
| `UsnChain.ReplyMissesNothing` | usn_windows.go:263-265 | in every run, a reply is taken only while nothing from its start on has been purged |
| `UsnChain.ReplyIsTurn` | usn_windows.go:252-324 | a reply's step in the chain and one turn of the scan's loop come to the same end or the same next turn |
| `UsnChain.PersistKeeps` | usn.go:15-25 | persisting the snapshot's cursor with the catalogue keeps the invariant |
| `UsnChain.RunKeeps` | README.md:106-143 | the invariant holds in every state of every run |
| `UsnChain.StaleEntriesAreReportedAgain` | usn_windows.go:177-182 | at any moment of any run, a catalogue entry its snapshot contradicts has a record at or after the persisted cursor, made before the freeze |
| `UsnChain.EveryLiveChangeIsAhead` | usn_windows.go:179-182 | while the cursor's journal is the active one, every file on which catalogue and live volume disagree has a record the next incremental starts before |
| `UsnChain.CatalogueIsSnapshotIff` | create_windows.go:170-189 | the catalogue is the snapshot if and only if the backup was a full walk, or every file that changed between capture and freeze has a journal record from the cursor the backup went from up to the one it left |
| `UsnChain.QuietCaptureIsExact` | usn_windows.go:179-181 | with nothing touched between capture and freeze, the catalogue is the snapshot |
| `UsnChain.CatalogueMayLag` | usn_windows.go:285-291 | a run of two backups after which the catalogue is not the snapshot: the file was written between capture and freeze |
| `UsnChain.ChangeListApplies` | usn.go:49-51 | applying the changes one by one, in any order, gives the catalogue of the chain's step |
| `Extents.AppendRunsLoop` | extents.go:40-58 | the loop computes `AppendRuns`, the extents so far and the fault included |
| `Extents.FaultIffNotAscending` | extents.go:44-47 | the mapping fails if and only if the runs do not ascend, and otherwise ends at the last run's end |
| `Extents.RoundsCompose` | extents.go:35-58 | mapping runs in two rounds is mapping them in one |
| `Extents.ExtentsAreDisjoint` | extents_windows.go:140-144 | extents ascend in the file and do not overlap, in 64-bit arithmetic |
| `Extents.NothingWraps` | extents.go:48-54 | while the runs' ends in the file and the starts of their places on the volume stay below 2^63 bytes, the 64-bit arithmetic gives the exact extents: no offset and no length overflows |
| `Extents.EveryByteIsPlaced` | extents.go:16-25 | a byte is covered by an extent, at its cluster's place on the volume, if and only if its cluster is allocated |
| `Extents.ReassemblyIsContent` | extents_windows.go:138-144 | reading all extents over zeros, trimmed to the size, gives the file's content, for runs within those bounds |
| `ExtentRounds.TakeTurn` | extents_windows.go:183-220 | one turn of the loop, with its reused buffer, makes of a reply what `Turn` says |
| `ExtentRounds.NoPartialAnswer` | extents_windows.go:183-219 | end of file ends with the extents so far, a device error is a failure; any other reply is used if and only if every check passes, and one that fails a check yields no extents |
| `ExtentRounds.BoundaryIsExact` | extents_windows.go:220 | at the start of a run, rounding a request down to a run's start changes nothing |
| `ExtentRounds.TurnAdvances` | extents_windows.go:183-220 | a turn with an honest reply ends with the one-shot answer or goes on at a later run's start with everything before it mapped |
| `ExtentRounds.FileExtents` | extents_windows.go:133-222 | whatever number of runs each reply holds, the loop ends with the one-shot answer unless a request failed, and its extents copied over zeros give the file; requests are starts of runs, strictly rising from 0 |
| `Requester.Requester.Do` | worker_windows.go:99-109 | a call is made only where the automaton allows it, succeed or fail, and the session stays legal |
| `Requester.Requester.AwaitAsync` | async_windows.go:61-107 | the wait ends, with the operation released, and its answer is the one the session goes on with |
| `Requester.Requester.AwaitPolled` | async_windows.go:73-81 | a deadline that has passed cancels; otherwise the wait goes on, and only finitely often |
| `Requester.Requester.AwaitSlice` | async_windows.go:78-86 | one wait of at most a second of what remains, then the operation's status |
| `Requester.Requester.Ask` | async_windows.go:87-105 | finished and unknown success end the wait well, cancelled and failed do not, pending goes round again |
| `Requester.Requester.Cancel` | async_windows.go:68-85 | a wait that went wrong cancels the operation and releases it |
| `Requester.Requester.SetUp` | create_windows.go:83-106 | the session is made and told its context, or left where the error path picks it up |
| `Requester.Requester.GatherMetadata` | create_windows.go:107-121 | writers describe themselves; their rules are read before the metadata is freed |
| `Requester.Requester.Preflight` | create_windows.go:123-139 | every volume is resolved and checked before the set is started |
| `Requester.Requester.AddVolumes` | create_windows.go:141-151 | the set is started and gets every volume, with the IDs in the order of the volumes |
| `Requester.Requester.Prepare` | create_windows.go:153-164 | writers prepare, unless none take part |
| `Requester.Requester.Shoot` | create_windows.go:170-191 | a cursor for every volume, and then the freeze |
| `Requester.Requester.ListWriters` | create_windows.go:193-208 | the writers' status is best effort: it never fails the set, and what was gathered is freed |
| `Requester.Requester.Fetch` | create_windows.go:210-229 | for each volume a usable snapshot, with the volume's path and cursor and the ID and device VSS described when asked for the ID that adding the volume returned, or the set fails |
| `Requester.AlignedIds` | create_windows.go:213-229 | in an aligned set each device is a shadow device's, and if VSS describes the snapshot it is asked for, each snapshot has the ID that adding its volume returned |
| `Requester.Requester.Build` | create_windows.go:81-231 | the phases in order end with an open, aligned set, or with a session to unwind, or with none |
| `Requester.Requester.CreateSet` | create_windows.go:61-258 | an open, aligned set on a running thread; or a failure with the thread stopped, and any session made aborted, released, left and the thread stopped, in that order |
| `Requester.Requester.CloseSet` | create_windows.go:271-310 | whatever fails, the session is released and the thread stopped at the end; the trouble reported is the first |
| `Requester.SnapshotSet.Close` | vss.go:224-234 | the first close closes and reports; later ones do nothing and report nothing; an attached set's does nothing |
| `Requester.CreateSnapshotSet` | vss.go:249-261 | between one and 64 volumes, or an error before any session; otherwise an open set, or a failure with its thread stopped |
| `Lifecycle.BooksAt` | create_windows.go:61-310 | at any moment of a legal session, every count of calls is what its stage says |
| `Lifecycle.ClosedSessionBalances` | create_windows.go:271-310 | closed: made once, released once, never aborted; completion attempted once if and only if writers took part, deletion once if and only if not persistent; every operation, status and description given back, and metadata freed, and its rules read, as often as gathering it went well |
| `Lifecycle.DroppedSessionBalances` | create_windows.go:233-246 | given up: made once, aborted once, released once, no completion, no deletion; every operation, status and description given back, and metadata freed as often as gathering it went well |
| `Lifecycle.StoppedThreadBalances` | worker_windows.go:111 | a thread is started at most once, and stopped as often |
| `Lifecycle.StopIsLast` | worker_windows.go:82-90 | nothing at all happens after the thread is stopped |
| `Lifecycle.NothingAfterRelease` | create_windows.go:302-308 | after the release the thread is left and stopped, and nothing else happens |
| `Lifecycle.AbortThenRelease` | create_windows.go:237-242 | after an abort comes the release |
| `Lifecycle.CancelledIffWrong` | async_windows.go:65-91 | an operation is cancelled if and only if the context was done, the deadline passed, or the wait or the query failed |
| `Lifecycle.ReleasedIffSettled` | async_windows.go:61-62 | an operation is released right after it was cancelled or came to its end, and only then |
| `Lifecycle.WaitsAreBounded` | async_windows.go:65-91 | each wait follows a look at the context and at the clock, asks for what then remains of the deadline, but for no more than a second, and is followed by a query of the status |
| `Lifecycle.WaitIsUndivided` | async_windows.go:61-107 | from launch to release there are only calls of the wait for that operation; its deadline is set once, from the first clock reading and the time for its kind of operation, the writers' status sharing that of their metadata |
| `Lifecycle.OutcomeIsTheStatus` | async_windows.go:87-105 | an operation went well if and only if the last query said finished, or a code that is neither known nor a failure |
| `Lifecycle.TroubleIsTheFirst` | create_windows.go:271-310 | trouble arises exactly where completion fails or copies that still exist cannot be deleted, and once there it stays |
| `Lifecycle.SetStartsAfterChecks` | create_windows.go:107-144 | at the start of the set every volume has passed its check, and if writers take part, gathering them went well, and right after it their rules were read and their metadata was freed |
| `Lifecycle.GatheredThenReadThenFreed` | create_windows.go:114-120 | after a gathering that went well the next calls are reading the rules and freeing the metadata, in this order |
| `Lifecycle.GatheredIsFreed` | create_windows.go:114-120 | at any moment, metadata has been freed as often as gathering it went well, but for what has just been gathered |
| `Lifecycle.PrepareAfterGather` | create_windows.go:107-164 | writers prepare after gathering them went well and every volume is in the set |
| `Lifecycle.CursorBeforeFreeze` | create_windows.go:156-180 | a cursor is captured after the preparation of writers, if any, went well, and never after the freeze was launched |
| `Lifecycle.FreezeIsPrepared` | create_windows.go:90-191 | at the freeze the session was told a context that persists and has writers exactly as asked, every volume was checked, is in the set, and has its cursor captured; gathering and preparing writers went well, or without writers the freeze is the only operation of the whole session |
| `Lifecycle.OpenSetIsWhole` | create_windows.go:107-230 | an open set's freeze went well, and so did gathering and preparing writers if any take part; it has for every volume an ID that adding it returned, a cursor captured for it, and a snapshot described as usable by that ID |
| `Lifecycle.SpoiledForACause` | create_windows.go:81-246 | a session is given up, or never made, if and only if a call the set cannot do without failed, an essential operation did not go well, or a snapshot was described as not usable; the writers' status, the cursors and the completion spoil nothing |
| `Lifecycle.BehindIsWell` | create_windows.go:107-191 | the gather, the preparation and the freeze are each got past only by an operation that was launched, waited for, and went well |
| `Lifecycle.CreateThenClose` | vss.go:224-261 | `CreateSet` and any number of `Close`, whatever fails: the set is opened unless its thread does not start or something spoils it; at the end every session made was released, every thread started was stopped, and all counts balance |
| `LifeScript.OpenSetFollowsScript` | create_windows.go:81-231 | an open set: the calls on its session, waits and writers' status aside, are exactly those of the script, in its order, with its volumes, IDs and cursors |
| `LifeScript.ClosedSetFollowsScript` | create_windows.go:271-304 | a closed set: after that, writers told if they took part, then copies deleted unless persistent, then the release, and nothing else |
| `LifeScript.StatusIsAsked` | create_windows.go:193-198 | with writers, no snapshot is fetched before their status was asked for |
| `LifeScript.StatusesAreRead` | create_windows.go:196-206 | when statuses are freed, each one counted has been read, unless the wait for them or the count failed |
| `LifeScript.CallsAreOnThread` | worker_windows.go:50-56 | every call on the session or an operation is made after entering the thread and before leaving it |

## Left out

- The Windows layer: system calls, COM vtables, struct layouts, DLL loading, privileges, apartments. Devices, VSS, clock and context are parameters with the contracts above.
- Unicode: UTF-8 and UTF-16 conversion, invalid surrogates, and case mappings that are not rune-wise. `len(dir) == 2` and its kind count bytes in the source; the model asks for a one-byte letter before the colon.
- Timestamps and reparse tags of entries; the full kernel wildcard grammar, which the source does not implement either.
- `Walk.ReadDir`: takes a listing from which `.` and `..` are already gone, and leaves a failed enumeration to `Walk.Walker.WalkDir`; it inserts one entry after another where the source calls `sort.Slice`, and `WalkOrder.SortIsUnique` shows that every correct sort gives the same list for different names.
- `Walk.Walker.WalkEntry`: the source hands the callback a pointer to the entry and looks at `IsDir` and `Excluded` again after the call; the model's callback sees the entry but cannot change it.
- `WalkPrune.DeliveredIffNoRuleMatches`: stated for a known volume root, names Windows allows, and a callback that always continues; the directory a walk starts from is never asked about, as in the source.
- `WalkSub.SubWalkIsABlock`: stated for a callback that always continues and for walks that drop excluded entries; an annotated walk emits a cut subdirectory's entry but not its contents, so a walk started inside says more.
- `ExtentRounds.FileExtents`: its ending is shown for devices that answer as `Honest` says; one that goes back on every reply could keep the source's loop going as well. Opening the file and the check of its path come before and are `RelativePath.Validate`.
- `Extents.ReassemblyIsContent`: asks that the runs' ends in the file and the starts of their places on the volume stay below 2^63 bytes; beyond that the 64-bit products wrap around, as `Extents.Wrap` says. Where a run's place ends on the volume is never computed, and is not bounded.
- `UsnChanges.ScanIsOneFold`: a purged, failed or cancelled read ends the scan with an error whatever was read before it; only undisturbed scans are promised a table.
- `UsnChain.StaleEntriesAreReportedAgain`: each change of a file on the live volume writes its record at once, and opening a file by its ID fails exactly if the snapshot lacks it. Records NTFS delays until a file is closed, and renamed directories' effect on the paths beneath them, are not part of the model; the catalogue goes by file ID.
- `Requester.Requester.AwaitAsync`: the wait for completion in `Close` uses a context that is never done; the model lets it be done as well. Its clock passes any moment after enough calls.
- `Requester.Requester.Do`: the goroutine and its channels are serialised to one command at a time between entering and leaving the thread, which is what the unbuffered channels and the wait for the command's end amount to.
- `Requester.Requester.Fetch`: the source does not compare the ID VSS describes with the one it asked for, so that the two agree is a contract of VSS (`Requester.DescribesTheAsked`), assumed only in `Requester.AlignedIds`.
- `Requester.SnapshotSet.Close`: the mutex is taken for granted; calls come one after another.
- `Lifecycle.DroppedSessionBalances`: metadata gathered by an operation whose wait failed is not freed by the source before the release, and nothing is claimed about it.
- Copies left behind by a failed set: the error path issues no deletion, so whether any remain depends on the context's auto-release, which belongs to VSS.
- The contents of writer metadata and the expansion of rule paths; the model only has "the rules are read while the metadata is held".
- `SystemExcludes`, `Verify`, `List`, `Attach`'s lookup, `Delete`, `Degraded`, options, error texts, GUID parsing, volume geometry and its cache, raw and file reads: lookups, plumbing or simple loops.
