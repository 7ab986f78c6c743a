# Verification of Rusty Butter Knife

A Dafny model of the parts of the program whose correctness is not visible from
one function: tree removal and the rename queue, discovery of candidates,
process termination, the hand-off to elevated children, the shared log, and the
closing account of a run. Everything the operating system decides (locks,
attributes, directory order, whether a queued rename is accepted, who owns a
process id, what the clock says, when Ctrl+C is pressed) is a parameter, so each
statement holds for all of its values.

`dafny verify dfyconfig.toml` checks the whole project.

## What is modelled

| module | subject |
|---|---|
| `FileSystem` | entries by path, links, and why a delete, a stat or a listing fails |
| `Removal`, `Retry` | the best-effort recursive remover, the attribute sweep, the second pass |
| `RunState` | what a run records while it works, and the queue of deletions at restart |
| `Postorder`, `WalkOrder` | the explicit-stack traversal and its recursive meaning |
| `Restart`, `Deletion`, `Leftovers`, `Cleanup` | the restart, one candidate, a whole run |
| `Safety` | from the search to the restart |
| `Pending` | the rename queue as Windows stores it, and reading it back |
| `PathKeys`, `Matching`, `Protected` | path text against path names, which paths are candidates, and which no run may take |
| `Discovery`, `SearchReach`, `Collapse` | the pruned walk, what it comes to, nested candidates |
| `Tokens`, `Termination` | the two NVIDIA name tests, stopping processes |
| `Glob`, `CommandLine`, `Json`, `StatusFile` | the matcher, argument quoting, JSON strings and the status document |
| `Options`, `Components`, `Reading` | options and component choices, and what a command line says |
| `Switches`, `HandOff` | what is forwarded to an elevated child, and what it reads back |
| `Relay`, `Instances` | the abort relay, the single-instance gate, many launches side by side |
| `WorkerWait`, `LogTail` | waiting for the worker and showing its log |
| `Report` | the check after a run and the closing summary |
| `Basics`, `Text` | optional values, sequences, strings |

Where the source changes things step by step, so does the model: the volume, a
run, the removal's account, the work stack, the log reader, the scan, the kernel
and the registered worker are classes or loops proved against functions. The
interleaving of several processes is a state machine over their steps.

## Main results

- Whatever is locked, refused or aborted, on the way or at the end: every entry that
  a run or the restart after it removes or changes is at or below a path that the
  search visited, that an enabled component claims and that no exclusion protects
  (`Safety.OnlyTargetsGo`, `Safety.SearchAndRemove`); without execute mode nothing is
  removed or queued (`Safety.DryRunChangesNothing`).
- However the candidates lie to each other, what is outside them is still there,
  unchanged, after the run and after the restart (`Cleanup.NothingElseIsRemoved`). A
  candidate that went, or all whose leftovers were reached and accepted, is gone with
  all below it (`Cleanup.SettledIsGone`); when that holds of every handled one,
  exactly these are gone (`Cleanup.ExactlyTheCandidatesGo`), and one that lies in no
  other, nor another in it, is gone exactly when it holds (`Cleanup.GoneWhenSettled`).
- Collapsing leaves no candidate inside another exactly when, in the sorted list,
  what a later key covers an earlier one covers, too (`Collapse.KeptAreOutermost`);
  with lowercased paths behind a common prefix as keys that always holds, and the
  candidates lie apart on the volume (`Cleanup.CollapsedAreApart`).
- After a traversal has queued a candidate, an entry survives the restart exactly
  when something at or below it was not reached or not accepted
  (`Leftovers.RestartAfterTraversal`).
- A search visits exactly the entries with only listable, unpruned folders between
  them and their root, each once (`SearchReach.VisitsAre`), and the pruned search
  finds exactly what an unpruned one finds (`Discovery.PruningLosesNothing`). So,
  without an abort, every unprotected path of an enabled component that the roots
  lead to is a candidate, or what was recorded in its place is
  (`SearchReach.SearchIsComplete`), and lies inside what collapsing keeps
  (`Safety.SearchAndRemove`).
- Which paths are protected, which are claimed and which of two keys covers the other
  is decided on lowercased text; for names as the file system gives them that is
  exactly a matter of the names (`Protected.GuardedIsExcluded`,
  `Protected.MatchedByName`, `Deletion.UnsafeByName`, `Collapse.CoversNames`).
- What an elevated child makes of its command line is the parent's options and
  component selection (`HandOff.HandOffRestores`, `HandOff.WorkerRestores`).
- In every interleaving of launches one destructive run is past the gate at most,
  a launcher that was not killed ends after its child and with its code, and the
  child sees a request relayed to it exactly as long as its launcher waits
  (`Instances.OneDestructiveRun`, `Instances.LauncherEndsWithItsChild`,
  `Instances.AbortCrossesElevation`). A destructive launch with an argument that is
  not understood never hands over and never passes the gate
  (`Instances.RefusedGoNoFurther`), and every such argument is noticed
  (`Reading.ProblemsAreReported`).
- Every process that is terminated has an image below one of the vendor's folders
  whose name is listed for an enabled component; no handle is opened for any other
  name (`Termination.KillLockerProcesses`, `Termination.EligibleIsOwned`).

## Where the code does less than it says

- `wildcard_match_no_case` agrees with the meaning of `*` and `?` on every pattern
  exactly for texts without `*`, and on every text exactly for patterns without
  `*`, because a literal is tried before a star (`Glob.WhenTheMatcherIsExact`).
- The report that a candidate "will be deleted when Windows restarts" stands for the
  candidate's own path only. One whose lowercased path neither covers nor is covered
  by another's, as after collapsing with keys that are the paths themselves, is gone
  then exactly when every entry below it, too, was reached and accepted
  (`Report.WaitingIsTheRootsOwn`, `Report.WaitingIsKept`, `Report.PromiseCanFail`).
  Of any other, one that holds nothing any more and alone has its key among the queued
  paths is gone (`Report.WaitingLeafIsKept`).
- `json_find_string_field` may take a value for a key. Every text field of the
  status document but `logPath` is always read back; `logPath` is read back
  exactly when the status text does not echo that key, or the detail is the same
  text (`StatusFile.StatusReadBack`, `StatusFile.StatusEchoMisleads`). With the status
  texts that are written it always is (`StatusFile.WrittenStatusReadBack`).
- An abort request relayed to an elevated child lasts as long as the launcher: the
  child opens the event anew at each look, and when the launcher is killed it works
  on (`Instances.SeenWhileTheLauncherLives`, `Instances.RequestCanVanish`). A search
  that had left a folder for it goes on with the folders around
  (`Discovery.Scan.Walk`).
- `--log-file=-x.log` is accepted, but the worker is given the path as an argument
  of its own and takes it for a switch: it refuses to run exactly when the log file,
  or the log folder, begins like one (`HandOff.WorkerRefuses`,
  `HandOff.DashedLogIsAcceptedOnce`). The elevated window cannot meet this, since
  only a launch without arguments asks for it (`HandOff.WindowIsForBareLaunches`).
- Collapsing leaves a candidate inside another when a shorter path leads deeper than
  a longer one (`Collapse.ShorterPathMayLeadDeeper`), when the inner one is a link,
  whose key is that of its target (`Cleanup.LinkInsideStays`), or when only the inner
  one cannot be resolved (`Cleanup.UnresolvedInsideStays`);
  `Collapse.KeptAreOutermost` and `Cleanup.KeptAreApart` say exactly when.
- The comment on `wait_exit_code_aborting` announces that an abort ends the wait
  after a grace period; the only caller passes a closure that never asks for that,
  and the model follows the caller.

## Model

| member | source | states |
|---|---|---|
| Removal.GoneIffNothingReported | src/deletion.rs:204-292 | over any tree, the root of a removal pass goes exactly when the pass reports no failure, and that is exactly when no entry at or below it resists for its own reason |
| Removal.RemoveTreeBestEffort | src/deletion.rs:233-292 | one pass takes away exactly the entries with nothing resisting at or below them and not inside an unlistable directory; the count grows by their number and the failures, without repetition, are exactly the resisting entries no failing descendant explains |
| Removal.WhatRemains | src/deletion.rs:204-292 | what a pass leaves is exactly the failed entries, the directories above them, and what is inside failed directories that cannot be looked into |
| Retry.ClearBlockingAttributes | src/deletion.rs:111-145 | clears the attributes of the root and of everything reachable through listable directories without following links, and changes nothing else |
| Retry.TwoPasses | src/deletion.rs:294-308 | both passes together remove exactly what one pass would remove had every clearable attribute been cleared first, and leave that pass's failures |
| Retry.RemoveTreeWithRetry | src/deletion.rs:294-308 | the method has that effect on the volume, and its count and failures are those of that single pass |
| RunState.Run.ScheduleDeleteOne | src/deletion.rs:150-189 | tries the plain and then the extended-length spelling; the path counts as pending, is queued and recorded INFO exactly when one was accepted, else a WARN record is all that is added |
| Postorder.ForEachPostorder | src/fsutil.rs:66-118 | the stack machine visits the recursive postorder of the no-follow tree; when the callback stops it, a beginning of that order, and the result says so |
| Postorder.ExpandUnfolds | src/fsutil.rs:77-118 | replacing a directory frame by its expansion keeps all that is still to be visited and lowers the measure by which the loop ends |
| WalkOrder.WalkFacts | src/fsutil.rs:66-118 | every entry reachable through listable directories is in the walk, once, before the directory it is in, and nothing below a link is |
| WalkOrder.WalkFits | src/fsutil.rs:66-118 | links and files are visited as such, a directory as one, or as missing when it is not there or cannot be examined |
| Restart.RestartExact | src/deletion.rs:191-204 | replaying a queue that names children first leaves exactly the entries with something unqueued at or below them, unchanged |
| Restart.UnqueuedIsKept | src/deletion.rs:191-204 | in whatever order paths are queued, an entry that is not queued survives the replay unchanged |
| Restart.QueuedLeafGoes | src/deletion.rs:191-204 | in whatever order paths are queued, a queued entry that holds nothing is gone after the replay |
| Restart.EmptyAtItsTurn | src/deletion.rs:191-204 | a queued directory all of whose contents are queued before it is empty when its own turn comes |
| Deletion.DeleteCandidate | src/deletion.rs:372-508 | nothing changes unless the candidate exists, is safe and execution is on; otherwise it is removed, left behind with a warning, or its leftovers are traversed for the restart; what is recorded about it is exactly a warning if it cannot be examined, and then one record, whose level says how it ended |
| Deletion.UnsafeByName | src/deletion.rs:315-365 | what may not be removed as a tree is, name by name, a directory or an entry that cannot be examined which is a driver package, or lies below a driver repository and has none of the five allowed names |
| Deletion.EveryKindIsATree | src/deletion.rs:372-508 | whether it is a file, a link or a directory, of a candidate that can be examined goes, and is reported, what one pass over its tree would take and report with every clearable attribute cleared |
| Deletion.UnexaminedByHint | src/deletion.rs:372-508 | of a candidate that cannot be examined nothing goes if it was recorded as a directory, and otherwise the entry alone, exactly if it can be deleted as a file |
| Cleanup.DriverFolderStays | src/deletion.rs:315-365 | in every run, a candidate that is a driver package, or lies below a driver repository under a name that is not allowed, and is neither missing nor a file, is skipped or met by an abort, with volume and queue as they were |
| Leftovers.WalkFromFacts | src/fsutil.rs:66-118 | from any root, every reachable entry is visited exactly once, children first, the root last |
| Leftovers.OpenIsReached | src/fsutil.rs:66-118 | a tree is reached to its last entry exactly when every directory in it that holds something can be listed, and the root, if it holds something, examined |
| Leftovers.RestartAfterTraversal | src/deletion.rs:195-204 | after the restart an entry is there exactly when something at or below it was not reached or not accepted |
| Leftovers.GoneForGood | src/deletion.rs:195-204 | the tree, and nothing else, is gone after the restart exactly when every entry of it was reached and accepted |
| Leftovers.HandledCandidateIsGone | src/deletion.rs:372-508 | removal, queueing and restart together leave nothing of a candidate and everything else exactly when all that the removal left was reached and accepted |
| Cleanup.DeleteAll | src/report.rs:479-485 | the loop handles the candidates in order, each from where the last one left the volume and the records, and stops early only when aborted |
| Cleanup.NothingElseIsRemoved | src/report.rs:479-485 | for every run over any candidates, complete or not, what lies outside the handled ones survives the run and the restart unchanged |
| Cleanup.SettledIsGone | src/report.rs:479-485 | in any run over any candidates, one that went at once, or whose leftovers were traversed to the end and all reached and accepted, is gone after the restart with all below it |
| Cleanup.ExactlyTheCandidatesGo | src/report.rs:479-485 | when each handled candidate went or all its leftovers were reached and accepted, exactly these with all below them are gone after the restart, nested ones included |
| Cleanup.GoneWhenSettled | src/report.rs:479-485 | a candidate that lies in no other handled one, nor another in it, is gone after the restart, with all below it, if and only if it went at once or its leftovers were traversed to the end and all of them reached and accepted |
| Cleanup.CollapsedAreApart | src/discovery.rs:127-171 | when the canonical keys are the lowercased paths behind a common prefix, no kept candidate's lowercased path covers another's and they lie apart in the tree |
| Cleanup.KeptAreApart | src/discovery.rs:149-171 | whatever the keys, the kept candidates lie apart exactly when no two entries of the sorted list that no earlier one covers are nested |
| Cleanup.LinkInsideStays | src/discovery.rs:127-171 | a concrete input where they do not: a link inside another candidate, with the resolved key of its target |
| Cleanup.UnresolvedInsideStays | src/discovery.rs:127-171 | another: only the inner path cannot be resolved, so its key lacks the prefix of the outer one |
| Safety.OnlyTargetsGo | src/report.rs:464-485 | whichever paths a search came to visit and however the run over what collapsing keeps of its candidates goes, an entry removed or changed after the restart is at or below a visited path that an enabled component claims and no exclusion protects |
| Safety.SearchAndRemove | src/report.rs:464-485 | search, collapse and deletion loop together have that effect on the volume and the queue, for a search cut short by an abort, too; without an abort, for each claimed and unprotected path that the roots lead to, the candidate recorded under its canonical key is covered by one that collapsing kept; without execute mode there is no effect |
| Safety.TargetedByName | src/matching.rs:159-206 | the targeted paths are, name by name, those that are not protected and that an enabled component claims |
| Safety.DryRunChangesNothing | src/deletion.rs:372-508 | in a run without execute mode every candidate leaves volume and queue as they were |
| Pending.ParsePendingDeletions | src/lockinfo.rs:339-354 | the loop over the parts reads pairs up to the first empty source and keeps the normalized sources of the deletions |
| Pending.DeletionsAre | src/lockinfo.rs:336-354 | what is read back of a list of renames are the normalized sources of those without a target, and no others |
| Pending.NormalizedPath | src/lockinfo.rs:327-334 | the kernel prefix or the extended-length prefix is dropped once, and letter case with it |
| Pending.ParseEncoded | src/lockinfo.rs:336-354 | parsing an encoded list of renames gives exactly its deletions in order, whatever follows the list's terminator |
| Pending.NextRunReads | src/lockinfo.rs:358-385 | the next run reads back what was pending before and exactly the keys this run recorded as scheduled |
| Pending.CountAlreadyPending | src/lockinfo.rs:388-399 | counts the candidates whose displayed lowercase path is in the pending set |
| Pending.ScheduledIsCounted | src/lockinfo.rs:388-399 | a candidate, plainly or extended-length spelled, is counted exactly when its key was pending before or an earlier run scheduled it |
| Matching.MatchComponentForPath | src/matching.rs:174-210 | returns the first enabled component of the catalog that claims the path, and none for an excluded path |
| Protected.GuardedIsExcluded | src/matching.rs:75-157 | the text tests exclude a path exactly when, name by name, it is inside a developer tool's folder, a driver package or its sidecar file, at or inside an NGX folder while NGX is off, or a core display driver file |
| Protected.GuardedIsUnmatched | src/matching.rs:174-210 | whatever is enabled, and whatever claims it, a protected path has no component |
| Protected.ClaimsByName | src/matching.rs:174-210 | a component claims a path exactly when the last name is one of its names, the installer cache only inside a vendor folder, or matches one of its patterns in their plain meaning |
| Protected.FirstClaimant | src/matching.rs:174-210 | the component that is returned stands first in the catalog of those that are enabled and claim the path |
| Protected.MatchedByName | src/matching.rs:174-210 | a path has a component exactly when it is not protected and an enabled one claims it |
| Protected.PrunedFolders | src/matching.rs:159-171 | the search passes over exactly the developer tools' folders, and the NGX folders while NGX is off |
| Matching.PrunedIsUnmatched | src/matching.rs:118-171 | nothing at or below a pruned entry can match any component |
| Matching.MoreEnabledMoreMatched | src/matching.rs:159-206 | a match names an enabled component that claims an unexcluded path, and enabling more components keeps the path matched |
| Discovery.SkippingLosesNothing | src/discovery.rs:303-335 | passing over folders at and below which nothing matters changes neither the content nor the order of what matters |
| Discovery.PruningLosesNothing | src/discovery.rs:303-335 | over every file system the pruned search yields exactly the candidates of the unpruned no-follow search, in the same order |
| Discovery.CandidatesAreExact | src/discovery.rs:187-216 | each candidate was visited and is claimed by the enabled component it names, no two share a canonical key, and no matching key is missing |
| Discovery.OneForEachPlace | src/discovery.rs:187-216 | no two candidates lead to the same canonical path, nor, without one, have the same lowercased path; a candidate is marked as a directory exactly when it is one itself |
| Discovery.MoreComponentsFindMore | src/discovery.rs:175-229 | enabling components only adds canonical keys, although it may open folders that were pruned |
| Discovery.Scan.Walk | src/discovery.rs:303-335 | the recursive walk visits all there is to visit, or, when an abort is seen, part of it in order: each folder that meets the request is left and those around it go on unless they meet it, too; under a flag that stays, that part is a beginning; SearchReach.VisitsAre says what there is to visit |
| Discovery.Scan.DiscoverCandidates | src/discovery.rs:175-229 | what was visited is part of what there is to visit from all roots, a beginning of it under a flag that stays; without an abort the candidates are those of the unpruned search |
| SearchReach.VisitsAre | src/discovery.rs:303-335 | below a directory exactly those entries are visited, each once, with no unreadable directory from there down to above them and nothing but links passed over on the way down to and with them |
| SearchReach.SearchIsComplete | src/discovery.rs:175-229 | from roots that lead through no link, the unpruned search records only paths it can come to, and for each matching one of these a candidate with its canonical key |
| Collapse.CollapseNested | src/discovery.rs:149-171 | the loop keeps, of the sorted candidates, those no kept one covers; Collapse.CollapseByNames says what that is |
| Collapse.CoversNames | src/discovery.rs:136-145 | of paths as the file system gives them, one key covers another exactly when the names of the one begin those of the other, in any letter case |
| Collapse.CollapseByNames | src/discovery.rs:127-171 | for keys that are, behind a common prefix, where the paths lead: every candidate leads, name by name, to or below where a kept one does, and no kept one to or below where an earlier one does |
| Collapse.CoversTransitive | src/discovery.rs:136-145 | lying at or below is transitive on canonical keys, drive roots and the empty key included |
| Collapse.SortSorts | src/discovery.rs:149-154 | sorting orders the candidates by length and text and keeps each of them |
| Collapse.KeepIsACover | src/discovery.rs:149-171 | the kept candidates are part of the sorted input, every input candidate is at or below a kept one, and no kept one lies below an earlier one |
| Collapse.CollapseTwice | src/discovery.rs:149-171 | collapsing twice is collapsing once |
| Collapse.OrderDoesNotMatter | src/discovery.rs:149-171 | the same paths found in any order leave the same paths |
| Collapse.KeptAreOutermost | src/discovery.rs:149-171 | no kept candidate lies inside another, and the kept keys are exactly the outermost ones, if and only if every entry that a later one with another key covers is covered by an earlier one, too |
| Collapse.LengthOrderUntangles | src/discovery.rs:127-171 | that holds whenever a longer path never has a shorter key |
| Collapse.ShorterPathMayLeadDeeper | src/discovery.rs:127-171 | a concrete input where it does not, a link into another candidate with a longer path, and both stay |
| Termination.VerifiedIsApproved | src/ffi_process.rs:39-63 | what was decided for a snapshot name holds for the live image verified against it |
| Termination.KnownNamesAreOwned | src/matching.rs:256-293 | every name that may be terminated has an owning component by the table of names alone |
| Termination.KnownIsNoContainer | src/matching.rs:55-60 | no name that may be terminated is that of a container that can be preserved |
| Termination.ContainersArePreserved | src/matching.rs:295-309 | while containers are preserved none of them is matched, and every other name is decided as without |
| Termination.EligibleIsOwned | src/actions.rs:233-256 | a process is looked at exactly when its name is listed and the component that owns it is in the catalog and enabled, and counted as deselected exactly when that component is in the catalog and not enabled |
| Termination.LookedInOrder | src/actions.rs:233-256 | each process of a snapshot is looked at, or not, for itself, in its place |
| Termination.ImageLeafIs | src/ffi_process.rs:46-48 | the file name of an image is what stands behind its last separator, of either kind |
| Text.SameButForCase | src/ffi_process.rs:39-43 | two names are taken for the same exactly when they differ in the case of letters only |
| Termination.KillLockerProcesses | src/actions.rs:205-356 | whoever takes over a process id in between: a handle is opened for the listed processes of enabled components, and for no other, and is on the object that had the id then if its own image fits; only objects whose image is below an approved root, listed and of an enabled component are terminated, each verified one once, in snapshot order, after all handles were opened; all are waited for unless their shared time is over; the two counts are those of the listed and of the deselected |
| Tokens.IsNvidiaContextString | src/matching.rs:22-54 | true exactly when a listed word occurs or some maximal alphanumeric run is "nv" or begins with it and has at least four characters |
| Tokens.PiecesAreRuns | src/ffi_process.rs:88-90 | the non-empty pieces of the split are exactly the maximal alphanumeric runs |
| Tokens.StrictMeans | src/ffi_process.rs:65-91 | the strict gate accepts exactly the texts that contain one of its words or have a maximal alphanumeric run that begins with one of its prefixes |
| Tokens.StrictImpliesBroad | src/ffi_process.rs:65-91 | every text the strict gate accepts, the broad test accepts |
| Glob.GreedySound | src/util.rs:74-100 | from every state of the loop, a match it reports is a match |
| Glob.GreedyComplete | src/util.rs:74-100 | from every state of the loop a match is not missed, when text or pattern has no star, although only the last star is remembered |
| Glob.WildcardMatchNoCase | src/util.rs:74-100 | the loop terminates, never reports a false match, and is exact when text or pattern has no star |
| Glob.WhenTheMatcherIsExact | src/util.rs:80-90 | a text is matched rightly by every pattern, and a pattern against every text, exactly when it has no star |
| CommandLine.QuoteArg | src/util.rs:28-53 | doubles backslashes before a quote and at the end, and no others |
| CommandLine.PlainItem | src/util.rs:28-53 | an argument is written as it is exactly when it is not empty and holds no blank, no quote and no character of a command interpreter |
| CommandLine.JoinCommand | src/util.rs:56-70 | joins the arguments with blanks, quoting those that need it |
| CommandLine.SplitUndoesJoin | src/util.rs:27-70 | splitting the joined line gives the arguments back, whatever they contain |
| Json.JsonEscape | src/util.rs:104-125 | the loop over the characters builds the escaped string that the next two rows are about |
| Json.EscapedIsJson | src/util.rs:104-125 | escaped text consists of string characters of section 7 of RFC 8259: no bare quote, no control character, no unfinished escape |
| Json.UnescapeEscape | src/util.rs:104-180 | reading an escaped string up to its closing quote gives the string back |
| StatusFile.JsonFindStringField | src/util.rs:139-187 | the indexed search returns the string behind the colon behind the first occurrence of the quoted key, looking on past other values |
| StatusFile.FirstOccurrenceIsRead | src/util.rs:139-187 | a field whose quoted key occurs first is read back, however it is spaced |
| StatusFile.ReadDocument | src/main.rs:59-91 | on every document the reader returns the key's field, unless an earlier value echoes the key and stands for the key behind it |
| StatusFile.StatusReadBack | src/main.rs:59-91 | version, run id, status and detail of the status document are always read back; the log path exactly when the status does not echo its key or the detail equals it |
| StatusFile.WrittenStatusReadBack | src/main.rs:59-91 | with each status text the program writes, every text field is read back |
| StatusFile.StatusEchoMisleads | src/main.rs:59-91 | a concrete status text, none the program writes, for which the detail is read as the log path |
| Options.ParseArgs | src/options.rs:121-276 | the loop over the arguments reads values and flags one after the other, from the bare-launch defaults when there are none |
| Reading.SwitchMeans | src/options.rs:137-219 | exactly the texts of a table are taken for switches, and each turns the one option on or off that the table says |
| Reading.LastSwitchDecides | src/options.rs:121-276 | whatever else stands on the line, an option, but for the preservation of containers, is as the last switch about it says, and as it was without one |
| Reading.LastPreserveDecides | src/options.rs:220-276 | containers are preserved as the last argument about that says, with a word for on or off or with none, whatever stands around it |
| Reading.ExecutesWhenTold | src/options.rs:121-276 | a launch with arguments is destructive exactly when a switch says so and none behind it says otherwise |
| Reading.ProblemsAreReported | src/options.rs:121-276 | no argument is reported exactly when each is a switch, a value of the one before it, or one that stands alone |
| Reading.SelectedBySwitch | src/options.rs:347-390 | an optional component starts selected exactly when its own switch was read, every other one as the catalog says |
| Reading.ChoiceIsRead | src/options.rs:281-334 | a choice sets every component whose key it names in any letter case to its word, and is reported, changing nothing, exactly when the word is none or no key is named |
| Reading.NoChoiceIsRead | src/options.rs:281-334 | a choice without a separator is reported and changes nothing; what does not begin like a choice is none |
| Reading.LaterChoiceCounts | src/options.rs:281-334 | a choice takes effect on what the choices before it left |
| HandOff.ValueForms | src/options.rs:220-276 | a value is taken alike from the next argument and from behind an equals sign, but as the next argument only when it does not look like a switch |
| Switches.ParsedIntegers | src/options.rs:220-276 | exactly the texts of an optional sign and digits whose value fits 64 bits are read, and as that value |
| Components.InitializeSelection | src/options.rs:347-390 | gives the initial selection over the catalog, in which every key has its own entry's state, an optional one that of its switch |
| Components.ApplyComponentArgs | src/options.rs:281-334 | applies the choices in order, changes no key, and returns exactly the arguments that could not be applied |
| HandOff.EffectiveChildSwitches | src/tasksched.rs:53-119 | pushes the forwarded toggles, the wait and every component choice in order |
| HandOff.UacCommandLine | src/main.rs:342-372 | builds the joined command line of the elevated window |
| HandOff.WorkerCommandLine | src/tasksched.rs:203-246 | builds the joined command line of the worker |
| HandOff.UacChildOptions | src/main.rs:342-372 | the elevated window's options are the forwarded ones plus its own values; it reports an unknown argument exactly when one of these looks like a switch |
| HandOff.WorkerOptions | src/tasksched.rs:203-207 | the worker's options are the forwarded ones, marked as worker; it reports an unknown argument, and has no shared log, exactly when the log path looks like a switch |
| HandOff.SelectionRestored | src/options.rs:281-334 | reading the forwarded choices restores the parent's selection and refuses none |
| HandOff.HandOffRestores | src/main.rs:342-372 | splitting, parsing and applying what the parent joined for the window gives its forwarded options whatever the window's values are; nothing is refused exactly when these are usable, and then its exact selection and the values come back |
| HandOff.WorkerRestores | src/tasksched.rs:203-207 | the same for the scheduled worker, through which every destructive run goes |
| HandOff.WorkerRefuses | src/sysinfo.rs:84-100 | a worker is started that refuses to run exactly when the log file given looks like a switch, or none is given and the log folder begins with a dash |
| HandOff.DashedLogIsAcceptedOnce | src/options.rs:121-276 | every switch-like value is accepted after `--log-file=` by an executing parent, whose worker then refuses it |
| HandOff.WindowIsForBareLaunches | src/main.rs:180-182 | the defaults that lead to the window come from an empty argument list only, which gives no status file and a log path in the program's own folder |
| HandOff.BareLaunchIs | src/options.rs:121-134 | a launch without arguments is read like one with six given switches, but asks for the window |
| HandOff.ReadCommandLine | src/main.rs:93-132 | a process makes of its command line the parsed options and, from the initial selection, the one after its choices, without the updater on a bare launch; the refused choices join the unknown arguments |
| HandOff.SelectedAtStart | src/main.rs:93-132 | a bare launch selects what the catalog selects by default, but nothing optional and not the updater; with arguments, the choices decide from the initial selection |
| Relay.RelayNameIsValid | src/app.rs:63-74 | every generated relay name passes the child's check |
| Relay.ValidatedIsOurs | src/app.rs:63-74 | a name that passes is the program's prefix in the session namespace with hexadecimal digits and dashes behind it |
| Relay.OursIsValidated | src/app.rs:63-74 | and every name of that form passes |
| Relay.RelayNamesDiffer | src/util.rs:265-271 | two processes never generate the same relay name |
| Instances.AllReachedAreSound | src/main.rs:184-246 | every step of every run keeps handles, children, codes and events as they should be |
| Instances.RefusedGoNoFurther | src/main.rs:156-178 | in every run a destructive process whose arguments were not all understood holds no mutex, hands over to nobody and is not past the gate: it is starting, or leaves with the code for bad arguments, or was killed |
| Instances.StartingStep | src/main.rs:156-213 | a starting process can be refused exactly when it is destructive and its arguments were not understood, and otherwise go on; it can hand over exactly when it needs to |
| Instances.PastTheGate | src/main.rs:216-246 | a destructive process gets past the gate exactly when the mutex can be made and nobody holds it; any other always does |
| Instances.UnbegunRuns | src/main.rs:156-246 | a process that neither worked nor handed over leaves with the code that says why, unless it is killed |
| Instances.ProcessesStayAsLaunched | src/main.rs:93-178 | what a process was launched with it keeps through every run, and a child has what its launcher gave it |
| Instances.OneDestructiveRun | src/main.rs:216-246 | in every interleaving at most one non-worker execute process is past the gate |
| Instances.LauncherEndsWithItsChild | src/ffi.rs:536-562 | a launcher that got a child and was not killed is past its wait only after the end of the child, with the child's code |
| Instances.AbortCrossesElevation | src/app.rs:52-84 | in every run a child of a launcher sees an abort exactly when one was made in its own console or its launcher has passed one on and still waits; a launcher passes on only a request of its own console |
| Instances.NextPollRelays | src/main.rs:374-382 | the launcher's next look after Ctrl+C passes the request on, so that the child sees it, or finds the child gone |
| Instances.SeenWhileTheLauncherLives | src/app.rs:52-84 | between any two points of a run, what the child has seen it still sees unless its launcher is gone, and then it sees its own console's requests only |
| Instances.RequestCanVanish | src/ffi_process.rs:197-210 | a concrete run in which a killed launcher takes its relayed request with it while the child works on |
| WorkerWait.WaitForWorker | src/tasksched.rs:267-386 | under an advancing clock the loop ends at the first round that is over the bound, saw an abort, finds the worker inactive with a result, or inactive without one after the grace; no other ending fits; it stops and deletes the worker once |
| WorkerWait.RoundsAreApart | src/tasksched.rs:277-372 | rounds are a pause apart, but for one whose pause is cut short by a request that vanishes, so only so many fit into the bound |
| WorkerWait.Preflight | src/main.rs:248-309 | cleanup is reached in this process exactly when no worker is needed; exit code 0 is returned only on the worker's own code 0 |
| LogTail.OneLineIsOneLine | src/logging.rs:101-103 | a message becomes one line and stays what it was if it was one |
| LogTail.BreaksAreBars | src/logging.rs:101-103 | where a message breaks, in any of the three ways, a bar stands instead |
| LogTail.ParseWritten | src/logging.rs:92-99 | reading a written record gives it back, whatever its message contains |
| LogTail.LogReader.StreamChildLogLines | src/tasksched.rs:388-440 | one poll moves the cursor past the whole lines read, or past everything when flushing, shows their records and counts the lines |
| LogTail.PollMovesOn | src/tasksched.rs:388-440 | a poll reads on from the cursor, or from the start of a file that is shorter; it takes all it reads when flushing, else all up to the last newline, and shows the records of what it takes |
| LogTail.PollsKeepStep | src/tasksched.rs:388-440 | over any polls of a growing log the cursor stays between lines and what was shown is what the log holds up to it |
| LogTail.ShownExactlyOnce | src/tasksched.rs:388-440 | however appends and polls interleave, the records shown are a beginning of those logged, and all of them once the cursor is at the end |
| LogTail.FlushShowsTheRest | src/tasksched.rs:374-381 | the last flushing read leaves every record shown exactly once |
| LogTail.CrLfEnds | src/tasksched.rs:425-437 | a carriage return before the newline does not belong to the line |
| Report.VerifyCandidateRemoval | src/report.rs:211-275 | the loop counts what remains, waits, could not be examined and was only announced |
| Report.VerdictMeans | src/report.rs:191-275 | an entry that cannot be examined is never taken for gone; one that is there is put down to what was recorded last about it, and to the restart only when its key is pending and that was no warning, skip or announcement |
| Report.OtherActionsDoNotCount | src/report.rs:211-220 | what else was done with a path does not change what is said about its deletion |
| Report.FiguresMean | src/report.rs:211-275 | the four figures are the numbers of candidates still there, not examinable, waiting and only announced, said of the volume and the records |
| Report.VerdictFollowsOutcome | src/report.rs:191-275 | after a run, what is said about a candidate follows from how its handling ended |
| Report.HeadingsAreApart | src/report.rs:211-275 | waiting, unexamined and announced together are at most what remains, and that at most what was found |
| Report.CloseRun | src/report.rs:486-512 | whatever was recorded, the figures of an executed run add up to what was found, and the lines are exactly those the figures call for |
| Report.ResultLines | src/report.rs:543-615 | with consistent facts the removed, waiting and failed figures add up, without saturation; which lines are written is said for each of the nine, exactly |
| Report.WaitingWasQueued | src/report.rs:191-209 | a candidate is counted as waiting only if a path with its key is in the queue and its latest record is no warning or skip |
| Report.ScheduledIsOwn | src/report.rs:191-209 | over a whole run the key of a candidate whose path neither covers nor is covered by another's is recorded as scheduled exactly when its own traversal reached the end and its own path was accepted; neither another candidate nor a traversal cut short records it |
| Report.WaitingIsTheRootsOwn | src/report.rs:191-209 | at the end of a run such a candidate, if it can be examined, is counted as waiting exactly when it was traversed to the end and its own path accepted, whatever the others recorded |
| Report.WaitingIsKept | src/report.rs:586-594 | such a candidate, counted as waiting, is gone after the replay of the run's whole queue on the final volume exactly when everything below it was reached and accepted as well |
| Report.WaitingLeafIsKept | src/report.rs:586-594 | in any run, a candidate counted as waiting that holds nothing any more, and whose key no other queued path has, is gone after the restart |
| Report.PromiseCanFail | src/report.rs:586-594 | a concrete run over one candidate that is counted as waiting and is still there after the restart |

## Left out

- Letter case is a map over ASCII characters; full Unicode case folding and lossy decoding are not modelled.
- Paths are names from the drive down; that `\\?\` and plain spellings name the same entry, and path length limits, are taken for granted.
- Mid-run changes of the file system by other programs, and errors for single entries while a directory is listed, are not modelled.
- A candidate whose own path leads through a link is not modelled in the deletion layer; discovery is modelled for such roots.
- Safety.SearchAndRemove: the roots lead through no link, and the volume that is searched is the one that is then changed; the record of what is already pending, the check after the run and the report, which change neither, are modelled apart.
- SearchReach.SearchIsComplete: roots that lead through a link are outside the statement; the other laws of the search hold for them, too.
- Protected.GuardedIsExcluded: the names of the path are not empty and hold no backslash, and where a component's patterns are concerned the last one holds no star; Windows gives no other names.
- Canonical keys are an arbitrary function of the path; which paths the system resolves, and to what, is not modelled.
- Report.WaitingIsKept: a candidate whose lowercased path covers another's or is covered by it, as a link inside a candidate and that candidate may be, is outside the statement: there one candidate's traversal can record the other's key; Report.WaitingLeafIsKept says what holds of them when nothing is left below.
- Cleanup.NothingElseIsRemoved: the queue holds nothing of this run's own before it begins; entries earlier runs left in the rename queue are replayed before it and are not part of the statement.
- Termination by `takeown` and `icacls`, service control and `schtasks`: external programs.
- Who holds a locked file (Restart Manager) only decides the wording and level of a record; the level is a function of that answer.
- Instances.LauncherEndsWithItsChild: process ids are not given out again, and a wait that never ends is a run without that step, so nothing says that a child ends.
- LogTail.ShownExactlyOnce: the cursor adjustment after a parent's own heartbeat line and a log that is truncated are outside the statement, the first being exact only when nobody else appends and the second contradicting an append-only log.
- Boolean options are a set of toggles; the switches of a child are pushed by a loop over a table instead of one statement each.
- The catalog of components is a parameter; its texts are not modelled.
- Console output, colours, menus, help, the wording of messages, the JSON report's layout and the statistics over old logs.
- `parse_csv_line`, `atoi_prefix` and `json_find_int_field`: easy beside what is modelled.
- Building the list of search roots from the environment and the user profiles: a parameter.
