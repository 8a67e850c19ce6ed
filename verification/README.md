# Verified models of a desktop Git client's tooling

These Dafny modules model seven pieces of logic from the repository's scripts, test harness and benches,
and prove what each of them promises. Code that changes things in place is a class or a method with
loops, proved against a specification function; the theorems are about those functions, over every
input, every run or every interleaving.

1. **The error-text scan** (`Syntax`, `RulePasses`, `TaintRules`, `TaintReports`, `TaintNames`, `TaintLimits`,
   `TaintAdditions`, `TaintWrappers`, `TaintScan`). A syntax tree is walked in place, pass after pass, and the names that
   hold an error's text are collected; a second walk reports the calls and comparisons that classify by
   that text. `RulePasses` treats the passes as derivation rules in general and characterises them by
   chains; `TaintRules` says what the rules of a program are; `TaintReports` and `TaintNames` tell from the
   file alone what is answered and which names are tainted; `TaintScan` is the scan with its mutable set.
2. **The workbench store** (`WorkbenchStore`, `WorkbenchRuns`, `WorkbenchSaves`, `WorkbenchSuggestions`,
   `WorkbenchRepositories`, `WorkbenchReviews`, `WorkbenchPages`, `WorkbenchLineage`, `WorkbenchMerge`,
   `WorkbenchEffects`, `WorkbenchMergeEffects`, `WorkbenchReads`, `Workbench`). One step function per request on a store value, the theorems over all runs of requests
   by any number of clients, and the handler class whose methods are proved to do those steps in place.
3. **The fast-import bench history** (`FastImport`, `HistoryBuild`, `HistoryContents`). The stream printer, a reader
   that honours the byte counts of `data` commands, an importer with refs and objects, the chunked builder,
   and what each commit of a built repository holds.
4. **The handler-list reader** (`HandlerList`), over the text of a source file.
5. **The alert queue bench** (`AlertsQueue`). Producer, bounded FIFO, worker and drain probe as a state
   machine whose events interleave freely, and the producer's loops over a shared queue.
6. **The terminal workload** (`XorShift`, `Terminal`, `Workload`, `WorkloadDraws`, `WorkloadShapes`,
   `WorkloadGenerator`). A terminal with a grid, a cursor and the control functions used (ECMA-48, CPL in section 8.3.13, EL in
   section 8.3.41), the operations a session consists of, the session each seed gives, and the seeded
   generator that writes it.
7. **The generated histories** (`Histories`) the lane solver is fed.

`Options`, `Collections`, `Decimal` and `Text` hold what several of them share. Source paths below are
relative to the repository's root.

## Where the code does less than it says

The models follow the code. Each of these is proved, with the input that shows it and the exact condition.

- The scan calls its passes a fixed point that follows a variable "anywhere in the same file". Eight passes
  miss exactly the reachable names whose every derivation steps back to an earlier declaration eight
  times or more (`CapLosesExactly`, `ScanIsCompleteExactlyWhen`); nine declarations written last use
  first already outrun it (`BackwardDeclarationsOutrunTheCap`).
- A search call without an argument, such as `re.exec()`, on a receiver that derives nothing makes the
  reporter ask for the literal text of a node that is not there, and the scan throws. It finishes
  exactly when no such call is in the file (`ClassifierMatches`, `ArgumentlessSearchThrows`). So adding
  code can lose every match of a file, exactly when an added call is of that kind
  (`AdditionsThrowExactlyWhen`, `AddedSearchLosesTheMatch`).
- The queue bench says its probe keys keep samples apart and that nothing stands from one sample to the
  next. Each arm counts its own probes, so two arms share keys, and after a time-out a probe can be left
  waiting. The probe is evidence exactly when its key is clean as it is offered
  (`ProbeIsEvidenceExactlyWhen`, `TwoArmsCollide`).
- `build_source` accepts any commit count. It succeeds exactly from 50 commits on: below that the rare file's
  interval is 0 and the first commit divides by it, and with no commits there is no `main` to fork from
  (`BuildSource`).
- Registering a folder under an id that is in use breaks the separation of repository records, and a relink
  then leaves two records with one identity exactly when a twin record already holds it
  (`RelinkKeepsKeysExactlyWhen`, `TwinRecordsCollide`).
- Accepting a suggestion does not compare the task with the suggestion's source revision, so undoing it
  restores the task exactly when the accepted fields read on acceptance as when the suggestion was made
  (`AcceptThenUndo`, `UndoLosesAnEdit`).
- A comment on `items.put` says an omitted field keeps its stored value. Only the archive flag, the checklist
  and the links always do; an omitted due date, title or description does exactly when none is stored
  (`OmittedFieldsStayExactlyWhen`, `OmittedDueDateIsLost`).
- The reply to a partial merge says to run the same merge again to finish it. The first run has raised the
  target's revision, so the same merge is always refused (`SameMergeAgainIsRefused`). A merge that names a
  missing card fails, and leaves the store alone exactly when nothing before it is written and that card
  is not marked deleted by the failure itself (`FailedMergeLeavesStoreExactlyWhen`,
  `FailedMergeMarksTheMissing`).
- The session's boxes are said to be drawn and later erased and redrawn. Lines printed in between move the
  redraw off the box: it rewrites the lines of its box exactly when none are
  (`BoxIsRedrawnInPlaceExactlyWhen`, `PrintedLineMissesTheBox`).

## Model

| member | source | states |
|---|---|---|
| TaintRules.Unwrapped | scripts/error-classifier-scan.ts:59-66 | what is left is no parenthesis, cast or assertion, and is a part of the node |
| TaintRules.DerivesByMention | scripts/error-classifier-scan.ts:109-132 | an expression derives from an error on a base fact or because one single mentioned name is tainted, never on a combination |
| RulePasses.PassMonotone | scripts/error-classifier-scan.ts:133-165 | a pass from a larger set derives at least as much |
| RulePasses.ChainIsFollowed | scripts/error-classifier-scan.ts:157-165 | a derivation chain is followed up to its last declaration by the time that declaration is visited in the pass numbered by the chain's backward steps |
| RulePasses.DerivedIsExplained | scripts/error-classifier-scan.ts:157-165 | nothing is derived at any point of any pass without a chain that short |
| RulePasses.PassesFollowChains | scripts/error-classifier-scan.ts:157-165 | after p passes exactly the names with a chain of fewer than p backward steps are tainted |
| RulePasses.QuietPassIsFinal | scripts/error-classifier-scan.ts:164 | the early break loses nothing: after a quiet pass all further passes are quiet |
| RulePasses.QuietPassIsLeastFixpoint | scripts/error-classifier-scan.ts:106-165 | after a quiet pass the tainted names are exactly the reachable ones and the least set closed under the declarations |
| RulePasses.UncappedLoopEnds | scripts/error-classifier-scan.ts:157-165 | without the cap the loop ends within as many passes as there are names to bind, plus the quiet one |
| RulePasses.SaturatedIsLeastFixpoint | scripts/error-classifier-scan.ts:106-107 | the uncapped result is reachability and the least closed set |
| RulePasses.FixpointIgnoresOrder | scripts/error-classifier-scan.ts:106-165 | the fixpoint depends neither on the order nor on repetitions of declarations |
| RulePasses.CapLosesExactly | scripts/error-classifier-scan.ts:157 | a name of the fixpoint is missed by p passes exactly when all its chains step back at least p times |
| TaintLimits.ScanIsCompleteExactlyWhen | scripts/error-classifier-scan.ts:106-165 | the capped scan of a file reaches the fixpoint if and only if every reachable name has a chain of fewer than eight backward steps |
| TaintLimits.BackwardDeclarationsOutrunTheCap | scripts/error-classifier-scan.ts:133-165 | n declarations written last use first: the scan taints the first eight and the fixpoint holds all n |
| TaintAdditions.AddingNodesKeepsMatches | scripts/error-classifier-scan.ts:109-254 | adding nodes to any list of children, statements or clauses loses no tainted name after any number of passes, cap included; if the scan of a file finishes, the scan of the larger file answers with all its matches if and only if it finishes too |
| TaintAdditions.NodesHavePlaces | scripts/error-classifier-scan.ts:211-253 | every node of a file has a place in the walk of the larger file, in the same order |
| TaintAdditions.MatchesKeepTheirPlaces | scripts/error-classifier-scan.ts:211-253 | a node reported in a file is reported at its place in the larger file |
| TaintAdditions.AdditionsThrowExactlyWhen | scripts/error-classifier-scan.ts:211-253 | additions keep a scan from finishing if and only if an added node, wherever the old ones are placed, is an argumentless search on a receiver that derives nothing in the larger file |
| TaintAdditions.AddedSearchLosesTheMatch | scripts/error-classifier-scan.ts:214-218 | the input: a search of a message is reported alone and not answered once an argumentless search is added |
| TaintAdditions.AddingNodesThrowsNoMore | scripts/error-classifier-scan.ts:214-218 | what is added elsewhere never makes an existing call throw |
| TaintLimits.ArgumentlessSearchThrows | scripts/error-classifier-scan.ts:215-218 | a search call without argument on a name that says nothing keeps the scan from finishing |
| TaintWrappers.BareScan | scripts/error-classifier-scan.ts:59-73 | the program without its wrappers has the same tainted names, finishes as well, and reports the same nodes without wrappers |
| TaintWrappers.WrappersDoNotMatter | scripts/error-classifier-scan.ts:59-73 | programs that differ in wrappers only are tainted and reported alike, in the same order |
| TaintRules.ReportsEachQualifyingNodeOnce | scripts/error-classifier-scan.ts:170-176 | each qualifying node of the walk is reported once, in walk order |
| TaintReports.DerivesExactlyWhenHoldsText | scripts/error-classifier-scan.ts:109-132 | a value derives from an error if and only if it holds an error's text: a path of holding parts leads from it to a tainted or message-like name, a `.message` member, or `String(..)` and `formatError(..)` |
| TaintReports.AmongAnswers | scripts/error-classifier-scan.ts:211-254 | the answer's nodes are the reported nodes of the walk |
| TaintReports.CallIsAnsweredExactlyWhen | scripts/error-classifier-scan.ts:212-237 | a call is answered if and only if it is one of a method, dotted or by a literal key, that searches a text or for a phrase, tries a pattern on a text, or is called through on a text |
| TaintReports.ComparisonIsAnsweredExactlyWhen | scripts/error-classifier-scan.ts:196-246 | a binary expression is answered if and only if its operator is one of the four equalities and one side classifies or empties the other |
| TaintReports.SwitchIsAnsweredExactlyWhen | scripts/error-classifier-scan.ts:247-250 | a switch is answered if and only if its subject holds a text and some case is a literal |
| TaintReports.OnlyTheseAreAnswered | scripts/error-classifier-scan.ts:211-254 | nothing but calls, binary expressions and switches of the file is answered |
| TaintReports.ComparedTextIsAnswered | scripts/error-classifier-scan.ts:240-246 | an error's text compared with a nonempty string by any of the four operators, either way round, is answered |
| TaintReports.AnsweredExactlyWhen | scripts/error-classifier-scan.ts:215-218 | a file is answered if and only if it has no search call without an argument on something that holds no text |
| TaintNames.WalkReachesParts | scripts/error-classifier-scan.ts:154-163 | the walk starts at the root and reaches every part of every node it reaches |
| TaintNames.BoundNamesAre | scripts/error-classifier-scan.ts:75-91 | a pattern binds exactly the names that stand in it |
| TaintNames.MemberNamesAre | scripts/error-classifier-scan.ts:75-91 | for one member it binds exactly the names taken from that member |
| TaintNames.RuleGives | scripts/error-classifier-scan.ts:133-147 | a declaration adds a name if and only if it binds it from `message` or its initializer holds an error's text |
| TaintNames.TextTaints | scripts/error-classifier-scan.ts:148-165 | a caught name is tainted, and so after one more pass is a name given a tainted text |
| TaintNames.TaintedNamesHoldText | scripts/error-classifier-scan.ts:106-165 | nothing else is tainted: every tainted name is caught or given a text by a declaration of the file |
| TaintNames.EightPasses | scripts/error-classifier-scan.ts:157 | the scan makes eight passes |
| Syntax.PreorderUnfolds | scripts/error-classifier-scan.ts:159-163 | the walk visits a node and then its children's walks in order |
| TaintScan.Unwrap | scripts/error-classifier-scan.ts:59-66 | the loop peels every wrapper |
| TaintScan.BindingNames | scripts/error-classifier-scan.ts:75-91 | appends the names a pattern binds, of one property when asked, through nested patterns |
| TaintScan.Scan.NamesTainted | scripts/error-classifier-scan.ts:134-143 | the names a declaration adds are the effect of its rule on the tainted set |
| TaintScan.Scan.TaintVariable | scripts/error-classifier-scan.ts:133-147 | adds exactly the rule's effect in place and tells whether the set changed |
| TaintScan.Scan.Seed | scripts/error-classifier-scan.ts:148-156 | adds exactly the names bound by the catch clauses below a node |
| TaintScan.Scan.Walk | scripts/error-classifier-scan.ts:158-164 | the recursive walk is one in-place pass, and its flag is true exactly when the set grew |
| TaintScan.Scan.Visit | scripts/error-classifier-scan.ts:211-253 | finishes exactly when no call below throws, and then has pushed, in order, exactly the nodes that `TaintReports` characterises |
| TaintScan.Scan.ClassifierMatches | scripts/error-classifier-scan.ts:94-255 | the whole scan with its early break gives the eight-pass set, and the answer, which is nothing when it throws |
| WorkbenchRuns.ReceiptStep | harness/tasksChecks.js:139-488 | for every request but the merge: an answered id is answered again without change, a new answer is filed, nothing else touches receipts, and a refusal changes nothing |
| WorkbenchRuns.ReceiptsStay | harness/tasksChecks.js:83 | a receipt stays and keeps its answer over every run |
| WorkbenchRuns.LaterAttemptsRepeatTheAnswer | harness/tasksChecks.js:423-488 | after an answered attempt every later attempt with its id gets the same answer and leaves the whole store, whatever came between |
| WorkbenchRuns.AtMostOneAttemptChanges | harness/tasksChecks.js:423-488 | of all attempts with one id at most one changes the store |
| WorkbenchRuns.CleanAnswerIsTheCommit | harness/tasksChecks.js:423-488 | over a channel that loses or corrupts replies, the first clean answer is that of the one attempt that did the work |
| WorkbenchRuns.StepWritesOneTask | harness/tasksChecks.js:307-488 | every request but the merge writes at most its own task, from the revision its sender saw to the next |
| WorkbenchRuns.RevisionsCountWrites | harness/tasksChecks.js:307-488 | over every run of such requests a task's revision rises by exactly the number of its committed writes |
| WorkbenchRuns.NoLostUpdate | harness/tasksChecks.js:307-488 | of two writers who saw one revision of a task at most one commits |
| WorkbenchRuns.RunKeepsStamps | harness/tasksChecks.js:61-62 | over every run a task carries a completion time exactly while it is Done |
| WorkbenchSaves.StepKeepsTimes | harness/tasksChecks.js:61-62 | the time is that of the save that made the task Done, and every request that leaves it Done keeps it |
| WorkbenchSaves.CompletionTimeStays | harness/tasksChecks.js:61-62 | while a task stays Done its time stays the same over every run |
| WorkbenchSaves.OmittedFieldsStayExactlyWhen | harness/tasksChecks.js:478-483 | a save that omits the archive flag, checklist or links keeps them; one that omits the due date, title or description keeps it if and only if none is stored |
| WorkbenchSaves.OmittedDueDateIsLost | harness/tasksChecks.js:478-483 | the input: two saves from the empty store, the second of which drops the due date it does not name |
| WorkbenchEffects.SaveGuards | harness/tasksChecks.js:476-479 | a new save is refused exactly for a revision other than the stored one, 0 for none, and then for naming the completion time |
| WorkbenchEffects.SaveStoresTheDraft | harness/tasksChecks.js:478-484 | a save stores and answers one task: each field of the draft under its own name, the archive flag, checklist and links as sent, false and empty on a new task that omits them, updated at 2, one revision on |
| WorkbenchEffects.DeleteEffect | harness/tasksChecks.js:423-436 | a delete goes through exactly for a held, unmarked task at the seen revision, marks it, raises and stamps it; any other is a revision conflict |
| WorkbenchEffects.RestoreEffect | harness/tasksChecks.js:455-467 | a restore is refused as not found, not deleted or changed, in this order, and otherwise takes the mark off, raises and stamps the task |
| WorkbenchEffects.CreateEffect | harness/tasksChecks.js:348-350 | a new suggestion is pending at revision 1 with the task as it is for its source |
| WorkbenchEffects.StaleSuggestion | harness/tasksChecks.js:352 | any other request on a suggestion that is missing or changed is a revision conflict |
| WorkbenchEffects.GenerateEffect | harness/tasksChecks.js:353-354 | generating sets it running, one revision on |
| WorkbenchEffects.CompleteEffect | harness/tasksChecks.js:355-368 | a completion fails it with the reason sent, is refused unless it sends exactly the requested fields, and otherwise makes it ready with them |
| WorkbenchEffects.DismissEffect | harness/tasksChecks.js:338-369 | a dismissal meets a refinement of that id first; a running suggestion is asked to stop and any other is dismissed |
| WorkbenchEffects.WriteGuards | harness/tasksChecks.js:370-375 | accept and undo are refused exactly for another task revision and fail exactly without the task, the accepted fields or the proposed texts |
| WorkbenchSuggestions.OnlySelectedFieldsChange | harness/tasksChecks.js:370-377 | accept and undo write the selected fields from the suggestion or its snapshot and no other field |
| WorkbenchSuggestions.UndoGoesThrough | harness/tasksChecks.js:352-380 | an undo under current revisions of an accepted suggestion always commits |
| WorkbenchSuggestions.AcceptThenUndo | harness/tasksChecks.js:345-380 | accept and a later undo, with any requests in between that leave the task and the suggestion alone, goes through, restores the task up to two revisions if and only if the accepted fields still equalled the snapshot, and touches no other task |
| WorkbenchSuggestions.UndoLosesAnEdit | harness/tasksChecks.js:345-380 | the input: a run from the empty store in which an edit made before accepting is gone after undoing |
| WorkbenchSuggestions.RunKeepsProposalKeys | harness/tasksChecks.js:346-379 | over every run suggestions stay stored under their own ids |
| WorkbenchRepositories.RegisterKeepsIdentities | harness/tasksChecks.js:139-149 | registering keeps identity keys apart, and record ids exactly when the id was unused or nothing was added |
| WorkbenchRepositories.RelinkEffect | harness/tasksChecks.js:154-170 | a relink removes only the other, unlinked holder of the identity and keeps the relinked record's id |
| WorkbenchEffects.RegisterEffect | harness/tasksChecks.js:139-149 | a folder some record has is answered with one, and any other is added under the given id with its last part for a name, or not, as asked |
| WorkbenchEffects.RelinkGuards | harness/tasksChecks.js:157-162 | a relink is refused for an unknown record, then for a changed one, then when a task links the first other record of the new identity, and not otherwise |
| WorkbenchEffects.RelinkWrites | harness/tasksChecks.js:160-169 | a relink takes out the first other record of the identity and rewrites the record in its place with the new name and identity, one revision on |
| WorkbenchRepositories.RelinkKeepsKeysExactlyWhen | harness/tasksChecks.js:154-170 | a relink keeps identity keys apart if and only if no twin record already holds the new identity |
| WorkbenchRepositories.TwinRecordsCollide | harness/tasksChecks.js:142-165 | a run from the empty store that registers two folders under one id and relinks ends with two records of one identity |
| WorkbenchRepositories.RunKeepsIdentities | harness/tasksChecks.js:139-170 | over every run that registers under unused ids, ids and identity keys stay apart |
| WorkbenchRepositories.LinksKeepPointing | harness/tasksChecks.js:139-170 | registering and relinking leave every task link pointing at a record |
| WorkbenchRepositories.StepKeepsLinksExactlyWhen | harness/tasksChecks.js:139-488 | a request leaves all links pointing at records if and only if it is no save that names a record there is none of |
| WorkbenchRepositories.RunKeepsLinks | harness/tasksChecks.js:139-488 | over every run whose saves name registered records, every link of every task points at one |
| WorkbenchMerge.MergedExactlyWhen | harness/tasksChecks.js:441-454 | a merge onto a card at the revision its sender saw is answered if and only if every source is held |
| WorkbenchMerge.MergeEffect | harness/tasksChecks.js:445-453 | an answered merge deletes the sources that are not stuck, raises every card by as often as it was written, extends the target, reports row by row and changes nothing else |
| WorkbenchMergeEffects.MergeAnswers | harness/tasksChecks.js:445-453 | the target's description gains a heading for each merged source in order, its revision rises by one and by its own writes, nothing else on it changes, and the answer names it with its new revision and each source's title and revision as they were reached |
| WorkbenchMerge.SameMergeAgainIsRefused | harness/tasksChecks.js:451-453 | after any answered merge, partial or not, the same merge is refused |
| WorkbenchMerge.FailedMergeLeavesStoreExactlyWhen | harness/tasksChecks.js:445-450 | a merge that fails on a missing source leaves the store if and only if every source before it is stuck and it is itself stuck or marked deleted already |
| WorkbenchMerge.FailedMergeMarksTheMissing | harness/tasksChecks.js:445-450 | the input: a merge that names a card nobody holds fails and marks that card deleted |
| WorkbenchMerge.MergeKeeps | harness/tasksChecks.js:441-454 | answered, refused or failed, a merge touches cards and marks only, and keeps ids apart and completion times right |
| WorkbenchReviews.HeldAfter | harness/tasksChecks.js:92-94 | after reviewing the first m related tasks a client is held up by the next 25, and by none exactly when all are reviewed |
| WorkbenchReviews.ReviewRound | harness/tasksChecks.js:315-331 | the k-th request is refused exactly while k is below the number of pages, with the next page |
| WorkbenchReviews.FiledOnce | harness/tasksChecks.js:324-332 | after any answer naming an item every later filing of that fingerprint answers with the same item and changes nothing |
| WorkbenchReviews.NewCriteriaAreNew | harness/tasksChecks.js:319 | the added criteria are exactly the nonempty proposed ones not held, each once |
| WorkbenchReviews.ApplyExtendsCriteria | harness/tasksChecks.js:307-323 | applying criteria extends the list by exactly what it lacked |
| WorkbenchEffects.RefineEffect | harness/tasksChecks.js:296-306 | a refinement is numbered after those there are, ready at revision 2, and holds what was proposed |
| WorkbenchEffects.ApplyRefusals | harness/tasksChecks.js:309-314 | an apply is refused for a locked field when everything else is in order, and otherwise as a revision conflict or a failure |
| WorkbenchEffects.ApplyHeldUp | harness/tasksChecks.js:315-318 | a split with related tasks unreviewed changes nothing and names the first part and the tasks |
| WorkbenchEffects.ApplyEffect | harness/tasksChecks.js:319-322 | any other apply accepts the refinement and changes the task in nothing but its revision and, when selected, its criteria |
| WorkbenchEffects.FileEffect | harness/tasksChecks.js:324-332 | a filed fingerprint answers its item; another is held up by unreviewed tasks, or filed under its own item |
| WorkbenchReads.HeldByTheFirst | harness/tasksChecks.js:92-94 | whatever was reviewed, a request is held up by the first 25 related tasks that were not, in order, and by all of them when they are fewer |
| WorkbenchReads.CriteriaAreTrimmed | harness/tasksChecks.js:319 | criteria are stored without the blanks around them and otherwise as proposed |
| WorkbenchPages.ComparatorIsTotal | harness/tasksChecks.js:396-401 | the comparator is a strict total order on tasks with distinct ids, in all three orders |
| WorkbenchPages.SortedIsOrdered | harness/tasksChecks.js:390-401 | sorting gives an ordered permutation |
| WorkbenchPages.OrderIsUnique | harness/tasksChecks.js:390-401 | there is one ordered arrangement only, so any correct sort gives this list |
| WorkbenchPages.ListingIsExact | harness/tasksChecks.js:384-406 | a listing holds exactly the matching tasks, each once, in order |
| WorkbenchReads.ListedExactlyWhen | harness/tasksChecks.js:390 | a task is listed if and only if its mark is the one asked for and it passes every filter that is set |
| WorkbenchReads.ListedInOrder | harness/tasksChecks.js:396-401 | lists run by rising position, latest completion or latest update, and by id between equals |
| WorkbenchReads.EarlierExactlyWhen | harness/tasksChecks.js:397 | ids are compared at the first character in which they differ |
| WorkbenchReads.PageTells | harness/tasksChecks.js:137 | a page holds the next items up to its limit, counts itself and the whole, and has a cursor to its end exactly when there are more |
| WorkbenchPages.FollowCursor | harness/tasksChecks.js:137 | following the cursor reads exactly the list in ceil(total / limit) reads, one for an empty list |
| WorkbenchPages.ReadListing | harness/tasksChecks.js:384-406 | a client that follows the cursor of a list request gets each matching task once, in order, in that many reads |
| WorkbenchPages.ZeroLimitNeverAdvances | harness/tasksChecks.js:137 | with a limit of zero the cursor never leaves the start |
| WorkbenchLineage.DoneWithinTotal | harness/tasksChecks.js:274-279 | done never exceeds total and equals it exactly when no live child is open |
| WorkbenchLineage.TotalsAreConserved | harness/tasksChecks.js:270-282 | summed over live cards the totals are the number of live children with a live parent |
| WorkbenchLineage.TotalsShiftByOne | harness/tasksChecks.js:423-467 | deleting or restoring a child shifts its live parent's total by one and its done count by one if the child is Done, and no other card's |
| WorkbenchLineage.ReadLineage | harness/tasksChecks.js:270-282 | one entry for every named live card, with its parent and counts |
| WorkbenchReads.LineageCounts | harness/tasksChecks.js:270-282 | the counts are the sizes of the sets of held children and of those that are done, and the parent is named exactly while it is held |
| Workbench.Handler.Put | harness/tasksChecks.js:468-488 | the in-place save is the save step on the whole store, which `SaveGuards` and `SaveStoresTheDraft` give field by field |
| Workbench.Handler.Delete | harness/tasksChecks.js:423-436 | the in-place delete is the delete step |
| Workbench.Handler.Restore | harness/tasksChecks.js:455-467 | the in-place restore is the restore step, with its three refusals |
| Workbench.Handler.Enhance | harness/tasksChecks.js:338-383 | create, generate, complete, accept, undo and dismiss in place are the suggestion step, given field by field by the effects above |
| Workbench.Handler.Refine | harness/tasksChecks.js:296-306 | a refinement with its criteria and splits is filed under the next id |
| Workbench.Handler.Apply | harness/tasksChecks.js:307-323 | applying a refinement in place is the apply step, with its refusals and the failure on a held-up split without parts |
| Workbench.Handler.File | harness/tasksChecks.js:324-332 | filing in place is the filing step |
| Workbench.Handler.Register | harness/tasksChecks.js:139-149 | registering in place is the register step |
| Workbench.Handler.Relink | harness/tasksChecks.js:154-170 | relinking in place, with the displaced holder spliced out, is the relink step |
| Workbench.Handler.Serve | harness/tasksChecks.js:139-170 | the modelled requests (register, relink, and 296-383 and 423-488 but for the merge) in place: each is the store's step, honours the receipts, writes one task at most and keeps completion times |
| Workbench.Handler.WriteSources | harness/tasksChecks.js:445-450 | the sources are written in place one by one, and a failure leaves those before it written |
| Workbench.Handler.Merge | harness/tasksChecks.js:441-454 | the in-place merge is the merge step, failures half way included |
| Workbench.Handler.FileAnyway | harness/tasksChecks.js:3817-3832 | a client that adds each refusal's list to its reviewed ids is refused once per page of 25 with 0, 25, 50 and so on reviewed, then succeeds; a filed fingerprint answers at once |
| Workbench.FilterCriteria | harness/tasksChecks.js:319 | the loop keeps each new criterion at its first place |
| FastImport.Stream | src-tauri/benches/commit_graph_history.rs:91-112 | the loop prints the stream text, with `from` on the first commit only |
| FastImport.ReadCommitBack | src-tauri/benches/commit_graph_history.rs:93-110 | a printed commit reads back as itself and leaves what follows |
| FastImport.StreamReadsBack | src-tauri/benches/commit_graph_history.rs:91-112 | a printed stream reads back as its commits, parents, paths and contents, whatever bytes they hold, and what follows reads as if alone |
| HistoryBuild.MainCommitExists | src-tauri/benches/commit_graph_history.rs:114-131 | a commit can be made unless it is the first and no commit is rare |
| HistoryBuild.ChunkExtendsMain | src-tauri/benches/commit_graph_history.rs:146-152 | importing the printed stream of a chunk extends `main` from lo to hi commits of the linear chain |
| HistoryBuild.BranchesComplete | src-tauri/benches/commit_graph_history.rs:153-175 | importing the concatenated branch streams adds the twenty branches on their fork points and nothing else |
| HistoryBuild.BuildMain | src-tauri/benches/commit_graph_history.rs:144-152 | the chunk loop leaves the single linear chain on `main` for any chunk size; `HistoryContents` says what its commits hold |
| HistoryBuild.PrintBranches | src-tauri/benches/commit_graph_history.rs:153-174 | the branch loop prints the branch streams from the resolved fork points |
| HistoryBuild.BuildSource | src-tauri/benches/commit_graph_history.rs:138-177 | succeeds if and only if there are 50 commits or more, and then the repository is the chain and the branches, whose commits `HistoryContents` spells out |
| HistoryContents.MainHoldsItsCommits | src-tauri/benches/commit_graph_history.rs:114-131 | in a built repository the commit with message i of `main` holds src/dXX/fYYY.txt, YYY reading i % 200 and XX i % 200 % 20, with `rev i` and eight filler lines, and rare/target.txt if and only if N / 50 divides i, with forty lines of which only line (i / (N / 50)) % 40 carries i |
| HistoryContents.RareCommitsAreSpread | src-tauri/benches/commit_graph_history.rs:20-21 | ceil(N / (N / 50)) commits touch the rare file, which is 50 whenever 50 divides N |
| HistoryContents.BranchHoldsItsCommits | src-tauri/benches/commit_graph_history.rs:153-174 | each branch bNN is three commits, numbered on from N, each with its own line in branch/bNN.txt, on the commit of `main` (b + 1) * (N / 40) behind its tip |
| HistoryContents.OnlyMainAndBranches | src-tauri/benches/commit_graph_history.rs:138-177 | a built repository has `main`, the twenty branches and no other ref |
| HistoryBuild.ChunksRefineOneImport | src-tauri/benches/commit_graph_history.rs:145-152 | chunks of any size give the refs that one import gives |
| HistoryBuild.BranchAheadAndBehind | src-tauri/benches/commit_graph_history.rs:154-168 | each branch is exactly 3 commits ahead of `main` and (b + 1) * (N / 40) behind it |
| HandlerList.HandlerCommands | src-tauri/build_support/app_commands.rs:10-39 | the nested loops give the registered commands, or the first failure in the code's order |
| HandlerList.FirstPlacesKeepOrder | src-tauri/build_support/app_commands.rs:32-34 | the result holds exactly the names read, once each, in order of first appearance |
| HandlerList.UnreadableEnds | src-tauri/build_support/app_commands.rs:28-31 | the first unreadable entry decides the whole list |
| HandlerList.EntryReadsBack | src-tauri/build_support/app_commands.rs:24-27 | an entry with any path and spaces around it reads as its name, readable or not, and a blank one as nothing |
| HandlerList.ListReadsBack | src-tauri/build_support/app_commands.rs:10-39 | a list written with any paths, layout, blank entries and comments reads back as its names at their first places, one without repeats as itself, and one without names is refused |
| HandlerList.ListStops | src-tauri/build_support/app_commands.rs:28-31 | the first entry with anything but ASCII letters, digits and underscores in its name stops the reading, and is named as it is written |
| HandlerList.ListIsMissingExactlyWhen | src-tauri/build_support/app_commands.rs:11-20 | the list is missing exactly when the marker does not occur, and unclosed exactly when its end does not occur after the first marker |
| AlertsQueue.ProbeKeysCollideExactly | src-tauri/benches/alerts_worker_throughput.rs:124-126 | probe keys are equal exactly for equal numbers and never a session's key |
| AlertsQueue.NextKeepsInv | src-tauri/benches/alerts_worker_throughput.rs:92-164 | every event keeps the bench's invariant |
| AlertsQueue.TakenAndWaitingIsAccepted | src-tauri/benches/alerts_worker_throughput.rs:30-36 | over every interleaving taken and then waiting is accepted, in order, with at most 64 waiting |
| AlertsQueue.StandingProbeIsEvidence | src-tauri/benches/alerts_worker_throughput.rs:118-148 | over every interleaving a standing probe whose number no sample timed out on was taken, with everything accepted before it |
| AlertsQueue.ProbeIsEvidenceExactlyWhen | src-tauri/benches/alerts_worker_throughput.rs:118-148 | no schedule deceives a sample if and only if its probe's key is clean as it is offered, whether or not the queue is full then |
| AlertsQueue.NumbersRisePerArm | src-tauri/benches/alerts_worker_throughput.rs:150-155 | two samples of one arm never share a number |
| AlertsQueue.TwoArmsCollide | src-tauri/benches/alerts_worker_throughput.rs:150-187 | for every number of notices a sample has, a run in which a time-out in one arm makes the other arm's probe answer 1 untaken |
| AlertsQueue.AlertQueue.TryOffer | src-tauri/benches/alerts_worker_throughput.rs:97-104 | a notice is folded into a waiting one, refused, appended, or turned away for lack of room, and only appending changes the queue |
| AlertsQueue.AlertQueue.Work | src-tauri/benches/alerts_worker_throughput.rs:118-122 | the worker takes from the head as many as it may and there are; `TakenInOrder` says what that leaves |
| AlertsQueue.TakenInOrder | src-tauri/benches/alerts_worker_throughput.rs:118-122 | a stretch of takes moves that many notices from the head of the queue, in order, or all of them, and a key stands after it if and only if a question with it was taken, or it stood, and no later notice taken ended it |
| AlertsQueue.SampleNoticesRepeat | src-tauri/benches/alerts_worker_throughput.rs:74-88 | the notices of a sample go round the 64 sessions and are no questions |
| AlertsQueue.AlertQueue.RunSample | src-tauri/benches/alerts_worker_throughput.rs:92-108 | each attempt finds what the takes left of the queue before it, is queued exactly when fewer than 64 wait, and is made again exactly after a full queue; the numbers queued are accepted in order, every attempt at a full queue is a retry, and the first outright refusal is a panic and nothing else is |
| AlertsQueue.AlertQueue.Drained | src-tauri/benches/alerts_worker_throughput.rs:123-148 | the probe is accepted exactly when the first turn that folds it or finds room queues it; the answer is 1 exactly when a later look finds its key standing, and with a clean key exactly when the turns from then to the last look take everything that waited and the probe, which gives that everything accepted before was taken; the key does not stand after an answer of 1 |
| AlertsQueue.LookStandsExactlyWhen | src-tauri/benches/alerts_worker_throughput.rs:134-147 | with a clean key a look finds the probe standing if and only if it was queued and enough has been taken since |
| XorShift.StepIsUndone | harness/glassGhost.ts:73-78 | the generator's step can be undone, so it permutes the states, and it never reaches zero |
| XorShift.StepReaches | harness/glassGhost.ts:73-78 | every state follows a state, and every nonzero one a nonzero one |
| XorShift.ScaledReaches | harness/glassGhost.ts:91 | every value of a range narrower than the span is the share of a nonzero number |
| XorShift.WholeSpanReaches | harness/glassGhost.ts:91 | over the whole span each value is the share of one number only, and the low end of zero |
| XorShift.SpreadStays | harness/glassGhost.ts:92-94 | capped colours stay in range and reach both its ends |
| XorShift.Rng.constructor | harness/glassGhost.ts:71-72 | the seed is scrambled to a nonzero state |
| XorShift.Rng.Int | harness/glassGhost.ts:73-91 | one step, and the share of the range the new state has reached, never outside the range |
| XorShift.Rng.Col | harness/glassGhost.ts:92-94 | the colour the state gives, in range, one of the `distinct` ones when that is positive |
| XorShift.FirstNumbers | harness/glassGhost.ts:71-78 | the first numbers of seeds 0 and 42, as literals |
| XorShift.ScaledIsFloor | harness/glassGhost.ts:91 | the share of a range is rounded down |
| XorShift.SpreadIsFloor | harness/glassGhost.ts:94 | capped colours are laid out evenly, rounded down |
| Terminal.FeedAppends | harness/glassGhost.ts:107-138 | writing two sequences of tokens one after the other is writing them together |
| Terminal.DownwardGoesDown | harness/glassGhost.ts:106-132 | text, colours, line ends and erasing never move the cursor up, and each line end moves it down to the bottom row at most |
| Terminal.EraseClears | harness/glassGhost.ts:117-118 | the erase loop clears exactly the box's rows and ends on the last |
| Terminal.LinesFill | harness/glassGhost.ts:120 | the new lines fill exactly those rows and end below them |
| Terminal.RedrawIsExact | harness/glassGhost.ts:117-121 | a redraw rewrites exactly the box's rows above the cursor, returns to its row, scrolls nothing and is not cut short |
| Workload.DrawFills | harness/glassGhost.ts:112-115 | drawing a box leaves its lines on the rows above the cursor, scrolling or not |
| Workload.SpinnerReturns | harness/glassGhost.ts:123-125 | the spinner puts the cursor back and, when its text fits, changes the first row only |
| Workload.TripReturns | harness/glassGhost.ts:133-138 | a trip to the alternate screen leaves no trace |
| Workload.SessionStaysInStep | harness/glassGhost.ts:97-142 | between the operations of every session the height is 0 or 3 to 6, the cursor stands at a line start with that many rows above, and no move was ever cut short |
| Workload.EveryRedrawIsExact | harness/glassGhost.ts:116-121 | every redraw of every session replaces exactly its box's rows and brings the cursor back |
| Workload.DrawnBoxIsReplaced | harness/glassGhost.ts:111-122 | a redraw right after a draw replaces the box itself |
| Workload.BoxIsRedrawnInPlaceExactlyWhen | harness/glassGhost.ts:101-141 | between a draw and its redraw the place stays if and only if no lines are printed; then the screen is as the draw left it below the first row, and a box below that row is met whole |
| Workload.PrintedLineMissesTheBox | harness/glassGhost.ts:109-121 | the input: one line between a draw and its redraw, and the redraw rewrites other lines |
| Workload.TailLeavesShape | harness/glassGhost.ts:143-150 | the tail sets exactly its rows from wherever the session ends, and nothing scrolls |
| Workload.ShapeRows | harness/glassGhost.ts:143-150 | the erased rows are blank, the plain texts begin their rows, the painted rows read their texts, and every other row is as it was |
| WorkloadShapes.TokensAreWritten | harness/glassGhost.ts:106-138 | an operation writes exactly the tokens of its kind: box lines in their two colours, rows cleared and lines rewritten between two moves up, the spinner between saving and restoring the cursor, a trip between the two switches |
| WorkloadShapes.TailIsWritten | harness/glassGhost.ts:145-149 | the tail is 38 tokens: eleven rows cleared, two plain rows, two in a hunk's colours, and the cursor hidden |
| WorkloadGenerator.Words | harness/glassGhost.ts:81-95 | the words the state gives, joined by spaces, short enough that box lines fit a row |
| WorkloadGenerator.Hunk | harness/glassGhost.ts:103-108 | the hunk the state gives: three to nine lines, all colours bytes, nothing that moves up |
| WorkloadGenerator.PlainOp | harness/glassGhost.ts:102-132 | the operation the draw calls for: a hunk below 3 tenths, prose below 5, the box below 7, the spinner below 85 hundredths, coloured prose from there, each in its literal shape, with the height it leaves |
| WorkloadGenerator.BoxOp | harness/glassGhost.ts:111-122 | draws a box of the drawn height, or redraws the one on screen at its own height |
| WorkloadGenerator.NextOp | harness/glassGhost.ts:101-140 | each operation is the one the generator's next number calls for and extends the balanced session; at 97 hundredths and above a trip ends one frame and starts the next |
| WorkloadGenerator.WriteFrames | harness/glassGhost.ts:96-142 | the frames are those of the seed, cut from a balanced session, one extra for each trip; every operation is the one its draw calls for, and the draws are numbers of the generator in order |
| WorkloadGenerator.WriteTail | harness/glassGhost.ts:143-150 | the tail the state gives: five words on each of its rows, behind "plain" on the plain ones, written token by token as the code lists them |
| WorkloadGenerator.Generate | harness/glassGhost.ts:70-152 | for every seed and frame count: the frames of a balanced session, each of whose operations is the one called for by its draw, a number of the generator, in order, and writes its tokens; and the tail, which leaves its shape, with every colour a byte |
| Histories.NamesDiffer | src-tauri/benches/graph_diff.rs:78-90 | commit names differ unless kind and number are equal, and none is the root's |
| Histories.Linear | src-tauri/benches/graph_diff.rs:62-73 | children before parents, unique ids, no merge, each commit c0, c1 and so on on the next |
| Histories.MergeHeavy | src-tauri/benches/graph_diff.rs:75-92 | the six named commits of every cycle at their places, the newest cycle first, and the root; children before all parents, unique ids, one merge a cycle |
| Histories.HistoryHoldsItsCycles | src-tauri/benches/graph_diff.rs:75-92 | cycle i is t, e, d, dp, m and f with that number and their parents, the merge on the one before it or the root |
| Histories.HistoryIsOrdered | src-tauri/benches/graph_diff.rs:77-91 | every parent is listed after its child, for every cycle count |
| Histories.HistoryIsUnique | src-tauri/benches/graph_diff.rs:77-91 | no id is listed twice |
| Histories.HistoryMerges | src-tauri/benches/graph_diff.rs:87 | exactly one merge per cycle |
| Decimal.PrintInjective | src-tauri/benches/commit_graph_history.rs:94-117 | different numbers print differently, padded or not |

## Left out

- TaintScan.Scan.ClassifierMatches: reports nodes, not the line and call text cut from the source; the `.svelte` extraction and the TypeScript parser are not part of this model.
- TaintRules.DerivesByMention: the three regular expressions are arbitrary predicates on text, and the type of a cast is kept as text, so nothing inside a type is walked.
- The length of a phrase is counted in characters of the model, not UTF-16 units.
- `workspaces.*`, `runs.*`, `scans.*`, `tasks.suggest` and the read-only requests: single lookups or writes without a receipt.
- WorkbenchRuns.CleanAnswerIsTheCommit: assumes what the handler does, one id per logical request; the flags that hold a reply are the channel's fate, and the flags that make a request fail before it reaches the store are left out, as are the logs of calls.
- WorkbenchSaves.OmittedFieldsStayExactlyWhen: a save names the status, the repositories, the criteria, the locked fields and the position; the task fields that only the board shows are not part of this model.
- WorkbenchPages.ListingIsExact: the text search is an arbitrary test on titles.
- WorkbenchPages.FollowCursor: for limits of at least 1; `ZeroLimitNeverAdvances` says what happens at 0.
- WorkbenchRepositories.RunKeepsIdentities: for registrations under unused ids, since `RegisterKeepsIdentities` shows that one under a used id breaks it.
- FastImport.StreamReadsBack: a character stands for a byte, and the reader knows the commands the bench prints, with one-line ref names and unquoted paths; the rest of the fast-import grammar is not part of this model.
- HistoryBuild.BuildSource: Git's object names are any function that tells objects apart; processes, files, configuration, cloning and the commit-graph itself are not part of this model.
- HandlerList.ListReadsBack: the written layouts put no carriage return inside spaces or paths.
- AlertsQueue.StandingProbeIsEvidence: numbers on which a sample timed out are shut out by `ProbeIsEvidenceExactlyWhen`, which has the exact condition.
- AlertsQueue.AlertQueue.RunSample: when an offer is folded or refused is the schedule's choice, and the clock is the end of the schedule.
- AlertsQueue.AlertQueue.Drained: a folded probe counts as taken, as a folded notice does in `run`; what `taken` answers for one is not shown.
- WorkbenchMerge.MergeEffect: merges are not among the requests of the runs, so `ReceiptStep` and the theorems on revisions speak of runs without them; `MergeKeeps` says what one leaves alone. A source carries no revision here, since the handler compares only the target's.
- Workload.BoxIsRedrawnInPlaceExactlyWhen: for spinner texts that fit a row, which the generated ones do for frame numbers of up to 78 digits.
- XorShift.Rng.constructor: seeds whose product with the multiplier is exact in a double.
- WorkloadGenerator.Generate: tokens stand for their escape sequences.
- Terminal.RedrawIsExact: colours have no effect on cells, so background erase shows as blank.
- The pixel comparison in `harness/glassGhost.ts` (`rowOf`, `differ`), WebGL and all rendering checks.
- The lane solver, the word diff and `line_pair`: the solver and the diff are not shown, and `line_pair` carries no property of its own.
