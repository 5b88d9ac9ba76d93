# ReviewGraph: a verified model

ReviewGraph runs reviewers over a pull request in stages, lets a human approve findings, and posts them as
one GitHub comment. Two side effects need care: the comment must be posted at most once, and live reviewer
calls must stay within a planned budget. This project models the code that decides both, together with the
diff parser, the pagination and the input budgets that feed it, and proves what that code guarantees.

- `Text`, `Marker`, `Bodies`, `Payload`: line endings and canonical text, the marker line with its two
  parsers (a matcher for the regular expression and the hand-written split), comment bodies, hashes, and the
  building and validating of a final payload.
- `Reconcile`, `Sightings`: the scans for earlier posts, the chain of pages that they follow, and what one comment
  does to their verdict.
- `Approval`, `FindingText`, `Granting`, `Finalization`, `Cascades`: the approved text, the approval proof and
  decision, the two preflights and the release cascade; and for each of these chains of checks exactly when it passes
  and what it reports otherwise.
- `Protocol`, `Delivery`, `Instances`: runs of posting attempts over a comment log, the way from an approval to its
  post, and attempts that do post.
- `Stages`, `ReviewLoop`, `Endings`, `Orderly`, `Visiting`, `ReviewerRuns`: the stage cursor, the review loop with
  its clarifications, what each visit decides and how runs end, the order of events, the visits it makes, and the
  register of reviewer runs.
- `Admission`, `Spending`, `LiveRun`, `ResumeTargets`, `LiveLoop`: reviewer admission, the call ledger and the retry
  loop; the live run that selects, registers, admits and calls reviewers at each visit of the loop; the one input
  that can break its ledger; and loop and live run as one, with the requests read off the live results.
- `InputBudget`, `Utf8`, `BudgetMerge`: the trimming of files and memory, by bytes of UTF-8 (section 3 of RFC 3629);
  the merging of budgets.
- `LineBreaks`, `Ranges`, `Diff`, `HunkHeads`, `TaggedDiff`, `Anchors`: changed ranges from the text of unified diffs
  (the diff -u output format of POSIX.1, IEEE Std 1003.1), which heads and which patches parse, and anchors for
  findings.
- `Pages`, `PageChains`: cursor pagination, and the chain of pages that it follows.
- `Doubles`, `Timestamp`, `RoundedSeconds`: rounding to doubles; UTC timestamps (sections 5.6 and 5.7 and Appendix C
  of RFC 3339) with their day count; and what rounding does to their order and to the age window of an approval.

How to read it. A digest is any function whose outputs have the printed sha256 form; where a result needs that
two texts do not collide, the lemma says so for exactly the texts that are hashed. JSON encoding, redaction,
case folding, reviewer behaviour and provider replies are arbitrary functions. Where a program step is a loop
over mutable variables, the model has a method with that loop, proved equal to a specification function; the
lemmas are about that function. Where the program adds up doubles, `round` is any rounding to a nearest double,
whatever it does with ties; `Doubles.RoundingExists` gives one.

What the proofs show to be false of the code, with an input for each and the exact condition where one is named:

- stripping the trailing marker is not idempotent (`Bodies.StripNotIdempotent`); it is for exactly the texts that do
  not end in two markers with only empty lines between them (`Bodies.StripIdempotentIff`);
- coalescing ranges whose starts are out of order loses lines (`Ranges.UnsortedLosesCoverage`,
  `Ranges.CoalesceExactIff`);
- a second memory budget pass can drop more (`InputBudget.MemoryBudgetNotIdempotent`,
  `InputBudget.MemoryBudgetIdempotentIff`);
- a clarification answered during the last stage is opened for review and never reviewed
  (`ReviewLoop.AnswerInLastStageIsLost`); `Endings.EndingIsDecided` says from the requests and answers of that
  stage exactly when;
- a path that occurs twice among the changed files can lose a report of omitted bytes
  (`InputBudget.RepeatedPathLosesReport`, `InputBudget.ReportedBytesConservedIff`);
- seconds are not ordered before 1970 (`RoundedSeconds.OrderFailsBefore1970`, `RoundedSeconds.OrderedFromIff`,
  `RoundedSeconds.OrderedPairIff`), and the parser accepts negative times of day
  (`Timestamp.NegativeHourIsAccepted`);
- timestamps with long fractions collapse into the same seconds, as a nanosecond does in 2020
  (`RoundedSeconds.NanosecondIsLost`). From 1970 to the end of a year all timestamps with so many digits are told
  apart if and only if the year is at most `RoundedSeconds.LastYear` of the digits: 9999 for four digits, 4146 for
  five, 2241 for six, 1986 for seven, 1971 for eight, none for more (`RoundedSeconds.OrderedUntilIff`);
- a permission check a nanosecond too old is accepted (`RoundedSeconds.NanosecondTooOldIsAccepted`), and one exactly
  as old as allowed can be refused (`RoundedSeconds.ExactAgeIsRefused`). The window is exact for all timestamps with
  so many digits if and only if there are none (`RoundedSeconds.WindowIsExactIff`), and exact to a microsecond up to
  2105 whatever the fractions (`RoundedSeconds.WindowWithinMicrosecond`);
- a patch whose body line holds a form feed is refused (`Diff.FormFeedIsRefused`, `Diff.TextReadsBackIff`);
- two interleaved posting attempts for one pair both post (`Instances.TwoInterleavedAttemptsPost`). An attempt adds
  a marker if and only if its gates pass, it had a whole listing to read, and the log that it scanned, whatever was
  posted since, lacks the pair and any malformed trusted marker (`Protocol.StaleScanAddsIff`);
- a clarification that names a resume target twice is run twice under one registration, and the second run calls the
  provider without a reservation (`ResumeTargets.RepeatedTargetCallsUnreserved`). Every call of every run has its
  reservation if and only if no clarification that can be resumed repeats a target
  (`ResumeTargets.EveryCallReservedIff`). The register itself accepts the repeat, and so does the request type
  (src/reviewgraph/models.py:1021); the normalizer only ever names one target (src/reviewgraph/findings.py:237).

## Model

| member | source | states |
|---|---|---|
| Text.CanonicalForgetsCrLf | src/reviewgraph/hashing.py:35-37 | a store that turns line endings into CRLF does not change the canonical body that is hashed |
| Text.NormalizeSpelledOut | src/reviewgraph/hashing.py:35-37 | CR LF and a lone CR become one newline and every other character stays |
| Marker.FullMatchIsSound | src/reviewgraph/hashing.py:10-18 | what the backtracking matcher of the marker expression accepts really decomposes into accepted pieces |
| Marker.FullMatchIsComplete | src/reviewgraph/hashing.py:10-18 | the matcher finds a match whenever any decomposition exists |
| Marker.ParseFields | src/reviewgraph/models.py:374-402 | the split parser's loop over fields yields exactly the specified parse, refusing unknown, repeated or misordered names |
| Marker.SplitParsesPrinted | src/reviewgraph/models.py:374-402 | the split parser reads back every well-formed printed marker field by field |
| Marker.ParsersAgree | src/reviewgraph/hashing.py:44-55 | on every string the regular expression and the split parser give the same answer, and they accept exactly the printed well-formed markers |
| Marker.ParsesPrinted | src/reviewgraph/markers.py:219-228 | parsing a printed marker gives back what was printed |
| Marker.MarkerLineIsOneLine | src/reviewgraph/hashing.py:40-41 | a marker line is not empty and holds no line break |
| Marker.FieldsSpelledOut | src/reviewgraph/hashing.py:10-18 | the run ids and hashes of the grammar, character by character: which codes and signs they may hold, and how many |
| Bodies.FinalLineRecovered | src/reviewgraph/markers.py:533-541 | the final-line scan finds the marker in every stored form of a finished body: unchanged, with CRLF, or without its last newline |
| Bodies.VisibleBodyRecovered | src/reviewgraph/hashing.py:58-63 | stripping the marker recovers the canonical visible body from every stored form, whatever the body holds |
| Bodies.MarkerLinesOfWithMarker | src/reviewgraph/payload_validation.py:145-170 | the appended marker is the only marker line exactly when the visible text has none |
| Bodies.StripIdempotentIff | src/reviewgraph/hashing.py:58-63 | stripping twice equals stripping once exactly for texts that do not end in two markers with only empty lines between them |
| Bodies.StripNotIdempotent | src/reviewgraph/hashing.py:58-63 | two markers in a row: the second strip removes another line |
| Payload.SortCanonical | src/reviewgraph/hashing.py:78-82 | sorted fingerprints depend only on the multiset, so the findings hash ignores order; sorting again changes nothing |
| Payload.BuildSucceedsIff | src/reviewgraph/markers.py:231-264 | a payload is built exactly for a valid run id and distinct fingerprints, and carries the marker of its own fields as last line |
| Payload.BuildHashes | src/reviewgraph/markers.py:231-264 | the recorded payload, findings and final hashes of a built payload are those of its visible text, fingerprints and body |
| Payload.BuiltPayloadValidatesIff | src/reviewgraph/payload_validation.py:75-98 | a built payload passes validation exactly when redaction passed and no line of the visible body is itself a marker |
| Cascades.ValidPayloadIff | src/reviewgraph/payload_validation.py:75-98 | for every payload: it passes exactly when redaction passed, its last line is its only marker and has the recorded fields, and every recorded hash is that of the visible text, fingerprints, body or target |
| Cascades.InvalidPayloadNames | src/reviewgraph/payload_validation.py:75-98 | a payload that fails is reported with the first check, in order, that does not hold |
| Payload.ValidPayloadScansBack | src/reviewgraph/markers.py:280-284 | any payload that passes validation, even one not built here, carries its marker through storage |
| Reconcile.ReconcilePaginated | src/reviewgraph/markers.py:335-530 | the cursor-following scan with its counters, first match, duplicates and deferred failure equals the specified scan, reports the verdict on every whole listing of the comments, and fails closed when there is none |
| Reconcile.OpenScanReadListing | src/reviewgraph/markers.py:375-530 | for every source and limits: a scan that does not fail closed has read a whole listing, page after page by the cursors named, within both caps, and reports the verdict on its comments in order |
| Reconcile.CompleteIffListed | src/reviewgraph/markers.py:375-480 | the scan reads to an end exactly when there is a whole listing |
| Reconcile.NoAnswerCloses | src/reviewgraph/markers.py:375-421 | along any chain of pages, the page cap, a transport failure, an exception or something that is no page closes the scan with its own reason and counts |
| Reconcile.BadPageCloses | src/reviewgraph/markers.py:422-480 | along any chain of pages, the first page that is malformed, incomplete, over the comment cap or leads back closes the scan with its own reason and counts |
| Sightings.CommentCounts | src/reviewgraph/markers.py:448-478 | what one comment anywhere in the log does to the verdict: nothing but the counts unless it is by the approved actor or a trusted bot and its last line is a marker for the same target and findings or only opens like one; then it is found, conflicts or blocks |
| Sightings.FirstDecides | src/reviewgraph/markers.py:481-530 | the verdict names the first comment that blocks, with its reason, or else the first match, with its id and author |
| Reconcile.PageSplitIndependence | src/reviewgraph/markers.py:364-530 | for every splitting into pages with distinct cursors the scan reports the verdict on the concatenated comments if the caps hold, and otherwise fails closed on a cap |
| Reconcile.ReconcileExisting | src/reviewgraph/markers.py:287-332 | the flat loop, which keeps last hits, equals its specification |
| Reconcile.ScansAgree | src/reviewgraph/markers.py:287-332 | on trusted comments the flat scan and the paginated one give the same status for every log; the matched id of the flat one is the last of the paginated one's matches |
| Approval.BodyGrowsByFinding | src/reviewgraph/final_payload.py:75-97 | each further selected item adds exactly its finding's line at the end of the body, and nothing before it changes |
| Approval.ApprovedVisibleBody | src/reviewgraph/final_payload.py:75-97 | the loop that appends a line for each selected item and joins the lines builds that body |
| Approval.BodyReadsBackIff | src/reviewgraph/final_payload.py:75-97 | read line by line the body is the heading and then every selected finding's line in plan order, exactly when none of them holds a line break |
| Approval.BodyTellsVerdictIff | src/reviewgraph/final_payload.py:75-97 | some line tells the verdict exactly when there is one and it is to be included, and the second and third lines name target and commit |
| FindingText.LineTellsFinding | src/reviewgraph/final_payload.py:93-96 | the line of a finding gives back its priority, title, body, path and line number, when titles hold no colon and paths no opening bracket |
| FindingText.ColonInTitleConfuses | src/reviewgraph/final_payload.py:93-96 | otherwise one line can stand for two findings |
| Approval.SelectItems | src/reviewgraph/approval.py:71-88 | the selection loop over the plan yields the specified selection or the first reason against it |
| Approval.RunIdPassesIff | src/reviewgraph/approval.py:220-228 | the run id test by a dummy marker line accepts exactly the run ids of the grammar |
| Approval.ApprovalOrderIrrelevant | src/reviewgraph/approval.py:60-131 | reordering the approved ids changes neither the outcome nor any hash of the proof |
| Approval.ProofApprovesExactly | src/reviewgraph/approval.py:60-131 | a passing proof approves exactly the requested ids, each public, postable and current, with distinct fingerprints |
| Granting.ProofGrantedIff | src/reviewgraph/approval.py:40-130 | a proof is granted exactly when the run id is in the grammar, no deferred verdict or summary item is there, the approved ids are some distinct ids of the plan, their items are public, postable and current with different fingerprints, the candidate is bound, and redaction of the body passes |
| Granting.ProofFollowsChecks | src/reviewgraph/approval.py:40-130 | a proof that is not granted is refused with the reason of the first check, in order, that does not hold |
| Approval.DecisionIff | src/reviewgraph/approval.py:134-213 | a decision is built exactly of a passed proof and a passed permission check for the proof's own target and endpoint with an age in the window, and carries the proof's ids, hashes and target and the checked actor |
| Approval.FailedGateDecidesNothing | src/reviewgraph/approval.py:148-172 | a permission check that failed, is of unknown age or out of the window gives no decision, whatever else is in order |
| Approval.ProofIsSound | src/reviewgraph/models.py:2112-2199 | the builder never raises inside a proof, and a passing proof meets the invariants of its result type as read by the other marker parser |
| Finalization.ApprovalPreflight | src/reviewgraph/finalization.py:745-786 | the preflight loops find no objection exactly when every approved id passes the plan and finding checks and no fingerprint repeats, and otherwise report the first objection |
| Finalization.EvaluateWriterRelease | src/reviewgraph/finalization.py:628-676 | the writer-release preflight accepts exactly the specified approvals, and otherwise gives the reason of the first check that fails, with all diagnostics in order when ids are at fault |
| Cascades.NoObjectionIff | src/reviewgraph/finalization.py:745-786 | nothing stands against an approval exactly when it approves some distinct ids, each of a public postable item whose fingerprint is its finding's, all different |
| Cascades.ObjectionNames | src/reviewgraph/finalization.py:757-783 | which objection is reported of an item and of its finding |
| Cascades.WriterAcceptsIff | src/reviewgraph/finalization.py:628-676 | the writer's preflight accepts exactly the approvals of distinct ids of public postable items as described, each with a fingerprint of its own |
| Cascades.DiagnosticNames | src/reviewgraph/finalization.py:636-676 | which diagnostic is given of an approved id |
| Cascades.DiagnosticsAreAll | src/reviewgraph/finalization.py:636-676 | the diagnostics are those of all approved ids with something wrong, in their order |
| Finalization.DuplicateValue | src/reviewgraph/finalization.py:789-795 | finds the first value that repeats an earlier one, and none exactly when all are distinct |
| Finalization.PreflightsAgree | src/reviewgraph/finalization.py:745-795 | for any plan, ids and findings the two preflights agree, given descriptors taken from the plan and findings whose fingerprints match it |
| Finalization.FreshIff | src/reviewgraph/finalization.py:217-355 | a target is fresh exactly when the probe saw the approved target itself, no earlier than the approval and within the age window |
| Cascades.StaleTargetNames | src/reviewgraph/finalization.py:217-355 | a target that is not fresh is reported with the first check, in order, that does not hold |
| Finalization.ReleaseSeesApprovedTarget | src/reviewgraph/finalization.py:358-557 | whatever is released is for the approved target, which the probe itself read with its merge base, no earlier than the approval and within the age window |
| Finalization.ReleaseRequires | src/reviewgraph/finalization.py:358-557 | writer input is released exactly when every gate passes, the payload has the approved hash and validates, and a scan bound to it says it is safe to post |
| Cascades.ShutGateDecides | src/reviewgraph/finalization.py:358-557 | the whole result of finalization at the first gate that is shut, in the order of the gates, and when all are open |
| Finalization.SameHashSamePayload | src/reviewgraph/finalization.py:429-505 | two coherent payloads with one final hash have the same canonical body, marker, target and fingerprints, if the digest separates their texts |
| Finalization.ReleaseBindsToApproval | src/reviewgraph/finalization.py:429-505 | what is released for a decision built by the approval functions is the approved canonical body and marker, for the approved target, with the approved fingerprints, under the checked actor; and the permission check passed, for that target and its endpoint, within the age window |
| Protocol.PostsIff | src/reviewgraph/finalization.py:429-544 | an attempt posts exactly when all gates pass, there was a whole listing to read, and the log holds no trusted marker of its pair and no malformed trusted one |
| Protocol.WriterOutcomeIff | src/reviewgraph/post_mode_harness.py:380-416 | what the writer step requires of any finalization before it posts or reports a reconciliation |
| Protocol.PostedBearsOnly | src/reviewgraph/post_mode_harness.py:380-416 | a posted comment bears the pair of its own payload and no other, in whatever form it is stored |
| Protocol.StepPostsOnce | src/reviewgraph/post_mode_harness.py:380-416 | one step never adds a second trusted marker for a pair |
| Protocol.PostOnce | src/reviewgraph/post_mode_harness.py:380-416 | over every run of attempts and untrusted comments, no pair gains a second trusted marker |
| Protocol.LogGrows | src/reviewgraph/post_mode_harness.py:380-416 | the log only grows, and every comment of somebody else is in it |
| Protocol.LaterAttemptNeverPosts | src/reviewgraph/markers.py:335-530 | once a pair has its marker, an attempt for it with the same or a changed payload fails closed, or reconciles with a logged comment whose payload is its own |
| Protocol.AfterAPostNoSecond | src/reviewgraph/markers.py:335-530 | after a post and any honest run, a later attempt for the same pair leaves the log alone |
| Protocol.InterleavedAttemptsPostTwice | src/reviewgraph/post_mode_harness.py:380-416 | two attempts that both scanned the same log both post: interleaving is outside the guarantee |
| Protocol.StaleScanAddsIff | src/reviewgraph/post_mode_harness.py:380-416 | an attempt adds a marker to the log of now exactly when its gates pass, it had a whole listing to read, and the older log that it scanned lacks the pair and any malformed trusted marker |
| Instances.SomeAttemptPosts | src/reviewgraph/post_mode_harness.py:380-416 | for every digest there is an honest attempt that posts |
| Instances.OneRunOneMarker | src/reviewgraph/post_mode_harness.py:380-416 | its run leaves exactly one trusted marker, so post-once is about runs that post |
| Instances.TwoInterleavedAttemptsPost | src/reviewgraph/post_mode_harness.py:380-416 | two attempts on one empty log that both post and leave two trusted markers for one pair |
| Delivery.ProofPassesPreflight | src/reviewgraph/finalization.py:745-786 | a granted approval passes the finalization preflight on the plan and findings it was given for |
| Delivery.ApprovedPayloadValidatesIff | src/reviewgraph/payload_validation.py:75-98 | the approved payload validates exactly when no line of the approved text is itself a marker |
| Delivery.ApprovedAttemptPostsIff | src/reviewgraph/finalization.py:358-557 | end to end: an attempt that rebuilds the approved payload, with actor and target still good, posts exactly when the approved text holds no marker line, there is a whole listing to read, and the log has no trusted marker of the pair and no malformed trusted one |
| Protocol.CommentStore.PostOrEmit | src/reviewgraph/post_mode_harness.py:380-416 | the writer step appends the released body exactly when the finalization releases it, and changes nothing otherwise |
| Protocol.CommentStore.MakeAttempt | src/reviewgraph/finalization.py:358-557 | preflight, scan, finalization and writing one after another are one step of the protocol |
| Stages.ValidateIff | src/reviewgraph/state.py:80-124 | the cursor checks together say that completed, current and queued stages are the three stages in order |
| Stages.NextKeepsValid | src/reviewgraph/state.py:127-177 | a transition of a valid cursor passes the validation on exit |
| Stages.StageCursor.AdvanceOrFinish | src/reviewgraph/state.py:127-177 | an invalid cursor is refused unchanged; a valid one moves as specified, records the move, and stays valid |
| Stages.RunsCount | src/reviewgraph/state.py:127-177 | over every allowed run the cursor stays reachable and advances are conserved: those made plus those remaining grow by two for each answer |
| Stages.ReviewsInOrder | src/reviewgraph/state.py:134-164 | reviews are entered first-in first-out, and each answer is entered or still waiting |
| Stages.FinishesInExactly | src/reviewgraph/state.py:127-177 | a run with k answers finishes at exactly its (4 + 2k)-th advance, with the answers reviewed in the order they came |
| ReviewLoop.EvaluateGate | src/reviewgraph/clarification.py:23-45 | the gate's loop yields exactly the pending and the blocking ids in order |
| ReviewLoop.ReviewState.IngestAnswer | src/reviewgraph/clarification.py:48-63 | ingesting replaces the one pending request, removes its id from the pending ones and queues it as ready, or leaves the state alone |
| ReviewLoop.ReviewState.IngestAnswers | src/reviewgraph/runner.py:690-709 | the available answers to blocking requests are ingested in order, and a failure is reported |
| Endings.AnswerIsTaken | src/reviewgraph/clarification.py:48-63 | one answer is refused when no pending request comes first under its id; otherwise that request is answered, leaves the pending ids and waits for its review once |
| ReviewLoop.RunIsOrderly | src/reviewgraph/runner.py:450-640 | every run ends within 3 + 2 times the answers iterations; its events are accepted by an observer of the resume order; and it completes, waits for an answer, errs, or, exactly after an answer in the last stage, leaves with that review unrun |
| ReviewLoop.EachAnswerReviewedOnce | src/reviewgraph/runner.py:450-640 | the reviews entered are distinct answered ids in answer order, and a completed run has entered the review of every answer |
| Endings.VisitDecides | src/reviewgraph/runner.py:450-640 | for every state of the loop, requests and answers: the run errs with its reviewers, goes on while no open request blocks, errs when an answer cannot be taken in, waits at once with no further move when no open request is answered, and otherwise goes on with exactly the answered requests answered, queued in order |
| Endings.ReturnGoesOn | src/reviewgraph/runner.py:450-465 | a return from a review runs nobody and goes on |
| Endings.EndingIsDecided | src/reviewgraph/runner.py:450-650 | the last visit of every run is one of its states, and decides: in the last stage the run completes, waits, errs or leaves with the review of the first answered open request unrun; in any other the visit ends it by an error or an unanswered request |
| Orderly.AcceptedIff | src/reviewgraph/state.py:127-177 | the observer accepts exactly the traces in which every event is in order after those before it: answers come during stages, stages complete when every answer is reviewed, reviews open one at a time for the oldest answer and return to the stage they left |
| Orderly.RunsAreInOrder | src/reviewgraph/runner.py:450-650 | so is every event of every run |
| ReviewLoop.EnteredAreAnswered | src/reviewgraph/state.py:134-164 | in every accepted event order the entered reviews and the waiting ids together are the answers in order |
| Visiting.VisitsAreDistinct | src/reviewgraph/runner.py:450-462 | no stage and no clarification is visited twice in any run, and only answered clarifications are visited |
| ReviewLoop.AnswerInLastStageIsLost | src/reviewgraph/runner.py:636-650 | one request answered during the last stage: the run leaves the loop with its review opened and the last stage never completed |
| ReviewLoop.RunReviewStages | src/reviewgraph/runner.py:450-640 | the loop on the mutable cursor and review state terminates by the lexicographic measure for every reviewer behaviour and answer set, and equals the specified run |
| ReviewerRuns.RunRegister.RegisterSelected | src/reviewgraph/reviewer_runs.py:59-83 | a reviewer is refused after a final status and registered once otherwise; the whole new state is stated |
| ReviewerRuns.RegisterIff | src/reviewgraph/reviewer_runs.py:59-120 | a selection is refused exactly when some recorded run of the same reviewer, stage, target, configuration and clarification was completed, skipped or exhausted; otherwise its first run is returned, and entered if it was not there |
| ReviewerRuns.RunRegister.RecordStatus | src/reviewgraph/reviewer_runs.py:86-101 | a status is replaced and its run listed if it was not |
| ReviewerRuns.RunRegister.RetryAfterFailure | src/reviewgraph/reviewer_runs.py:123-161 | the next attempt is recorded, or the run is marked as exhausted at the limit |
| ReviewerRuns.RetryIff | src/reviewgraph/reviewer_runs.py:123-161 | below the limit the next attempt is entered as selected and names the run that it retries, at the limit the run is recorded as exhausted, with these reasons, and nothing else changes |
| ReviewerRuns.RunRegister.KeyForSelection | src/reviewgraph/reviewer_runs.py:164-183 | the current run is the latest open candidate, or the latest candidate, and none exactly when there is no candidate |
| ReviewerRuns.PickIff | src/reviewgraph/reviewer_runs.py:164-183 | the current run is the first in the register of those with the greatest attempt, among the pending runs of the reviewer if there are any and otherwise among all of them |
| ReviewerRuns.RunsAreListedOnce | src/reviewgraph/reviewer_runs.py:59-101 | over every run of the register, runs are listed once, exactly those with a status, and none is forgotten |
| ReviewerRuns.FinishedIsNotRerun | src/reviewgraph/reviewer_runs.py:116-120 | a completed, skipped or exhausted reviewer is not selected again and gets no new run, whatever else happens to others |
| ReviewerRuns.RetriesExhaust | src/reviewgraph/reviewer_runs.py:123-161 | a failing run is tried exactly up to the limit, one new run a retry, and then its reviewer is suppressed |
| ReviewerRuns.RetryIsPicked | src/reviewgraph/reviewer_runs.py:164-183 | after a retry of the current run, the new attempt is the current one |
| ReviewerRuns.FreshSelectionIsPicked | src/reviewgraph/routing.py:98-137 | a freshly registered run is the one that runs |
| Spending.AttemptsFitTheTime | src/reviewgraph/runner.py:901-904 | the runner's and the retry loop's attempt formulas agree on the greatest number of attempts that is allowed and fits in the total time, which is at least one |
| Spending.PlannedAtLeastOne | src/reviewgraph/runner.py:901-904 | the runner refuses exactly the configurations in which no attempt fits, and counts one attempt at least |
| Spending.RunWithRetries | src/reviewgraph/llm.py:202-300 | the retry loop refuses exactly the configurations it should, otherwise makes the specified attempts, and with open gates and room calls until a reply that may not be retried or as often as fits the limits |
| Spending.RetriesGoOn | src/reviewgraph/llm.py:238-295 | with open gates and room, the calls go on exactly until a reply that may not be retried, or the cap |
| Spending.RefusedAttemptEnds | src/reviewgraph/llm.py:238-268 | an attempt that is blocked ends the run without a call, and one that the adapter refuses crashes it |
| Spending.AttemptsAreNamed | src/reviewgraph/llm.py:238-244 | attempts differ by their number, and all but the first name the run they retry |
| Spending.PolicyDecides | src/reviewgraph/llm_policy.py:376-484 | on any ledger: never an approval beyond the limit; a new key is reserved exactly when its gate is open and there is room; a key with a reservation is approved again exactly for the same request and package within the limit; nothing else changes the ledger |
| Spending.AdapterAcceptsIff | src/reviewgraph/reviewers.py:98-135 | the adapter accepts exactly an approval of this key and package whose plan is that of the first reservation of the key in the ledger as it is |
| Spending.RetriesFollowRetryable | src/reviewgraph/llm.py:225-295 | attempts are numbered without gaps; a retry follows only an approved call with a retryable reply, and such a reply ends the attempts only at the cap |
| Spending.AttemptKeepsBooks | src/reviewgraph/llm_policy.py:376-484 | while there is room an attempt is approved exactly when its gate is open, reserves exactly when its key has no reservation, and is accepted by the adapter |
| Spending.TriesKeepBooks | src/reviewgraph/llm.py:225-295 | all attempts of a reviewer keep the books and take no more than was planned, and without earlier reservations make one a call |
| Spending.UnreservedIffBegunAgain | src/reviewgraph/llm.py:225-295 | running a reviewer calls the provider without a reservation exactly when the same run was begun before and its gate is open |
| Admission.ApplyReviewerBudget | src/reviewgraph/context_budget.py:219-254 | the admission loop yields the specified split; call-cost deferrals really exceed the limit, and count deferrals are exactly the tail after the last place |
| Admission.AdmissionSplits | src/reviewgraph/context_budget.py:202-280 | the selection is split in order, with carried counters both limits are respected, and the plan is the cost of what is kept |
| Admission.AdmissionKeepsAll | src/reviewgraph/context_budget.py:202-280 | nobody is lost or doubled |
| Admission.DeferredDidNotFit | src/reviewgraph/context_budget.py:219-254 | admission is greedy: each reviewer is kept exactly when it fits after those kept before it |
| LiveRun.RegistersAll | src/reviewgraph/routing.py:65-137 | at a new visit everybody selected is registered and chosen, a repeated name included |
| LiveRun.PicksOwn | src/reviewgraph/reviewer_runs.py:164-183 | the current run of a selected reviewer exists and is its own, and is the first one unless it was begun before |
| LiveRun.RegisterInTurn | src/reviewgraph/routing.py:65-137 | each selected reviewer is registered after those before it, and chosen unless its runs came to an end |
| LiveRun.DeferredAreSkipped | src/reviewgraph/runner.py:487-494 | every deferred reviewer has a run that is recorded as skipped |
| LiveRun.LastAttemptDecides | src/reviewgraph/runner.py:552-563 | the last attempt for a run decides its recorded status |
| LiveRun.OthersKeepStatus | src/reviewgraph/runner.py:552-563 | runs that no attempt is for keep their status |
| LiveRun.NoRunIsAnError | src/reviewgraph/reviewer_runs.py:164-183 | a reviewer without a run in the register is an error before anything is called |
| LiveRun.CrashIsAnError | src/reviewgraph/runner.py:527-548 | a refusal by the adapter in the calls of a reviewer is an error |
| LiveRun.FirstErrorEnds | src/reviewgraph/runner.py:504-640 | an error ends the visit: nobody after it is run |
| LiveRun.RunsVisit | src/reviewgraph/runner.py:464-580 | a visit begins exactly the reviewers that selection and limits plan, and keeps the books and the limits |
| LiveRun.PlanningDominatesSpending | src/reviewgraph/runner.py:450-640 | for every setup, behaviour, answers, provider and point of error: the reviewers begun are those planned; reservations are distinct and at most the calls, calls at most what was planned, that within the limit; no attempt is refused for budget or crashes; and calls equal reservations exactly when no planned run with an open gate is planned twice |
| ResumeTargets.NoRepeatedTargetReservesAll | src/reviewgraph/routing.py:98-137 | if no answered clarification repeats a resume target, calls equal reservations and every reviewer is begun with its first key |
| ResumeTargets.RepeatedTargetCallsUnreserved | src/reviewgraph/routing.py:123-136 | for any repeated resume target there is a run that makes more calls than reservations |
| ResumeTargets.EveryCallReservedIff | src/reviewgraph/routing.py:98-137 | calls equal reservations in all runs if and only if no clarification that can be resumed repeats a target |
| LiveRun.SelectForStage | src/reviewgraph/routing.py:32-62 | the loop over the sorted agents selects exactly those triggered for the stage, in order |
| LiveRun.TriggeredOf | src/reviewgraph/routing.py:32-62 | exactly the agents that a stage triggers are selected, each once |
| LiveLoop.RunVisit | src/reviewgraph/runner.py:464-640 | selecting, registering, admitting, deferring and running on one register, up to the first error, equals the specified visit with what it raises |
| LiveLoop.HeardIsRaised | src/reviewgraph/runner.py:504-627 | a visit raises what its reviewers raise, each read off the attempts and calls it added, one after another, and ends with the first that errs |
| LiveLoop.RunLiveReview | src/reviewgraph/runner.py:440-650 | the whole loop on one cursor, one review state and one register, going on with what the live results raise, equals the specified run |
| LiveLoop.HeardRunIsARun | src/reviewgraph/runner.py:440-650 | every such run has the trace and ending of a run of the review loop and the register and calls of the live run over its visits, for one and the same behaviour |
| LiveLoop.HeardRunKeepsBooks | src/reviewgraph/runner.py:440-650 | where requests depend on the replies, too, calls stay within the plan and the limit, and equal the reservations exactly when no reviewer with an open gate was begun twice |
| InputBudget.ApplyFileBudget | src/reviewgraph/context_budget.py:70-134 | the loop over changed files yields the specified trimming |
| InputBudget.KeepsFirstFiles | src/reviewgraph/context_budget.py:74-88 | kept are exactly the first files up to the limit, in order |
| InputBudget.RetainedBytesAreReal | src/reviewgraph/context_budget.py:104-134 | the reported patch bytes are those left in the kept files, and never exceed the limit |
| InputBudget.OmissionsAreNotes | src/reviewgraph/context_budget.py:74-131 | the omissions noted are exactly, in order, the files beyond the limit, those without a patch, and those whose patch is bigger than what is left |
| Utf8.OctetsReadBack | src/reviewgraph/context_budget.py:340-367 | the octets of a character give it back and are as many as the budgets count |
| Utf8.BytesAreOctets | src/reviewgraph/context_budget.py:340-367 | the bytes that the budgets count are those of the UTF-8 encoding |
| InputBudget.FileBytesConserved | src/reviewgraph/context_budget.py:66-134 | original bytes are the retained ones, the omissions noted by the loop, before equal ids are dropped, and the files beyond the limit |
| InputBudget.ReportedBytesConservedIff | src/reviewgraph/context_budget.py:66-177 | the reports left after equal ids are dropped never account for more, and account for everything exactly when no too big patch has the path of a patch noted before it |
| InputBudget.DistinctPathsAreReported | src/reviewgraph/context_budget.py:66-177 | with distinct paths no report is dropped and the reports account for everything |
| InputBudget.RepeatedPathLosesReport | src/reviewgraph/context_budget.py:418-424 | a path with two too big patches is reported once, and the bytes of the second are missing |
| InputBudget.StrippedWhenTooBig | src/reviewgraph/context_budget.py:104-134 | a patch is stripped exactly when it is bigger than what the kept files before it leave |
| InputBudget.FileBudgetIdempotent | src/reviewgraph/context_budget.py:70-134 | a second pass changes neither the files nor the reported bytes |
| InputBudget.ApplyMemoryBudget | src/reviewgraph/context_budget.py:136-169 | the loop over conversation entries yields the specified trimming |
| InputBudget.BodyDroppedWhenTooBig | src/reviewgraph/context_budget.py:136-169 | every entry stays in order, and loses its body exactly when it is bigger than what is left at its turn |
| InputBudget.MemoryOmissionsAreNotes | src/reviewgraph/context_budget.py:136-169 | the omissions noted are exactly, in order, the entries bigger than what is left at their turn, with id and size |
| InputBudget.MemoryUnchangedIff | src/reviewgraph/context_budget.py:136-169 | a pass leaves a list alone exactly when every entry with a body fits at its turn |
| InputBudget.MemoryBudgetIdempotentIff | src/reviewgraph/context_budget.py:136-169 | a second pass changes nothing exactly when every entry kept with its body still fits after trimmed entries were charged for their metadata |
| InputBudget.MemoryBudgetNotIdempotent | src/reviewgraph/context_budget.py:352-366 | metadata of a trimmed entry costs bytes in the second pass, which then drops a body that the first kept |
| BudgetMerge.DedupeByKey | src/reviewgraph/context_budget.py:418-441 | the loop with a seen set yields the specified deduplication |
| BudgetMerge.DedupeKeepsFirsts | src/reviewgraph/context_budget.py:418-441 | one element a key is kept, and it is the first of its key |
| BudgetMerge.DedupeAbsorbs | src/reviewgraph/context_budget.py:418-441 | deduplicating a prefix first makes no difference |
| BudgetMerge.DedupeAbsorbsRight | src/reviewgraph/context_budget.py:418-441 | deduplicating a suffix first makes no difference |
| BudgetMerge.MergeAddsOne | src/reviewgraph/context_budget.py:283-342 | a merge adds up budget by budget: counts are added, lists joined, and what is there already left out of the four deduplicated lists; limits and input counts stay those of the base |
| BudgetMerge.MergeIsFold | src/reviewgraph/context_budget.py:283-341 | merging several budgets at once is merging them one after the other |
| BudgetMerge.MergeNothingIff | src/reviewgraph/context_budget.py:283-341 | merging no budget is the identity exactly for budgets without repeated keys |
| BudgetMerge.MergeNests | src/reviewgraph/runner.py:309 | merging a merged budget is merging its parts, as the run does with its stages |
| Ranges.CoalesceChangedRanges | src/reviewgraph/github.py:1236-1246 | the merging loop equals its specification |
| Ranges.CoalesceSeparates | src/reviewgraph/github.py:1236-1246 | the output is strictly ordered with at least one line between neighbours |
| Ranges.CoalesceExactIff | src/reviewgraph/github.py:1236-1246 | no line is invented, and exactly the same lines are covered if and only if no range is merged whose earlier lines are uncovered |
| Ranges.SortedDropsNothing | src/reviewgraph/github.py:1236-1246 | ranges with sorted starts lose no line |
| Ranges.UnsortedLosesCoverage | src/reviewgraph/github.py:1236-1246 | out-of-order ranges lose a covered line |
| LineBreaks.BreaksSpelledOut | src/reviewgraph/github.py:1102 | the characters that cut lines, by their codes |
| LineBreaks.UnlinesReadsBackIff | src/reviewgraph/github.py:1102 | printed lines are cut back into themselves exactly when none holds one of the characters at which the text is cut |
| LineBreaks.LastNewlineOptional | src/reviewgraph/github.py:1102 | the newline at the end of a text may be missing after a line that is not empty |
| Diff.HeaderReadsBack | src/reviewgraph/github.py:361-364 | printing a hunk header and parsing it back, with or without short counts and a section title |
| HunkHeads.HeadParsesIff | src/reviewgraph/github.py:361-364 | a line parses as a hunk head exactly when it is written as one, with optional counts and an optional title after a space, and gives the numbers written |
| Diff.ParseHunks | src/reviewgraph/github.py:1095-1160 | the counting parser succeeds exactly on patches in which every hunk consumes its declared counts and something is added, and then returns the coalesced ranges of the adding hunks; otherwise it reports the first line that cannot be right and why |
| Diff.ChangedRangesFromPatch | src/reviewgraph/github.py:1081-1160 | the same for the text of a patch, with the checks on file status and patch in front, each failing exactly when it should |
| Diff.AddedLinesInRange | src/reviewgraph/github.py:1126-1138 | in a hunk that parses, every added line's number lies in the hunk's range |
| Diff.TextReadsBackIff | src/reviewgraph/github.py:1102 | the text of a patch is cut into the printed lines exactly when no section title and no body line holds a line break |
| Diff.PrintedPatchParses | src/reviewgraph/github.py:1081-1160 | the text of well-formed hunks without line breaks is read back as the ranges of exactly those with an addition |
| Diff.FormFeedIsRefused | src/reviewgraph/github.py:1102-1149 | a well-formed hunk whose context line holds a form feed is refused |
| Diff.PrintedPatchCovers | src/reviewgraph/github.py:1081-1160 | for hunks in order, the result covers exactly the lines of the adding hunks |
| TaggedDiff.PatchParsesIff | src/reviewgraph/github.py:1075-1160 | a patch of tagged lines parses exactly when every hunk declares the counts of its tags, has lines in the new file numbered from one, and lines in the old file numbered from one or none, with no foreign line, and some line is added |
| TaggedDiff.PatchCovers | src/reviewgraph/github.py:1075-1160 | the ranges of such a patch, its hunks in order, are separate and cover exactly the lines of the new file that hunks with an added line show |
| Diff.AnchorableRanges | src/reviewgraph/github.py:1095-1160 | a successful parse gives positive, non-empty, separated ranges |
| Anchors.FileForIsFirst | src/reviewgraph/diff_anchor.py:76-102 | the file that is looked up is the first one of the finding's path that changed its first line, and none exactly when there is none |
| Anchors.DerivedAnchorValidates | src/reviewgraph/models.py:706-758 | an anchor derived from such ranges can be constructed and validates the location of its finding |
| Anchors.DerivedAnchorIs | src/reviewgraph/diff_anchor.py:27-55 | a derived anchor says the finding's own path, line and commit, and the file and range that hold it |
| Anchors.DerivedConstructibleIff | src/reviewgraph/models.py:706-735 | a derived anchor is constructible exactly when path, line and commit can be an anchor's |
| Anchors.DerivedValidatesIff | src/reviewgraph/models.py:736-758 | it validates its finding's place and no other, except for another end in the same range |
| Anchors.AnchoredIffEveryLineChanged | src/reviewgraph/diff_anchor.py:27-102 | a finding is anchored exactly when its lines are in order and the first file that changed its first line changed all of them and can carry inline comments |
| Anchors.ParsedPatchAnchors | src/reviewgraph/diff_anchor.py:27-102 | from the text of a patch to a valid anchor |
| Anchors.AttachedKeeps | src/reviewgraph/diff_anchor.py:56-73 | an anchor is kept, a missing one derived when it can be, and nothing else of the finding changes |
| Anchors.AttachDiffAnchors | src/reviewgraph/diff_anchor.py:56-73 | findings keep their order and their anchors; those without get the derived one and nothing else changes |
| Pages.LoadPageMap | src/reviewgraph/github.py:617-661 | the loader accepts exactly page lists that continue to a single final page under distinct cursors, and maps each cursor to its page |
| PageChains.LoadsIff | src/reviewgraph/github.py:617-720 | a page list loads exactly when it writes out a listing: items under different non-empty cursors and a last page of items or of an error that says what it may |
| Pages.PaginatedTransport.CollectPages | src/reviewgraph/github.py:827-951 | the collector ends for every source and makes exactly the specified fetches |
| PageChains.ChainEnds | src/reviewgraph/github.py:827-951 | for any source, what the collector makes of the page at the end of a chain: every failure with its page number and reason, and completion with the items of all pages in order, having fetched just the chain |
| PageChains.CompletedWasListed | src/reviewgraph/github.py:827-951 | whatever is collected was listed: a chain of pages from the first on, and a last page after it |
| Pages.NeverFetchesTwice | src/reviewgraph/github.py:827-951 | whatever the source serves, no cursor is fetched twice |
| Pages.LoaderAndCollectorAgree | src/reviewgraph/github.py:827-951 | every loaded list is collected in as many fetches as pages, with all items in order, or fails with the last page's reason exactly when that page is an error |
| Doubles.RoundingExists | src/reviewgraph/approval.py:264-277 | the assumption on rounding can be met: rounding to the nearest step of the finest grid that fits is to a nearest double, for all numbers up to two to the 53 |
| Doubles.RoundsWithin | src/reviewgraph/approval.py:264-277 | a rounded number is off by at most half a step of any binary grid that its size leaves room for |
| Timestamp.UtcSeconds | src/reviewgraph/approval.py:244-277 | the year and month loops and the two roundings yield the specified seconds for exactly the accepted field values, which have no lower bound for the time of day |
| Timestamp.NegativeHourIsAccepted | src/reviewgraph/approval.py:252-262 | hour minus one is accepted and gives the seconds of 23:00 of the day before |
| Timestamp.YearLoopIsGregorian | src/reviewgraph/approval.py:244-281 | from 1970 the year loop equals the closed Gregorian count |
| Timestamp.DaysAreNumbered | src/reviewgraph/approval.py:244-281 | consecutive days have consecutive numbers from zero on |
| Timestamp.InstantsOrderStamps | src/reviewgraph/approval.py:244-277 | before any rounding the sum orders timestamps from 1970 on as their fields do, and is injective |
| Timestamp.YearsBefore1970Collide | src/reviewgraph/approval.py:271-273 | before 1970 the year only matters as leap or common |
| RoundedSeconds.SecondsNeverReverse | src/reviewgraph/approval.py:244-277 | from 1970 on an earlier timestamp never has more seconds, whatever the fractions |
| RoundedSeconds.SecondsOrderStamps | src/reviewgraph/approval.py:244-277 | from 1970 to the last year for their digits, the rounded seconds order timestamps exactly as their fields do, and are injective |
| RoundedSeconds.OrderedUntilIff | src/reviewgraph/approval.py:244-277 | the timestamps with so many digits are ordered by their seconds from 1970 to the end of a year if and only if that year is at most the last one for so many digits |
| RoundedSeconds.NanosecondIsLost | src/reviewgraph/approval.py:264-277 | 2020-01-01T00:00:00 with and without a nanosecond gives the same seconds |
| RoundedSeconds.OrderFailsBefore1970 | src/reviewgraph/approval.py:271-273 | the last day of 1969 has more seconds than the first of 1970 |
| RoundedSeconds.OrderedFromIff | src/reviewgraph/approval.py:244-277 | seconds order the valid timestamps without a fraction from a year on if and only if that year is 1970 or later |
| RoundedSeconds.OrderedPairIff | src/reviewgraph/approval.py:244-277 | which pairs are ordered whatever their years, up to the last year for their digits: by year from 1970, otherwise by day of the year and time, with the one overlap of a leap day and the first of 1971 |
| RoundedSeconds.ApprovalWindowIsExact | src/reviewgraph/approval.py:156-172 | without fractions, an approval with an accepted timestamp is built exactly for a check that lies, field by field, between the oldest and the newest allowed timestamp |
| RoundedSeconds.WindowIsExactIff | src/reviewgraph/approval.py:156-172 | for all timestamps with so many fraction digits and all limits the test on the rounded age is the exact window, if and only if there are no digits |
| RoundedSeconds.ExactAgeIsRefused | src/reviewgraph/approval.py:156-172 | a check at nine tenths of a second, exactly as old as allowed, is refused across the step of doubles in January 2004 |
| RoundedSeconds.NanosecondTooOldIsAccepted | src/reviewgraph/approval.py:156-172 | a check a nanosecond before 2020 is accepted for an approval five minutes into 2020 with a maximal age of five minutes |
| RoundedSeconds.WindowWithinMicrosecond | src/reviewgraph/approval.py:156-172 | up to 2105 a check a microsecond inside the window is accepted and one a microsecond outside refused, whatever the fractions |

## Left out

- Redaction patterns, text heuristics and candidate payload binding: redaction is an arbitrary function with a status, the binding one flag.
- SHA-256 and JSON encoding: arbitrary functions, with separation of the hashed texts as a named hypothesis.
- Actor permission probes and snapshots, request ids and transport summaries: pass or fail, or not modelled.
- Argument type checks that raise ValueError or TypeError, apart from those that decide an outcome.
- `validate_issue_comment_request` and formal-review rejection: field comparisons on one request.
- Unicode digits in hunk headers: digits are ASCII there.
- Local notes, counts in omission markers, rendering and trace payloads of the budgets; a marker's id is its namespace and path, without collisions of the hashed suffix.
- Trigger matching: which agents a stage triggers is an arbitrary function of stage and name.
- Clarification status records beyond the requests, pending, ready and answered ids.
- Risk, verdicts, CLI, configuration, fixtures, HTTP and subprocess code.
- Edits and deletions of posted comments, and interleaved attempts (shown to break the guarantee).
- Delivery.ApprovedAttemptPostsIff: keeps freedom from marker lines as a condition, since the candidate check that looks for them is part of the binding flag and redaction is arbitrary.
- Protocol.PostOnce: assumes that nobody else posts a trusted marker and that every whole listing of the comments lists the log as it is, since the code cannot enforce either.
- Protocol.LaterAttemptNeverPosts: under the same assumptions.
- Finalization.PreflightsAgree: asks that an approved decision names at least one item, which the decision's constructor enforces.
- Finalization.FreshIff: instants are real numbers or unreadable; the parsing of the probe's timestamps is not modelled.
- LiveRun.PlanningDominatesSpending: what a visit's reviewers raise is the loop's behaviour function, not derived from the replies (LiveLoop.HeardRunIsARun derives it); an error inside a visit is a cut of its reviewers.
- LiveLoop.RunLiveReview: what a reviewer raises is an arbitrary function of its attempts and of the calls made by then, and the final status of each run an arbitrary function.
- Spending.AdapterAcceptsIff: leaves out the adapter's boundary checks and its second preview of the request text.
- ReviewLoop.RunReviewStages: reviewers, normalization and budgets of a visit are one arbitrary behaviour that raises requests or errs.
- Timestamp.UtcSeconds: takes the fields of a timestamp, signs included, not its characters; a fraction is any number below one, read by one correct rounding.
- TaggedDiff.PatchCovers: asks for hunks in the order of their target lines, since coalescing can lose lines of others (Ranges.UnsortedLosesCoverage).
- Diff.PrintedPatchCovers: asks for hunks in the order of their target lines, as diff writes them, and without line breaks inside a line.
