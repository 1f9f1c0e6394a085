# Corporation operations: verified models

This project models the parts of the alliance platform where several people, workers or scheduled
jobs act on the same rows, and proves what their code and comments promise about every run. It has
four groups.

**Guaranteed buyback.** Officers commit corporation money under a rolling 24 hour budget, and payments
are later matched to wallet-journal entries by a text token. `ApprovalProtocol` is the state machine:
an approval reads the configuration, takes the configuration lock, takes the row lock, checks, stamps
its time and commits, and requests, rejections, cancellations, settlements, reconcile runs, journal
syncs, configuration edits and clock ticks may come in between. `BuyoutDesk.Desk` has the operations
as they run, one call at a time, each tied to a protocol step. `BudgetSafety` and `Settlement` hold the
theorems, `Text` the argument that payment tokens delimit themselves.

**Vulnerability scans.** `ScanReport` builds the host's document, `ImageScan` validates, stores and
dates it, `Findings` opens, changes and closes findings, and `HealthAlert` deduplicates alerts.
`ScanPipeline` states what holds from end to end. The thread through all of them is that "we could not
tell" never becomes "clean".

**Campaign coordination.** `BeatLock` is the TTL lock of the scheduled sweeps, `TaskRollup` the signal
handlers with their after-commit check, `Calendar` the write path and the sweep that must converge.

**Appraisals, lots, roles, fixtures.** `PasteParser`, `PasteLaws` and `PasteFormats` read pasted
lines, `Appraisal`, `AppraisalLaws` and `AppraisalInvariance` price them, `LotBoard` is the market of
member lots under concurrent requests, `RoleConsole`, `RoleLaws` and `RoleRaces` the two-person director grant and the last-director floor, and
`FixtureClosure` the worklist of the fixture extractor.

Functions state what an operation does to a value; a class or method with the source's own loop or
update is proved equal to them; lemmas then prove the promises. The main results are stated in the
fields of the tables, with constants written out, so that they do not lean on the functions they are
about. Amounts of the buyback protocol are integers in the smallest unit, appraisal amounts exact
decimals (`real`), instants and periods seconds. A hash is represented by the text it is taken of, so it
is injective.

## Where the code differs from its documentation or from what one would expect

- The budget that binds an approval is the one it read before it took the lock
  (`apps/buyback/guaranteed.py:106`). `BudgetSafety.StaleBudgetExact` says when that respects the budget
  in force, `BudgetSafety.StaleBudgetRun` is a run where it does not.
- The note at `apps/admin_audit/tasks.py:187-193` says the alerter renders the dependency finding only.
  `apps/admin_audit/health_alert.py:103-120` renders the image finding too, and the model follows it.
- "Any new or removed problem alerts again" holds for what the alerter can see. It sees bare advisory
  ids joined by commas: `HealthAlert.ChangedWithoutAlert` and `HealthAlert.CommaHidesAChange` are two
  changes it cannot see, and `HealthAlert.ProblemSameIff` says exactly which those are.
- The lock's compare and delete are two steps (`apps/campaigns/tasks.py:29-34`). `BeatLock.ForeignTakeIff`
  says when a release takes a lock that is not its own, `BeatLock.LateDeleteBreaksExclusion` shows it.
- The check behind the roll-up marker asks twice and then records, so a task reopened or added in between
  leaves a marker over an active task: `TaskRollup.MarkerOverActiveIff` and `TaskRollup.MarkerOverActiveRun`.
- `ingest_document` says it never raises (`apps/admin_audit/image_scan.py:372-375`). A status that is a list
  or an object cannot be looked up among the known ones (line 146), a stamp in the form of a time that is
  none stops the date parser (line 309), and text nested too deep stops the JSON parser. No row is written
  then, and an older `ok` stands: `ImageScan.OkVouchesForLatestIff`, `ImageScan.EscapeLeavesOk`.
- Reconciliation looks at the oldest payment for a buyout only: `Settlement.SweepWaitsIff` and
  `Settlement.LaterPaymentIgnored`.
- A completion can be missed when the status read before the save is stale: see
  `TaskRollup.CheckRegisteredIff` and `TaskRollup.StaleReadMissesMarker`.
- Calendar rows cancelled by an officer carry a lock on their status and are never published again
  (`apps/pingboard/calendar.py:95-100`), so the live keys leave them out. An upsert never moves a row to
  another audience tier (`apps/pingboard/calendar.py:65-131`), so "never over-shared" at
  `apps/campaigns/calendar.py:50-61` holds for rows created under the present visibility only:
  `Calendar.TierIsFixedAtCreation`.
- A revoke counts directors and then deletes with no lock: `RoleRaces.FloorHolds` says when the last
  director is safe all the same, `RoleRaces.PendingCanEmptyIff` when not. An approval given after the
  requested expiry overwrites a standing grant with one that has lapsed: `RoleLaws.LastDirectorLostIff`.
- `offer_action` saves a status decided on an earlier read: `LotBoard.SettledCanChangeIff` and
  `LotBoard.PaidThenCancelled`.
- A decimal point in a pasted quantity is dropped with the separators, so `1.50` reads as 150:
  `PasteFormats.SeparatorsVanish`.

## Model

| member | source | states |
|---|---|---|
| Text.TokensSelfDelimiting | apps/buyback/models.py:223-229 | at any index of any text at most one buyout's payment token occurs |
| Text.TokenInsideTokenIff | apps/buyback/guaranteed.py:199-212 | one buyout's token is found, ignoring case, inside another's exactly when the two are the same buyout |
| Text.TokenFoundIff | apps/buyback/guaranteed.py:205-211 | a transfer reason carries a token exactly when it shows somewhere the two letters in either case and the buyout's number between two dashes |
| Guaranteed.CommittedTotalIs | apps/buyback/guaranteed.py:51-61 | the rolling total is the sum of the quotes of exactly the rows approved or settled whose decision lies at or after the start |
| Guaranteed.BlockedIff | apps/buyback/guaranteed.py:83-100 | nothing blocks an approval exactly when the master switch is on, the audience is not disabled, the row is requested and another's, and the quote fits the cap and, with the 24 hours before, the budget; each gate is named only when those before it are passed |
| Guaranteed.EarliestPayment | apps/buyback/guaranteed.py:204-212 | the entry considered is a qualifying payment, no qualifying payment is older, and there is one whenever any entry qualifies |
| Guaranteed.ApprovedQueue | apps/buyback/guaranteed.py:196-198 | the run's queue holds exactly the approved buyouts, each once, oldest decision first and undecided ones last |
| Settlement.SweepKeepsReconciled | apps/buyback/guaranteed.py:190-218 | a reconcile loop started with every spent reference in hand keeps every match a payment and every entry spent once |
| Settlement.SweepWaitsIff | apps/buyback/guaranteed.py:195-218 | told before the run: a queued row stays approved exactly when it has no character or decision, nobody has paid it, its oldest payment is spent already, or somebody earlier in the queue has the same oldest payment |
| Settlement.SweepIsThorough | apps/buyback/guaranteed.py:195-218 | the loop changes queued rows only, from approved to settled only, and after it the oldest payment for a payable row that waits is spent on another buyout |
| Settlement.ReconcileKeepsReconciled | apps/buyback/guaranteed.py:182-219 | a whole run, live or switched off, keeps the matching sound |
| Settlement.ReconcileIsThorough | apps/buyback/guaranteed.py:182-219 | switched off a run changes nothing; live it touches the oldest approvals up to the limit only, and leaves waiting exactly those that the rows, the journal and the spent references single out before it |
| Settlement.DueIff | apps/buyback/guaranteed.py:199-212 | the payment due for a buyout is, of the player donations to the seller's character on or after the decision, of at least the quote and with the token in the reason, the oldest, and of equally old ones the first listed; a seller character numbered zero has none |
| Settlement.RunSettlesIff | apps/buyback/guaranteed.py:182-218 | a live run settles the k-th of its queue exactly when a payment is due for it that nobody had spent and that is not due for anybody earlier in the queue, and then on that payment, at the run's time |
| Settlement.QueueIsOldest | apps/buyback/guaranteed.py:196-198 | the queue of a run holds at most the limit, approved rows only, and no approved row it leaves out was decided before one it holds |
| Settlement.LaterPaymentIgnored | apps/buyback/guaranteed.py:204-215 | when one transfer names two buyouts, the second keeps waiting although a later payment of its own is in the journal and spent on nobody |
| Settlement.EntrySettlesAtMostOne | apps/buyback/guaranteed.py:190-194 | no journal entry settles two buyouts |
| Settlement.QuotesCoveredUpTo | apps/buyback/guaranteed.py:201-218 | the quotes settled through the wallet never exceed what the matched entries paid out |
| BuyoutDesk.Desk.RequestBuyout | apps/buyback/guaranteed.py:64-80 | a request is recorded, as one new row with all its columns, exactly when the master switch is on, the user meets the rule of the audience in force, and the quote is positive and within the per-lot cap; nothing else changes |
| BuyoutDesk.Desk.ApproveBuyout | apps/buyback/guaranteed.py:83-128 | an approval goes through exactly when the master switch is on, the audience is not disabled, the row is requested by somebody else, the quote fits the cap, and with the quotes decided in the last 24 hours it fits the budget; only that row changes |
| BuyoutDesk.Desk.RejectBuyout | apps/buyback/guaranteed.py:132-143 | a requested buyout is rejected with officer and time, anything else is refused |
| BuyoutDesk.Desk.CancelBuyout | apps/buyback/guaranteed.py:146-155 | the seller alone withdraws a buyout, while it is requested |
| BuyoutDesk.Desk.MarkSettledManual | apps/buyback/guaranteed.py:158-171 | manual settlement needs an approved row of another seller and reconciliation switched off, and keeps the first 64 characters of the reference |
| BuyoutDesk.Desk.ReconcileSettlements | apps/buyback/guaranteed.py:182-219 | a run is the protocol's reconcile step; it answers only with switch, audience and reconciliation on, and then with the number of rows that turned settled |
| BuyoutDesk.Desk.WorkQueue | apps/buyback/guaranteed.py:195-219 | the loop with its growing set of spent references computes the sweep |
| BuyoutDesk.ApprovalUninterrupted | apps/buyback/guaranteed.py:103-128 | run without interruption, the protocol's approving steps commit exactly when no gate blocks and otherwise leave the tables alone |
| BudgetSafety.StepKeepsInv | apps/buyback/guaranteed.py:103-180 | every protocol step keeps the invariant: rows in order, approvals in time order, every approval within the budget it read, locks held by one worker, matches sound |
| BudgetSafety.RunKeepsInv | apps/buyback/guaranteed.py:103-180 | so does every interleaving |
| BudgetSafety.BudgetCeiling | apps/buyback/guaranteed.py:51-61 | at every instant t of every interleaving, the quotes committed in [t - 24h, t] sum to at most the daily budget read by the last approval in that window |
| BudgetSafety.NothingMovesWhileOff | apps/buyback/guaranteed.py:33-48 | unless the configuration in force has the master switch on and the audience not disabled, no request adds a row and no reconcile run changes one, and no approval that read such a configuration passes its check |
| BudgetSafety.CommitmentsPassedGates | apps/buyback/guaranteed.py:83-100 | every commitment of every run was approved under a configuration with the master switch on and the audience not disabled that was in force at some moment of the run, within its cap, officer and seller different |
| BudgetSafety.LockedRowStays | apps/buyback/guaranteed.py:103-128 | in every run a row locked by an approval stays as it is until that approval commits or gives up, whatever else happens but a reconcile run; giving up frees both locks |
| BudgetSafety.FreeRowMoves | apps/buyback/guaranteed.py:132-171 | a row no approval holds is rejected, withdrawn or settled by hand at once, whatever other rows are locked |
| BudgetSafety.DatedByStamp | apps/buyback/guaranteed.py:103-128 | the decision time on record is that of the stamp between check and commit, whatever happens until the commit |
| BudgetSafety.SettlementSafety | apps/buyback/guaranteed.py:174-219 | in every run each row settled through the wallet keeps the number of a journal entry that is a player donation to its seller's character, on or after the decision, of at least the quote and with its token; no two keep the same number, and the entries cover the quotes settled |
| BudgetSafety.RunEvolves | apps/buyback/guaranteed.py:103-180 | over any run seller and quote never change, a final row never moves again, and a commitment keeps its officer and time |
| BudgetSafety.StepEvolves | apps/buyback/guaranteed.py:106-127 | only a commit by the holder of the configuration lock turns a row into a commitment |
| BudgetSafety.StaleBudgetExact | apps/buyback/guaranteed.py:106-114 | an approval that read an earlier configuration is sure to fit the budget now in force exactly when that budget was not cut below the one read, or the old one approves nothing |
| BudgetSafety.StaleBudgetRun | apps/buyback/guaranteed.py:106-114 | there is a run in which 100 is committed under a budget of 10 |
| BudgetSafety.CommitFitsRead | apps/buyback/guaranteed.py:51-61 | at its commit an approval fits, with everything committed in the 24 hours before it, the budget it read |
| BudgetSafety.CommitFitsInForce | apps/buyback/guaranteed.py:103-128 | in every run in which nobody cuts the budget between an approval's read and its commit, the approval also fits the budget in force at its commit |
| ScanReport.ExtractVulns | scripts/image_scan_report.py:92-129 | the flattening loop with its set of seen keys computes the first occurrences |
| ScanReport.FirstOccurrencesExact | scripts/image_scan_report.py:105-129 | the records are exactly those of the first occurrence of each key: none missed, none taken from a later duplicate |
| ScanReport.RecordsShowAdvisories | scripts/image_scan_report.py:105-129 | each record shows id, package, version and link of its advisory, the severity in capitals, UNKNOWN when absent, and the non-blank fix versions in order; every first occurrence has its record |
| ScanReport.RecordsDistinct | scripts/image_scan_report.py:105-129 | no advisory is counted twice |
| ScanReport.SortSorts | scripts/image_scan_report.py:140-153 | sorting by the key puts the worst first |
| ScanReport.WorstFirst | scripts/image_scan_report.py:132-153 | critical before high, medium, low, unknown and anything else; at one severity those with a fix first; among equals image, id and package in the order of text |
| ScanReport.BuildDocument | scripts/image_scan_report.py:156-225 | the building loop over targets computes the specified document |
| ImageScan.ScanStore.IngestDocument | apps/admin_audit/image_scan.py:368-465 | a delivery writes no row exactly when it is nested too deep, its status is a list or object, or it is coherent with a stamp that is no time; every other one overwrites the row, incoherent ones with an error that counts nothing; the row is `ok` exactly for a document that scanned all its images and lists nothing |
| ImageScan.AcceptedIff | apps/admin_audit/image_scan.py:130-211 | both validators together accept exactly the documents whose counts, lists, status and completeness agree |
| ImageScan.StoredExactly | apps/admin_audit/image_scan.py:368-465 | an accepted document is stored with its own counts, the earlier of claimed and ingest time, and at most 100 findings with every field cut to its own length; any other as an error without counts |
| ImageScan.AcceptedCleanIff | apps/admin_audit/image_scan.py:166-241 | a stored `ok` is exactly a document that says ok and complete, has at least one image, scanned each, left none out, and counts and lists no finding |
| ImageScan.CleanMeansEverythingScanned | apps/admin_audit/image_scan.py:166-241 | behind a stored `ok` there is at least one image, every image was scanned, none was left out and nothing is listed |
| ImageScan.TruncatedIff | apps/admin_audit/image_scan.py:435-442 | the stored flag says exactly whether the stored list is shorter than the count |
| ImageScan.TruncatedWhen | apps/admin_audit/image_scan.py:276-292 | that is so exactly when the producer clipped the list, it is longer than a row holds, or a finding on it has no id |
| ImageScan.OkIsRecentAndClean | apps/admin_audit/dependency_audit.py:146-194 | reading `ok` at any time means the latest delivery that wrote a row was a complete zero-finding document ingested within the last 36 hours, whatever time it claimed |
| ImageScan.OkVouchesForLatestIff | apps/admin_audit/image_scan.py:146-147 | reading `ok` vouches for the latest delivery of all exactly when that delivery did not escape |
| ImageScan.EscapeLeavesOk | apps/admin_audit/image_scan.py:146-147 | a document whose status is a list, delivered after a clean one, leaves the control reading `ok` |
| ImageScan.OkUntil | apps/admin_audit/image_scan.py:299-316 | a row reads `ok` or vulnerable exactly when its document was clean or counted findings, until 36 hours after the earlier of ingest and claimed time, and unknown otherwise |
| ImageScan.UnknownStays | apps/admin_audit/dependency_audit.py:146-194 | once a row reads unknown it keeps reading unknown until the next delivery |
| ScanPipeline.TargetsSplit | scripts/image_scan_report.py:176-207 | targets split into those attempted with a report and the others, each in exactly one list, in order and shown with its own fields |
| ScanPipeline.CountsAddUp | scripts/image_scan_report.py:184-195 | the per-image counts add up to the totals |
| ScanPipeline.BuiltDocumentsAccepted | apps/admin_audit/image_scan.py:130-211 | every document the host can build passes both validators and is read back unchanged |
| ScanPipeline.BuiltTotals | scripts/image_scan_report.py:194-225 | totals are exact, at most 200 findings are listed and the flag says when there are more, and `complete` means a non-empty target list with every target scanned |
| ScanPipeline.VerdictIff | scripts/image_scan_report.py:228-240 | told from targets and reports: the exit code is incomplete exactly when there is no target or one was not scanned, findings exactly when all were scanned and some advisory, where first listed, names a fix, and clean otherwise |
| ScanPipeline.VerdictsAgree | scripts/image_scan_report.py:228-240 | a built document is stored unless its stamp is no time; then `ok` is stored exactly when the exit code is clean and nothing was found, that is when every target was scanned and no report lists an advisory, and an error is never stored for a clean exit |
| ScanPipeline.ClipsCompose | apps/admin_audit/tasks.py:385-390 | through the clips at 200, 100 and 50 a finding carries the least records of the whole scan in worst-first order, fields bounded |
| ScanPipeline.FixableKeptFirst | scripts/image_scan_report.py:140-153 | of the first fifty none is less severe than a dropped one, and within one severity none without a fix is kept while one with a fix is dropped |
| Findings.VulnIds | apps/admin_audit/tasks.py:140-158 | the loop computes the set of ids scoped by image |
| Findings.ScopedIdSameIff | apps/admin_audit/tasks.py:140-158 | with colon-free advisory ids two records have one identity exactly when advisory and image are the same |
| Findings.Board.SyncFinding | apps/admin_audit/tasks.py:206-304 | an error and a clean scan without a finding touch nothing; `opened` adds a new finding, exactly for a dirty scan without one; `cleared` supersedes the standing one, exactly for a clean scan; any other dirty scan refreshes it |
| Findings.RunKeepsOneOpen | apps/admin_audit/tasks.py:206-304 | over every history of scans and director actions each control has at most one open finding |
| Findings.ImageFindingClosesOnlyWhenClean | apps/admin_audit/tasks.py:206-304 | an open image finding leaves the open states exactly by a director's closing action or on an accepted document that is complete with zero findings and does not escape |
| Findings.ErrorsLeaveNoTrace | apps/admin_audit/tasks.py:247-252 | deleting every error scan from a history changes neither the final findings nor the other transitions |
| Findings.OpenedAndClearedAlternate | apps/admin_audit/tasks.py:206-304 | while nobody else closes findings, `opened` and `cleared` alternate, and a finding stands exactly after an odd number of them |
| Findings.RescanReportsTheMove | apps/admin_audit/tasks.py:277-295 | a re-scan reports unchanged, worsened or changed exactly as the id set moved, and only a move takes an acknowledgement back |
| Findings.RescanInAdvisories | apps/admin_audit/tasks.py:140-158 | in terms of advisories and images: unchanged when both lists name the same ones, worsened when some are only added, changed when one is gone from an image, even if another came |
| Findings.ScansWrite | apps/admin_audit/tasks.py:380-396 | after a scan with findings its control has a standing finding with the first fifty records and the scan's time, an image finding rated 80 when anything can be fixed and 60 otherwise |
| Findings.ActionsWrite | apps/recommendations/services.py:69-82 | a director acknowledges, actions or dismisses a standing finding only, and closing notes the time |
| HealthAlert.CollectProblems | apps/admin_audit/health_alert.py:65-121 | the collecting loops compute the problem list |
| HealthAlert.CollectedExact | apps/admin_audit/health_alert.py:65-121 | a problem is listed exactly for a stopped beat, a stale build, or an open finding of either control that lists anything |
| HealthAlert.SignatureIgnoresOrder | apps/admin_audit/health_alert.py:124-128 | the signature does not depend on the order problems were found in |
| HealthAlert.SignatureSameIff | apps/admin_audit/health_alert.py:124-128 | with labels free of the separator, two signatures are equal exactly when the same problems were found |
| HealthAlert.AscendingUnique | apps/admin_audit/health_alert.py:124-128 | the sorted arrangement behind it is unique |
| HealthAlert.Alerter.ScanIntegrationHealth | apps/admin_audit/health_alert.py:174-213 | an alert goes out exactly when the event is on, something is wrong, the signature is new and the broadcast is accepted; a refused, muted or repeated one leaves the state alone |
| HealthAlert.AlertedIff | apps/admin_audit/health_alert.py:174-213 | over every run, an alert is delivered exactly when enabled, alarmed and accepted, and the last alert since the last enabled healthy sweep had another signature |
| HealthAlert.AlertedForOtherProblemsIff | apps/admin_audit/health_alert.py:174-213 | the same in terms of what was found: the last alert since recovery was for other problems |
| HealthAlert.RefusedIsRetried | apps/admin_audit/health_alert.py:195-213 | after a refused broadcast the first accepted sweep of the same problems delivers |
| HealthAlert.JoinInjective | apps/admin_audit/health_alert.py:60-62 | texts free of the separator can be read back from their join |
| HealthAlert.ProblemSameIff | apps/admin_audit/health_alert.py:60-62 | with comma-free ids two findings raise the same problem exactly when they are of the same control and name the same advisories, in whatever images |
| HealthAlert.ChangedWithoutAlert | apps/admin_audit/health_alert.py:60-62 | an advisory patched in one image and present in another is a change without a new signature |
| HealthAlert.CommaHidesAChange | apps/admin_audit/health_alert.py:60-62 | with a comma inside an id two different sets read the same |
| BeatLock.Cache.Add | apps/campaigns/tasks.py:47-49 | the lock is taken exactly when no live entry is there |
| BeatLock.Cache.ReleaseLock | apps/campaigns/tasks.py:26-34 | with nobody in between, a release deletes the owner's own live lock only |
| BeatLock.OneUnexpiredRun | apps/campaigns/tasks.py:18-34 | at most one active run is within its own TTL, as long as none let it lapse between compare and delete |
| BeatLock.MutualExclusion | apps/campaigns/tasks.py:47-59 | when every run finishes its release before its TTL elapses, at most one run is between add and delete |
| BeatLock.MismatchNeverDeletes | apps/campaigns/tasks.py:26-34 | a run whose compare saw another token never deletes the lock, however late it is |
| BeatLock.ForeignTakeIff | apps/campaigns/tasks.py:29-34 | while the other runs release in time, a release takes a foreign lock exactly when its own TTL lapsed after its compare and somebody holds a live lock at its delete |
| BeatLock.LateDeleteBreaksExclusion | apps/campaigns/tasks.py:29-34 | there is a run of that kind, and in it two runs then work side by side within their TTL |
| TaskRollup.OnlyTransitionsRecord | apps/campaigns/signals.py:45-86 | undisturbed since its read, a save into a terminal status adds an activity exactly when the task was not in that status already, and a check exactly when it is done besides; re-saving a terminal task records nothing |
| TaskRollup.OnlyCommitsShow | apps/campaigns/signals.py:65-86 | what a transaction saved and recorded shows when it commits, all at once, and never when it is given up |
| TaskRollup.OneWriterPerRow | apps/campaigns/signals.py:27-42 | in no run have two open transactions written the same task |
| TaskRollup.MarkerFollowsLastDone | apps/campaigns/signals.py:77-112 | once a move to done commits, then while no linked task is active a check is still waiting or under way, or the marker was recorded after that commit |
| TaskRollup.MarkerOnlyWhenRolledUp | apps/campaigns/signals.py:89-112 | markers come from checks that have made both queries, and from nothing else |
| TaskRollup.CheckGoesOnIff | apps/campaigns/signals.py:102-112 | a check goes on after its first query exactly when every task of its objective is done or cancelled, and after its second exactly when one is done; otherwise it ends and records nothing |
| TaskRollup.MarkersAreTrue | apps/campaigns/signals.py:102-112 | every marker of every run was recorded by a check at whose own first query every task of the objective was done or cancelled, and at whose own second query, later, one was done |
| TaskRollup.MarkerOverActiveIff | apps/campaigns/signals.py:102-112 | a marker is recorded while a task is neither done nor cancelled exactly when, since its check's first query, a commit left a task of the objective open, claimed or in progress that no later commit has touched |
| TaskRollup.MarkerOverActiveRun | apps/campaigns/signals.py:102-112 | there is such a run |
| TaskRollup.ReadStaysTrue | apps/campaigns/signals.py:27-42 | undisturbed, the status read before the save is still the status at the save |
| TaskRollup.CheckRegisteredIff | apps/campaigns/signals.py:58-62 | undisturbed, a save as done registers a check exactly when the task was not done already |
| TaskRollup.StaleReadMissesMarker | apps/campaigns/signals.py:27-62 | with a stale read all linked tasks end up done and no marker follows |
| Calendar.Board.PublishEvent | apps/pingboard/calendar.py:65-131 | an upsert of one row: a new one with the content; of an old one every locked field, the tier and, when retracted for good, everything stays |
| Calendar.Board.CancelEvent | apps/pingboard/calendar.py:169-190 | exactly the named row is cancelled |
| Calendar.Board.CancelCampaign | apps/campaigns/calendar.py:115-124 | every row the campaign owns is cancelled, no other |
| Calendar.Board.PublishCampaign | apps/campaigns/calendar.py:80-112 | the loop publishes window and open milestones and retires the campaign's other rows; a restricted campaign is cancelled instead |
| Calendar.Board.Sync | apps/campaigns/calendar.py:170-217 | the sweep does nothing with the feature off; with it on it publishes every qualifying campaign, retires every other row of this source, and answers how many it published |
| Calendar.LiveAfterSync | apps/campaigns/calendar.py:170-217 | the live keys are exactly windows with a start date and due open milestones of campaigns that are active, or approved and dated, and not restricted, less rows retracted for good; other sources are untouched |
| Calendar.RowsShowCampaign | apps/campaigns/calendar.py:50-112 | after a sweep and after its own publish every such key has a row upserted with the campaign's name and dates or the milestone's title and date, under the tier of its visibility |
| Calendar.RestrictedShowsNothing | apps/campaigns/calendar.py:31-47 | a restricted campaign has nothing live after a sweep or after its own publish |
| Calendar.SyncIdempotent | apps/campaigns/calendar.py:170-217 | a second sweep changes nothing |
| Calendar.PublishThenSync | apps/campaigns/calendar.py:80-112 | publishing a qualifying campaign first makes no difference to what the sweep leaves |
| Calendar.WindowOutlivesStartDate | apps/campaigns/calendar.py:95-112 | without a start date, publishing keeps the old window as it was and the sweep retires it |
| Calendar.TierIsFixedAtCreation | apps/campaigns/calendar.py:50-61 | a row shows the tier of the present visibility exactly when it is new or was created under that tier |
| PasteParser.LowerSameIff | apps/buyback/appraisal.py:73-78 | two names are merged exactly when they are the same text with each letter in either case |
| PasteParser.ParseLine | apps/buyback/appraisal.py:58-72 | a line yields an entry exactly when it is not blank, with a non-empty name and a quantity of at least one within the cap |
| PasteParser.ParseLines | apps/buyback/appraisal.py:54-78 | the loop over its dictionary and order list computes the merged entries of the first 500 lines |
| PasteLaws.MergedExact | apps/buyback/appraisal.py:73-78 | one row for each item mentioned, whatever the spelling, at the place of its first entry, with all its units; no unit is lost or invented |
| PasteLaws.MergedConserves | apps/buyback/appraisal.py:73-78 | merging conserves the total quantity |
| PasteLaws.SplittingIsInvisible | apps/buyback/appraisal.py:73-78 | one stack listed as two entries merges to the same rows |
| PasteLaws.ReorderingKeepsTotals | apps/buyback/appraisal.py:73-78 | entries in another order mention the same items with the same totals |
| PasteFormats.SpacedLine | apps/buyback/appraisal.py:34-72 | a clean name, blanks, an optional x and a quantity are read as that name and quantity whatever the name contains; a token of zeros makes the line a bare name |
| PasteFormats.BareLine | apps/buyback/appraisal.py:66-72 | a clean name that does not end like a number is read as one of that item |
| PasteFormats.BlankLineIff | apps/buyback/appraisal.py:58-60 | a line says nothing exactly when it has only blanks, each kind of blank listed |
| PasteFormats.QuantityHasAmount | apps/buyback/appraisal.py:34-72 | a clean line without tabs counts more than one of an item only by an amount at its end, digit first, behind a gap and at most one x |
| PasteFormats.ColumnsLine | apps/buyback/appraisal.py:61-65 | with tabs the first column is the name, and the first later column that shows a positive quantity gives it, one if none does |
| PasteFormats.TabbedLine | apps/buyback/appraisal.py:62-65 | a name and a second column that shows a quantity are read as those, whatever columns follow |
| PasteFormats.NumeralReading | apps/buyback/appraisal.py:44-51 | a printed quantity reads as itself |
| PasteFormats.SeparatorsVanish | apps/buyback/appraisal.py:44-51 | any other character inside a quantity is dropped, a decimal point too |
| PasteFormats.ManifestRoundTrip | apps/buyback/appraisal.py:54-78 | a manifest of distinct items printed in any mix of layouts is read back unchanged |
| Appraisal.ResolveTypes | apps/buyback/appraisal.py:146-176 | the batch finds for every name what a per-name lookup finds: the lowest type id of that name in any case |
| Appraisal.Lookup | apps/buyback/appraisal.py:160-164 | the single-name lookup finds the lowest type id, or nothing when no type has the name |
| Appraisal.UnitValue | apps/buyback/appraisal.py:195-236 | the memoised price loop yields the unit price the market gives |
| Appraisal.Appraise | apps/buyback/appraisal.py:179-250 | the whole computation yields the specified lines, unknown names and rounded totals |
| AppraisalLaws.QNear | apps/buyback/appraisal.py:126-127 | rounding is off by at most half a cent, lands on a whole cent, and leaves whole cents alone |
| AppraisalLaws.HalvesGoUp | apps/buyback/appraisal.py:126-127 | a half cent is rounded away from zero |
| AppraisalLaws.YieldIsClamped | apps/buyback/appraisal.py:188-191 | whatever yield is configured, refined ore never counts for more than its whole mineral content |
| AppraisalLaws.LineIsWorth | apps/buyback/appraisal.py:130-244 | every line of every appraisal prices a resolved row: its total is within half a cent of the exact unit price times the row's quantity, its offer within half a cent of the rate of that; the unit price is the recorded sell price, failing that the base price, failing that nothing, and for ore in ore mode the minerals' worth over the portion size times the yield held between 0 and 1 |
| AppraisalLaws.LineIsFair | apps/buyback/appraisal.py:237-244 | at a rate within bounds and prices not negative, total and offer are whole cents and 0 <= offer <= total |
| AppraisalLaws.UnitShown | apps/buyback/appraisal.py:213-244 | the unit price shown is within half a cent of the exact one, only the Asteroid category is ever refined, and everything else is at its market price |
| AppraisalLaws.TradedLineIgnoresBase | apps/buyback/appraisal.py:130-143 | where the market has every price a line draws on, of each mineral in ore mode, no change of base prices changes the line |
| AppraisalLaws.AppraisalIsFair | apps/buyback/appraisal.py:245-250 | the final rounding changes nothing, 0 <= offer total <= Jita total, and the offer total misses the rate by at most half a cent a line, in ore mode too |
| AppraisalInvariance.SpellingIsInvisible | apps/buyback/appraisal.py:203-208 | names that differ only in case name the same type |
| AppraisalInvariance.OrderIsInvisible | apps/buyback/appraisal.py:54-250 | within the line cap, pasting the same lines in another order gives the same two totals |
| AppraisalInvariance.SplitStackIsInvisible | apps/buyback/appraisal.py:54-78 | one stack pasted as two lines, in any layout and case, gives the same appraisal line for line |
| AppraisalInvariance.EveryUnitIsCounted | apps/buyback/appraisal.py:108-110 | every merged row is a line or an unknown name, and with none unknown the appraisal counts every unit pasted |
| LotBoard.Row.BuyOffer | apps/buyback/views.py:196-212 | a lot is bought exactly when it is open and not the buyer's own |
| LotBoard.Row.OfferAction | apps/buyback/views.py:229-253 | a lot is cancelled from open or purchased by its seller or an officer, paid from purchased by buyer, seller or an officer, and otherwise left alone |
| LotBoard.BeginsIff | apps/buyback/views.py:196-253 | a request gets as far as its write exactly when the lot as read and the user allow it, and will then write just that |
| LotBoard.StepIsSound | apps/buyback/views.py:196-253 | every step of every request keeps buyer and status consistent and never moves a lot backwards |
| LotBoard.OneBuyerForGood | apps/buyback/views.py:203-212 | however requests interleave, the buyer is set at most once, never changes, is never the seller, and the lot never returns to open |
| LotBoard.SettledCanChangeIff | apps/buyback/views.py:229-253 | a settled lot can change in some continuation exactly when a save of another status is already under way; nothing that begins later can change it |
| LotBoard.SettledForGood | apps/buyback/views.py:229-253 | with each settling request in one piece, paid and cancelled are final |
| LotBoard.PaidThenCancelled | apps/buyback/views.py:229-253 | otherwise a paid lot can end up cancelled |
| RoleConsole.Console.ApplyGrant | apps/admin_audit/console.py:360-370 | a grant is created, or its expiry and granter replaced when the expiry differs |
| RoleConsole.Console.SetRole | apps/admin_audit/console.py:376-432 | exactly member, officer, director, recruiter and fc are managed; a director grant only ever becomes one pending request; the last director is not revoked; each answer comes exactly in its case with exactly its change, and a refusal changes nothing |
| RoleConsole.Console.RoleRequestDecide | apps/admin_audit/console.py:461-491 | a request is decided exactly when it is pending and not approved by its own requester, superusers excepted; approval grants what was asked for, rejection grants nothing |
| RoleLaws.EachDirectorGrantHasItsOwnApproval | apps/admin_audit/console.py:461-491 | in every run each director grant comes from a pending request of its own for that user, decided once and for good by a second person unless a superuser |
| RoleLaws.RunKeepsRequests | apps/admin_audit/console.py:391-402 | requests are for director grants only, what was asked never changes, and a decision is final |
| RoleLaws.UnmanagedRolesUntouched | apps/admin_audit/console.py:46-51 | in every run everybody has the admin role, and any role the list does not know, exactly when they had it at the start, with the same expiry and granter |
| RoleLaws.RevokeLeavesOne | apps/admin_audit/console.py:412-424 | a revoke of a director, as one step, leaves at least one director whose grant has not lapsed |
| RoleLaws.LastDirectorLostIff | apps/admin_audit/console.py:360-491 | a submission leaves no director exactly when it approves, after its expiry, a request for the only one there is |
| RoleLaws.LateApprovalExample | apps/admin_audit/console.py:461-491 | there is a run of two submissions by directors that ends so |
| RoleRaces.UninterruptedRevoke | apps/admin_audit/console.py:412-424 | count and delete without interruption are the console's revoke |
| RoleRaces.FloorHolds | apps/admin_audit/console.py:412-424 | in every run with count and delete as separate steps, as long as at most one revoke at a time is between them and no director lapses meanwhile, a revoke leaves a director |
| RoleRaces.PendingCanEmptyIff | apps/admin_audit/console.py:412-424 | the deletes still pending can leave no director exactly when every current director is named by a revoke already past its count |
| RoleRaces.LapseEmptiesTheBoard | apps/admin_audit/console.py:412-424 | a single revoke can leave none when the other director lapses between its count and its delete |
| RoleRaces.TwoRevokesEmptyTheBoard | apps/admin_audit/console.py:412-424 | in a run of two overlapping revokes each counts two directors, and none is left |
| FixtureClosure.NewSkills | scripts/tochas_lab_extract_fixture.py:68-81 | one round finds exactly the skills not yet in the set that the frontier leads to |
| FixtureClosure.Closure | scripts/tochas_lab_extract_fixture.py:65-83 | the worklist stops on every graph, cycles included, and returns the least closed set with the named types, which is exactly what they reach |
| FixtureClosure.ClosedIff | scripts/tochas_lab_extract_fixture.py:65-83 | closed under both tables means that nothing leads out |

## Left out

- HTTP views, forms, messages, redirects, translation, permission decorators, notifications and audit logging around the modelled functions.
- ESI, Docker, trivy, pip-audit, Celery, Redis and the ORM; tables, row locks, the TTL cache and the after-commit hook are modelled as the properties use them.
- JSON and date parsing: documents are typed records whose fields may be missing, and a claimed time is an optional instant. Fix versions are taken already split at their commas.
- Unicode case folding and digits: case folding and digits are those of ASCII. Line splitting and the cap of 50 000 characters come before the model's list of lines.
- Findings.RunKeepsOneOpen: a sync is one step, while the lookup and the create of `_sync_finding` are two with no lock or constraint, so overlapping scans of one control are not covered.
- A delivery that fails in the database, and the shape of document texts beyond the fields modelled.
- Calendar sweeps and publishes, health scans and the submissions of the role console other than director revokes are one step each.
- Overlapping reconcile runs: a run is one atomic step, since its used references and its queue are two queries.
- BudgetSafety.RunEvolves: for the same reason a switch to manual settlement and a manual settlement in the middle of a run are not covered; the run has read its configuration by then and `_settle` does not check the status again, so it can overwrite that settlement.
- Ties in decision time and entry date, which the database leaves open: the first listed row wins.
- Deletion of users, which empties seller, buyer and decider columns, and deletion of objectives and campaigns under their soft links.
- The 28 digit context of decimal arithmetic, volumes, and the timestamp of the oldest price in an appraisal.
- Image and unscannable records stored in a scan row (clipped at 40) and the texts of summaries, recommendations and alerts.
- Descriptions, event types and reminder ladders of calendar rows, and the fail-soft wrappers around calendar calls.
- The feature flag and the audience rules of the services, beyond the guards the modelled functions read.
- `rate_for`, `savings_vs_jita` and the other one-line properties of the models.
- The queries of the fixture extractor after its closure loop. Type ids are naturals.
