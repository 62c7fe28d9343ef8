# Chain-move: a verified model of its state machines

Chain-move finances vehicles: drivers apply for loans, investors fund them, admins check identities.
This project models six pieces of its logic in Dafny and proves what they keep. `dafny verify
dfyconfig.toml` checks everything.

| files | what they model |
|---|---|
| `IntegrityStore`, `IntegrityRepair`, `IntegrityOrder`, `IntegrityChecker`, `IntegrityReports` | the script that finds and repairs impossible combinations of loan, vehicle and investment states |
| `KycText`, `KycModel`, `KycAction`, `KycLaws`, `KycRuns` | the two-stage identity check of drivers and investors |
| `LedgerModel`, `LedgerRuns`, `LedgerLaws` | the platform reducer's users, loans, approvals and releases |
| `SweeperModel`, `Sweeper`, `SweeperLaws` | the budgeted pass that extends the life of Soroban contracts |
| `ToastModel`, `ToastStore`, `ToastRuns`, `ToastLaws` | the toast store and its removal timers |
| `PipelineSemantics`, `RiskReports` | the aggregation pipelines behind two risk reports |
| `Options`, `Sequences` | notions that the others share |

**Integrity.** The script is a class over three maps. Each of its loops runs over a query result in an
arbitrary order while it writes to the store that later loops read. Every loop is proved to make one
phase, a function from store to store, and to report its defects; the ten phases are proved equal to
`Repaired`, which gives each document's final fields by conditions on the starting store. From that
follow convergence in one pass, exact accounting of the findings, and the reasons for the order of the
phases. Two loops that differ only in the statuses they name share one method (`CheckHeld`,
`CheckOrphans`).

**KYC.** The server action is written twice: as the nested branches of the source, assigning fields in
place, and as a table of transitions (what a request names, what stands in its way, what it does). The
first is proved to take the decisions of the second, and the theorems are about runs of the second. A
date is a day number; today is an argument; the check of a document reference is an arbitrary
predicate.

**Ledger, sweeper, toasts, pipelines.** The reducer is a function over events with a clock reading.
The sweeper's network is an arbitrary script of answers per asset. The toast store keeps the timeout map
apart from the callbacks that have been scheduled, which may run in any order, at any time; a run is
well behaved if its updates leave `open` alone, it dismisses only toasts that were shown, and it shows
no more toasts than the counter has ids. Pipelines have a semantics that says which outputs a collection
may produce, and the built pipelines are proved to produce the documented reports.

Properties that turned out false of the code are stated with the exact condition under which they hold
and an input at which they fail:

| property | holds iff | fails at |
|---|---|---|
| the repair spares the vehicle of a healthy Active loan | `FinancedSurvivesIff` | `HealthyLoanCanLoseItsVehicle` |
| a verified driver passed stage 1 | `VerifiedPassedStageOneIff` | `ShortcutToVerified` |
| a verified driver has documents | `DocumentsOnRecord` | `ShortcutToVerified` |
| progress is 100 iff nothing remains | `FullIffNothingRemains` | `NothingRemainsAtNoProgress` |
| the signed-in user's balance is the one in the list | `CurrentUserLags` | `BalanceCanGoStale` |
| the projected rent stays within the budget | `ProjectionWithinBudgetIff` | `DryRunCanOverrun` |
| a toast is closed iff its timer is running | `StepAgreesIff`, `RunAgreesIff` | `UpdatesCanBreakTimers`, `EarlyDismissalDooms`, `OneTooManyDooms` |

Each model has its laws: what an operation does, said in the fields of the documents, the request or the
answers alone, so that the definitions the theorems are built on are themselves held to something.

## Model

| member | source | states |
|---|---|---|
| IntegrityRepair.PassIsRepaired | scripts/check-state-machine-integrity.ts:40-264 | A repair run computes one closed-form function of the starting store, given in the fields of its documents: each loan's, vehicle's and investment's final fields by quantified conditions on the initial collections |
| IntegrityRepair.ClassesAfterDemotion | scripts/check-state-machine-integrity.ts:43-79 | After the loan demotions a vehicle has an Active loan iff it had a paid and funded one, and an in-progress loan iff it had one or had a demoted one; completed and closed loans are as before |
| IntegrityRepair.RepairConverges | scripts/check-state-machine-integrity.ts:268-294 | One pass establishes every repairable cross-collection condition, from any store |
| IntegrityRepair.FixedIffCoherent | scripts/check-state-machine-integrity.ts:268-294 | The stores a repair leaves alone are exactly the coherent ones; a second repair changes nothing; unknown statuses stay |
| IntegrityRepair.CoherentIffClean | scripts/check-state-machine-integrity.ts:43-261 | The cross-collection conditions, stated on the fields of the documents, hold iff none of the nine sets of repairable defects has a member |
| IntegrityRepair.RepairsAreAccounted | scripts/check-state-machine-integrity.ts:49-261 | The number of writes equals the drop of the potential (Active loans, vehicles in use, driven Retired vehicles, Active investments), and is zero iff the store is coherent |
| IntegrityOrder.RepairKeeps | scripts/check-state-machine-integrity.ts:56-260 | No document appears or disappears; loans only go from Active to Approved with all else kept; vehicles only become Available without driver or lose a driver; investments only leave Active |
| IntegrityOrder.ActiveSurvivesIff | scripts/check-state-machine-integrity.ts:43-79 | An Active loan survives a repair iff its down payment was made and it is not funded below its request; it then stays as it was and is Approved with all else kept otherwise |
| IntegrityOrder.FinancedSurvivesIff | scripts/check-state-machine-integrity.ts:81-165 | A Financed vehicle keeps its status iff it has a paid and funded Active loan and no Completed one |
| IntegrityOrder.ReservedSurvivesIff | scripts/check-state-machine-integrity.ts:102-191 | A Reserved vehicle keeps its status iff it has no Rejected or Cancelled loan and has an in-progress or just demoted one |
| IntegrityOrder.HealthyLoanCanLoseItsVehicle | scripts/check-state-machine-integrity.ts:81-100 | A store in which the repair frees the Financed vehicle of a paid and funded Active loan |
| IntegrityOrder.LoansFirstLeavesNoOrphan | scripts/check-state-machine-integrity.ts:272-273 | After the loan and vehicle checks no Financed vehicle lacks an Active loan |
| IntegrityOrder.VehiclesFirstStrandsIff | scripts/check-state-machine-integrity.ts:272-273 | With the two checks swapped, exactly the Financed vehicles whose Active loans are all defective and which no Completed loan frees would be left without an Active loan |
| IntegrityOrder.VehiclesFirstCanStrand | scripts/check-state-machine-integrity.ts:272-273 | A store that the swapped checks would leave with a Financed vehicle and no Active loan |
| IntegrityOrder.CompletedLoanSettles | scripts/check-state-machine-integrity.ts:221-242 | An Active investment of a Completed loan ends Completed, even if the run reopened its vehicle's funding |
| IntegrityOrder.ReturnFirstLosesCompletion | scripts/check-state-machine-integrity.ts:221-261 | With the investment checks swapped, such an investment would end in Funding if its vehicle was open for funding or bought out |
| IntegrityOrder.ReturnFirstCanReopen | scripts/check-state-machine-integrity.ts:221-261 | A store whose investment the run completes and the swapped checks would reopen |
| IntegrityOrder.InvestmentOrderMattersIff | scripts/check-state-machine-integrity.ts:221-261 | The order of the investment checks matters iff some Active investment of a Completed loan sits on a vehicle open for funding |
| IntegrityChecker.Find | scripts/check-state-machine-integrity.ts:44-47 | A query returns exactly the matching documents, once each, in an arbitrary order |
| IntegrityChecker.Checker.CheckUnpaid | scripts/check-state-machine-integrity.ts:43-60 | Demotes (in repair mode) and reports once each exactly the Active loans without a down payment |
| IntegrityChecker.Checker.CheckUnderfunded | scripts/check-state-machine-integrity.ts:62-79 | The same for the Active loans whose total is below the request |
| IntegrityChecker.Checker.CheckHeld | scripts/check-state-machine-integrity.ts:81-123 | Frees exactly the vehicles held by finished or closed loans; repair mode reports one loan per vehicle, report mode every loan |
| IntegrityChecker.Checker.CheckUnknown | scripts/check-state-machine-integrity.ts:125-131 | Reports once each exactly the loans whose status is none of the seven known ones |
| IntegrityChecker.Checker.CheckOrphans | scripts/check-state-machine-integrity.ts:141-191 | Frees and reports once each exactly the vehicles in use without a loan that justifies it |
| IntegrityChecker.Checker.CheckRetired | scripts/check-state-machine-integrity.ts:193-209 | Unsets and reports once each exactly the drivers of Retired vehicles |
| IntegrityChecker.Checker.CheckLoanOver | scripts/check-state-machine-integrity.ts:221-242 | Settles and reports once each exactly the Active investments whose loan is Completed, Rejected or Cancelled |
| IntegrityChecker.Checker.CheckVehicleOpen | scripts/check-state-machine-integrity.ts:244-261 | Returns to Funding and reports once each exactly the Active investments on vehicles open for funding |
| IntegrityChecker.Checker.CheckLoans | scripts/check-state-machine-integrity.ts:40-134 | The five loan checks in sequence, each on the store its predecessors wrote |
| IntegrityChecker.Checker.CheckVehicles | scripts/check-state-machine-integrity.ts:138-214 | The three vehicle checks in sequence |
| IntegrityChecker.Checker.CheckInvestments | scripts/check-state-machine-integrity.ts:218-264 | The two investment checks in sequence |
| IntegrityChecker.Checker.Run | scripts/check-state-machine-integrity.ts:268-294 | Repair mode ends in the closed form, report mode changes nothing; the findings are the ten logs in order; the exit code is 1 iff report mode found something |
| IntegrityChecker.RepairFindingsAreAccounted | scripts/check-state-machine-integrity.ts:33-36 | A repair run's findings number the drop of the potential plus the unknown statuses |
| IntegrityChecker.RepairReportsNoMore | scripts/check-state-machine-integrity.ts:81-123 | Of a repair run and a report run on the same store, the repair run never reports more loans that hold on to a Financed or a Reserved vehicle, and reports as many iff no two such loans share a vehicle |
| IntegrityChecker.LoanChecksReportNoMore | scripts/check-state-machine-integrity.ts:40-134 | The same of the five loan checks together: equally many findings iff, besides, no loan is both unpaid and underfunded |
| IntegrityChecker.ReportIsSoundAndComplete | scripts/check-state-machine-integrity.ts:279-288 | Report mode finds nothing iff all ten conditions hold |
| IntegrityChecker.SecondRunReportsOnlyUnknown | scripts/check-state-machine-integrity.ts:268-294 | After a repair, a run in either mode reports the starting store's unknown statuses once each and nothing else |
| IntegrityReports.LoansReportSays | scripts/check-state-machine-integrity.ts:40-134 | Report mode names, once each and with the values on record, exactly the unpaid and the underfunded Active loans, the Completed loans of Financed vehicles, the Rejected and Cancelled loans of Reserved ones, and the loans of unknown status |
| IntegrityReports.VehiclesReportSays | scripts/check-state-machine-integrity.ts:138-214 | Report mode names exactly the Financed vehicles without an Active loan, the Reserved ones without an application, and the Retired ones with a driver |
| IntegrityReports.InvestmentsReportSays | scripts/check-state-machine-integrity.ts:218-264 | Report mode names exactly the Active investments of loans that are over and those on vehicles open for funding |
| IntegrityReports.LoansRepairSays | scripts/check-state-machine-integrity.ts:43-131 | Repair mode names an underfunded loan only if it is paid; unpaid and unknown ones as in report mode |
| IntegrityReports.BoughtOutSay | scripts/check-state-machine-integrity.ts:81-100 | Repair mode names one Completed loan for each Financed vehicle that has any |
| IntegrityReports.DeclinedSay | scripts/check-state-machine-integrity.ts:102-123 | Repair mode names one Rejected or Cancelled loan for each Reserved vehicle that has any |
| IntegrityReports.VehiclesRepairSays | scripts/check-state-machine-integrity.ts:138-214 | Repair mode names the Financed vehicles that were neither bought out nor had an Active loan in order, and the Reserved ones with no declined, awaited or demoted loan |
| IntegrityReports.InvestmentsRepairSays | scripts/check-state-machine-integrity.ts:218-264 | Repair mode names an investment for its loan, or else for a vehicle that was open for funding or bought out |
| KycText.NormalizeReason | actions/user.ts:48-52 | A kept reason is a start of the trimmed text, has 1 to 500 characters and no space in front |
| KycText.SpacesAre | actions/user.ts:48-52 | What trimming removes, by code point |
| KycText.ReasonIsKeptIff | actions/user.ts:48-52 | A reason is kept iff it holds anything but spaces, and is cut only at 500 characters |
| KycText.SanitizeKeepsUsable | actions/user.ts:39-46 | At most ten documents are kept, all trimmed, not empty and supported; cleaning them again changes nothing |
| KycText.SanitizeStoresPicked | actions/user.ts:39-46 | The documents kept are those picked, trimmed, in the order given |
| KycText.PickedAreFirst | actions/user.ts:39-46 | A document is picked iff it is acceptable once trimmed and not behind ten others that are |
| KycAction.UserDocument.constructor | models/User.ts:137-183 | A new user has the schema's KYC defaults |
| KycAction.UserDocument.UpdateAsOwner | actions/user.ts:251-308 | The owner's branches take exactly the decided transition on the fields, or refuse with the decided message and change nothing |
| KycAction.UserDocument.UpdateInvestor | actions/user.ts:310-339 | The same for an admin acting on an investor |
| KycAction.UserDocument.UpdateDriver | actions/user.ts:340-426 | The same for an admin acting on a driver |
| KycAction.UserDocument.UpdateMeeting | actions/user.ts:366-426 | The same for an admin deciding on a meeting |
| KycAction.UserDocument.ConcludeMeeting | actions/user.ts:396-426 | The same for an admin concluding a meeting |
| KycAction.UpdateUserKycStatus | actions/user.ts:209-482 | Missing session, actor and user are refused in that order; so is anybody but the owner and admins; a refused call leaves the user unchanged; an accepted one makes the decided transition, builds its notification, and publishes a verdict iff there is one: rejected, approved or review by the status reached |
| KycLaws.OutsidersAreRefused | actions/user.ts:246-249 | A call that is neither the owner's nor an admin's is refused and changes nothing |
| KycLaws.OwnersOnlySubmitAndSchedule | actions/user.ts:246-308 | All that an owner changes is by submitting after nothing or a rejection, or by asking for a meeting after stage 1 |
| KycLaws.OnlyAdminsDecide | actions/user.ts:309-426 | Only an admin brings a record to a status other than pending |
| KycLaws.OwnerIsAcceptedIff | actions/user.ts:246-308 | Exactly when a call by somebody who is not an admin is accepted |
| KycLaws.AdminOnInvestorIsAcceptedIff | actions/user.ts:310-339 | Exactly when an admin's call on an investor is accepted |
| KycLaws.AdminOnStageOneIsAcceptedIff | actions/user.ts:340-365 | Exactly when an admin's call on a driver without a meeting is accepted |
| KycLaws.AdminOnMeetingIsAcceptedIff | actions/user.ts:366-423 | Exactly when an admin's call on a driver's meeting is accepted |
| KycLaws.AcceptedCallsFollow | actions/user.ts:251-426 | What statuses, documents, date, reason and flags an accepted call leaves, by the statuses it asks for |
| KycLaws.RefusalsAreTrue | actions/user.ts:241-429 | Every refusal gives a reason that holds of the caller, the request and the record |
| KycLaws.InvestorNotices | actions/user.ts:106-143 | An investor is told of a submission, and of the approval or rejection of a pending one |
| KycLaws.DriverNotices | actions/user.ts:145-207 | A driver is told of exactly the first of seven things that happened, stage 1 before the meeting |
| KycRuns.RunIsSound | actions/user.ts:246-426 | Over every run from the defaults: both flags are equal and true iff fully approved, a date is set iff a meeting is, a reason iff rejected, at most ten documents, some whenever pending or for any investor past submission, and the statuses pair up |
| KycRuns.OutsidersChangeNothing | actions/user.ts:246-249 | Over every run of calls by others than the owner and admins the record stays as it is |
| KycRuns.OwnersOnlyGetToPending | actions/user.ts:251-308 | Without any admin a run stays unsubmitted or pending |
| KycRuns.VerifiedDriverMet | actions/user.ts:366-405 | The last two accepted calls of a run that ends with a fully approved driver are the approval and the completion of a meeting, and the approved date is on record |
| KycRuns.VerifiedIsFinal | actions/user.ts:251-423 | Full approval is absorbing: over every later run each call is refused and the record stays as it is |
| KycRuns.DocumentsOnRecord | actions/user.ts:424-426 | The documents on record are those of the last accepted call that stored any; there are none iff no accepted call did |
| KycRuns.VerifiedPassedStageOneIff | actions/user.ts:366-382 | A fully approved driver passed stage 1 iff no meeting was approved before stage 1 was |
| KycRuns.ShortcutToVerified | actions/user.ts:366-405 | Two admin calls fully approve a driver without documents and without stage 1 |
| KycRuns.DistanceIsNeeded | actions/user.ts:251-423 | No run reaches full approval in fewer calls than the distance of its starting record |
| KycRuns.VerifiedIsReachableIff | actions/user.ts:251-423 | From a sound record full approval can be reached iff some document is usable or none is needed any more; the least number of calls is then the distance, at most three |
| KycRuns.ReachablePairs | actions/user.ts:235-429 | The reachable pairs of statuses are exactly nine for drivers and four for investors; where no document is usable, exactly those among them without submission or with a meeting |
| KycRuns.NoticesMatchTransitions | actions/user.ts:89-207 | From a sound record each accepted transition gets its own notification; only scheduling, and approving a meeting that was not scheduled, get none |
| LedgerRuns.LoansEvolveAlone | contexts/platform-context.tsx:282-356 | While the list is not replaced, a loan in it evolves as if alone |
| LedgerLaws.ApprovalIsRecorded | contexts/platform-context.tsx:307-337 | An approval appends one dated entry in the investor's name to the loans of that id, with their totals, and is paid by the users under either of his ids; nothing else changes |
| LedgerLaws.ShareIsExact | contexts/platform-context.tsx:307-356 | Over any run an investor's share of a loan's approvals grows by exactly the approvals in his name addressed to it |
| LedgerLaws.ReleaseIsRecorded | contexts/platform-context.tsx:339-356 | A release turns exactly that investor's Approved entries on the loans of that id to Released, dated |
| LedgerLaws.ReleaseReachesAll | contexts/platform-context.tsx:307-356 | On a loan that starts without approvals, a release after any run releases all that was approved in the investor's name and leaves none of it waiting |
| LedgerLaws.RunReleaseReachesAll | contexts/platform-context.tsx:282-356 | The same of a loan in the list, over runs of the whole state |
| LedgerLaws.StatusIsRecorded | contexts/platform-context.tsx:289-305 | A status update sets status and notes of the loans of that id, and dates a review and an approval |
| LedgerLaws.LastReviewCounts | contexts/platform-context.tsx:289-305 | Over any run a loan has the status, notes and date of the last update addressed to it |
| LedgerLaws.UserUpdatesAreRecorded | contexts/platform-context.tsx:400-431 | Changes of role and balance reach exactly the users under either id; a balance also the signed-in user |
| LedgerLaws.ReplacementsAreRecorded | contexts/platform-context.tsx:238-287 | Replaced lists, added loans and the signed-in user are as given, and the rest stays |
| LedgerRuns.FundingIsExact | contexts/platform-context.tsx:307-328 | Over any run a loan's total is its initial total plus the approvals addressed to it, and its gap to the sum of its approval list is constant |
| LedgerRuns.DerivedFromFirstApproval | contexts/platform-context.tsx:324-326 | From the first approval on, progress and remainder are the intended functions of the total |
| LedgerRuns.RemainderMatchesProgress | contexts/platform-context.tsx:325-326 | With a positive request the remainder is the share of the request that progress has not reached |
| LedgerRuns.FullIffNothingRemains | contexts/platform-context.tsx:325-326 | Exactly when progress is 100 iff nothing remains |
| LedgerRuns.NothingRemainsAtNoProgress | contexts/platform-context.tsx:307-337 | Two states, one with a request of zero and one with a negative request, in which an approval leaves nothing to fund and a progress other than 100 |
| LedgerRuns.EventCreates | contexts/platform-context.tsx:238-431 | Any event changes the sum of balances and totals by what it creates: approvals, new loans, deletions, set balances, replaced lists |
| LedgerRuns.CreatedIsProduct | contexts/platform-context.tsx:307-337 | An approval creates its amount times the matching loans less the matching users |
| LedgerRuns.ValueIsAccounted | contexts/platform-context.tsx:238-431 | Over any run the value changes by the sum of what its events create |
| LedgerRuns.ValueIsConserved | contexts/platform-context.tsx:307-337 | Nothing is created or lost if every approval names one loan and one user |
| LedgerRuns.BalanceIsDebited | contexts/platform-context.tsx:331-335 | A user's balance falls by exactly the approvals in his name, below zero iff they exceed it |
| LedgerRuns.DeletionTakesBalances | contexts/platform-context.tsx:410-415 | Deleting a user removes exactly the users of that name, and the value drops by what they held |
| LedgerRuns.ApprovalLeavesCurrentUserBehind | contexts/platform-context.tsx:307-337 | After an approval the signed-in investor's own record agrees with the list iff the amount was zero |
| LedgerRuns.BalanceCanGoStale | contexts/platform-context.tsx:307-337 | A state in which one approval leaves the signed-in investor with 100 on his own record and 60 in the list |
| LedgerRuns.CurrentUserLags | contexts/platform-context.tsx:307-431 | Over any run that keeps the users, the own record is ahead of the list by exactly the approvals in the user's name since his balance was last set; the two agree iff these are zero |
| LedgerRuns.ApprovalsMature | contexts/platform-context.tsx:339-356 | Over any run an approval keeps its place and fields, and turns at most once from Approved to Released |
| LedgerRuns.ReleaseIsIdempotent | contexts/platform-context.tsx:339-356 | A second release changes nothing, not even dates |
| LedgerRuns.ReleasesCommuteIff | contexts/platform-context.tsx:339-356 | Two releases on a loan commute iff they are for different investors, happen at equal times, or have nothing to release |
| LedgerRuns.ReleasedNeverExceedsFunded | contexts/platform-context.tsx:307-356 | With non-negative amounts and a total that starts in agreement, the released sum never exceeds the total |
| SweeperModel.ExtendedIsCapped | scripts/rent-sweeper.ts:105-215 | A pass extends as many contracts as the network allows, up to a hundred |
| SweeperModel.OverBudgetIff | scripts/rent-sweeper.ts:145-149 | A low contract is skipped for budget iff a hundred extendable ones precede it |
| SweeperModel.SkippedStaySkipped | scripts/rent-sweeper.ts:145-149 | Once one low contract is skipped for budget, all later ones are |
| SweeperModel.DryRunsIgnoreBudget | scripts/rent-sweeper.ts:151-155 | Without the secret nothing is extended, and there are as many dry runs as low contracts |
| SweeperModel.DryRunIff | scripts/rent-sweeper.ts:138-155 | Without the secret an asset is a dry run iff its contract is low; none is skipped for budget |
| SweeperModel.ProjectionWithinBudgetIff | scripts/rent-sweeper.ts:145-189 | The projected rent stays within the budget iff the pass is real or at most a hundred contracts are low |
| SweeperModel.DryRunCanOverrun | scripts/rent-sweeper.ts:145-155 | A dry run over a hundred and one expired contracts, which projects more than the budget |
| SweeperLaws.OutcomesTell | scripts/rent-sweeper.ts:107-215 | The outcome of every asset, told from its answers: no contract, broken, not found, healthy, or expiring within 120960 ledgers of the latest one and then skipped, dry, extended at the first try taken or given up |
| SweeperLaws.LowIff | scripts/rent-sweeper.ts:126-138 | A contract is treated as low iff its entry lives until a ledger (0 if missing) below the latest (100000 if missing) plus 120960 |
| SweeperLaws.LivingLongerIsHealthier | scripts/rent-sweeper.ts:128-138 | Raising a live-until ledger never makes a healthy contract low, and an expired one is never healthy |
| SweeperLaws.ReportTells | scripts/rent-sweeper.ts:105-218 | The totals count what the outcomes are; the horizon is the least live-until minus latest ledger over the entries found |
| SweeperLaws.SubmissionsTell | scripts/rent-sweeper.ts:157-206 | The transactions of an asset are those of its tries that got to sending, at most three |
| SweeperLaws.AlertsAre | scripts/rent-sweeper.ts:197-201 | Alerts are raised for exactly the contracts given up on |
| Sweeper.TryExtend | scripts/rent-sweeper.ts:157-206 | The retry loop stops at the first taken try and gives up after three; the transactions sent are those tries that got to sending |
| Sweeper.Process | scripts/rent-sweeper.ts:107-215 | One round of the asset loop changes the counters by the asset's outcome |
| Sweeper.RunSweeper | scripts/rent-sweeper.ts:83-221 | Failures are broken look-ups, budget skips and exhausted retries; rent spent is 0.1 per extension and at most 10; the horizon is the least TTL seen; at most three transactions per asset; the checkpoint is the last asset; no report without database, assets or a working client |
| ToastRuns.IdsRepeatIff | hooks/use-toast.ts:26-29 | The id of the last toast comes back when as many toasts as the modulus have been shown, and not before |
| ToastRuns.OneCallbackEach | hooks/use-toast.ts:57-71 | Over every run each key of the timeout map has exactly one scheduled callback and no other id has any |
| ToastLaws.ShowTells | hooks/use-toast.ts:73-79 | A new toast is open under the next id and leads the list, which keeps as many of the others as the limit lets |
| ToastLaws.UpdateTells | hooks/use-toast.ts:81-85 | An update sets the given fields of the toasts of that id and nothing else |
| ToastLaws.DismissTells | hooks/use-toast.ts:87-111 | A dismissal closes its targets and schedules one removal for each id without a timer |
| ToastLaws.RemoveTells | hooks/use-toast.ts:112-122 | A removal takes its targets and no timer |
| ToastLaws.WithoutNext | hooks/use-toast.ts:118-121 | Removing goes through the list toast by toast, keeping the order of the others |
| ToastLaws.FireTells | hooks/use-toast.ts:62-68 | A scheduled removal takes its toasts, forgets its key and is used up |
| ToastLaws.OneToastAtATime | hooks/use-toast.ts:7-27 | As shipped the store shows one toast at a time and counts to 2^53 - 1 |
| ToastStore.Store.DismissToast | hooks/use-toast.ts:87-111 | Dismissing closes the target, or all toasts, and starts the missing timers |
| ToastStore.Store.RemoveToast | hooks/use-toast.ts:112-122 | Removing drops the target, or all toasts, and no timer |
| ToastRuns.NewestFirst | hooks/use-toast.ts:73-79 | Until the counter wraps, the toasts on display are in the order they were shown, newest first |
| ToastRuns.UpdatesMerge | hooks/use-toast.ts:81-85 | Two updates of a toast are one in which the later values win; updates of different toasts commute |
| ToastStore.Store.TimerFires | hooks/use-toast.ts:62-68 | A timer forgets itself and removes its toast |
| ToastRuns.NeverOverLimit | hooks/use-toast.ts:73-79 | Over every interleaving the list stays within its limit |
| ToastRuns.StepAgreesIff | hooks/use-toast.ts:57-124 | Where closed toasts have one pending callback and open ones none, a step keeps it so iff a new toast's id has no timer and an update of `open` says what the timer says |
| ToastRuns.RunAgreesIff | hooks/use-toast.ts:57-124 | The agreement holds throughout a run iff every step meets that guard in its state |
| ToastRuns.WellBehavedIsGuarded | hooks/use-toast.ts:26-164 | Every well-behaved run is guarded |
| ToastRuns.TimerRemovesOnlyClosed | hooks/use-toast.ts:62-68 | In a guarded run a timer leaves in place exactly the open toasts and those of other ids |
| ToastRuns.AllTimersFired | hooks/use-toast.ts:57-71 | Once all callbacks of a guarded run have run, in any order, exactly the open toasts remain, in order, and the map is empty |
| ToastRuns.UpdatesCanBreakTimers | hooks/use-toast.ts:81-85 | An update that sets `open` can leave a closed toast without a timer, or an open one with a timer |
| ToastRuns.EarlyDismissalDooms | hooks/use-toast.ts:182-182 | Dismissing an id before it is issued gives the later toast a running timer |
| ToastRuns.OneTooManyDooms | hooks/use-toast.ts:26-29 | The bound is tight: one toast more than the modulus can put an open toast under an old timer |
| PipelineSemantics.SomeOrderIsSorted | lib/risk-helpers.ts:55-57 | Every collection has an output of the sort stage |
| PipelineSemantics.TypesInOrder | lib/risk-helpers.ts:55-57 | Values of different types compare by type: missing, null, number, text, date |
| PipelineSemantics.TextLessIff | lib/risk-helpers.ts:55-57 | Texts compare by their first difference |
| RiskReports.CountTogetherIff | lib/risk-helpers.ts:43-49 | Two failed records count for the same user iff their user fields are equal, or both null or missing |
| RiskReports.RepeatedFailuresAreReported | lib/risk-helpers.ts:15-59 | Every output has exactly one row per user with more than the threshold of failed records in the window; a row is the user, the exact count and the last date; rows are in descending order of count |
| RiskReports.RepeatedFailuresSucceeds | lib/risk-helpers.ts:36-58 | The pipeline has an output for every collection |
| RiskReports.WiderReportsMore | lib/risk-helpers.ts:29-52 | A lower threshold or a wider window only adds users and counts, and keeps each user's last date |
| RiskReports.RatioNeverDividesByZero | lib/risk-helpers.ts:103-111 | The ratio never divides by zero, and fails exactly on amounts that are not numbers |
| RiskReports.UnderperformersAreReported | lib/risk-helpers.ts:87-122 | Every output is, as a multiset, the live pools that meet the cross-multiplied test, each with its ratio, in ascending order of it |
| RiskReports.UnderperformersSucceedIff | lib/risk-helpers.ts:96-121 | The report exists iff all live pools have amounts that can be divided |
| RiskReports.ZeroTargetsAreNotReported | lib/risk-helpers.ts:103-117 | With a tolerance of at most 1, every reported pool has a positive target |

## Left out

- IntegrityChecker.Checker.Run: does not model the wording of messages and repair hints, only the check, the document and the values they quote; no other writer touches the collections during a run.
- KycText.NormalizeReason: does not model the second trim that the user schema applies when a reason is stored.
- KycAction.UpdateUserKycStatus: does not model saving, the audit event, email, page revalidation, or the catch-all for database errors; the event id of a notification is not part of this model.
- Sweeper.RunSweeper: bounds transactions per asset, since two assets may name the same contract; does not model floating-point rounding of the rent, back-off delays, the contents of the two files beyond their values, or the mock branch.
- ToastRuns.RunAgreesIff: does not model when a callback is due; a scheduled one may run at any step.
- RiskReports.RepeatedFailuresAreReported: covers the value types missing, null, number, text and date; other types of the database are not part of this model.
- The default values of the options of the two pipelines; they are arguments here.
- Loan, user and vehicle fields that none of the modelled code reads or writes, and the reducer's cases for vehicles, investments, transactions and notifications, which replace or append values.
- Amounts are reals; missing numbers are modelled where the code can meet them (a missing request, total or balance, a division by zero).
- The document reference check of lib/security/kyc-documents.ts, which decrypts and parses, is an arbitrary predicate.
- The three query builders of lib/risk-helpers.ts that are plain filters: they would only add single-condition matches.
- React components, pages, providers and hooks other than the toast store; the listeners of the toast store.
- Database schemas, migrations and their hooks, except for the defaults and enumerations used above.
- The services for custody, repayments, reconciliation, notifications and payments.
