# Trial registry

A model of the clinical-trial registry behind the VeriDose dashboards. Browser storage holds four
collections: users, trials, patients and reports. It also holds a signed-in user slot. Each page handler
loads a collection, checks something, then does one of three things: appends a record, replaces a record
at an index, or overwrites one field. It then writes the collection back. A hospital publishes a report's
SHA-256 digest to a hash-store contract, and a regulator reads it back to compare.

The Dafny modules follow the source files:

- `Seqs` covers the JavaScript array builtins (`filter`, `find`, `findIndex`, `some`, `map`).
- `Text` covers `trim`, `toLowerCase`, `includes` and the decimal rendering of a number.
- `Records` holds the record types, the shared lookups and the registry invariants.
- `LocalStore` is the `Store` class whose fields the handlers reassign.
- `Ledger` is the contract, as a `Chain` class holding a map from (contract address, trial id) to hash.
- `RegisterPage`, `LoginPage`, `PharmaDashboard`, `HospitalDashboard`, `RegulatorDashboard` and
  `RegulatorAnalysis` hold one module per source file.
- `Workflow` covers the hand-off between the hospital and the regulator, and one trial's whole lifecycle.

State-changing handlers are module-level methods that take a `Store`; storing a hash and fetching it are
methods of the `Chain` and `VerificationPanel` classes. Each one
states its whole new state as a function of the old one. The views, counts and templates are functions,
and lemmas relate them.

Inputs the source draws from its environment are parameters here:

- `uuidv4()` is an id argument, with a precondition that it is not already in use.
- `Date.now()` and `toLocaleDateString()` are an `int` and a `string`.
- CryptoJS's SHA-256 is a function argument `sha256: string -> string`.
- Whether a wallet is present and whether a contract call succeeds are booleans.

In these places the code does not check what its UI implies, and the model follows the code:

- Creating a trial never fails on an unknown hospital. The trial gets the hospital name
  "Unknown Hospital" (pharma-company-dashboard.tsx:128). This also happens when the hospital's username
  is empty.
- Adding a patient checks neither that the trial exists nor that the fields are non-empty. The only
  check is that a trial is selected (hospital-dashboard.tsx:151).
- A status update for an unknown trial id changes nothing (regulator-dashboard.tsx:171), and the
  approve and reject handlers still report success (regulator-dashboard.tsx:193, 206). There is no
  not-found failure.
- A status is a free string. The three known statuses are kept as an invariant only when the handlers
  write them.

## Model

| member | source | states |
|---|---|---|
| LocalStore.Store.constructor | app/register/page.tsx:29 | a fresh browser has every collection empty and nobody signed in, and the registry invariants hold |
| Records.TrialPatients | components/hospital-dashboard.tsx:279-281 | a trial's patient list holds exactly the stored patients with that trial id |
| Records.TrialPatientsInOrder | components/hospital-dashboard.tsx:279-281 | a trial's patients are listed in enrolment order (a subsequence of the stored patients) |
| Records.HospitalUsers | components/pharma-company-dashboard.tsx:61-62 | the hospital list holds exactly the users whose role is "hospital", each as often as stored and in stored order |
| Records.TrialReport | components/hospital-dashboard.tsx:283-285 | the lookup finds no report exactly when no report names the trial; otherwise it finds the first stored report naming it |
| Records.CountWithStatus | components/regulator-dashboard.tsx:295 | a status count is the number of trials carrying that status, so it is zero exactly when none has it and equals the number of trials exactly when all have it |
| Records.SearchTrials | components/regulator-dashboard.tsx:214-219 | a trial is kept exactly when its title, description or hospital name contains the query, ignoring case |
| Records.SearchTrialsKeepsOrder | components/regulator-dashboard.tsx:214-219 | the search result is a subsequence of the trials |
| Records.SearchTrialsEmptyQuery | components/pharma-company-dashboard.tsx:154-159 | an empty query keeps every trial |
| Records.SearchTrialsCaseInsensitive | components/pharma-company-dashboard.tsx:154-159 | two queries that lower-case alike select the same trials |
| Records.StatusCountsPartition | app/regulator/analysis/page.tsx:113-117 | when every status is one of the three, the pending, approved and rejected counts add up to the number of trials |
| Text.TrimEmptyIffBlank | app/register/page.tsx:23 | `!s.trim()` holds exactly when every character of s is whitespace |
| Text.TrimIsSlice | app/login/page.tsx:20 | trim returns a contiguous piece of its input with only whitespace cut from either end |
| Text.IncludesIffOccurs | components/hospital-dashboard.tsx:289-290 | `includes` holds exactly when the query occurs at some position |
| Text.DecimalStringInjective | components/hospital-dashboard.tsx:196 | different patient counts are rendered as different digit strings |
| Text.DecimalPrefixUnique | components/hospital-dashboard.tsx:196 | a rendered count followed by non-digit text is recovered uniquely, with the text after it |
| Ledger.Lookup | components/regulator-dashboard.tsx:152 | reading an id never stored gives the empty string; otherwise it gives the stored hash |
| Ledger.StoreThenLookup | components/hospital-dashboard.tsx:264 | after a store, reading that (address, id) gives the stored hash and every other entry reads as before |
| Ledger.Chain.StoreHash | components/hospital-dashboard.tsx:264-265 | a store overwrites exactly the entry for (address, id) |
| RegisterPage.IsTaken | app/register/page.tsx:32 | a username is taken exactly when some user has it, compared case-sensitively |
| RegisterPage.AppendKeepsUsernamesUnique | app/register/page.tsx:32-46 | appending a user whose name is not taken keeps usernames pairwise distinct |
| RegisterPage.HandleRegister | app/register/page.tsx:20-53 | blank names and taken names are refused with the store unchanged; otherwise exactly one user with the fresh id, the untrimmed name and the role is appended and signed in; the invariants are preserved |
| LoginPage.FindByUsername | app/login/page.tsx:29 | the lookup finds the first user whose username equals the input exactly, or nothing when none does |
| LoginPage.FindByUsernameUnique | app/login/page.tsx:29 | with distinct usernames, looking up a user's name finds that user |
| LoginPage.RegisteredUserCanSignIn | app/login/page.tsx:29-37 | after registering, the new user signs in under that name, and every other name finds the same user as before |
| LoginPage.HandleLogin | app/login/page.tsx:17-41 | a blank name or an unknown name leaves the signed-in user unchanged; otherwise the first exact match is signed in; users are never modified |
| PharmaDashboard.ValidateForm | components/pharma-company-dashboard.tsx:102-111 | each error flag is set exactly when the hospital id is empty, or the title or description is blank after trimming |
| PharmaDashboard.SponsorTrials | components/pharma-company-dashboard.tsx:66-67 | the sponsor's view holds exactly the trials whose sponsor id is the user's id, each as often as stored and in stored order, so the Total Trials card counts them |
| PharmaDashboard.HospitalNameFor | components/pharma-company-dashboard.tsx:121-128 | the copied name is the username of the first hospital with the id, or "Unknown Hospital" when that username is empty or no hospital matches; it is never empty |
| PharmaDashboard.HospitalNameIsUsername | components/pharma-company-dashboard.tsx:121-128 | with distinct user ids, a hospital with a non-empty username gives exactly that username |
| PharmaDashboard.StatusText | components/pharma-company-dashboard.tsx:172-181 | "approved" reads "Approved", "rejected" reads "Rejected", and any other string reads "Pending" |
| PharmaDashboard.StatusTextIdentifiesKnownStatus | components/pharma-company-dashboard.tsx:172-181 | among the three known statuses, the label determines the status |
| PharmaDashboard.HandleCreateTrial | components/pharma-company-dashboard.tsx:113-152 | an invalid form creates nothing and changes nothing; a valid one appends exactly one pending trial with the fresh id, the sponsor's id and the derived hospital name; the invariants are preserved |
| PharmaDashboard.CreatedTrialInSponsorView | components/pharma-company-dashboard.tsx:143 | a new trial joins the end of its sponsor's view, and the trials already there stay unchanged |
| HospitalDashboard.AssignedTrials | components/hospital-dashboard.tsx:127-128 | the hospital's view holds exactly the trials assigned to it, each as often as stored and in stored order, so the Assigned Trials card counts them |
| HospitalDashboard.SearchAssigned | components/hospital-dashboard.tsx:287-291 | a trial is kept exactly when its title or description contains the query, ignoring case |
| HospitalDashboard.SearchAssignedKeepsOrderAndAll | components/hospital-dashboard.tsx:287-291 | the result keeps the stored order, and an empty query keeps every trial |
| HospitalDashboard.PatientsOfTrials | components/hospital-dashboard.tsx:337 | the listed patients are the stored patients of the dashboard's trials, each as often as stored and in stored order, so the card shows how many there are |
| HospitalDashboard.ReportsOfTrials | components/hospital-dashboard.tsx:359 | the listed reports are the stored reports of the dashboard's trials, each as often as stored and in stored order, so the card shows how many there are |
| HospitalDashboard.HandleAddPatient | components/hospital-dashboard.tsx:148-183 | with no trial selected nothing changes; otherwise exactly one record is appended, with the fresh id, the trial's id and the form fields |
| HospitalDashboard.EnrolmentExtendsListing | components/hospital-dashboard.tsx:154-169 | enrolling patients in a trial extends that trial's list by exactly them, in order, and leaves every other trial's list unchanged |
| HospitalDashboard.NoneOfOtherTrial | components/hospital-dashboard.tsx:279-281 | patients all of one trial are not listed under any other trial |
| HospitalDashboard.ReportTextStatesCount | components/hospital-dashboard.tsx:193-202 | the report text contains "Number of Patients: " followed by the patient count in decimal and a line break |
| HospitalDashboard.ReportTextDeterminesCount | components/hospital-dashboard.tsx:193-202 | two reports with the same date and trial id have the same text only if they count the same number of patients |
| HospitalDashboard.MakeReport | components/hospital-dashboard.tsx:190-212 | the report names its trial, its text is the template filled with the date, the trial id and that trial's patient count, and its hash is the digest of that text |
| HospitalDashboard.ReportIgnoresPatientFields | components/hospital-dashboard.tsx:190-205 | a patient's name, age, diagnosis, dosage and result never affect the report text or its hash |
| HospitalDashboard.UpsertReport | components/hospital-dashboard.tsx:218-226 | a report for a new trial is appended; otherwise the first report of that trial is replaced at its index and nothing else moves |
| HospitalDashboard.UpsertThenLookup | components/hospital-dashboard.tsx:218-226 | after the upsert, the lookup for that trial finds the new report, and every other trial finds what it found before |
| HospitalDashboard.UpsertKeepsOneReportPerTrial | components/hospital-dashboard.tsx:218-226 | the upsert keeps at most one report per trial |
| HospitalDashboard.UpsertIdempotent | components/hospital-dashboard.tsx:218-226 | upserting the same report twice is upserting it once |
| HospitalDashboard.CanGenerateReport | components/hospital-dashboard.tsx:585 | the generate button is offered and enabled exactly when the trial has no report and at least one patient |
| HospitalDashboard.GeneratedReportWithdrawsButton | components/hospital-dashboard.tsx:585 | once a report is stored for the trial, the generate button is no longer offered |
| HospitalDashboard.GenerateReport | components/hospital-dashboard.tsx:185-240 | the report is built from the stored patients and upserted; afterwards the lookup finds it, and the invariants are preserved |
| HospitalDashboard.SubmitToBlockchain | components/hospital-dashboard.tsx:242-277 | an existing report is reused unchanged, and one is generated only when absent; the ledger gets that report's hash at the publishing address only when a wallet is present and the transaction succeeds |
| RegulatorDashboard.WithStatus | components/regulator-dashboard.tsx:166-173 | only the first trial with the id gets the new status, whatever it was; every other trial and field is unchanged, and an unknown id changes nothing |
| RegulatorDashboard.LastWriteWins | components/regulator-dashboard.tsx:166-173 | two updates in a row equal the second alone, so approve then reject leaves "rejected" and the reverse leaves "approved" |
| RegulatorDashboard.WithStatusKeepsInvariants | components/regulator-dashboard.tsx:169-173 | writing a known status keeps every status known and changes no id |
| RegulatorDashboard.ApprovalPendingCount | components/regulator-dashboard.tsx:295 | approving a pending trial lowers the pending count by one; approving any other trial leaves it unchanged |
| RegulatorDashboard.UpdateTrialStatus | components/regulator-dashboard.tsx:166-186 | the stored trials become the status update of the old ones, and the invariants are preserved for a known status |
| RegulatorDashboard.HandleApproveTrial | components/regulator-dashboard.tsx:188-199 | approval writes "approved" through the status update |
| RegulatorDashboard.HandleRejectTrial | components/regulator-dashboard.tsx:201-212 | rejection writes "rejected" through the status update |
| RegulatorDashboard.CanApprove | components/regulator-dashboard.tsx:523 | approve is enabled exactly when the trial is not approved and some report names it |
| RegulatorDashboard.CanReject | components/regulator-dashboard.tsx:515 | reject is enabled exactly when the trial is not rejected |
| RegulatorDashboard.ButtonsAfterDecision | components/regulator-dashboard.tsx:512-527 | once approved, approve is disabled and reject enabled; once rejected, reject is disabled and approve depends only on the report |
| RegulatorDashboard.VerificationResult | components/regulator-dashboard.tsx:487-503 | a result is shown exactly when there is a local report and a non-empty fetched hash, and it is a match exactly when the two strings are equal |
| RegulatorDashboard.VerificationPanel.constructor | components/regulator-dashboard.tsx:109 | the fetched hash starts empty |
| RegulatorDashboard.VerificationPanel.VerifyBlockchainHash | components/regulator-dashboard.tsx:138-164 | the fetched hash is cleared first, then set to the contract's entry for the trial only when a wallet is present and the call succeeds |
| RegulatorDashboard.AsWrittenVerifyMissesPublishedHash | components/regulator-dashboard.tsx:149 | publishing at the hospital's address and reading at the regulator's address shows no result, when the regulator's contract holds no entry for the trial |
| RegulatorDashboard.PublishThenVerifyMatches | components/hospital-dashboard.tsx:260 | reading at the address the hospital publishes to shows a match for a non-empty hash |
| RegulatorAnalysis.TrialsWithVerification | app/regulator/analysis/page.tsx:90-98 | one entry per trial in stored order; an entry is verified exactly when some report names the trial, and then carries that report's hash, otherwise none |
| RegulatorAnalysis.TrialsOfHospital | app/regulator/analysis/page.tsx:104-105 | a hospital's trial count is the number of stored trials assigned to it, zero exactly when none is |
| RegulatorAnalysis.HospitalTrialsData | app/regulator/analysis/page.tsx:102-110 | every bar is a hospital user's name with its positive trial count, and every hospital user with a positive count has a bar |
| RegulatorAnalysis.HospitalChartKeepsOrder | app/regulator/analysis/page.tsx:102-110 | the bars follow the order of the hospital list |
| RegulatorAnalysis.TrialStatusData | app/regulator/analysis/page.tsx:113-117 | the slices are the non-empty ones among the Pending, Approved and Rejected counts |
| RegulatorAnalysis.StatusChartKeepsOrder | app/regulator/analysis/page.tsx:113-117 | the slices that remain keep the fixed order Pending, Approved, Rejected |
| RegulatorAnalysis.DropEmptyKeepsTotal | app/regulator/analysis/page.tsx:117 | dropping empty slices does not change a chart's total |
| RegulatorAnalysis.StatusChartCoversAllTrials | app/regulator/analysis/page.tsx:113-117 | when every status is known, the status chart adds up to the number of trials |
| RegulatorAnalysis.AnalysisTotals | app/regulator/analysis/page.tsx:127-130 | the cards show the numbers of trials, reports and patients, and the number of approved trials, which is at most the number of trials |
| RegulatorAnalysis.VerificationListCount | app/regulator/analysis/page.tsx:90-98 | the list marks as verified exactly the trials that have a report |
| RegulatorAnalysis.ReportsCountVerifiedTrials | app/regulator/analysis/page.tsx:128 | with unique trial ids, one report per trial and every report naming a trial, there are as many reports as trials with a report |
| RegulatorAnalysis.VerifiedCardMatchesList | app/regulator/analysis/page.tsx:128 | under the same conditions, the "Verified Reports" card equals the number of verified entries in the list |
| Workflow.PublishThenVerifyAsWritten | components/regulator-dashboard.tsx:149 | as wired, a successful publication followed by a check shows no result, when the regulator's contract holds no entry for the trial |
| Workflow.PublishThenVerify | components/hospital-dashboard.tsx:260 | reading the publishing contract, the fetched hash is the stored report's hash, and a non-empty one shows a match |
| Workflow.RegisterBoth | app/register/page.tsx:20-53 | registering a hospital and then a sponsor in a fresh browser stores exactly those two users |
| Workflow.OpenTrial | components/pharma-company-dashboard.tsx:113-152 | a trial created for the registered hospital is pending and carries the hospital's username |
| Workflow.EnrolThree | components/hospital-dashboard.tsx:148-183 | three enrolments give the trial exactly three listed patients |
| Workflow.TrialLifecycle | components/hospital-dashboard.tsx:242-277 | registration, creation, three enrolments, report, publication, check and approval give a report counting 3 patients and status "approved"; the check reads the publishing contract (the corrected address from "## Findings") and so shows a match, where the address as written shows no result (Workflow.PublishThenVerifyAsWritten) |

## Left out

- Rendering, animation, dialogs, badges, the role badge and the charts' drawing are left out. So are the landing page, the dashboard shell and the role dispatch. They hold no state logic.
- JSON parsing and serialisation of browser storage are left out. Collections are sequences in one `Store`. The copy each page keeps in React state is taken to equal the stored one.
- The wallet's account request, signer, `tx.wait()`, alerts and console output are left out. A wallet's presence and a call's success are booleans. The contract's own code is not part of this model: its `getHash` of an id never stored is taken to read as the empty string.
- CryptoJS SHA-256 is a function parameter. Its internals and its fixed 64-character hex output are not modelled.
- `uuidv4()`, `Date.now()` and `toLocaleDateString()` are parameters. Id freshness is a precondition.
- The loading flags (`isGeneratingReport`, `isVerifying`, `isApproving`, `isRejecting`, `isSubmittingToBlockchain`) are left out. So are the form resets and the dialog open/close state. They are UI feedback only.
- The hard-coded patient-response chart data (app/regulator/analysis/page.tsx:120-124) is left out.
- Deploying the ledger contract is outside the source, which only attaches to contracts already deployed (hospital-dashboard.tsx:261). `Ledger.Chain`'s constructor gives the empty ledger that `Workflow.TrialLifecycle` starts from, so that scenario assumes a contract with no entries.
- The HTML `required` attributes on the add-patient form are left out. They are browser-side checks, not handler logic.
- Text.Lower: models `toLowerCase` on ASCII letters only. Full Unicode case mapping is not modelled.
- RegulatorDashboard.UpdateTrialStatus: does not model the update of the details dialog's copy of the trial (regulator-dashboard.tsx:178-183). That branch is dead code: `setSelectedTrial` is only ever called with `null` or inside that same branch, so the dialog (lines 539-571) never opens.
- RegulatorDashboard.VerificationPanel.VerifyBlockchainHash: the source keeps one fetched-hash slot for the whole page, shared by every trial's tab. The model keeps that single slot but does not model which trial's tab is open.
- A failure inside `generateReport` (its `catch` re-throw) and inside `submitToBlockchain` (its `catch` alert) is left out. The model's outcomes for a missing wallet and a failed transaction stand in for the latter.

## Findings

| source | as written | input that shows it | evidently intended | confidence | as-written member | corrected member |
|---|---|---|---|---|---|---|
| components/regulator-dashboard.tsx:149 | the regulator reads hashes from contract 0xabF669AB56DE36eCb6112113C52d74936BBde580, while the hospital publishes to 0xCf3cC873C988eb635712C8AB7c9a4F6A2376EFc7 (components/hospital-dashboard.tsx:260) | a hospital publishes a report's hash for a trial with no entry at the regulator's contract, then the regulator presses Verify: the fetched hash is empty and no result is shown | the regulator reads the contract the hospital publishes to, so a published report verifies as a match | not executed; medium (the two addresses could be deployments kept in sync by hand) | Workflow.PublishThenVerifyAsWritten | Workflow.PublishThenVerify |
