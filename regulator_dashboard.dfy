/**
 * The regulator's dashboard: every trial, approval and rejection, and the
 * verification tab that compares a trial's stored report hash with the hash
 * read back from the ledger.
 */
module RegulatorDashboard {
  import opened Wrappers
  import opened Seqs
  import opened Records
  import opened LocalStore
  import opened Ledger

  /** The stored trials after `updateTrialStatus`: the first trial with this id gets the new status,
      whatever it had before; nothing else changes, and an unknown id changes nothing. */
  function WithStatus(trials: seq<Trial>, trialId: string, status: string): (r: seq<Trial>)
    ensures |r| == |trials|
    ensures forall j :: 0 <= j < |trials| ==>
      r[j] == if trials[j].id == trialId && (forall k :: 0 <= k < j ==> trials[k].id != trialId)
              then trials[j].(status := status)
              else trials[j]
  {
    var i := FindIndex(trials, (t: Trial) => t.id == trialId);
    if i >= 0 then trials[i := trials[i].(status := status)] else trials
  }

  /** The status of the first trial with this id, if there is one. */
  function StatusOf(trials: seq<Trial>, trialId: string): Option<string>
  {
    match Find(trials, (t: Trial) => t.id == trialId)
    case Some(t) => Some(t.status)
    case None => None
  }

  /** There is no transition guard: the last status written is the one that stays, so approving and then
      rejecting leaves the trial rejected, and rejecting and then approving leaves it approved. */
  lemma LastWriteWins(trials: seq<Trial>, trialId: string, first: string, second: string)
    ensures WithStatus(WithStatus(trials, trialId, first), trialId, second) == WithStatus(trials, trialId, second)
    ensures (exists j :: 0 <= j < |trials| && trials[j].id == trialId) ==>
      StatusOf(WithStatus(trials, trialId, second), trialId) == Some(second)
  {
    var p := (t: Trial) => t.id == trialId;
    var once := WithStatus(trials, trialId, first);
    FindIndexAgrees(once, trials, p);
    FindIndexAgrees(WithStatus(trials, trialId, second), trials, p);
  }

  /** Writing one of the three statuses keeps every status known, and ids never change. */
  lemma WithStatusKeepsInvariants(trials: seq<Trial>, trialId: string, status: string)
    requires IsKnownStatus(status) && KnownStatuses(trials)
    ensures KnownStatuses(WithStatus(trials, trialId, status))
    ensures forall j :: 0 <= j < |trials| ==> WithStatus(trials, trialId, status)[j].id == trials[j].id
  {
  }

  /** Approving moves a pending trial out of the pending count, and a trial already elsewhere leaves it as is. */
  lemma ApprovalPendingCount(trials: seq<Trial>, trialId: string)
    ensures StatusOf(trials, trialId) == Some(Pending) ==>
      CountWithStatus(WithStatus(trials, trialId, Approved), Pending) + 1 == CountWithStatus(trials, Pending)
    ensures StatusOf(trials, trialId) != Some(Pending) ==>
      CountWithStatus(WithStatus(trials, trialId, Approved), Pending) == CountWithStatus(trials, Pending)
  {
    var i := FindIndex(trials, (t: Trial) => t.id == trialId);
    if i >= 0 {
      CountUpdate(trials, i, trials[i].(status := Approved), (t: Trial) => t.status == Pending);
    }
  }

  /** `updateTrialStatus`. */
  method UpdateTrialStatus(store: Store, trialId: string, status: string)
    modifies store`trials
    ensures store.trials == WithStatus(old(store.trials), trialId, status)
    ensures old(store.Valid()) && IsKnownStatus(status) ==> store.Valid()
  {
    var trialIndex := FindIndex(store.trials, (t: Trial) => t.id == trialId);
    if trialIndex >= 0 {
      store.trials := store.trials[trialIndex := store.trials[trialIndex].(status := status)];
    }
    if old(store.Valid()) && IsKnownStatus(status) {
      WithStatusKeepsInvariants(old(store.trials), trialId, status);
    }
  }

  /** `handleApproveTrial`. */
  method HandleApproveTrial(store: Store, trialId: string)
    modifies store`trials
    ensures store.trials == WithStatus(old(store.trials), trialId, Approved)
    ensures old(store.Valid()) ==> store.Valid()
  {
    UpdateTrialStatus(store, trialId, Approved);
  }

  /** `handleRejectTrial`. */
  method HandleRejectTrial(store: Store, trialId: string)
    modifies store`trials
    ensures store.trials == WithStatus(old(store.trials), trialId, Rejected)
    ensures old(store.Valid()) ==> store.Valid()
  {
    UpdateTrialStatus(store, trialId, Rejected);
  }

  /** The Approve buttons are enabled for a trial that is not yet approved and has a report. */
  function CanApprove(trial: Trial, reports: seq<Report>): (enabled: bool)
    ensures enabled <==> trial.status != Approved && exists j :: 0 <= j < |reports| && reports[j].trialId == trial.id
  {
    !(trial.status == Approved || TrialReport(reports, trial.id).None?)
  }

  /** The Reject buttons are enabled for a trial that is not yet rejected; no report is needed. */
  function CanReject(trial: Trial): (enabled: bool)
    ensures enabled <==> trial.status != Rejected
  {
    !(trial.status == Rejected)
  }

  /** Once approved, a trial can no longer be approved but can still be rejected, and the other way round. */
  lemma ButtonsAfterDecision(trial: Trial, reports: seq<Report>)
    ensures !CanApprove(trial.(status := Approved), reports) && CanReject(trial.(status := Approved))
    ensures !CanReject(trial.(status := Rejected))
    ensures CanApprove(trial.(status := Rejected), reports) <==> TrialReport(reports, trial.id).Some?
  {
  }

  /** What the verification tab shows under a trial: nothing when the trial has no local report or no hash
      has been fetched, otherwise whether the fetched hash is exactly the local one. */
  function VerificationResult(blockchainHash: string, localReport: Option<Report>): (shown: Option<bool>)
    ensures shown.Some? <==> localReport.Some? && blockchainHash != ""
    ensures shown == Some(true) <==> localReport.Some? && blockchainHash != "" && blockchainHash == localReport.value.hash
  {
    if localReport.None? || blockchainHash == "" then None else Some(blockchainHash == localReport.value.hash)
  }

  /** The part of the regulator's page state that the verification tab reads. */
  class VerificationPanel {
    var blockchainHash: string

    constructor ()
      ensures blockchainHash == ""
    {
      blockchainHash := "";
    }

    /** `verifyBlockchainHash`: clear the shown hash, then read the trial's hash from the contract at
        `address` (the source reads `FetchAddress`). Without a wallet, or when the call fails, the hash
        stays cleared. */
    method VerifyBlockchainHash(chain: Chain, address: string, trialId: string,
                                providerPresent: bool, callSucceeds: bool)
      modifies this
      ensures blockchainHash == if providerPresent && callSucceeds then chain.GetHash(address, trialId) else ""
    {
      blockchainHash := "";
      if providerPresent && callSucceeds {
        blockchainHash := chain.GetHash(address, trialId);
      }
    }
  }

  /** As written, the regulator reads from a different contract than the hospital publishes to: after the
      hospital publishes a report's hash, a regulator contract that has no entry for the trial shows no result. */
  lemma AsWrittenVerifyMissesPublishedHash(hashes: map<(string, string), string>, report: Report)
    requires (FetchAddress, report.trialId) !in hashes
    ensures VerificationResult(Lookup(hashes[(PublishAddress, report.trialId) := report.hash], FetchAddress, report.trialId),
                               Some(report)) == None
  {
    assert PublishAddress != FetchAddress;
  }

  /** Reading from the contract the hospital publishes to, a published report verifies as a match. */
  lemma PublishThenVerifyMatches(hashes: map<(string, string), string>, report: Report)
    requires report.hash != ""
    ensures VerificationResult(Lookup(hashes[(PublishAddress, report.trialId) := report.hash], PublishAddress, report.trialId),
                               Some(report)) == Some(true)
  {
  }
}
