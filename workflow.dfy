/**
 * The hand-off between the two dashboards: the hospital publishes a trial's
 * report hash and the regulator reads it back to check the stored report.
 */
module Workflow {
  import opened Wrappers
  import opened Seqs
  import opened Text
  import opened Records
  import opened LocalStore
  import opened Ledger
  import opened HospitalDashboard
  import opened RegulatorDashboard
  import RegisterPage
  import PharmaDashboard

  /** The regulator's check as wired in the source, reading `FetchAddress`: after a successful publication
      the regulator sees no hash for the trial, so the tab shows no result. */
  method PublishThenVerifyAsWritten(store: Store, chain: Chain, panel: VerificationPanel,
                                    trialId: string, date: string, sha256: string -> string)
    returns (shown: Option<bool>)
    requires (FetchAddress, trialId) !in chain.hashes
    modifies store`reports, chain, panel
    ensures panel.blockchainHash == ""
    ensures shown == VerificationResult(panel.blockchainHash, TrialReport(store.reports, trialId))
    ensures shown == None
  {
    var report, outcome := SubmitToBlockchain(store, chain, trialId, date, sha256, true, true);
    panel.VerifyBlockchainHash(chain, FetchAddress, trialId, true, true);
    shown := VerificationResult(panel.blockchainHash, TrialReport(store.reports, trialId));
  }

  /** The regulator's check reading the contract the hospital publishes to: the published hash is the stored
      report's hash, so the tab shows a match (a report whose hash is empty shows nothing either way). */
  method PublishThenVerify(store: Store, chain: Chain, panel: VerificationPanel,
                           trialId: string, date: string, sha256: string -> string)
    returns (shown: Option<bool>)
    modifies store`reports, chain, panel
    ensures TrialReport(store.reports, trialId).Some?
    ensures old(TrialReport(store.reports, trialId)).Some? ==> store.reports == old(store.reports)
    ensures panel.blockchainHash == TrialReport(store.reports, trialId).value.hash
    ensures shown == VerificationResult(panel.blockchainHash, TrialReport(store.reports, trialId))
    ensures panel.blockchainHash != "" ==> shown == Some(true)
  {
    var report, outcome := SubmitToBlockchain(store, chain, trialId, date, sha256, true, true);
    panel.VerifyBlockchainHash(chain, PublishAddress, trialId, true, true);
    shown := VerificationResult(panel.blockchainHash, TrialReport(store.reports, trialId));
  }

  /** A whole trial from registration to approval, on a fresh browser and an empty ledger: a hospital and a
      sponsor register, the sponsor creates a trial for the hospital, the hospital enrols three patients,
      generates the report and publishes it, the regulator checks it against the publishing contract and
      approves the trial. The ids stand for the `uuidv4()` values drawn along the way. */
  method TrialLifecycle(hospitalId: string, pharmaId: string, trialId: string, patientIds: seq<string>,
                        date: string, now: int, sha256: string -> string)
    returns (trial: Trial, report: Report, shown: Option<bool>, finalStatus: Option<string>)
    requires hospitalId != "" && hospitalId != pharmaId
    requires |patientIds| == 3 && patientIds[0] != patientIds[1] && patientIds[0] != patientIds[2]
             && patientIds[1] != patientIds[2]
    requires sha256(ReportText(date, trialId, 3)) != ""
    ensures trial == Trial(trialId, pharmaId, hospitalId, "GenHosp", "T1", "desc", Pending, now)
    ensures report == Report(trialId, ReportText(date, trialId, 3), sha256(ReportText(date, trialId, 3)))
    ensures shown == Some(true)
    ensures finalStatus == Some(Approved)
  {
    var store;
    store, trial := OpenTrial(hospitalId, pharmaId, trialId, now);
    EnrolThree(store, trial, patientIds);
    var chain := new Chain();
    var panel := new VerificationPanel();
    report := GenerateReport(store, trialId, date, sha256);
    shown := PublishThenVerify(store, chain, panel, trialId, date, sha256);
    var before := store.trials;
    HandleApproveTrial(store, trialId);
    LastWriteWins(before, trialId, Approved, Approved);
    finalStatus := StatusOf(store.trials, trialId);
  }

  /** A fresh browser in which "GenHosp" (a hospital) and "PharmaCo" (a sponsor) register and the sponsor
      creates trial "T1" for the hospital. */
  method OpenTrial(hospitalId: string, pharmaId: string, trialId: string, now: int)
    returns (store: Store, trial: Trial)
    requires hospitalId != "" && hospitalId != pharmaId
    ensures fresh(store)
    ensures trial == Trial(trialId, pharmaId, hospitalId, "GenHosp", "T1", "desc", Pending, now)
    ensures store.trials == [trial] && store.patients == [] && store.reports == []
  {
    store := RegisterBoth(hospitalId, pharmaId);
    var u1, u2 := User(hospitalId, "GenHosp", HospitalRole), User(pharmaId, "PharmaCo", "pharma");
    assert HospitalUsers([u2]) == [];
    assert [u1, u2][1..] == [u2];
    assert HospitalUsers(store.users) == [u1];
    assert !IsBlank("T1") && !IsBlank("desc") by {
      assert !IsWhitespace("T1"[0]) && !IsWhitespace("desc"[0]);
    }
    var errors, created := PharmaDashboard.HandleCreateTrial(store, pharmaId, PharmaDashboard.TrialForm(hospitalId, "T1", "desc"),
                                                             trialId, now);
    trial := created.value;
  }

  /** A fresh browser in which "GenHosp" registers as a hospital and then "PharmaCo" as a sponsor. */
  method RegisterBoth(hospitalId: string, pharmaId: string) returns (store: Store)
    requires hospitalId != pharmaId
    ensures fresh(store)
    ensures store.users == [User(hospitalId, "GenHosp", HospitalRole), User(pharmaId, "PharmaCo", "pharma")]
    ensures store.trials == [] && store.patients == [] && store.reports == []
  {
    store := new Store();
    assert !IsBlank("GenHosp") by {
      assert !IsWhitespace("GenHosp"[0]);
    }
    var hospital := RegisterPage.HandleRegister(store, "GenHosp", HospitalRole, hospitalId);
    assert !IsBlank("PharmaCo") by {
      assert !IsWhitespace("PharmaCo"[0]);
    }
    var sponsor := RegisterPage.HandleRegister(store, "PharmaCo", "pharma", pharmaId);
  }

  /** The hospital enrols three patients in the trial, which then lists exactly three. */
  method EnrolThree(store: Store, trial: Trial, patientIds: seq<string>)
    requires store.patients == []
    requires |patientIds| == 3 && patientIds[0] != patientIds[1] && patientIds[0] != patientIds[2]
             && patientIds[1] != patientIds[2]
    modifies store`patients
    ensures |TrialPatients(store.patients, trial.id)| == 3
  {
    var p1 := HandleAddPatient(store, Some(trial), PatientForm("Ana", "34", "Asthma", "10mg", "Improved"), patientIds[0]);
    var p2 := HandleAddPatient(store, Some(trial), PatientForm("Ben", "51", "Asthma", "20mg", "Stable"), patientIds[1]);
    var p3 := HandleAddPatient(store, Some(trial), PatientForm("Cleo", "42", "Asthma", "10mg", "Improved"), patientIds[2]);
    FilterAll(store.patients, (p: Patient) => p.trialId == trial.id);
  }
}
