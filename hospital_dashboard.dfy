/**
 * The hospital's dashboard: the trials assigned to it, enrolment of
 * patients, report generation (a fixed template, hashed and stored one per
 * trial) and publication of the report hash to the ledger.
 */
module HospitalDashboard {
  import opened Wrappers
  import opened Seqs
  import opened Text
  import opened Records
  import opened LocalStore
  import opened Ledger

  /** The fields of the add-patient form. */
  datatype PatientForm = PatientForm(name: string, age: string, diagnosis: string, dosage: string, result: string)

  /** How a submission to the ledger ended. */
  datatype SubmitOutcome = Stored | NoProvider | TransactionFailed

  /** The trials assigned to hospital `userId`: `existingTrials.filter(trial => trial.hospitalId === userId)`. */
  function AssignedTrials(trials: seq<Trial>, userId: string): (r: seq<Trial>)
    ensures forall j :: 0 <= j < |r| ==> r[j].hospitalId == userId && r[j] in trials
    ensures forall t :: t in trials && t.hospitalId == userId ==> t in r
    ensures forall x :: multiset(r)[x] == if x.hospitalId == userId then multiset(trials)[x] else 0
    ensures IsSubsequence(r, trials)
  {
    FilterMultiset(trials, (t: Trial) => t.hospitalId == userId);
    FilterIsSubsequence(trials, (t: Trial) => t.hospitalId == userId);
    Filter(trials, (t: Trial) => t.hospitalId == userId)
  }

  /** This dashboard's search box: title or description only. */
  function SearchAssigned(trials: seq<Trial>, query: string): (r: seq<Trial>)
    ensures forall j :: 0 <= j < |r| ==> r[j] in trials
    ensures forall t :: t in trials ==>
      (t in r <==> TextMatches(t.title, query) || TextMatches(t.description, query))
  {
    Filter(trials, (t: Trial) => TextMatches(t.title, query) || TextMatches(t.description, query))
  }

  /** The search keeps the stored order, and an empty query keeps every trial. */
  lemma SearchAssignedKeepsOrderAndAll(trials: seq<Trial>, query: string)
    ensures IsSubsequence(SearchAssigned(trials, query), trials)
    ensures SearchAssigned(trials, "") == trials
  {
    FilterIsSubsequence(trials, (t: Trial) => TextMatches(t.title, query) || TextMatches(t.description, query));
    forall j | 0 <= j < |trials| ensures TextMatches(trials[j].title, "") {
      IncludesEmpty(Lower(trials[j].title));
    }
    FilterAll(trials, (t: Trial) => TextMatches(t.title, "") || TextMatches(t.description, ""));
  }

  /** Some trial shown on this dashboard has the id: `trials.some(trial => trial.id === trialId)`. */
  predicate ShowsTrial(trials: seq<Trial>, trialId: string)
  {
    Exists(trials, (t: Trial) => t.id == trialId)
  }

  /** The "Total Patients" card: every stored patient of a trial shown on this dashboard, each as often as it
      is stored and in stored order, so the card's number is how many such patients there are. */
  function PatientsOfTrials(patients: seq<Patient>, trials: seq<Trial>): (r: seq<Patient>)
    ensures forall j :: 0 <= j < |r| ==> r[j] in patients && exists i :: 0 <= i < |trials| && trials[i].id == r[j].trialId
    ensures forall j :: 0 <= j < |patients| && (exists i :: 0 <= i < |trials| && trials[i].id == patients[j].trialId)
                        ==> patients[j] in r
    ensures forall x :: multiset(r)[x] == if ShowsTrial(trials, x.trialId) then multiset(patients)[x] else 0
    ensures IsSubsequence(r, patients)
  {
    FilterMultiset(patients, (p: Patient) => ShowsTrial(trials, p.trialId));
    FilterIsSubsequence(patients, (p: Patient) => ShowsTrial(trials, p.trialId));
    Filter(patients, (p: Patient) => ShowsTrial(trials, p.trialId))
  }

  /** The "Reports Generated" card: every stored report of a trial shown on this dashboard, each as often as
      it is stored and in stored order, so the card's number is how many such reports there are. */
  function ReportsOfTrials(reports: seq<Report>, trials: seq<Trial>): (r: seq<Report>)
    ensures forall j :: 0 <= j < |r| ==> r[j] in reports && exists i :: 0 <= i < |trials| && trials[i].id == r[j].trialId
    ensures forall j :: 0 <= j < |reports| && (exists i :: 0 <= i < |trials| && trials[i].id == reports[j].trialId)
                        ==> reports[j] in r
    ensures forall x :: multiset(r)[x] == if ShowsTrial(trials, x.trialId) then multiset(reports)[x] else 0
    ensures IsSubsequence(r, reports)
  {
    FilterMultiset(reports, (x: Report) => ShowsTrial(trials, x.trialId));
    FilterIsSubsequence(reports, (x: Report) => ShowsTrial(trials, x.trialId));
    Filter(reports, (x: Report) => ShowsTrial(trials, x.trialId))
  }

  // Enrolment

  /** `handleAddPatient`: with no trial selected nothing happens; otherwise one record is appended.
      `newId` stands for the `uuidv4()` the source draws. */
  method HandleAddPatient(store: Store, selectedTrial: Option<Trial>, form: PatientForm, newId: string)
    returns (added: Option<Patient>)
    requires forall i :: 0 <= i < |store.patients| ==> store.patients[i].id != newId
    modifies store`patients
    ensures selectedTrial.None? ==> added.None? && store.patients == old(store.patients)
    ensures selectedTrial.Some? ==>
      && added == Some(Patient(newId, selectedTrial.value.id, form.name, form.age, form.diagnosis, form.dosage, form.result))
      && store.patients == old(store.patients) + [added.value]
    ensures old(store.Valid()) ==> store.Valid()
  {
    if selectedTrial.None? {
      return None;
    }
    var patient := Patient(newId, selectedTrial.value.id, form.name, form.age, form.diagnosis, form.dosage, form.result);
    store.patients := store.patients + [patient];
    added := Some(patient);
  }

  /** Enrolling patients, all for one trial, extends that trial's list by exactly them, in the order enrolled;
      every other trial's list is unchanged. */
  lemma {:induction false} EnrolmentExtendsListing(patients: seq<Patient>, enrolled: seq<Patient>, trialId: string, other: string)
    requires forall j :: 0 <= j < |enrolled| ==> enrolled[j].trialId == trialId
    ensures TrialPatients(patients + enrolled, trialId) == TrialPatients(patients, trialId) + enrolled
    ensures other != trialId ==> TrialPatients(patients + enrolled, other) == TrialPatients(patients, other)
  {
    FilterConcat(patients, enrolled, (p: Patient) => p.trialId == trialId);
    FilterAll(enrolled, (p: Patient) => p.trialId == trialId);
    if other != trialId {
      FilterConcat(patients, enrolled, (p: Patient) => p.trialId == other);
      NoneOfOtherTrial(enrolled, trialId, other);
    }
  }

  /** Patients all of one trial contribute nothing to another trial's list. */
  lemma {:induction false} NoneOfOtherTrial(enrolled: seq<Patient>, trialId: string, other: string)
    requires forall j :: 0 <= j < |enrolled| ==> enrolled[j].trialId == trialId
    requires other != trialId
    ensures TrialPatients(enrolled, other) == []
  {
    if enrolled != [] {
      NoneOfOtherTrial(enrolled[1..], trialId, other);
    }
  }

  // Report generation

  /** The template text up to the patient-count line. */
  function ReportPreamble(date: string, trialId: string): string
  {
    "Clinical Trial Report - " + date + "\n      \nTrial ID: " + trialId + "\n"
  }

  const CountLabel: string := "Number of Patients: "

  /** The template text after the patient-count line. */
  const ReportClosing: string :=
    "Analysis Results: 93% anomaly-free, flagged 1 inconsistency\n      \n"
    + "Summary: The trial shows promising results with minimal side effects. \n"
    + "The majority of patients responded positively to the treatment.\n      \n"
    + "Recommendation: Continue to phase 2 with minor protocol adjustments."

  /** The report template, filled with the date, the trial id and the number of patients. */
  function ReportText(date: string, trialId: string, patientCount: nat): string
  {
    ReportPreamble(date, trialId) + CountLabel + DecimalString(patientCount) + "\n" + ReportClosing
  }

  /** The text states the count: "Number of Patients: " followed by its decimal digits and a line break. */
  lemma ReportTextStatesCount(date: string, trialId: string, n: nat)
    ensures Includes(ReportText(date, trialId, n), CountLabel + DecimalString(n) + "\n")
  {
    var text := ReportText(date, trialId, n);
    var q := CountLabel + DecimalString(n) + "\n";
    var preamble := ReportPreamble(date, trialId);
    assert text == preamble + q + ReportClosing;
    assert text[|preamble|..|preamble| + |q|] == q;
    assert OccursAt(text, q, |preamble|);
    IncludesIffOccurs(text, q);
  }

  /** Texts for the same day and trial differ whenever the patient counts differ. */
  lemma ReportTextDeterminesCount(date: string, trialId: string, m: nat, n: nat)
    requires ReportText(date, trialId, m) == ReportText(date, trialId, n)
    ensures m == n
  {
    var head := ReportPreamble(date, trialId) + CountLabel;
    var tail := "\n" + ReportClosing;
    CountFixedByText(head, tail, m, n);
  }

  /** A count written between a fixed head and a fixed tail that starts with a line break can be read back. */
  lemma CountFixedByText(head: string, tail: string, m: nat, n: nat)
    requires tail != [] && tail[0] == '\n'
    requires head + DecimalString(m) + "\n" + tail[1..] == head + DecimalString(n) + "\n" + tail[1..]
    ensures m == n
  {
    var x, y := DecimalString(m) + tail, DecimalString(n) + tail;
    assert tail == "\n" + tail[1..];
    assert head + x == head + DecimalString(m) + "\n" + tail[1..];
    assert head + y == head + DecimalString(n) + "\n" + tail[1..];
    assert x == (head + x)[|head|..] == (head + y)[|head|..] == y;
    DecimalPrefixUnique(m, n, tail, tail);
  }

  /** The report `generateReport` builds: the template over this trial's patient count, and its digest. */
  function MakeReport(date: string, trialId: string, patients: seq<Patient>, sha256: string -> string): (r: Report)
    ensures r.trialId == trialId
    ensures r.reportText == ReportText(date, trialId, |TrialPatients(patients, trialId)|)
    ensures r.hash == sha256(r.reportText)
  {
    var text := ReportText(date, trialId, |TrialPatients(patients, trialId)|);
    Report(trialId, text, sha256(text))
  }

  /** Two patient lists whose trial ids agree position by position hold equally many patients of each trial. */
  lemma {:induction false} TrialPatientCountByIds(ps1: seq<Patient>, ps2: seq<Patient>, trialId: string)
    requires |ps1| == |ps2|
    requires forall j :: 0 <= j < |ps1| ==> ps1[j].trialId == ps2[j].trialId
    ensures |TrialPatients(ps1, trialId)| == |TrialPatients(ps2, trialId)|
  {
    if ps1 != [] {
      TrialPatientCountByIds(ps1[1..], ps2[1..], trialId);
    }
  }

  /** The report never reads a patient's name, age, diagnosis, dosage or result: lists that differ only
      there give the same report, text and hash alike. */
  lemma ReportIgnoresPatientFields(date: string, trialId: string, ps1: seq<Patient>, ps2: seq<Patient>,
                                   sha256: string -> string)
    requires |ps1| == |ps2|
    requires forall j :: 0 <= j < |ps1| ==> ps1[j].trialId == ps2[j].trialId
    ensures MakeReport(date, trialId, ps1, sha256) == MakeReport(date, trialId, ps2, sha256)
  {
    TrialPatientCountByIds(ps1, ps2, trialId);
  }

  /** Store `report`: replace the first report of its trial in place, or append when there is none. */
  function UpsertReport(reports: seq<Report>, report: Report): (r: seq<Report>)
    ensures (forall i :: 0 <= i < |reports| ==> reports[i].trialId != report.trialId) ==> r == reports + [report]
    ensures (exists i :: 0 <= i < |reports| && reports[i].trialId == report.trialId) ==>
      exists i :: 0 <= i < |reports| && reports[i].trialId == report.trialId
                  && (forall j :: 0 <= j < i ==> reports[j].trialId != report.trialId)
                  && r == reports[i := report]
  {
    var i := FindIndex(reports, (x: Report) => x.trialId == report.trialId);
    if i >= 0 then reports[i := report] else reports + [report]
  }

  /** After an upsert the trial's report is the new one, and every other trial's report is as before. */
  lemma UpsertThenLookup(reports: seq<Report>, report: Report, trialId: string)
    ensures TrialReport(UpsertReport(reports, report), report.trialId) == Some(report)
    ensures trialId != report.trialId ==>
      TrialReport(UpsertReport(reports, report), trialId) == TrialReport(reports, trialId)
  {
    var r := UpsertReport(reports, report);
    var own := (x: Report) => x.trialId == report.trialId;
    var p := (x: Report) => x.trialId == trialId;
    var i := FindIndex(reports, own);
    if i >= 0 {
      FindIndexAgrees(r, reports, own);
      if trialId != report.trialId {
        FindIndexAgrees(r, reports, p);
      }
    } else {
      assert r == reports + [report] && r[|reports|] == report;
      assert own(r[|reports|]);
      if trialId != report.trialId {
        FindIndexAppendMiss(reports, report, p);
      }
    }
  }

  /** Upserting never creates a second report for a trial. */
  lemma UpsertKeepsOneReportPerTrial(reports: seq<Report>, report: Report)
    requires OneReportPerTrial(reports)
    ensures OneReportPerTrial(UpsertReport(reports, report))
  {
  }

  /** Generating the same report twice stores it once. */
  lemma UpsertIdempotent(reports: seq<Report>, report: Report)
    ensures UpsertReport(UpsertReport(reports, report), report) == UpsertReport(reports, report)
  {
    var r := UpsertReport(reports, report);
    var p := (x: Report) => x.trialId == report.trialId;
    if exists i :: 0 <= i < |reports| && reports[i].trialId == report.trialId {
      FindIndexAgrees(r, reports, p);
    } else {
      assert r[|reports|] == report;
    }
  }

  /** The "Generate Report" button: offered while the trial has no report, enabled once it has a patient. */
  function CanGenerateReport(patients: seq<Patient>, reports: seq<Report>, trialId: string): (enabled: bool)
    ensures enabled <==> && (forall j :: 0 <= j < |reports| ==> reports[j].trialId != trialId)
                         && (exists j :: 0 <= j < |patients| && patients[j].trialId == trialId)
  {
    var trialPatients := TrialPatients(patients, trialId);
    assert trialPatients != [] ==> trialPatients[0] in patients;
    TrialReport(reports, trialId).None? && |trialPatients| > 0
  }

  /** Once a report is stored for the trial the button is no longer offered. */
  lemma GeneratedReportWithdrawsButton(patients: seq<Patient>, reports: seq<Report>, report: Report)
    ensures !CanGenerateReport(patients, UpsertReport(reports, report), report.trialId)
  {
    UpsertThenLookup(reports, report, report.trialId);
  }

  /** `generateReport`: build the report over the stored patients, then upsert it by trial id.
      `date` stands for `new Date().toLocaleDateString()`, `sha256` for the digest of CryptoJS. */
  method GenerateReport(store: Store, trialId: string, date: string, sha256: string -> string)
    returns (report: Report)
    modifies store`reports
    ensures report == MakeReport(date, trialId, store.patients, sha256)
    ensures store.reports == UpsertReport(old(store.reports), report)
    ensures TrialReport(store.reports, trialId) == Some(report)
    ensures old(store.Valid()) ==> store.Valid()
  {
    var trialPatients := TrialPatients(store.patients, trialId);
    var reportText := ReportText(date, trialId, |trialPatients|);
    report := Report(trialId, reportText, sha256(reportText));
    var reportIndex := FindIndex(store.reports, (x: Report) => x.trialId == trialId);
    if reportIndex >= 0 {
      store.reports := store.reports[reportIndex := report];
    } else {
      store.reports := store.reports + [report];
    }
    UpsertThenLookup(old(store.reports), report, trialId);
    if old(store.Valid()) {
      UpsertKeepsOneReportPerTrial(old(store.reports), report);
    }
  }

  /** `submitToBlockchain`: reuse the stored report, or generate one when there is none, then store its hash
      under the trial id at the publishing contract. Without a wallet, or when the transaction fails, the
      ledger is unchanged but a report generated on the way stays stored. */
  method SubmitToBlockchain(store: Store, chain: Chain, trialId: string, date: string, sha256: string -> string,
                            providerPresent: bool, transactionSucceeds: bool)
    returns (report: Report, outcome: SubmitOutcome)
    modifies store`reports, chain
    ensures old(TrialReport(store.reports, trialId)).Some? ==>
      report == old(TrialReport(store.reports, trialId)).value && store.reports == old(store.reports)
    ensures old(TrialReport(store.reports, trialId)).None? ==>
      report == MakeReport(date, trialId, store.patients, sha256) && store.reports == old(store.reports) + [report]
    ensures TrialReport(store.reports, trialId) == Some(report)
    ensures outcome == (if !providerPresent then NoProvider else if transactionSucceeds then Stored else TransactionFailed)
    ensures outcome == Stored ==> chain.hashes == old(chain.hashes)[(PublishAddress, trialId) := report.hash]
    ensures outcome != Stored ==> chain.hashes == old(chain.hashes)
    ensures old(store.Valid()) ==> store.Valid()
  {
    var existing := TrialReport(store.reports, trialId);
    if existing.Some? {
      report := existing.value;
    } else {
      report := GenerateReport(store, trialId, date, sha256);
    }
    if !providerPresent {
      return report, NoProvider;
    }
    if !transactionSucceeds {
      return report, TransactionFailed;
    }
    chain.StoreHash(PublishAddress, trialId, report.hash);
    outcome := Stored;
  }
}
