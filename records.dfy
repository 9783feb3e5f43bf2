/**
 * The four kinds of record kept in browser storage (users, trials,
 * patients, reports), the status and role strings they carry, the lookups
 * every dashboard shares, and the invariants the registry keeps.
 */
module Records {
  import opened Wrappers
  import opened Seqs
  import opened Text

  /** A registered identity; `role` is the value of the radio group at registration. */
  datatype User = User(id: string, username: string, role: string)

  /** A clinical trial; `hospitalName` is copied from the hospital user when the trial is created. */
  datatype Trial = Trial(
    id: string,
    pharmaId: string,
    hospitalId: string,
    hospitalName: string,
    title: string,
    description: string,
    status: string,
    createdAt: int)

  /** An enrolment record; every field is free text. */
  datatype Patient = Patient(
    id: string,
    trialId: string,
    name: string,
    age: string,
    diagnosis: string,
    dosage: string,
    result: string)

  /** A generated report and the digest of its text. */
  datatype Report = Report(trialId: string, reportText: string, hash: string)

  const Pending := "pending"
  const Approved := "approved"
  const Rejected := "rejected"

  const HospitalRole := "hospital"

  /** The three statuses the dashboards ever write. */
  predicate IsKnownStatus(status: string)
  {
    status == Pending || status == Approved || status == Rejected
  }

  /** `patients.filter(patient => patient.trialId === trialId)`. */
  function TrialPatients(patients: seq<Patient>, trialId: string): (r: seq<Patient>)
    ensures forall j :: 0 <= j < |r| ==> r[j].trialId == trialId && r[j] in patients
    ensures forall p :: p in patients && p.trialId == trialId ==> p in r
  {
    Filter(patients, (p: Patient) => p.trialId == trialId)
  }

  /** A trial's patients are listed in the order they were enrolled. */
  lemma TrialPatientsInOrder(patients: seq<Patient>, trialId: string)
    ensures IsSubsequence(TrialPatients(patients, trialId), patients)
  {
    FilterIsSubsequence(patients, (p: Patient) => p.trialId == trialId);
  }

  /** `users.filter(user => user.role === "hospital")`: the hospital picker and the analysis page's hospitals. */
  function HospitalUsers(users: seq<User>): (r: seq<User>)
    ensures forall j :: 0 <= j < |r| ==> r[j].role == HospitalRole && r[j] in users
    ensures forall u :: u in users && u.role == HospitalRole ==> u in r
    ensures forall x :: multiset(r)[x] == if x.role == HospitalRole then multiset(users)[x] else 0
    ensures IsSubsequence(r, users)
  {
    FilterMultiset(users, (u: User) => u.role == HospitalRole);
    FilterIsSubsequence(users, (u: User) => u.role == HospitalRole);
    Filter(users, (u: User) => u.role == HospitalRole)
  }

  /** `reports.find(report => report.trialId === trialId)`. */
  function TrialReport(reports: seq<Report>, trialId: string): (r: Option<Report>)
    ensures r.None? <==> forall j :: 0 <= j < |reports| ==> reports[j].trialId != trialId
    ensures r.Some? ==> r.value.trialId == trialId && r.value in reports
    ensures r.Some? ==>
      exists i :: 0 <= i < |reports| && reports[i] == r.value && forall j :: 0 <= j < i ==> reports[j].trialId != trialId
  {
    Find(reports, (x: Report) => x.trialId == trialId)
  }

  /** The statuses of the trials, in stored order. */
  function Statuses(trials: seq<Trial>): (r: seq<string>)
    ensures |r| == |trials| && forall i :: 0 <= i < |trials| ==> r[i] == trials[i].status
  {
    Map(trials, (t: Trial) => t.status)
  }

  /** `trials.filter(t => t.status === status).length`: the status cards and the status chart. The count is
      the number of trials carrying that status. */
  function CountWithStatus(trials: seq<Trial>, status: string): (n: nat)
    ensures n == multiset(Statuses(trials))[status]
    ensures n <= |trials|
    ensures n == 0 <==> forall i :: 0 <= i < |trials| ==> trials[i].status != status
    ensures n == |trials| <==> forall i :: 0 <= i < |trials| ==> trials[i].status == status
  {
    StatusCountIsMultiplicity(trials, status);
    Count(trials, (t: Trial) => t.status == status)
  }

  /** The trials kept by the status filter are as many as the occurrences of the status among the statuses. */
  lemma {:induction false} StatusCountIsMultiplicity(trials: seq<Trial>, status: string)
    ensures |Filter(trials, (t: Trial) => t.status == status)| == multiset(Statuses(trials))[status]
  {
    if trials != [] {
      StatusCountIsMultiplicity(trials[1..], status);
      assert Statuses(trials) == [trials[0].status] + Statuses(trials[1..]);
    }
  }

  /** `field.toLowerCase().includes(query.toLowerCase())`: the case-insensitive search test. */
  predicate TextMatches(field: string, query: string)
  {
    Includes(Lower(field), Lower(query))
  }

  /** The search box of the sponsor and regulator dashboards: title, description or hospital name. */
  function SearchTrials(trials: seq<Trial>, query: string): (r: seq<Trial>)
    ensures forall j :: 0 <= j < |r| ==> r[j] in trials
    ensures forall t :: t in trials ==>
      (t in r <==> TextMatches(t.title, query) || TextMatches(t.description, query) || TextMatches(t.hospitalName, query))
  {
    Filter(trials, (t: Trial) =>
      TextMatches(t.title, query) || TextMatches(t.description, query) || TextMatches(t.hospitalName, query))
  }

  /** The search keeps the trials in the order they are stored. */
  lemma SearchTrialsKeepsOrder(trials: seq<Trial>, query: string)
    ensures IsSubsequence(SearchTrials(trials, query), trials)
  {
    FilterIsSubsequence(trials, (t: Trial) =>
      TextMatches(t.title, query) || TextMatches(t.description, query) || TextMatches(t.hospitalName, query));
  }

  /** An empty search box shows every trial. */
  lemma SearchTrialsEmptyQuery(trials: seq<Trial>)
    ensures SearchTrials(trials, "") == trials
  {
    forall j | 0 <= j < |trials| ensures TextMatches(trials[j].title, "") {
      IncludesEmpty(Lower(trials[j].title));
    }
    FilterAll(trials, (t: Trial) =>
      TextMatches(t.title, "") || TextMatches(t.description, "") || TextMatches(t.hospitalName, ""));
  }

  /** The search ignores the case of the query. */
  lemma SearchTrialsCaseInsensitive(trials: seq<Trial>, q1: string, q2: string)
    requires Lower(q1) == Lower(q2)
    ensures SearchTrials(trials, q1) == SearchTrials(trials, q2)
  {
    FilterCongruent(trials,
      (t: Trial) => TextMatches(t.title, q1) || TextMatches(t.description, q1) || TextMatches(t.hospitalName, q1),
      (t: Trial) => TextMatches(t.title, q2) || TextMatches(t.description, q2) || TextMatches(t.hospitalName, q2));
  }

  // Invariants of the registry.

  /** No two users share a username (compared exactly, case included). */
  ghost predicate UniqueUsernames(users: seq<User>)
  {
    forall i, j :: 0 <= i < j < |users| ==> users[i].username != users[j].username
  }

  ghost predicate UniqueUserIds(users: seq<User>)
  {
    forall i, j :: 0 <= i < j < |users| ==> users[i].id != users[j].id
  }

  ghost predicate UniqueTrialIds(trials: seq<Trial>)
  {
    forall i, j :: 0 <= i < j < |trials| ==> trials[i].id != trials[j].id
  }

  ghost predicate UniquePatientIds(patients: seq<Patient>)
  {
    forall i, j :: 0 <= i < j < |patients| ==> patients[i].id != patients[j].id
  }

  /** At most one report per trial. */
  ghost predicate OneReportPerTrial(reports: seq<Report>)
  {
    forall i, j :: 0 <= i < j < |reports| ==> reports[i].trialId != reports[j].trialId
  }

  ghost predicate KnownStatuses(trials: seq<Trial>)
  {
    forall i :: 0 <= i < |trials| ==> IsKnownStatus(trials[i].status)
  }

  /** When every status is one of the three, the three counts add up to the number of trials. */
  lemma {:induction false} StatusCountsPartition(trials: seq<Trial>)
    requires KnownStatuses(trials)
    ensures CountWithStatus(trials, Pending) + CountWithStatus(trials, Approved) + CountWithStatus(trials, Rejected)
         == |trials|
  {
    if trials != [] {
      StatusCountsPartition(trials[1..]);
    }
  }
}
