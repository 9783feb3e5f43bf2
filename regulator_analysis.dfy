/**
 * The regulator's analysis page: the statistic cards, the two charts built
 * from stored records, and the per-trial verification list.
 */
module RegulatorAnalysis {
  import opened Wrappers
  import opened Seqs
  import opened Records

  /** A trial as the verification list shows it: whether it has a report, and that report's hash. */
  datatype TrialWithVerification = TrialWithVerification(trial: Trial, verified: bool, reportHash: Option<string>)

  /** One bar or slice of a chart. */
  datatype ChartEntry = ChartEntry(name: string, value: nat)

  /** The verification list: one entry per stored trial, in stored order, marked verified exactly when some
      report names the trial, and carrying the hash of the first such report. */
  function TrialsWithVerification(trials: seq<Trial>, reports: seq<Report>): (r: seq<TrialWithVerification>)
    ensures |r| == |trials|
    ensures forall i :: 0 <= i < |trials| ==>
      && r[i].trial == trials[i]
      && (r[i].verified <==> exists j :: 0 <= j < |reports| && reports[j].trialId == trials[i].id)
      && (r[i].reportHash.Some? <==> r[i].verified)
      && (r[i].verified ==> r[i].reportHash == Some(TrialReport(reports, trials[i].id).value.hash))
  {
    Map(trials, (t: Trial) =>
      var report := TrialReport(reports, t.id);
      TrialWithVerification(t, report.Some?, if report.Some? then Some(report.value.hash) else None))
  }

  /** The hospital ids of the trials, in stored order. */
  function HospitalIds(trials: seq<Trial>): (r: seq<string>)
    ensures |r| == |trials| && forall i :: 0 <= i < |trials| ==> r[i] == trials[i].hospitalId
  {
    Map(trials, (t: Trial) => t.hospitalId)
  }

  /** `trials.filter(t => t.hospitalId === hospital.id).length`: how many stored trials are assigned to this
      hospital. */
  function TrialsOfHospital(trials: seq<Trial>, hospitalId: string): (n: nat)
    ensures n == multiset(HospitalIds(trials))[hospitalId]
    ensures n <= |trials|
    ensures n == 0 <==> forall i :: 0 <= i < |trials| ==> trials[i].hospitalId != hospitalId
  {
    HospitalCountIsMultiplicity(trials, hospitalId);
    var r := Filter(trials, (t: Trial) => t.hospitalId == hospitalId);
    assert forall i :: 0 <= i < |trials| && trials[i].hospitalId == hospitalId ==> trials[i] in r;
    assert r != [] ==> r[0] in trials && r[0].hospitalId == hospitalId;
    |r|
  }

  /** The trials kept by the hospital filter are as many as the occurrences of the id among the hospital ids. */
  lemma {:induction false} HospitalCountIsMultiplicity(trials: seq<Trial>, hospitalId: string)
    ensures |Filter(trials, (t: Trial) => t.hospitalId == hospitalId)| == multiset(HospitalIds(trials))[hospitalId]
  {
    if trials != [] {
      HospitalCountIsMultiplicity(trials[1..], hospitalId);
      assert HospitalIds(trials) == [trials[0].hospitalId] + HospitalIds(trials[1..]);
    }
  }

  /** The "Trials by Hospital" chart: a bar per hospital user with at least one trial, labelled with the
      username and sized by the number of trials assigned to it. */
  function HospitalTrialsData(users: seq<User>, trials: seq<Trial>): (r: seq<ChartEntry>)
    ensures forall e :: e in r ==>
      && 0 < e.value <= |trials|
      && exists u :: u in users && u.role == HospitalRole && e == ChartEntry(u.username, TrialsOfHospital(trials, u.id))
    ensures forall u :: u in users && u.role == HospitalRole && TrialsOfHospital(trials, u.id) > 0 ==>
      ChartEntry(u.username, TrialsOfHospital(trials, u.id)) in r
  {
    var bars := HospitalBars(users, trials);
    assert forall u :: u in users && u.role == HospitalRole ==>
      ChartEntry(u.username, TrialsOfHospital(trials, u.id)) in bars by {
      forall u | u in users && u.role == HospitalRole
        ensures ChartEntry(u.username, TrialsOfHospital(trials, u.id)) in bars
      {
        var k :| 0 <= k < |HospitalUsers(users)| && HospitalUsers(users)[k] == u;
        assert bars[k] == ChartEntry(u.username, TrialsOfHospital(trials, u.id));
      }
    }
    Filter(bars, (e: ChartEntry) => e.value > 0)
  }

  /** One bar per hospital user, in the order the users are stored, before empty bars are dropped. */
  function HospitalBars(users: seq<User>, trials: seq<Trial>): seq<ChartEntry>
  {
    Map(HospitalUsers(users), (h: User) => ChartEntry(h.username, TrialsOfHospital(trials, h.id)))
  }

  /** The hospital bars keep the order of the hospital list. */
  lemma HospitalChartKeepsOrder(users: seq<User>, trials: seq<Trial>)
    ensures IsSubsequence(HospitalTrialsData(users, trials), HospitalBars(users, trials))
  {
    FilterIsSubsequence(HospitalBars(users, trials), (e: ChartEntry) => e.value > 0);
  }

  /** The "Trial Status" chart: Pending, Approved and Rejected in that order, each sized by its count,
      with the empty ones left out. */
  function TrialStatusData(trials: seq<Trial>): (r: seq<ChartEntry>)
    ensures forall e :: e in r ==> e.value > 0
    ensures forall e :: e in r ==>
      || e == ChartEntry("Pending", CountWithStatus(trials, Pending))
      || e == ChartEntry("Approved", CountWithStatus(trials, Approved))
      || e == ChartEntry("Rejected", CountWithStatus(trials, Rejected))
    ensures CountWithStatus(trials, Pending) > 0 ==> ChartEntry("Pending", CountWithStatus(trials, Pending)) in r
    ensures CountWithStatus(trials, Approved) > 0 ==> ChartEntry("Approved", CountWithStatus(trials, Approved)) in r
    ensures CountWithStatus(trials, Rejected) > 0 ==> ChartEntry("Rejected", CountWithStatus(trials, Rejected)) in r
  {
    var all := StatusSlices(trials);
    assert all[0] == ChartEntry("Pending", CountWithStatus(trials, Pending));
    assert all[1] == ChartEntry("Approved", CountWithStatus(trials, Approved));
    assert all[2] == ChartEntry("Rejected", CountWithStatus(trials, Rejected));
    Filter(all, (e: ChartEntry) => e.value > 0)
  }

  /** The three status slices before the empty ones are dropped. */
  function StatusSlices(trials: seq<Trial>): seq<ChartEntry>
  {
    [ChartEntry("Pending", CountWithStatus(trials, Pending)),
     ChartEntry("Approved", CountWithStatus(trials, Approved)),
     ChartEntry("Rejected", CountWithStatus(trials, Rejected))]
  }

  /** The slices that remain keep the fixed order Pending, Approved, Rejected. */
  lemma StatusChartKeepsOrder(trials: seq<Trial>)
    ensures IsSubsequence(TrialStatusData(trials), StatusSlices(trials))
  {
    FilterIsSubsequence(StatusSlices(trials), (e: ChartEntry) => e.value > 0);
  }

  /** The total a chart's slices add up to. */
  function ChartTotal(entries: seq<ChartEntry>): nat
  {
    if entries == [] then 0 else entries[0].value + ChartTotal(entries[1..])
  }

  /** Dropping empty slices does not change the total. */
  lemma {:induction false} DropEmptyKeepsTotal(entries: seq<ChartEntry>)
    ensures ChartTotal(Filter(entries, (e: ChartEntry) => e.value > 0)) == ChartTotal(entries)
  {
    if entries != [] {
      var rest := Filter(entries[1..], (e: ChartEntry) => e.value > 0);
      DropEmptyKeepsTotal(entries[1..]);
      if entries[0].value > 0 {
        assert ([entries[0]] + rest)[1..] == rest;
      } else {
        assert Filter(entries, (e: ChartEntry) => e.value > 0) == rest;
      }
    }
  }

  /** When every trial has one of the three statuses, the status chart covers every trial exactly once. */
  lemma StatusChartCoversAllTrials(trials: seq<Trial>)
    requires KnownStatuses(trials)
    ensures ChartTotal(TrialStatusData(trials)) == |trials|
  {
    var all := StatusSlices(trials);
    DropEmptyKeepsTotal(all);
    assert ChartTotal(all[2..]) == all[2].value by {
      assert all[2..][1..] == [];
    }
    assert ChartTotal(all[1..]) == all[1].value + all[2].value by {
      assert all[1..][1..] == all[2..];
    }
    StatusCountsPartition(trials);
  }

  /** The four statistic cards. */
  datatype Totals = Totals(totalTrials: nat, verifiedTrials: nat, totalPatients: nat, approvedTrials: nat)

  /** The cards count stored records; "Verified Reports" is the number of stored reports. */
  function AnalysisTotals(trials: seq<Trial>, reports: seq<Report>, patients: seq<Patient>): (r: Totals)
    ensures r.totalTrials == |trials| && r.verifiedTrials == |reports| && r.totalPatients == |patients|
    ensures r.approvedTrials == CountWithStatus(trials, Approved) <= r.totalTrials
  {
    Totals(|trials|, |reports|, |patients|, CountWithStatus(trials, Approved))
  }

  /** Whether some report names the trial. */
  predicate HasReport(reports: seq<Report>, t: Trial)
  {
    TrialReport(reports, t.id).Some?
  }

  /** How many entries of the verification list are marked verified. */
  function VerifiedInList(trials: seq<Trial>, reports: seq<Report>): nat
  {
    Count(trials, (t: Trial) => HasReport(reports, t))
  }

  /** The report names one of the trials. */
  ghost predicate NamesTrial(trials: seq<Trial>, report: Report)
  {
    exists j :: 0 <= j < |trials| && trials[j].id == report.trialId
  }

  /** Every report names a stored trial. */
  ghost predicate ReportsNameTrials(trials: seq<Trial>, reports: seq<Report>)
  {
    forall i :: 0 <= i < |reports| ==> NamesTrial(trials, reports[i])
  }

  /** The first report, if any, names a stored trial. */
  lemma FirstReportNamesTrial(trials: seq<Trial>, reports: seq<Report>)
    requires ReportsNameTrials(trials, reports)
    ensures |reports| > 0 ==> NamesTrial(trials, reports[0])
  {
  }

  /** The reports without the one at `k`. */
  function RemoveReport(reports: seq<Report>, k: nat): (r: seq<Report>)
    requires k < |reports|
    ensures |r| == |reports| - 1
    ensures forall i :: 0 <= i < |r| ==> r[i] == if i < k then reports[i] else reports[i + 1]
  {
    reports[..k] + reports[k + 1..]
  }

  /** Taking out the only report of one trial leaves one report per trial, and the same trials with reports
      among the other trials. */
  lemma RemoveOnlyReport(reports: seq<Report>, k: nat, trialId: string)
    requires OneReportPerTrial(reports) && k < |reports| && reports[k].trialId == trialId
    ensures OneReportPerTrial(RemoveReport(reports, k))
    ensures forall i :: 0 <= i < |RemoveReport(reports, k)| ==>
      RemoveReport(reports, k)[i].trialId != trialId && RemoveReport(reports, k)[i] in reports
    ensures forall u: Trial :: u.id != trialId ==> (HasReport(reports, u) <==> HasReport(RemoveReport(reports, k), u))
  {
    var others := RemoveReport(reports, k);
    forall i, j | 0 <= i < j < |others| ensures others[i].trialId != others[j].trialId {
      var i', j' := if i < k then i else i + 1, if j < k then j else j + 1;
      assert others[i] == reports[i'] && others[j] == reports[j'];
    }
    forall i | 0 <= i < |others| ensures others[i].trialId != trialId && others[i] in reports {
      var i' := if i < k then i else i + 1;
      assert others[i] == reports[i'];
    }
    forall u: Trial | u.id != trialId ensures HasReport(reports, u) ==> HasReport(others, u) {
      if HasReport(reports, u) {
        var i :| 0 <= i < |reports| && reports[i].trialId == u.id;
        var i' := if i < k then i else i - 1;
        assert others[i'] == reports[i];
      }
    }
  }

  /** The reports that do not name the first trial name one of the others. */
  lemma ReportsNameRest(trials: seq<Trial>, reports: seq<Report>, others: seq<Report>)
    requires trials != [] && ReportsNameTrials(trials, reports)
    requires forall i :: 0 <= i < |others| ==> others[i].trialId != trials[0].id && others[i] in reports
    ensures ReportsNameTrials(trials[1..], others)
  {
    var rest := trials[1..];
    forall i | 0 <= i < |others| ensures NamesTrial(rest, others[i]) {
      assert others[i] in reports;
      var i0 :| 0 <= i0 < |reports| && reports[i0] == others[i];
      assert NamesTrial(trials, reports[i0]);
      var j :| 0 <= j < |trials| && trials[j].id == reports[i0].trialId;
      assert j != 0;
      assert rest[j - 1].id == others[i].trialId;
    }
  }

  /** The "Verified Reports" card, which counts reports, agrees with the verification list, which marks
      trials, when trial ids are unique, each trial has at most one report and every report names a trial. */
  lemma VerifiedCardMatchesList(trials: seq<Trial>, reports: seq<Report>)
    requires UniqueTrialIds(trials) && OneReportPerTrial(reports) && ReportsNameTrials(trials, reports)
    ensures AnalysisTotals(trials, reports, []).verifiedTrials
         == |Filter(TrialsWithVerification(trials, reports), (v: TrialWithVerification) => v.verified)|
  {
    ReportsCountVerifiedTrials(trials, reports);
    VerificationListCount(trials, reports);
  }

  /** Under the same conditions, there are as many reports as trials with a report. */
  lemma {:induction false} ReportsCountVerifiedTrials(trials: seq<Trial>, reports: seq<Report>)
    requires UniqueTrialIds(trials) && OneReportPerTrial(reports) && ReportsNameTrials(trials, reports)
    ensures VerifiedInList(trials, reports) == |reports|
    decreases |trials|
  {
    if trials == [] {
      FirstReportNamesTrial(trials, reports);
    } else {
      var t, rest := trials[0], trials[1..];
      RestOfUnique(trials);
      var others := WithoutReportOf(reports, t.id, rest);
      ReportsNameRest(trials, reports, others);
      ReportsCountVerifiedTrials(rest, others);
      assert VerifiedInList(trials, reports) == (if HasReport(reports, t) then 1 else 0) + VerifiedInList(rest, reports);
    }
  }

  /** The reports other than the one naming `trialId`, if there is one; trials with another id have a report
      among them exactly when they have one among all the reports. */
  lemma WithoutReportOf(reports: seq<Report>, trialId: string, trials: seq<Trial>) returns (others: seq<Report>)
    requires OneReportPerTrial(reports)
    requires forall j :: 0 <= j < |trials| ==> trials[j].id != trialId
    ensures |others| + (if TrialReport(reports, trialId).Some? then 1 else 0) == |reports|
    ensures OneReportPerTrial(others)
    ensures forall i :: 0 <= i < |others| ==> others[i].trialId != trialId && others[i] in reports
    ensures VerifiedInList(trials, reports) == VerifiedInList(trials, others)
  {
    var k := FindIndex(reports, (x: Report) => x.trialId == trialId);
    if k >= 0 {
      others := RemoveReport(reports, k);
      RemoveOnlyReport(reports, k, trialId);
    } else {
      others := reports;
    }
    FilterCongruent(trials, (u: Trial) => HasReport(reports, u), (u: Trial) => HasReport(others, u));
  }

  /** The trials after the first keep unique ids, none of them the first one's. */
  lemma RestOfUnique(trials: seq<Trial>)
    requires trials != [] && UniqueTrialIds(trials)
    ensures UniqueTrialIds(trials[1..])
    ensures forall j :: 0 <= j < |trials[1..]| ==> trials[1..][j].id != trials[0].id
  {
    forall j | 0 <= j < |trials[1..]| ensures trials[1..][j].id != trials[0].id {
      assert trials[1..][j] == trials[j + 1];
    }
  }

  /** The list's verified marks are exactly the trials with a report. */
  lemma {:induction false} VerificationListCount(trials: seq<Trial>, reports: seq<Report>)
    ensures VerifiedInList(trials, reports) == |Filter(TrialsWithVerification(trials, reports),
                                                       (v: TrialWithVerification) => v.verified)|
  {
    if trials != [] {
      VerificationListCount(trials[1..], reports);
      assert TrialsWithVerification(trials, reports)[1..] == TrialsWithVerification(trials[1..], reports);
    }
  }
}
