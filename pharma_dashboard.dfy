/**
 * The sponsor's dashboard: the trials it created, the hospitals it can
 * assign a trial to, and the form that creates a trial.
 */
module PharmaDashboard {
  import opened Wrappers
  import opened Seqs
  import opened Text
  import opened Records
  import opened LocalStore

  /** The fields of the create-trial form. */
  datatype TrialForm = TrialForm(hospitalId: string, title: string, description: string)

  /** One flag per form field, set when that field is rejected. */
  datatype FormErrors = FormErrors(hospitalId: bool, title: bool, description: bool) {
    predicate Any() { hospitalId || title || description }
  }

  const UnknownHospital := "Unknown Hospital"

  /** `validateForm`: no hospital picked, or a title or description that is blank. */
  function ValidateForm(form: TrialForm): (errors: FormErrors)
    ensures errors.hospitalId <==> form.hospitalId == ""
    ensures errors.title <==> IsBlank(form.title)
    ensures errors.description <==> IsBlank(form.description)
  {
    TrimEmptyIffBlank(form.title);
    TrimEmptyIffBlank(form.description);
    FormErrors(form.hospitalId == "", Trim(form.title) == "", Trim(form.description) == "")
  }

  /** The sponsor's own trials: `existingTrials.filter(trial => trial.pharmaId === userId)`. */
  function SponsorTrials(trials: seq<Trial>, userId: string): (r: seq<Trial>)
    ensures forall j :: 0 <= j < |r| ==> r[j].pharmaId == userId && r[j] in trials
    ensures forall t :: t in trials && t.pharmaId == userId ==> t in r
    ensures forall x :: multiset(r)[x] == if x.pharmaId == userId then multiset(trials)[x] else 0
    ensures IsSubsequence(r, trials)
  {
    FilterMultiset(trials, (t: Trial) => t.pharmaId == userId);
    FilterIsSubsequence(trials, (t: Trial) => t.pharmaId == userId);
    Filter(trials, (t: Trial) => t.pharmaId == userId)
  }

  /** `selectedHospital?.username || "Unknown Hospital"`: an empty username falls back too. */
  function HospitalNameFor(hospitals: seq<User>, hospitalId: string): (name: string)
    ensures name == UnknownHospital || exists i :: 0 <= i < |hospitals| && hospitals[i].id == hospitalId
                                                    && hospitals[i].username == name
    ensures (forall i :: 0 <= i < |hospitals| ==> hospitals[i].id != hospitalId) ==> name == UnknownHospital
    ensures name != ""
    ensures forall i :: 0 <= i < |hospitals| && hospitals[i].id == hospitalId
                        && (forall j :: 0 <= j < i ==> hospitals[j].id != hospitalId) ==>
      name == if hospitals[i].username != "" then hospitals[i].username else UnknownHospital
  {
    match Find(hospitals, (h: User) => h.id == hospitalId)
    case Some(h) => if h.username != "" then h.username else UnknownHospital
    case None => UnknownHospital
  }

  /** With distinct user ids, the name copied into the trial is that hospital's own username. */
  lemma HospitalNameIsUsername(users: seq<User>, i: nat)
    requires UniqueUserIds(users) && i < |users|
    requires users[i].role == HospitalRole && users[i].username != ""
    ensures HospitalNameFor(HospitalUsers(users), users[i].id) == users[i].username
  {
    var hospitals := HospitalUsers(users);
    var found := Find(hospitals, (h: User) => h.id == users[i].id);
    assert users[i] in hospitals;
    assert found.Some?;
    assert found.value in users;
  }

  /** `getStatusText`. */
  function StatusText(status: string): (text: string)
    ensures status == Approved ==> text == "Approved"
    ensures status == Rejected ==> text == "Rejected"
    ensures status != Approved && status != Rejected ==> text == "Pending"
  {
    if status == Approved then "Approved"
    else if status == Rejected then "Rejected"
    else "Pending"
  }

  /** Known statuses display as distinct texts, so the label identifies the status. */
  lemma StatusTextIdentifiesKnownStatus(s1: string, s2: string)
    requires IsKnownStatus(s1) && IsKnownStatus(s2)
    ensures StatusText(s1) == StatusText(s2) <==> s1 == s2
  {
  }

  /** `handleCreateTrial`. `newId` and `now` stand for `uuidv4()` and `Date.now()`. */
  method HandleCreateTrial(store: Store, userId: string, form: TrialForm, newId: string, now: int)
    returns (errors: FormErrors, created: Option<Trial>)
    requires forall i :: 0 <= i < |store.trials| ==> store.trials[i].id != newId
    modifies store
    ensures errors == ValidateForm(form)
    ensures created.None? <==> errors.Any()
    ensures created.None? ==> store.trials == old(store.trials)
    ensures created.Some? ==>
      && created.value == Trial(newId, userId, form.hospitalId,
                                HospitalNameFor(HospitalUsers(old(store.users)), form.hospitalId),
                                form.title, form.description, Pending, now)
      && store.trials == old(store.trials) + [created.value]
    ensures store.users == old(store.users) && store.patients == old(store.patients)
    ensures store.reports == old(store.reports) && store.currentUser == old(store.currentUser)
    ensures old(store.Valid()) ==> store.Valid()
  {
    errors := ValidateForm(form);
    if errors.Any() {
      return errors, None;
    }
    var hospitalName := HospitalNameFor(HospitalUsers(store.users), form.hospitalId);
    var trial := Trial(newId, userId, form.hospitalId, hospitalName, form.title, form.description, Pending, now);
    store.trials := store.trials + [trial];
    created := Some(trial);
  }

  /** A new trial joins its sponsor's view at the end; the trials already listed stay as they were. */
  lemma CreatedTrialInSponsorView(trials: seq<Trial>, trial: Trial)
    ensures SponsorTrials(trials + [trial], trial.pharmaId) == SponsorTrials(trials, trial.pharmaId) + [trial]
  {
    FilterConcat(trials, [trial], (t: Trial) => t.pharmaId == trial.pharmaId);
  }
}
