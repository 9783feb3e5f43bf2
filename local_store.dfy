/**
 * Browser storage as the dashboards use it: four collections and the
 * signed-in user, each read in full and written back in full by a handler.
 */
module LocalStore {
  import opened Wrappers
  import opened Records

  class Store {
    var users: seq<User>
    var trials: seq<Trial>
    var patients: seq<Patient>
    var reports: seq<Report>
    var currentUser: Option<User>

    /** A fresh browser: every collection empty and nobody signed in. */
    constructor ()
      ensures users == [] && trials == [] && patients == [] && reports == [] && currentUser == None
      ensures Valid()
    {
      users, trials, patients, reports := [], [], [], [];
      currentUser := None;
    }

    /** What the handlers keep true of the stored collections. */
    ghost predicate Valid()
      reads this
    {
      && UniqueUsernames(users)
      && UniqueUserIds(users)
      && UniqueTrialIds(trials)
      && UniquePatientIds(patients)
      && OneReportPerTrial(reports)
      && KnownStatuses(trials)
      && (currentUser.Some? ==> currentUser.value in users)
    }
  }
}
