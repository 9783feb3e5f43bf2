/**
 * The registration form: a username and a role; a blank or already used
 * username is refused, otherwise the new user is stored and signed in.
 */
module RegisterPage {
  import opened Wrappers
  import opened Seqs
  import opened Text
  import opened Records
  import opened LocalStore

  datatype RegisterOutcome = Registered(user: User) | BlankUsername | UsernameTaken

  /** `existingUsers.some(user => user.username === username)`. */
  function IsTaken(users: seq<User>, username: string): (b: bool)
    ensures b <==> exists i :: 0 <= i < |users| && users[i].username == username
  {
    Exists(users, (u: User) => u.username == username)
  }

  /** Appending a user whose name is not taken keeps usernames pairwise distinct. */
  lemma AppendKeepsUsernamesUnique(users: seq<User>, user: User)
    requires UniqueUsernames(users)
    requires !IsTaken(users, user.username)
    ensures UniqueUsernames(users + [user])
  {
  }

  /** `handleRegister`. `newId` stands for the `uuidv4()` the source draws. */
  method HandleRegister(store: Store, username: string, role: string, newId: string)
    returns (outcome: RegisterOutcome)
    requires forall i :: 0 <= i < |store.users| ==> store.users[i].id != newId
    modifies store
    ensures IsBlank(username) ==> outcome == BlankUsername
    ensures !IsBlank(username) && IsTaken(old(store.users), username) ==> outcome == UsernameTaken
    ensures outcome.Registered? <==> !IsBlank(username) && !IsTaken(old(store.users), username)
    ensures outcome.Registered? ==>
      && outcome.user == User(newId, username, role)
      && store.users == old(store.users) + [outcome.user]
      && store.currentUser == Some(outcome.user)
    ensures !outcome.Registered? ==> store.users == old(store.users) && store.currentUser == old(store.currentUser)
    ensures store.trials == old(store.trials) && store.patients == old(store.patients)
    ensures store.reports == old(store.reports)
    ensures old(store.Valid()) ==> store.Valid()
  {
    TrimEmptyIffBlank(username);
    if Trim(username) == [] {
      return BlankUsername;
    }
    if IsTaken(store.users, username) {
      return UsernameTaken;
    }
    var user := User(newId, username, role);
    ghost var before := store.users;
    store.users := store.users + [user];
    store.currentUser := Some(user);
    if old(store.Valid()) {
      AppendKeepsUsernamesUnique(before, user);
    }
    outcome := Registered(user);
  }
}
