/**
 * The sign-in form: there is no password; signing in selects the first
 * stored user whose username equals the input exactly.
 */
module LoginPage {
  import opened Wrappers
  import opened Seqs
  import opened Text
  import opened Records
  import opened LocalStore
  import RegisterPage

  datatype LoginOutcome = LoggedIn(user: User) | BlankUsername | UserNotFound

  /** `users.find(u => u.username === username)`. */
  function FindByUsername(users: seq<User>, username: string): (r: Option<User>)
    ensures r.None? <==> forall i :: 0 <= i < |users| ==> users[i].username != username
    ensures r.Some? ==> r.value.username == username && r.value in users
    ensures r.Some? ==> exists i :: 0 <= i < |users| && users[i] == r.value
                         && forall j :: 0 <= j < i ==> users[j].username != username
  {
    Find(users, (u: User) => u.username == username)
  }

  /** With pairwise distinct usernames the lookup finds the one user of that name. */
  lemma FindByUsernameUnique(users: seq<User>, i: nat)
    requires UniqueUsernames(users) && i < |users|
    ensures FindByUsername(users, users[i].username) == Some(users[i])
  {
  }

  /** After a successful registration the new user signs in under that name, and every other name signs in
      as the user it did before. */
  lemma {:induction false} RegisteredUserCanSignIn(users: seq<User>, user: User, username: string)
    requires !RegisterPage.IsTaken(users, user.username)
    ensures FindByUsername(users + [user], user.username) == Some(user)
    ensures username != user.username ==> FindByUsername(users + [user], username) == FindByUsername(users, username)
  {
    var p := (u: User) => u.username == username;
    if username != user.username {
      FindIndexAppendMiss(users, user, p);
    }
    var own := (u: User) => u.username == user.username;
    assert FindIndex(users, own) == -1;
    assert (users + [user])[|users|] == user;
    assert forall j :: 0 <= j < |users| ==> (users + [user])[j] == users[j];
  }

  /** `handleLogin`: blank input and unknown names leave the signed-in user as it was. */
  method HandleLogin(store: Store, username: string) returns (outcome: LoginOutcome)
    modifies store`currentUser
    ensures IsBlank(username) ==> outcome == BlankUsername
    ensures !IsBlank(username) ==>
      outcome == (match FindByUsername(store.users, username)
                  case None => UserNotFound
                  case Some(u) => LoggedIn(u))
    ensures outcome.LoggedIn? ==> store.currentUser == Some(outcome.user) && outcome.user.username == username
    ensures !outcome.LoggedIn? ==> store.currentUser == old(store.currentUser)
    ensures store.users == old(store.users)
    ensures old(store.Valid()) ==> store.Valid()
  {
    TrimEmptyIffBlank(username);
    if Trim(username) == [] {
      return BlankUsername;
    }
    var user := FindByUsername(store.users, username);
    if user.None? {
      return UserNotFound;
    }
    store.currentUser := user;
    outcome := LoggedIn(user.value);
  }
}
