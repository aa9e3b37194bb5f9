/**
 * The authentication store (`AuthProvider`): only the session user, with
 * the same signup, login and logout as the application store.
 */
module AuthContext {
  import opened Wrappers
  import opened JsString
  import opened Domain
  import opened Transitions
  import opened Storage

  class AuthProvider {
    /** The session of the logged-in user, or `None`. */
    var user: Option<Session>
    /** The storage the operations read and save. */
    const store: Store

    /** Mounting the provider: the session is loaded from storage. */
    constructor (store: Store)
      ensures this.store == store && user == store.session
    {
      this.store := store;
      user := store.session;
    }

    /** `isLoggedIn`. */
    predicate IsLoggedIn()
      reads this
    {
      Domain.IsLoggedIn(user)
    }

    /**
     * `login`: checks the stored users and, on success, saves and sets the
     * session. The body runs the guards of `Transitions.Authenticate` line by
     * line; the `ensures` says it agrees with that function.
     */
    method Login(username: string, password: string) returns (outcome: Outcome)
      modifies this`user, store`session
      ensures match Authenticate(store.users, username, password)
        case Ok(s) => outcome == Done && user == Some(s) && store.session == Some(s)
        case Err(e) => outcome == e && user == old(user) && store.session == old(store.session)
    {
      var users := store.users;
      var found := FindUser(users, Trim(username));
      if found.None? {
        return InvalidUsername;
      }
      if found.value.password != password {
        return InvalidPassword;
      }
      var s := Session(found.value.id, found.value.username);
      store.session := Some(s);
      user := Some(s);
      return Done;
    }

    /**
     * `signup`: checks and appends to the stored users, then logs in with the
     * trimmed name. The body runs the guards of `Transitions.Register` line
     * by line; the `ensures` says it agrees with that function.
     */
    method Signup(id: Id, fullname: string, username: string, password: string) returns (outcome: Outcome)
      modifies this`user, store`users, store`session
      ensures match Register(old(store.users), id, fullname, username, password)
        case Err(e) =>
          outcome == e && store.users == old(store.users)
          && user == old(user) && store.session == old(store.session)
        case Ok(after) =>
          outcome == Done && store.users == after
          && user == Some(Session(id, Trim(username))) && store.session == user
    {
      var stored := store.users;
      var name := Trim(username);
      ghost var registered := Register(stored, id, fullname, username, password);
      if FindUser(stored, Trim(name)).Some? {
        assert registered == Err(UserExists);
        return UserExists;
      }
      assert registered == Ok(stored + [User(id, fullname, name, password)]);
      store.users := stored + [User(id, fullname, name, password)];
      SignupLogsIn(stored, id, fullname, username, password);
      outcome := Login(name, password);
    }

    /** `logout`: removes the stored session and clears the one in memory. */
    method Logout()
      modifies this`user, store`session
      ensures user == None && store.session == None
    {
      store.session := None;
      user := None;
    }
  }
}
