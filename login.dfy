/**
 * The login form (components/Login.tsx). A submit signs in the stored
 * account when its username equals the typed one up to case; otherwise it
 * signs in a demonstration user built from the typed username. The typed
 * password takes no part in either decision.
 */
module Login {
  import opened Wrappers
  import opened Types
  import opened Text
  import opened App

  /** The account record under 'lifeTrace_user_account', when there is one.
      Only registration and the profile screen write that key, and both
      write a user record there. */
  function StoredAccount(store: map<StorageKey, Stored>): (a: Option<User>)
    ensures a.Some? <==> AccountKey in store && store[AccountKey].UserRecord?
  {
    if AccountKey in store && store[AccountKey].UserRecord? then Some(store[AccountKey].user) else None
  }

  /** The case-insensitive username comparison. */
  predicate SameUsername(account: User, username: string) {
    Upper(account.username) == Upper(username)
  }

  /** The demonstration user signed in when no stored account matches. */
  function FallbackUser(username: string): User {
    User(
      id := "1",
      name := if Upper(username) != "" then Upper(username) else "USUÁRIO",
      birthDate := "1990-01-01",
      email := (if Lower(username) != "" then Lower(username) else "usuario") + "@saude.com",
      preExistingConditions := "NÃO INFORMADA",
      continuousMedications := None,
      username := if username != "" then username else "admin",
      bloodType := Some("--"),
      photoUrl := None,
      password := None)
  }

  /** The user `handleSubmit` passes to `onLogin`. */
  function LoginUser(account: Option<User>, username: string): User {
    if account.Some? && SameUsername(account.value, username) then account.value
    else FallbackUser(username)
  }

  /** A matching stored account is signed in as it is stored, password
      included; anything else signs in the demonstration user, who carries no
      password, has id "1", and takes name, e-mail and username from the
      typed text (or from the defaults when it is empty). Either way a
      non-empty typed username names the signed-in user up to case. */
  lemma LoginUserSpec(account: Option<User>, username: string)
    ensures var r := LoginUser(account, username);
            && (account.Some? && SameUsername(account.value, username) ==> r == account.value)
            && (r.password.Some? ==> account.Some? && r == account.value)
            && (!(account.Some? && SameUsername(account.value, username)) ==>
                  && r.id == "1" && r.password == None
                  && r.preExistingConditions == "NÃO INFORMADA" && r.bloodType == Some("--")
                  && (username != "" ==> r.name == Upper(username) && r.email == Lower(username) + "@saude.com"
                                         && r.username == username)
                  && (username == "" ==> r.name == "USUÁRIO" && r.email == "usuario@saude.com"
                                         && r.username == "admin"))
            && (username != "" ==> Upper(r.username) == Upper(username))
  {
    var r := LoginUser(account, username);
    if !(account.Some? && SameUsername(account.value, username)) {
      if username != "" {
        assert Upper(username)[0] == UpperChar(username[0]);
        assert Lower(username)[0] == LowerChar(username[0]);
      }
      assert r.password == None;
    }
  }

  /** `handleSubmit`: exactly one `onLogin` call, with the user above; the
      typed password is accepted and ignored. */
  method HandleSubmit(app: AppState, username: string, password: string)
    modifies app`user, app`store, app`screen
    ensures app.user == Some(LoginUser(StoredAccount(old(app.store)), username))
    ensures app.screen == DASHBOARD
    ensures app.store == old(app.store)[UserKey := UserRecord(LoginUser(StoredAccount(old(app.store)), username))]
    ensures old(app.Synced()) ==> app.Synced()
  {
    var saved := StoredAccount(app.store);
    if saved.Some? && SameUsername(saved.value, username) {
      app.Login(saved.value);
      return;
    }
    app.Login(FallbackUser(username));
  }
}
