/**
 * Saving the profile (components/Profile.tsx): the edited user becomes the
 * signed-in user and is written under 'lifeTrace_user'; an existing account
 * record is rewritten as the account spread with the edited user, so the
 * account keeps whatever the edited user does not carry, its password in
 * particular.
 */
module Profile {
  import opened Wrappers
  import opened Types
  import opened Text
  import opened App
  import Login

  /** An optional property of the spread `{ ...account, ...edited }`: the
      edited value when the edited user has the key. */
  function Over<T>(edited: Option<T>, account: Option<T>): Option<T> {
    if edited.Some? then edited else account
  }

  /** `{ ...accountData, ...editedUser }`. */
  function Merge(account: User, edited: User): User {
    edited.(
      continuousMedications := Over(edited.continuousMedications, account.continuousMedications),
      bloodType := Over(edited.bloodType, account.bloodType),
      photoUrl := Over(edited.photoUrl, account.photoUrl),
      password := Over(edited.password, account.password))
  }

  /** Every property the edited user has wins; the account keeps the others,
      its password whenever the edited user has none. */
  lemma MergeSpec(account: User, edited: User)
    ensures var r := Merge(account, edited);
            && r.id == edited.id && r.name == edited.name && r.birthDate == edited.birthDate
            && r.email == edited.email && r.preExistingConditions == edited.preExistingConditions
            && r.username == edited.username
            && r.continuousMedications == (if edited.continuousMedications.Some? then edited.continuousMedications else account.continuousMedications)
            && r.bloodType == (if edited.bloodType.Some? then edited.bloodType else account.bloodType)
            && r.photoUrl == (if edited.photoUrl.Some? then edited.photoUrl else account.photoUrl)
            && (edited.password == None ==> r.password == account.password)
            && (edited.password.Some? ==> r.password == edited.password)
  {
  }

  /** Saving the same edit twice leaves the account as the first save did. */
  lemma MergeIdempotent(account: User, edited: User)
    ensures Merge(Merge(account, edited), edited) == Merge(account, edited)
  {
  }

  /** A saved profile still signs in through the account, under the edited
      username, and with the account's password when the edit carried none. */
  lemma SaveThenLogin(account: User, edited: User)
    ensures Login.LoginUser(Some(Merge(account, edited)), edited.username) == Merge(account, edited)
    ensures edited.password == None ==>
              Login.LoginUser(Some(Merge(account, edited)), edited.username).password == account.password
  {
  }

  class ProfileScreen {
    var isEditing: bool
    var editedUser: User

    /** The screen opens showing the signed-in user, not editing. */
    constructor(user: User)
      ensures !isEditing && editedUser == user
    {
      isEditing := false;
      editedUser := user;
    }

    /** `handleSave`: the signed-in user becomes the edited one and is
        written under the user key; the account key is rewritten with the
        merge only when it already holds an account; editing ends. */
    method HandleSave(app: AppState)
      modifies this`isEditing, app`user, app`store
      ensures !isEditing
      ensures app.user == Some(editedUser)
      ensures var saved := Login.StoredAccount(old(app.store));
              var written := old(app.store)[UserKey := UserRecord(editedUser)];
              app.store == if saved.Some? then written[AccountKey := UserRecord(Merge(saved.value, editedUser))]
                           else written
      ensures old(app.Synced()) ==> app.Synced()
    {
      app.user := Some(editedUser);
      app.store := app.store[UserKey := UserRecord(editedUser)];
      var saved := Login.StoredAccount(app.store);
      if saved.Some? {
        app.store := app.store[AccountKey := UserRecord(Merge(saved.value, editedUser))];
      }
      isEditing := false;
    }
  }
}
