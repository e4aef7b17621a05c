/**
 * The registration form (components/Register.tsx): the form's fields, the
 * two confirmation checks, the user and the account record built from a
 * valid form, and the error cleared by any edit. The new user's id comes
 * from the clock in the application and is a parameter here.
 */
module Register {
  import opened Wrappers
  import opened Types
  import opened Text
  import opened App
  import Login

  datatype RegisterForm = RegisterForm(
    name: string,
    birthDate: string,
    email: string,
    emailConfirm: string,
    conditions: string,
    medications: string,
    username: string,
    bloodType: string,
    password: string,
    passwordConfirm: string,
    photoUrl: string)

  /** The form as the screen opens: every field empty. */
  const EmptyForm := RegisterForm("", "", "", "", "", "", "", "", "", "", "")

  /** The names `handleInputChange` is called with. */
  datatype Field =
    | NameField | BirthDateField | EmailField | EmailConfirmField | ConditionsField
    | MedicationsField | UsernameField | BloodTypeField | PasswordField
    | PasswordConfirmField | PhotoUrlField

  function Get(f: RegisterForm, k: Field): string {
    match k
    case NameField => f.name
    case BirthDateField => f.birthDate
    case EmailField => f.email
    case EmailConfirmField => f.emailConfirm
    case ConditionsField => f.conditions
    case MedicationsField => f.medications
    case UsernameField => f.username
    case BloodTypeField => f.bloodType
    case PasswordField => f.password
    case PasswordConfirmField => f.passwordConfirm
    case PhotoUrlField => f.photoUrl
  }

  /** `{ ...formData, [field]: value }`. */
  function WithField(f: RegisterForm, k: Field, v: string): (r: RegisterForm)
    ensures Get(r, k) == v
    ensures forall j :: j != k ==> Get(r, j) == Get(f, j)
  {
    match k
    case NameField => f.(name := v)
    case BirthDateField => f.(birthDate := v)
    case EmailField => f.(email := v)
    case EmailConfirmField => f.(emailConfirm := v)
    case ConditionsField => f.(conditions := v)
    case MedicationsField => f.(medications := v)
    case UsernameField => f.(username := v)
    case BloodTypeField => f.(bloodType := v)
    case PasswordField => f.(password := v)
    case PasswordConfirmField => f.(passwordConfirm := v)
    case PhotoUrlField => f.(photoUrl := v)
  }

  const EmailMismatch := "Os endereços de e-mail digitados são diferentes. Por favor, verifique."
  const PasswordMismatch := "As senhas digitadas não são iguais. Por favor, corrija para prosseguir."

  /** What a submit leads to: one of the two errors, or the user handed to
      `onRegister` together with the account record written to storage. */
  datatype Outcome = EmailsDiffer | PasswordsDiffer | Registered(user: User, account: User) {
    predicate Rejected() { !Registered? }

    /** The message the form shows for an error. */
    function Message(): string
      requires Rejected()
    {
      if EmailsDiffer? then EmailMismatch else PasswordMismatch
    }
  }

  /** `newUser`: the user built from a form that passed both checks. */
  function NewUser(f: RegisterForm, id: string): User {
    User(
      id := id,
      name := Upper(f.name),
      birthDate := f.birthDate,
      email := Lower(f.email),
      preExistingConditions := Upper(f.conditions),
      continuousMedications := Some(Upper(f.medications)),
      username := Upper(f.username),
      bloodType := Some(f.bloodType),
      photoUrl := Some(f.photoUrl),
      password := None)
  }

  /** `handleRegister`, as a value: the e-mail check first, then the
      password check, then the user and `{ ...newUser, password }`. */
  function Registration(f: RegisterForm, id: string): Outcome {
    if Lower(f.email) != Lower(f.emailConfirm) then EmailsDiffer
    else if f.password != f.passwordConfirm then PasswordsDiffer
    else
      var u := NewUser(f, id);
      Registered(u, u.(password := Some(f.password)))
  }

  /** A form is rejected exactly when the e-mails differ up to case or the
      passwords differ, and the e-mail message wins when both do. An accepted
      form gives a user with the text fields case-normalised and no
      password, and an account that is that user plus the typed password. */
  lemma RegistrationSpec(f: RegisterForm, id: string)
    ensures var o := Registration(f, id);
            && (o.Rejected() <==> Lower(f.email) != Lower(f.emailConfirm) || f.password != f.passwordConfirm)
            && (o.EmailsDiffer? <==> Lower(f.email) != Lower(f.emailConfirm))
            && (o.PasswordsDiffer? <==>
                  Lower(f.email) == Lower(f.emailConfirm) && f.password != f.passwordConfirm)
            && (o.Registered? ==>
                  && o.user.id == id
                  && o.user.name == Upper(f.name) && o.user.email == Lower(f.email)
                  && o.user.preExistingConditions == Upper(f.conditions)
                  && o.user.continuousMedications == Some(Upper(f.medications))
                  && o.user.username == Upper(f.username)
                  && o.user.birthDate == f.birthDate && o.user.bloodType == Some(f.bloodType)
                  && o.user.photoUrl == Some(f.photoUrl)
                  && o.user.password == None
                  && o.account.password == Some(f.password)
                  && o.account.(password := None) == o.user)
  {
  }

  /** A registered account is found again by the login form whatever case
      the username is typed in, and signs in with its password. */
  lemma RegisterThenLogin(f: RegisterForm, id: string, typed: string)
    requires Registration(f, id).Registered?
    requires Upper(typed) == Upper(f.username)
    ensures Login.LoginUser(Some(Registration(f, id).account), typed) == Registration(f, id).account
    ensures Login.LoginUser(Some(Registration(f, id).account), typed).password == Some(f.password)
  {
    UpperIdempotent(f.username);
  }

  class RegisterScreen {
    var form: RegisterForm
    /** The displayed error; empty when none is shown. */
    var error: string

    constructor()
      ensures form == EmptyForm && error == ""
    {
      form := EmptyForm;
      error := "";
    }

    /** `handleInputChange`: the field takes the value, upper-cased when
        asked, and any displayed error disappears. */
    method HandleInputChange(k: Field, value: string, uppercase: bool)
      modifies this
      ensures form == WithField(old(form), k, if uppercase then Upper(value) else value)
      ensures error == ""
    {
      form := WithField(form, k, if uppercase then Upper(value) else value);
      if error != "" {
        error := "";
      }
    }

    /** `handleRegister` with `onRegister` bound to the application's
        `handleLogin`: a rejected form only shows its message; an accepted
        one writes the account record, then signs the new user in. */
    method HandleRegister(app: AppState, id: string)
      modifies this`error, app`user, app`store, app`screen
      ensures var o := Registration(form, id);
              if o.Rejected() then
                && error == o.Message()
                && app.user == old(app.user) && app.screen == old(app.screen)
                && app.store == old(app.store)
              else
                && error == old(error)
                && app.user == Some(o.user) && app.screen == DASHBOARD
                && app.store == old(app.store)[AccountKey := UserRecord(o.account)][UserKey := UserRecord(o.user)]
      ensures old(app.Synced()) ==> app.Synced()
    {
      if Lower(form.email) != Lower(form.emailConfirm) {
        error := EmailMismatch;
        return;
      }
      if form.password != form.passwordConfirm {
        error := PasswordMismatch;
        return;
      }
      var newUser := NewUser(form, id);
      if app.Synced() {
        StoresAllPutUser(app.store, AccountKey, UserRecord(newUser.(password := Some(form.password))),
                         app.exams, app.imagingExams, app.doctors, app.laboratories, app.appointments);
      }
      app.store := app.store[AccountKey := UserRecord(newUser.(password := Some(form.password)))];
      app.Login(newUser);
    }
  }
}
