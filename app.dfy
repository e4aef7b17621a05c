/**
 * The application shell (App.tsx): the signed-in user, the current screen, the
 * five record collections it owns and hands to the screens, and their
 * persistence in the browser's key-value storage. Storage is a map from key to
 * the value stored there (the JSON round trip is not modelled); React effects
 * are explicit calls: every setter of a collection is followed by the save
 * effect that writes the whole collection under its own key.
 */
module App {
  import opened Wrappers
  import opened Types

  /** A value written to storage under one of the keys below. */
  datatype Stored =
    | UserRecord(user: User)
    | ExamList(exams: seq<ExamRecord>)
    | ImagingList(imagingExams: seq<ImagingExam>)
    | DoctorList(doctors: seq<Doctor>)
    | LaboratoryList(laboratories: seq<Laboratory>)
    | AppointmentList(appointments: seq<Appointment>)

  /** The storage keys the application uses. */
  datatype StorageKey =
    | UserKey | AccountKey | ExamsKey | ImagingKey | DoctorsKey | LaboratoriesKey | AppointmentsKey

  /** The name under which each key is written to `localStorage`. */
  function KeyName(k: StorageKey): string {
    match k
    case UserKey => "lifeTrace_user"
    case AccountKey => "lifeTrace_user_account"
    case ExamsKey => "lifeTrace_exams"
    case ImagingKey => "lifeTrace_imagingExams"
    case DoctorsKey => "lifeTrace_doctors"
    case LaboratoriesKey => "lifeTrace_laboratories"
    case AppointmentsKey => "lifeTrace_appointments"
  }

  /** The component shown while nobody is signed in. */
  datatype PreLoginView = RegisterView | ForgotPasswordView | LoginView

  /** The switch on the current screen when there is no user: only the
      registration and password screens are reachable by name, every other
      screen shows the login form. */
  function PreLoginScreen(screen: AppScreen): (v: PreLoginView)
    ensures v == RegisterView <==> screen == REGISTER
    ensures v == ForgotPasswordView <==> screen == FORGOT_PASSWORD
    ensures v == LoginView <==> screen != REGISTER && screen != FORGOT_PASSWORD
  {
    match screen
    case REGISTER => RegisterView
    case FORGOT_PASSWORD => ForgotPasswordView
    case _ => LoginView
  }

  /** What the load effect reads under each key: a key holding a value of
      another shape counts as absent, and an absent collection is empty. */
  function StoredUser(store: map<StorageKey, Stored>): (u: Option<User>)
    ensures u.Some? <==> UserKey in store && store[UserKey].UserRecord?
  {
    if UserKey in store && store[UserKey].UserRecord? then Some(store[UserKey].user) else None
  }

  function StoredExams(store: map<StorageKey, Stored>): seq<ExamRecord> {
    if ExamsKey in store && store[ExamsKey].ExamList? then store[ExamsKey].exams else []
  }

  function StoredImagingExams(store: map<StorageKey, Stored>): seq<ImagingExam> {
    if ImagingKey in store && store[ImagingKey].ImagingList? then store[ImagingKey].imagingExams else []
  }

  function StoredDoctors(store: map<StorageKey, Stored>): seq<Doctor> {
    if DoctorsKey in store && store[DoctorsKey].DoctorList? then store[DoctorsKey].doctors else []
  }

  function StoredLaboratories(store: map<StorageKey, Stored>): seq<Laboratory> {
    if LaboratoriesKey in store && store[LaboratoriesKey].LaboratoryList? then store[LaboratoriesKey].laboratories else []
  }

  function StoredAppointments(store: map<StorageKey, Stored>): seq<Appointment> {
    if AppointmentsKey in store && store[AppointmentsKey].AppointmentList? then store[AppointmentsKey].appointments else []
  }

  /** `store` holds each of the five collections under its own key. */
  predicate StoresAll(store: map<StorageKey, Stored>, exams: seq<ExamRecord>, imagingExams: seq<ImagingExam>,
                      doctors: seq<Doctor>, laboratories: seq<Laboratory>, appointments: seq<Appointment>)
  {
    && ExamsKey in store && store[ExamsKey] == ExamList(exams)
    && ImagingKey in store && store[ImagingKey] == ImagingList(imagingExams)
    && DoctorsKey in store && store[DoctorsKey] == DoctorList(doctors)
    && LaboratoriesKey in store && store[LaboratoriesKey] == LaboratoryList(laboratories)
    && AppointmentsKey in store && store[AppointmentsKey] == AppointmentList(appointments)
  }

  /** `store` after the five save effects have written their collections. */
  function WithCollections(store: map<StorageKey, Stored>, exams: seq<ExamRecord>, imagingExams: seq<ImagingExam>,
                           doctors: seq<Doctor>, laboratories: seq<Laboratory>, appointments: seq<Appointment>)
    : (r: map<StorageKey, Stored>)
    ensures StoresAll(r, exams, imagingExams, doctors, laboratories, appointments)
    ensures forall k :: k in store ==> k in r
    ensures UserKey in store ==> r[UserKey] == store[UserKey]
    ensures AccountKey in store ==> r[AccountKey] == store[AccountKey]
  {
    store[ExamsKey := ExamList(exams)][ImagingKey := ImagingList(imagingExams)]
      [DoctorsKey := DoctorList(doctors)][LaboratoriesKey := LaboratoryList(laboratories)]
      [AppointmentsKey := AppointmentList(appointments)]
  }

  /** `store` after the save effects of the doctor and the laboratory list
      when each runs only if its list was set to a new value: a changed list
      is written under its key, and every other key is left as it was. */
  function RegistriesSaved(store: map<StorageKey, Stored>, doctors0: seq<Doctor>, doctors: seq<Doctor>,
                           laboratories0: seq<Laboratory>, laboratories: seq<Laboratory>): (r: map<StorageKey, Stored>)
    ensures doctors != doctors0 ==> DoctorsKey in r && r[DoctorsKey] == DoctorList(doctors)
    ensures laboratories != laboratories0 ==> LaboratoriesKey in r && r[LaboratoriesKey] == LaboratoryList(laboratories)
    ensures doctors == doctors0 && laboratories == laboratories0 ==> r == store
    ensures forall k :: k != DoctorsKey && k != LaboratoriesKey ==> (k in r <==> k in store)
    ensures forall k :: k in store && k != DoctorsKey && k != LaboratoriesKey ==> r[k] == store[k]
    ensures doctors == doctors0 ==> (DoctorsKey in r <==> DoctorsKey in store)
    ensures doctors == doctors0 && DoctorsKey in store ==> r[DoctorsKey] == store[DoctorsKey]
    ensures laboratories == laboratories0 ==> (LaboratoriesKey in r <==> LaboratoriesKey in store)
    ensures laboratories == laboratories0 && LaboratoriesKey in store ==> r[LaboratoriesKey] == store[LaboratoriesKey]
  {
    var s := if doctors != doctors0 then store[DoctorsKey := DoctorList(doctors)] else store;
    if laboratories != laboratories0 then s[LaboratoriesKey := LaboratoryList(laboratories)] else s
  }

  /** Two rounds of registry saves are one round from the first lists to the
      last, when each list either stays or grows in each round (so a list
      that changed never changes back). */
  lemma RegistriesSavedTwice(store: map<StorageKey, Stored>, d0: seq<Doctor>, d1: seq<Doctor>, d2: seq<Doctor>,
                             l0: seq<Laboratory>, l1: seq<Laboratory>, l2: seq<Laboratory>)
    requires d1 == d0 || |d1| > |d0|
    requires d2 == d1 || |d2| > |d1|
    requires l1 == l0 || |l1| > |l0|
    requires l2 == l1 || |l2| > |l1|
    ensures RegistriesSaved(RegistriesSaved(store, d0, d1, l0, l1), d1, d2, l1, l2) == RegistriesSaved(store, d0, d2, l0, l2)
  {
    var twice := RegistriesSaved(RegistriesSaved(store, d0, d1, l0, l1), d1, d2, l1, l2);
    var once := RegistriesSaved(store, d0, d2, l0, l2);
    assert d2 == d0 ==> d1 == d0;
    assert l2 == l0 ==> l1 == l0;
    assert twice.Keys == once.Keys;
    forall k | k in once
      ensures twice[k] == once[k]
    {
    }
  }

  /** Writing a user record leaves the five collections stored. */
  lemma StoresAllPutUser(store: map<StorageKey, Stored>, k: StorageKey, v: Stored, exams: seq<ExamRecord>,
                         imagingExams: seq<ImagingExam>, doctors: seq<Doctor>,
                         laboratories: seq<Laboratory>, appointments: seq<Appointment>)
    requires k == UserKey || k == AccountKey
    requires StoresAll(store, exams, imagingExams, doctors, laboratories, appointments)
    ensures StoresAll(store[k := v], exams, imagingExams, doctors, laboratories, appointments)
  {
  }

  /** Removing a user record leaves the five collections stored. */
  lemma StoresAllRemoveUser(store: map<StorageKey, Stored>, k: StorageKey, exams: seq<ExamRecord>,
                            imagingExams: seq<ImagingExam>, doctors: seq<Doctor>,
                            laboratories: seq<Laboratory>, appointments: seq<Appointment>)
    requires k == UserKey || k == AccountKey
    requires StoresAll(store, exams, imagingExams, doctors, laboratories, appointments)
    ensures StoresAll(store - {k}, exams, imagingExams, doctors, laboratories, appointments)
  {
  }

  /** What the save effects write is what the next start-up loads. */
  lemma ReloadRestoresCollections(store: map<StorageKey, Stored>, exams: seq<ExamRecord>,
                                  imagingExams: seq<ImagingExam>, doctors: seq<Doctor>,
                                  laboratories: seq<Laboratory>, appointments: seq<Appointment>)
    requires StoresAll(store, exams, imagingExams, doctors, laboratories, appointments)
    ensures StoredExams(store) == exams && StoredImagingExams(store) == imagingExams
    ensures StoredDoctors(store) == doctors && StoredLaboratories(store) == laboratories
    ensures StoredAppointments(store) == appointments
  {
  }

  class AppState {
    var screen: AppScreen
    var user: Option<User>
    var exams: seq<ExamRecord>
    var imagingExams: seq<ImagingExam>
    var doctors: seq<Doctor>
    var laboratories: seq<Laboratory>
    var appointments: seq<Appointment>
    var menuOpen: bool
    /** The browser's storage, key by key. */
    var store: map<StorageKey, Stored>

    /** Every collection is stored, as a whole, under its own key. */
    predicate Synced()
      reads this
    {
      StoresAll(store, exams, imagingExams, doctors, laboratories, appointments)
    }

    /** The initial state: the login screen, no user, empty collections, over
        whatever storage the browser already holds. */
    constructor(storage: map<StorageKey, Stored>)
      ensures screen == LOGIN && user == None && !menuOpen
      ensures exams == [] && imagingExams == [] && doctors == []
      ensures laboratories == [] && appointments == []
      ensures store == storage
    {
      screen := LOGIN;
      user := None;
      exams := [];
      imagingExams := [];
      doctors := [];
      laboratories := [];
      appointments := [];
      menuOpen := false;
      store := storage;
    }

    /** `setExams(v)` followed by its save effect. */
    method SetExams(v: seq<ExamRecord>)
      modifies this`exams, this`store
      ensures exams == v
      ensures store == old(store)[ExamsKey := ExamList(v)]
      ensures old(Synced()) ==> Synced()
    {
      exams := v;
      store := store[ExamsKey := ExamList(v)];
    }

    /** `setImagingExams(v)` followed by its save effect. */
    method SetImagingExams(v: seq<ImagingExam>)
      modifies this`imagingExams, this`store
      ensures imagingExams == v
      ensures store == old(store)[ImagingKey := ImagingList(v)]
      ensures old(Synced()) ==> Synced()
    {
      imagingExams := v;
      store := store[ImagingKey := ImagingList(v)];
    }

    /** `setDoctors(v)` followed by its save effect. */
    method SetDoctors(v: seq<Doctor>)
      modifies this`doctors, this`store
      ensures doctors == v
      ensures store == old(store)[DoctorsKey := DoctorList(v)]
      ensures old(Synced()) ==> Synced()
    {
      doctors := v;
      store := store[DoctorsKey := DoctorList(v)];
    }

    /** `setLaboratories(v)` followed by its save effect. */
    method SetLaboratories(v: seq<Laboratory>)
      modifies this`laboratories, this`store
      ensures laboratories == v
      ensures store == old(store)[LaboratoriesKey := LaboratoryList(v)]
      ensures old(Synced()) ==> Synced()
    {
      laboratories := v;
      store := store[LaboratoriesKey := LaboratoryList(v)];
    }

    /** `setAppointments(v)` followed by its save effect. */
    method SetAppointments(v: seq<Appointment>)
      modifies this`appointments, this`store
      ensures appointments == v
      ensures store == old(store)[AppointmentsKey := AppointmentList(v)]
      ensures old(Synced()) ==> Synced()
    {
      appointments := v;
      store := store[AppointmentsKey := AppointmentList(v)];
    }

    /** The mount effect: a stored user is restored and opens the dashboard;
        each collection takes its stored value when its key is present and
        otherwise stays empty. Storage is only read. */
    method ReadStorage()
      modifies this`user, this`screen, this`exams, this`imagingExams, this`doctors,
               this`laboratories, this`appointments
      ensures user == StoredUser(store)
      ensures screen == (if user.Some? then DASHBOARD else LOGIN)
      ensures exams == StoredExams(store)
      ensures imagingExams == StoredImagingExams(store)
      ensures doctors == StoredDoctors(store)
      ensures laboratories == StoredLaboratories(store)
      ensures appointments == StoredAppointments(store)
    {
      user := StoredUser(store);
      screen := if user.Some? then DASHBOARD else LOGIN;
      exams, imagingExams, doctors := StoredExams(store), StoredImagingExams(store), StoredDoctors(store);
      laboratories, appointments := StoredLaboratories(store), StoredAppointments(store);
    }

    /** The five save effects, run once after mounting: every collection is
        written under its key and the other keys keep their values. */
    method WriteCollections()
      modifies this`store
      ensures store == WithCollections(old(store), exams, imagingExams, doctors, laboratories, appointments)
      ensures Synced()
    {
      store := WithCollections(store, exams, imagingExams, doctors, laboratories, appointments);
    }

    /** Start-up: the mount effect, then the save effects, so storage and
        state agree afterwards and the user records are untouched. */
    method Load()
      requires screen == LOGIN && user == None
      requires exams == [] && imagingExams == [] && doctors == []
      requires laboratories == [] && appointments == []
      modifies this
      ensures user == StoredUser(old(store))
      ensures screen == (if user.Some? then DASHBOARD else LOGIN)
      ensures menuOpen == old(menuOpen)
      ensures exams == StoredExams(old(store))
      ensures imagingExams == StoredImagingExams(old(store))
      ensures doctors == StoredDoctors(old(store))
      ensures laboratories == StoredLaboratories(old(store))
      ensures appointments == StoredAppointments(old(store))
      ensures Synced()
      ensures old(store).Keys <= store.Keys
      ensures UserKey in old(store) ==> store[UserKey] == old(store)[UserKey]
      ensures AccountKey in old(store) ==> store[AccountKey] == old(store)[AccountKey]
    {
      ReadStorage();
      WriteCollections();
    }

    /** `handleLogin`: the user is set, stored under the user key, and the
        dashboard opens. Nothing else changes. */
    method Login(u: User)
      modifies this`user, this`store, this`screen
      ensures user == Some(u) && screen == DASHBOARD
      ensures store == old(store)[UserKey := UserRecord(u)]
      ensures old(Synced()) ==> Synced()
    {
      if Synced() {
        StoresAllPutUser(store, UserKey, UserRecord(u), exams, imagingExams, doctors, laboratories, appointments);
      }
      user := Some(u);
      store := store[UserKey := UserRecord(u)];
      screen := DASHBOARD;
    }

    /** `handleLogout`: only the user key is removed from storage; the
        collections, their keys and the account record stay. */
    method Logout()
      modifies this`user, this`store, this`screen, this`menuOpen
      ensures user == None && screen == LOGIN && !menuOpen
      ensures store == old(store) - {UserKey}
      ensures old(Synced()) ==> Synced()
      ensures AccountKey in old(store) ==> AccountKey in store && store[AccountKey] == old(store)[AccountKey]
    {
      if Synced() {
        StoresAllRemoveUser(store, UserKey, exams, imagingExams, doctors, laboratories, appointments);
      }
      store := store - {UserKey};
      user := None;
      screen := LOGIN;
      menuOpen := false;
    }
  }
}
