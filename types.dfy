/**
 * The records of the health tracker (types.ts). Optional properties are
 * `Option`s: `None` is an absent key, which is what object spread and the
 * `a || b` defaults of the components distinguish.
 */
module Types {
  import opened Wrappers
  import opened Text

  /** The signed-in person. `password` is only present on the stored account
      record (and on a user that signed in through it); the application's
      `User` type does not declare it. */
  datatype User = User(
    id: string,
    name: string,
    birthDate: string,
    email: string,
    preExistingConditions: string,
    continuousMedications: Option<string>,
    username: string,
    bloodType: Option<string>,
    photoUrl: Option<string>,
    password: Option<string>)

  datatype Doctor = Doctor(
    id: string,
    name: string,
    specialty: string,
    crm: Option<string>,
    phone: Option<string>,
    address: Option<string>)

  datatype Laboratory = Laboratory(
    id: string,
    name: string,
    address: Option<string>,
    phone: Option<string>)

  datatype ExamRecord = ExamRecord(
    id: string,
    examName: string,
    value: string,
    unit: string,
    referenceRange: string,
    laboratory: string,
    doctorName: string,
    date: string,
    notes: Option<string>)

  datatype ImagingExam = ImagingExam(
    id: string,
    patientName: Option<string>,
    examType: string,
    region: string,
    doctorName: string,
    laboratory: string,
    date: string,
    reportSummary: string,
    conclusion: string,
    notes: Option<string>,
    fileUri: Option<string>,
    fileMimeType: Option<string>)

  datatype AppointmentType = CONSULTA | EXAME

  datatype Appointment = Appointment(
    id: string,
    title: string,
    kind: AppointmentType,
    date: string,
    time: string,
    location: string,
    address: Option<string>,
    notes: Option<string>,
    notified: bool)

  datatype Reminder = Reminder(
    id: string,
    examName: string,
    frequencyMonths: int,
    lastDate: string,
    nextDate: string,
    notes: Option<string>,
    active: bool)

  datatype AppScreen =
    | LOGIN | REGISTER | FORGOT_PASSWORD | DASHBOARD | PROFILE | EXAMS
    | IMAGING_EXAMS | DOCTORS | LABORATORIES | REPORTS | ANALYTICS | AGENDA

  /** JavaScript truthiness of an optional string: present and non-empty. */
  predicate Truthy(o: Option<string>) {
    o.Some? && o.value != ""
  }

  /** `o || fallback` for an optional string. */
  function OrElse(o: Option<string>, fallback: string): string
  {
    if Truthy(o) then o.value else fallback
  }

  /** `o?.toUpperCase() || fallback` for an optional string. */
  function UpperOr(o: Option<string>, fallback: string): string {
    if Truthy(o) then Upper(o.value) else fallback
  }
}
