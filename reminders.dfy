/**
 * The exam reminders (components/Reminders.tsx): the next date a reminder
 * falls due, its status against today, and the list's add, mark-as-done and
 * delete handlers.
 *
 * Dates are civil dates of the proleptic Gregorian calendar. A date written
 * `YYYY-MM-DD` is read as JavaScript reads that form, as midnight UTC;
 * moving it by a number of months is `setMonth(getMonth() + months)`, which
 * carries into the year and, when the target month is shorter than the day,
 * rolls the surplus days into the month after. Those two calls work on the
 * host's calendar, so the host's time zone is a parameter: west of
 * Greenwich, midnight UTC is the evening before. The result is written back
 * in UTC, as `toISOString().split('T')[0]` writes it. Days are counted from
 * the first day of year 0, which only differences use.
 */
module Reminders {
  import opened Wrappers
  import opened Types
  import opened Text
  import opened Collections

  // ---------------------------------------------------------------------------
  // Civil dates
  // ---------------------------------------------------------------------------

  datatype CivilDate = CivilDate(year: int, month: int, day: int)

  predicate IsLeapYear(y: int) {
    y % 4 == 0 && (y % 100 != 0 || y % 400 == 0)
  }

  function DaysInMonth(y: int, m: int): (r: int)
    requires 1 <= m <= 12
    ensures 28 <= r <= 31
  {
    if m == 2 then (if IsLeapYear(y) then 29 else 28)
    else if m == 4 || m == 6 || m == 9 || m == 11 then 30
    else 31
  }

  predicate Valid(d: CivilDate) {
    1 <= d.month <= 12 && 1 <= d.day <= DaysInMonth(d.year, d.month)
  }

  /** Months counted from January of year 0. */
  function MonthIndex(d: CivilDate): int {
    d.year * 12 + (d.month - 1)
  }

  /** The length of month number `t`. */
  function MonthLength(t: int): int {
    DaysInMonth(t / 12, t % 12 + 1)
  }

  /** The day number of the first day of month number `t`. */
  function MonthStart(t: int): int
    decreases if t >= 0 then t else -t
  {
    if t == 0 then 0
    else if t > 0 then MonthStart(t - 1) + MonthLength(t - 1)
    else MonthStart(t + 1) - MonthLength(t)
  }

  /** Days counted from the first day of year 0. */
  function DayNumber(d: CivilDate): int {
    MonthStart(MonthIndex(d)) + d.day - 1
  }

  lemma MonthStartStep(t: int)
    ensures MonthStart(t + 1) == MonthStart(t) + MonthLength(t)
  {
  }

  /** `k` months hold between 28 and 31 days each. */
  lemma {:induction false} MonthStartGrowth(t: int, k: nat)
    ensures 28 * k <= MonthStart(t + k) - MonthStart(t) <= 31 * k
    decreases k
  {
    if k > 0 {
      MonthStartGrowth(t, k - 1);
      MonthStartStep(t + k - 1);
    }
  }

  /** The date of month number `t` with the given day. */
  function InMonth(t: int, day: int): (r: CivilDate)
    ensures MonthIndex(r) == t && r.day == day
  {
    CivilDate(t / 12, t % 12 + 1, day)
  }

  /** `setMonth(getMonth() + months)`. */
  function AddMonths(d: CivilDate, months: int): CivilDate
    requires Valid(d)
  {
    var t := MonthIndex(d) + months;
    if d.day <= MonthLength(t) then InMonth(t, d.day)
    else InMonth(t + 1, d.day - MonthLength(t))
  }

  /** The result is a valid date `months` months on, with the same day when
      that month has it and otherwise the surplus days into the month after;
      either way it lies as many days on as the months in between hold. */
  lemma AddMonthsSpec(d: CivilDate, months: int)
    requires Valid(d)
    ensures var r := AddMonths(d, months);
            var t := MonthIndex(d) + months;
            && Valid(r)
            && (d.day <= MonthLength(t) ==> MonthIndex(r) == t && r.day == d.day)
            && (d.day > MonthLength(t) ==> MonthIndex(r) == t + 1 && r.day == d.day - MonthLength(t))
            && DayNumber(r) - DayNumber(d) == MonthStart(t) - MonthStart(MonthIndex(d))
  {
    var t := MonthIndex(d) + months;
    MonthStartStep(t);
  }

  /** Moving on `k` months moves on between 28 and 31 days a month. */
  lemma AddMonthsDays(d: CivilDate, k: nat)
    requires Valid(d)
    ensures 28 * k <= DayNumber(AddMonths(d, k)) - DayNumber(d) <= 31 * k
  {
    AddMonthsSpec(d, k);
    MonthStartGrowth(MonthIndex(d), k);
  }

  // ---------------------------------------------------------------------------
  // The host's time zone
  // ---------------------------------------------------------------------------

  /** Where the host's clock stands against UTC, by less than a day and
      without summer time. `new Date("YYYY-MM-DD")` is midnight UTC, while
      `getMonth` and `setMonth` work on the host's calendar, where that
      instant falls on the same day at or east of Greenwich and on the
      evening before west of it. */
  datatype HostZone = AtOrEastOfUtc | WestOfUtc

  /** The day before. */
  function PrevDay(d: CivilDate): (r: CivilDate)
    requires Valid(d)
    ensures Valid(r) && DayNumber(r) == DayNumber(d) - 1
    ensures MonthIndex(r) == MonthIndex(d) || MonthIndex(r) == MonthIndex(d) - 1
  {
    if d.day > 1 then d.(day := d.day - 1)
    else
      var t := MonthIndex(d) - 1;
      MonthStartStep(t);
      InMonth(t, MonthLength(t))
  }

  /** A date's month number splits back into its year and month. */
  lemma MonthIndexParts(d: CivilDate)
    requires 1 <= d.month <= 12
    ensures MonthIndex(d) / 12 == d.year && MonthIndex(d) % 12 == d.month - 1
    ensures MonthLength(MonthIndex(d)) == DaysInMonth(d.year, d.month)
  {
  }

  /** The day after. */
  function NextDay(d: CivilDate): (r: CivilDate)
    requires Valid(d)
    ensures Valid(r) && DayNumber(r) == DayNumber(d) + 1
    ensures MonthIndex(r) == MonthIndex(d) || MonthIndex(r) == MonthIndex(d) + 1
  {
    if d.day < DaysInMonth(d.year, d.month) then d.(day := d.day + 1)
    else
      var t := MonthIndex(d);
      MonthIndexParts(d);
      MonthStartStep(t);
      InMonth(t + 1, 1)
  }

  /** `setMonth(getMonth() + months)` on a date read as midnight UTC, on the
      host's calendar, written back in UTC: west of Greenwich the months are
      added to the evening before, and the result moves on to the next UTC
      day. */
  function LocalAddMonths(d: CivilDate, months: int, zone: HostZone): CivilDate
    requires Valid(d)
  {
    match zone
    case AtOrEastOfUtc => AddMonths(d, months)
    case WestOfUtc =>
      var before := PrevDay(d);
      AddMonthsSpec(before, months);
      NextDay(AddMonths(before, months))
  }

  /** The result is a valid date. At or east of Greenwich it is `AddMonths`;
      west of it, it is the day after the months are added to the day
      before. Both agree on days 2 to 28 of a month. */
  lemma LocalAddMonthsSpec(d: CivilDate, months: int, zone: HostZone)
    requires Valid(d)
    ensures Valid(LocalAddMonths(d, months, zone))
    ensures zone == AtOrEastOfUtc ==> LocalAddMonths(d, months, zone) == AddMonths(d, months)
    ensures zone == WestOfUtc ==>
              LocalAddMonths(d, months, zone) == NextDay(AddMonths(PrevDay(d), months))
    ensures 2 <= d.day <= 28 ==> LocalAddMonths(d, months, zone) == AddMonths(d, months)
  {
    AddMonthsSpec(d, months);
    if zone == WestOfUtc && 2 <= d.day <= 28 {
      var t := MonthIndex(d) + months;
      assert PrevDay(d) == d.(day := d.day - 1);
      assert AddMonths(PrevDay(d), months) == InMonth(t, d.day - 1);
    }
  }

  /** Wherever the host is, `k` months on is between 28k and 31k days on,
      and never in an earlier month when k is at least one. */
  lemma LocalAddMonthsDays(d: CivilDate, k: nat, zone: HostZone)
    requires Valid(d)
    ensures 28 * k <= DayNumber(LocalAddMonths(d, k, zone)) - DayNumber(d) <= 31 * k
    ensures k >= 1 ==> MonthIndex(LocalAddMonths(d, k, zone)) >= MonthIndex(d)
  {
    AddMonthsSpec(d, k);
    AddMonthsDays(d, k);
    if zone == WestOfUtc {
      var before := PrevDay(d);
      AddMonthsSpec(before, k);
      AddMonthsDays(before, k);
    }
  }

  /** West of Greenwich, the first of a month can land before the same day
      of the month after: 1 March moved on one month is 30 March there (29
      March outside leap years), and 1 April at or east of Greenwich. */
  lemma WestOfUtcFirstOfMarch(y: int)
    ensures LocalAddMonths(CivilDate(y, 3, 1), 1, WestOfUtc) == CivilDate(y, 3, if IsLeapYear(y) then 30 else 29)
    ensures LocalAddMonths(CivilDate(y, 3, 1), 1, AtOrEastOfUtc) == CivilDate(y, 4, 1)
  {
    var d := CivilDate(y, 3, 1);
    MonthIndexParts(d);
    MonthIndexParts(CivilDate(y, 2, 1));
    MonthIndexParts(CivilDate(y, 4, 1));
    var feb := if IsLeapYear(y) then 29 else 28;
    assert PrevDay(d) == CivilDate(y, 2, feb);
    assert AddMonths(CivilDate(y, 2, feb), 1) == CivilDate(y, 3, feb);
  }

  // ---------------------------------------------------------------------------
  // `YYYY-MM-DD`
  // ---------------------------------------------------------------------------

  /** `n` in `w` decimal digits, with leading zeros. */
  function Digits(n: nat, w: nat): (r: string)
    ensures |r| == w && AllDigits(r)
  {
    if w == 0 then "" else Digits(n / 10, w - 1) + [DigitChar(n % 10)]
  }

  lemma {:induction false} DigitsValueDigits(n: nat, w: nat)
    requires n < Pow10(w)
    ensures DigitsValue(Digits(n, w)) == n
    decreases w
  {
    if w > 0 {
      var s := Digits(n, w);
      assert s[..|s| - 1] == Digits(n / 10, w - 1);
      DigitsValueDigits(n / 10, w - 1);
    }
  }

  lemma {:induction false} DigitsOfValue(s: string)
    requires AllDigits(s)
    ensures DigitsValue(s) < Pow10(|s|)
    ensures Digits(DigitsValue(s), |s|) == s
    decreases |s|
  {
    if s != [] {
      var init := s[..|s| - 1];
      assert AllDigits(init);
      DigitsOfValue(init);
      var v := DigitsValue(s);
      assert v / 10 == DigitsValue(init);
      assert DigitChar(v % 10) == s[|s| - 1];
      assert s == init + [s[|s| - 1]];
    }
  }

  /** The year as `toISOString` writes it: four digits, or a sign and six. */
  function YearText(y: int): string {
    if 0 <= y <= 9999 then Digits(y, 4)
    else if y > 9999 then "+" + Digits(y, 6)
    else "-" + Digits(-y, 6)
  }

  /** `toISOString().split('T')[0]`. */
  function IsoDate(d: CivilDate): string
    requires Valid(d)
  {
    YearText(d.year) + "-" + Digits(d.month, 2) + "-" + Digits(d.day, 2)
  }

  /** `new Date(s)` of a `YYYY-MM-DD` text; anything else is an invalid date. */
  function ParseIso(s: string): Option<CivilDate> {
    if |s| == 10 && s[4] == '-' && s[7] == '-'
       && AllDigits(s[..4]) && AllDigits(s[5..7]) && AllDigits(s[8..])
    then
      var d := CivilDate(DigitsValue(s[..4]), DigitsValue(s[5..7]), DigitsValue(s[8..]));
      if Valid(d) then Some(d) else None
    else None
  }

  /** A date of a four-digit year reads back from its text. */
  lemma IsoDateRoundTrip(d: CivilDate)
    requires Valid(d) && 0 <= d.year <= 9999
    ensures ParseIso(IsoDate(d)) == Some(d)
  {
    Pow10Small();
    var y, m, dd := Digits(d.year, 4), Digits(d.month, 2), Digits(d.day, 2);
    DigitsValueDigits(d.year, 4);
    DigitsValueDigits(d.month, 2);
    DigitsValueDigits(d.day, 2);
    ParseIsoParts(y, m, dd);
    assert IsoDate(d) == y + "-" + m + "-" + dd;
  }

  lemma Pow10Small()
    ensures Pow10(2) == 100 && Pow10(4) == 10000
  {
    assert Pow10(1) == 10;
    assert Pow10(3) == 1000;
  }

  /** The text of three digit runs joined by '-' reads as their values. */
  lemma ParseIsoParts(y: string, m: string, d: string)
    requires |y| == 4 && |m| == 2 && |d| == 2
    requires AllDigits(y) && AllDigits(m) && AllDigits(d)
    ensures var date := CivilDate(DigitsValue(y), DigitsValue(m), DigitsValue(d));
            ParseIso(y + "-" + m + "-" + d) == if Valid(date) then Some(date) else None
  {
    var s := y + "-" + m + "-" + d;
    assert s[..4] == y && s[5..7] == m && s[8..] == d;
  }

  /** A text that reads as a date is that date's text. */
  lemma ParseIsoRoundTrip(s: string)
    requires ParseIso(s).Some?
    ensures 0 <= ParseIso(s).value.year <= 9999
    ensures IsoDate(ParseIso(s).value) == s
  {
    DigitsOfValue(s[..4]);
    DigitsOfValue(s[5..7]);
    DigitsOfValue(s[8..]);
    assert s == s[..4] + "-" + s[5..7] + "-" + s[8..];
  }

  /** The years a JavaScript date can hold. */
  predicate InDateRange(d: CivilDate) {
    -271820 <= d.year <= 275759
  }

  /** `calculateNextDate`; `None` where JavaScript throws, on an invalid
      date. */
  function CalculateNextDate(lastDate: string, months: int, zone: HostZone): Option<string> {
    match ParseIso(lastDate)
    case None => None
    case Some(d) =>
      var next := LocalAddMonths(d, months, zone);
      if InDateRange(next) then Some(IsoDate(next)) else None
  }

  // ---------------------------------------------------------------------------
  // Status
  // ---------------------------------------------------------------------------

  datatype ReminderStatus = Overdue | DueSoon | UpToDate

  /** The label the screen shows. */
  function ReminderLabel(s: ReminderStatus): string {
    match s
    case Overdue => "Vencido"
    case DueSoon => "Em breve"
    case UpToDate => "Em dia"
  }

  /** The status for a whole number of days to go. */
  function StatusOfDays(diffDays: int): ReminderStatus {
    if diffDays < 0 then Overdue else if diffDays <= 30 then DueSoon else UpToDate
  }

  /** `getStatus`. The next date is midnight UTC of its day and "now" falls
      within `today`, so the rounded-up day difference is the difference of
      the day numbers. An unreadable date gives NaN, which no comparison
      admits. */
  function GetStatus(nextDate: string, today: CivilDate): ReminderStatus {
    match ParseIso(nextDate)
    case None => UpToDate
    case Some(next) => StatusOfDays(DayNumber(next) - DayNumber(today))
  }

  /** A date in the past is overdue, one within thirty days is due soon, a
      later one is up to date. */
  lemma GetStatusSpec(next: CivilDate, today: CivilDate)
    requires Valid(next) && 0 <= next.year <= 9999
    ensures var s := GetStatus(IsoDate(next), today);
            var diff := DayNumber(next) - DayNumber(today);
            && (s == Overdue <==> diff < 0)
            && (s == DueSoon <==> 0 <= diff <= 30)
            && (s == UpToDate <==> diff > 30)
  {
    IsoDateRoundTrip(next);
  }

  /** A reminder scheduled from today is never overdue today, and one that
      repeats every two months or more is up to date. */
  lemma ScheduledFromToday(today: CivilDate, months: int, zone: HostZone)
    requires Valid(today) && 0 <= today.year && months >= 1
    requires LocalAddMonths(today, months, zone).year <= 9999
    ensures CalculateNextDate(IsoDate(today), months, zone).Some?
    ensures GetStatus(CalculateNextDate(IsoDate(today), months, zone).value, today) != Overdue
    ensures months >= 2 ==> GetStatus(CalculateNextDate(IsoDate(today), months, zone).value, today) == UpToDate
  {
    var next := LocalAddMonths(today, months, zone);
    LocalAddMonthsSpec(today, months, zone);
    LocalAddMonthsDays(today, months, zone);
    assert 0 <= today.year <= next.year <= 9999;
    IsoDateRoundTrip(today);
    assert CalculateNextDate(IsoDate(today), months, zone) == Some(IsoDate(next));
    GetStatusSpec(next, today);
  }

  // ---------------------------------------------------------------------------
  // The list
  // ---------------------------------------------------------------------------

  /** The add form. */
  datatype ReminderDraft = ReminderDraft(
    examName: Option<string>,
    frequencyMonths: int,
    lastDate: Option<string>,
    notes: Option<string>)

  /** Name, frequency and last date are all set (a frequency of 0 is falsy). */
  predicate Admitted(d: ReminderDraft) {
    Truthy(d.examName) && d.frequencyMonths != 0 && Truthy(d.lastDate)
  }

  function NewReminder(d: ReminderDraft, id: string, nextDate: string): Reminder
    requires Admitted(d)
  {
    Reminder(id, Upper(d.examName.value), d.frequencyMonths, d.lastDate.value, nextDate,
             Some(UpperOr(d.notes, "")), true)
  }

  function ReminderId(r: Reminder): string { r.id }

  /** The reminders' state. */
  class ReminderList {
    var reminders: seq<Reminder>

    constructor(initial: seq<Reminder>)
      ensures reminders == initial
    {
      reminders := initial;
    }

    /** `handleAddReminder`: an admitted form whose date can be moved puts
        one active reminder first, due `frequencyMonths` months after its
        last date; otherwise nothing changes. */
    method AddReminder(d: ReminderDraft, id: string, zone: HostZone)
      modifies this
      ensures Admitted(d) && CalculateNextDate(d.lastDate.value, d.frequencyMonths, zone).Some? ==>
                reminders == [NewReminder(d, id, CalculateNextDate(d.lastDate.value, d.frequencyMonths, zone).value)]
                             + old(reminders)
      ensures !(Admitted(d) && CalculateNextDate(d.lastDate.value, d.frequencyMonths, zone).Some?) ==>
                reminders == old(reminders)
    {
      if Admitted(d) {
        var next := CalculateNextDate(d.lastDate.value, d.frequencyMonths, zone);
        if next.Some? {
          reminders := [NewReminder(d, id, next.value)] + reminders;
        }
      }
    }

    /** `handleDeleteReminder`, once confirmed. */
    method DeleteReminder(id: string)
      modifies this
      ensures reminders == RemoveId(old(reminders), id, ReminderId)
    {
      reminders := RemoveId(reminders, id, ReminderId);
    }

    /** `handleMarkAsDone`: the reminders carrying the id of the one marked
        get today as their last date and a next date `frequencyMonths`
        months on; every other reminder is untouched. */
    method MarkAsDone(reminder: Reminder, today: CivilDate, zone: HostZone)
      requires Valid(today) && 0 <= today.year <= 9999
      modifies this
      ensures var next := CalculateNextDate(IsoDate(today), reminder.frequencyMonths, zone);
              && (next.None? ==> reminders == old(reminders))
              && (next.Some? ==> reminders == ReplaceId(old(reminders), reminder.id, ReminderId,
                                   _ => reminder.(lastDate := IsoDate(today), nextDate := next.value)))
    {
      var todayText := IsoDate(today);
      var next := CalculateNextDate(todayText, reminder.frequencyMonths, zone);
      if next.Some? {
        var updated := reminder.(lastDate := todayText, nextDate := next.value);
        reminders := ReplaceId(reminders, reminder.id, ReminderId, _ => updated);
      }
    }
  }

  /** The reminder added is active, upper-cased, and due as many months after
      its last date as its frequency says; its next date reads back unless
      it falls outside years 0 to 9999. */
  lemma NewReminderSpec(d: ReminderDraft, id: string, zone: HostZone)
    requires Admitted(d) && CalculateNextDate(d.lastDate.value, d.frequencyMonths, zone).Some?
    ensures var r := NewReminder(d, id, CalculateNextDate(d.lastDate.value, d.frequencyMonths, zone).value);
            var last := ParseIso(d.lastDate.value);
            && last.Some? && r.active && r.id == id && Upper(r.examName) == r.examName
            && r.frequencyMonths == d.frequencyMonths && r.lastDate == d.lastDate.value
            && var next := LocalAddMonths(last.value, d.frequencyMonths, zone);
               ParseIso(r.nextDate) == if 0 <= next.year <= 9999 then Some(next) else None
  {
    var last := ParseIso(d.lastDate.value).value;
    var next := LocalAddMonths(last, d.frequencyMonths, zone);
    LocalAddMonthsSpec(last, d.frequencyMonths, zone);
    UpperIdempotent(d.examName.value);
    if 0 <= next.year <= 9999 {
      IsoDateRoundTrip(next);
    } else {
      NonIsoYearUnread(next);
    }
  }

  /** Dates outside years 0 to 9999 are written with a signed six-digit
      year, a form ParseIso does not read. */
  lemma NonIsoYearUnread(d: CivilDate)
    requires Valid(d) && !(0 <= d.year <= 9999)
    ensures ParseIso(IsoDate(d)).None?
  {
    assert |IsoDate(d)| == 13;
  }
}
