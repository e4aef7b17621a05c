/**
 * The agenda screen (components/Agenda.tsx): the alarm monitor that checks
 * the appointments every ten seconds, the filtered and sorted list, and the
 * add and delete handlers.
 *
 * The monitor's tick is the interval callback of the effect. It reads the
 * appointments and `lastNotifiedId` as they were when the effect last ran;
 * the state update it makes takes effect after the tick, when the effect is
 * re-run with the new value. The current day and time are parameters, and a
 * played tone is counted rather than synthesised.
 */
module Agenda {
  import opened Wrappers
  import opened Types
  import opened Text
  import opened Sorting
  import opened Collections
  import opened App
  import Exams

  // ---------------------------------------------------------------------------
  // The alarm tick
  // ---------------------------------------------------------------------------

  /** The appointment is due at this day and `HH:MM` time. */
  predicate Due(a: Appointment, currentDay: string, currentTime: string) {
    a.date == currentDay && a.time == currentTime
  }

  /** The ids one tick rings for, in list order: the due appointments whose
      id differs from the id last notified. */
  function FiredIds(apps: seq<Appointment>, currentDay: string, currentTime: string, last: Option<string>): seq<string>
    decreases |apps|
  {
    if apps == [] then []
    else
      var a := apps[|apps| - 1];
      FiredIds(apps[..|apps| - 1], currentDay, currentTime, last)
        + if Due(a, currentDay, currentTime) && last != Some(a.id) then [a.id] else []
  }

  /** An id rings exactly when a due appointment carries it and it is not the
      id last notified; in particular the last notified id never rings. */
  lemma {:induction false} FiredIdsSpec(apps: seq<Appointment>, currentDay: string, currentTime: string, last: Option<string>)
    ensures forall x :: x in FiredIds(apps, currentDay, currentTime, last) <==>
              last != Some(x) && exists i :: 0 <= i < |apps| && apps[i].id == x && Due(apps[i], currentDay, currentTime)
    decreases |apps|
  {
    if apps != [] {
      var init := apps[..|apps| - 1];
      FiredIdsSpec(init, currentDay, currentTime, last);
      forall x | last != Some(x) && exists i :: 0 <= i < |apps| && apps[i].id == x && Due(apps[i], currentDay, currentTime)
        ensures x in FiredIds(apps, currentDay, currentTime, last)
      {
        var i :| 0 <= i < |apps| && apps[i].id == x && Due(apps[i], currentDay, currentTime);
        if i < |init| { assert init[i] == apps[i]; }
      }
      forall x | x in FiredIds(apps, currentDay, currentTime, last)
        ensures last != Some(x) && exists i :: 0 <= i < |apps| && apps[i].id == x && Due(apps[i], currentDay, currentTime)
      {
        if x in FiredIds(init, currentDay, currentTime, last) {
          var i :| 0 <= i < |init| && init[i].id == x && Due(init[i], currentDay, currentTime);
          assert apps[i] == init[i];
        }
      }
    }
  }

  /** The id the state holds after a tick: the last id rung for, if any. */
  function AfterTick(fired: seq<string>, last: Option<string>): Option<string> {
    if fired == [] then last else Some(fired[|fired| - 1])
  }

  /** With a single due appointment, the first tick rings once and every
      later tick in the same minute rings for nothing. */
  lemma SingleDueRingsOnce(apps: seq<Appointment>, currentDay: string, currentTime: string, k: int)
    requires 0 <= k < |apps| && Due(apps[k], currentDay, currentTime)
    requires forall i :: 0 <= i < |apps| && i != k ==> !Due(apps[i], currentDay, currentTime)
    ensures FiredIds(apps, currentDay, currentTime, None) == [apps[k].id]
    ensures FiredIds(apps, currentDay, currentTime, Some(apps[k].id)) == []
  {
    FiredIdsSingle(apps, currentDay, currentTime, k, None);
    FiredIdsSingle(apps, currentDay, currentTime, k, Some(apps[k].id));
  }

  lemma {:induction false} FiredIdsSingle(apps: seq<Appointment>, currentDay: string, currentTime: string, k: int, last: Option<string>)
    requires 0 <= k < |apps| && Due(apps[k], currentDay, currentTime)
    requires forall i :: 0 <= i < |apps| && i != k ==> !Due(apps[i], currentDay, currentTime)
    ensures FiredIds(apps, currentDay, currentTime, last) == if last == Some(apps[k].id) then [] else [apps[k].id]
    decreases |apps|
  {
    var init := apps[..|apps| - 1];
    if k < |apps| - 1 {
      FiredIdsSingle(init, currentDay, currentTime, k, last);
    } else {
      FiredIdsNone(init, currentDay, currentTime, last);
    }
  }

  lemma {:induction false} FiredIdsNone(apps: seq<Appointment>, currentDay: string, currentTime: string, last: Option<string>)
    requires forall i :: 0 <= i < |apps| ==> !Due(apps[i], currentDay, currentTime)
    ensures FiredIds(apps, currentDay, currentTime, last) == []
    decreases |apps|
  {
    if apps != [] {
      FiredIdsNone(apps[..|apps| - 1], currentDay, currentTime, last);
    }
  }

  /** Two appointments due in the same minute: after the first tick the
      state holds the second id, so the next tick rings for the first, which
      then makes the tick after ring for the second, and so on for the whole
      minute. */
  lemma TwoDueAlternate(a: Appointment, b: Appointment, currentDay: string, currentTime: string)
    requires Due(a, currentDay, currentTime) && Due(b, currentDay, currentTime) && a.id != b.id
    ensures FiredIds([a, b], currentDay, currentTime, None) == [a.id, b.id]
    ensures AfterTick(FiredIds([a, b], currentDay, currentTime, None), None) == Some(b.id)
    ensures FiredIds([a, b], currentDay, currentTime, Some(b.id)) == [a.id]
    ensures AfterTick([a.id], Some(b.id)) == Some(a.id)
    ensures FiredIds([a, b], currentDay, currentTime, Some(a.id)) == [b.id]
    ensures AfterTick([b.id], Some(a.id)) == Some(b.id)
  {
    FiredPair(a, b, currentDay, currentTime, None);
    FiredPair(a, b, currentDay, currentTime, Some(b.id));
    FiredPair(a, b, currentDay, currentTime, Some(a.id));
  }

  /** Two due appointments ring in list order, each unless it was the last
      one rung for. */
  lemma FiredPair(a: Appointment, b: Appointment, currentDay: string, currentTime: string, last: Option<string>)
    requires Due(a, currentDay, currentTime) && Due(b, currentDay, currentTime)
    ensures FiredIds([a, b], currentDay, currentTime, last)
            == (if last == Some(a.id) then [] else [a.id]) + (if last == Some(b.id) then [] else [b.id])
  {
    assert [a, b][..1] == [a];
    assert [a][..0] == [];
    assert FiredIds([], currentDay, currentTime, last) == [];
  }

  /** The interval and what the tick can change. */
  class AlarmMonitor {
    /** The id last rung for, as the component's state holds it. */
    var lastNotifiedId: Option<string>
    var soundEnabled: bool
    /** Alarm tones played so far. */
    var tones: nat
    /** The interval is set; the effect's cleanup clears it. */
    var running: bool

    /** The state when the screen mounts and its effect first runs. */
    constructor()
      ensures lastNotifiedId == None && soundEnabled && tones == 0 && running
    {
      lastNotifiedId := None;
      soundEnabled := true;
      tones := 0;
      running := true;
    }

    /** One interval callback. It rings for each due appointment whose id
        differs from the id the effect captured, playing a tone only with
        sound on, and leaves the last id rung for in the state. A cleared
        interval does nothing. */
    method Tick(appointments: seq<Appointment>, currentDay: string, currentTime: string) returns (fired: seq<string>)
      modifies this`lastNotifiedId, this`tones
      ensures !running ==> fired == [] && lastNotifiedId == old(lastNotifiedId) && tones == old(tones)
      ensures running ==> fired == FiredIds(appointments, currentDay, currentTime, old(lastNotifiedId))
      ensures lastNotifiedId == AfterTick(fired, old(lastNotifiedId))
      ensures tones == old(tones) + if soundEnabled then |fired| else 0
    {
      fired := [];
      if !running {
        return;
      }
      var captured := lastNotifiedId;
      var i := 0;
      while i < |appointments|
        invariant 0 <= i <= |appointments|
        invariant fired == FiredIds(appointments[..i], currentDay, currentTime, captured)
        invariant lastNotifiedId == AfterTick(fired, captured)
        invariant tones == old(tones) + if soundEnabled then |fired| else 0
      {
        var app := appointments[i];
        assert appointments[..i + 1][..i] == appointments[..i];
        if app.date == currentDay && app.time == currentTime && captured != Some(app.id) {
          if soundEnabled {
            tones := tones + 1;
          }
          lastNotifiedId := Some(app.id);
          fired := fired + [app.id];
        }
        i := i + 1;
      }
      assert appointments[..i] == appointments;
    }

    /** The sound toggle. */
    method SetSound(on: bool)
      modifies this`soundEnabled
      ensures soundEnabled == on
    {
      soundEnabled := on;
    }

    /** The effect's cleanup: `clearInterval`. */
    method Stop()
      modifies this`running
      ensures !running
    {
      running := false;
    }

    /** The effect re-run after its dependencies change: a new interval. */
    method Restart()
      modifies this`running
      ensures running
    {
      running := true;
    }
  }

  // ---------------------------------------------------------------------------
  // The alarm as evidently intended: each appointment rings once
  // ---------------------------------------------------------------------------

  /** The due appointments not yet rung for, in list order. */
  function NewlyDue(apps: seq<Appointment>, currentDay: string, currentTime: string, notified: set<string>): seq<string>
    decreases |apps|
  {
    if apps == [] then []
    else
      var a := apps[|apps| - 1];
      NewlyDue(apps[..|apps| - 1], currentDay, currentTime, notified)
        + if Due(a, currentDay, currentTime) && a.id !in notified then [a.id] else []
  }

  /** What rings is due and was not rung for before. */
  lemma {:induction false} NewlyDueSpec(apps: seq<Appointment>, currentDay: string, currentTime: string, notified: set<string>)
    ensures forall x :: x in NewlyDue(apps, currentDay, currentTime, notified) ==>
              x !in notified && exists i :: 0 <= i < |apps| && apps[i].id == x && Due(apps[i], currentDay, currentTime)
    decreases |apps|
  {
    if apps != [] {
      var init := apps[..|apps| - 1];
      NewlyDueSpec(init, currentDay, currentTime, notified);
      forall x | x in NewlyDue(apps, currentDay, currentTime, notified)
        ensures x !in notified && exists i :: 0 <= i < |apps| && apps[i].id == x && Due(apps[i], currentDay, currentTime)
      {
        if x in NewlyDue(init, currentDay, currentTime, notified) {
          var i :| 0 <= i < |init| && init[i].id == x && Due(init[i], currentDay, currentTime);
          assert apps[i] == init[i];
        }
      }
    }
  }

  /** However often the tick repeats with the same inputs, an id that rang
      once does not ring again: the second tick rings for nothing. */
  lemma NotifiedOnce(apps: seq<Appointment>, currentDay: string, currentTime: string, notified: set<string>)
    ensures var first := NewlyDue(apps, currentDay, currentTime, notified);
            NewlyDue(apps, currentDay, currentTime, notified + set x | x in first) == []
  {
    var first := NewlyDue(apps, currentDay, currentTime, notified);
    NewlyDueAfter(apps, currentDay, currentTime, notified, notified + set x | x in first);
  }

  lemma {:induction false} NewlyDueAfter(apps: seq<Appointment>, currentDay: string, currentTime: string,
                                         notified: set<string>, later: set<string>)
    requires notified <= later
    requires forall x :: x in NewlyDue(apps, currentDay, currentTime, notified) ==> x in later
    ensures NewlyDue(apps, currentDay, currentTime, later) == []
    decreases |apps|
  {
    if apps != [] {
      NewlyDueAfter(apps[..|apps| - 1], currentDay, currentTime, notified, later);
    }
  }

  /** The monitor keeping the set of ids already rung for. */
  class NotifyingMonitor {
    var notified: set<string>
    var soundEnabled: bool
    var tones: nat

    constructor()
      ensures notified == {} && soundEnabled && tones == 0
    {
      notified := {};
      soundEnabled := true;
      tones := 0;
    }

    /** One tick: it rings for the due appointments not rung for before and
        records them, so no id rings twice over any run of ticks. */
    method Tick(appointments: seq<Appointment>, currentDay: string, currentTime: string) returns (fired: seq<string>)
      modifies this`notified, this`tones
      ensures fired == NewlyDue(appointments, currentDay, currentTime, old(notified))
      ensures forall x :: x in fired ==> x !in old(notified)
      ensures notified == old(notified) + set x | x in fired
      ensures tones == old(tones) + if soundEnabled then |fired| else 0
    {
      fired := [];
      var captured := notified;
      var i := 0;
      while i < |appointments|
        invariant 0 <= i <= |appointments|
        invariant fired == NewlyDue(appointments[..i], currentDay, currentTime, captured)
        invariant notified == captured + set x | x in fired
        invariant tones == old(tones) + if soundEnabled then |fired| else 0
      {
        var app := appointments[i];
        assert appointments[..i + 1][..i] == appointments[..i];
        if app.date == currentDay && app.time == currentTime && app.id !in captured {
          if soundEnabled {
            tones := tones + 1;
          }
          notified := notified + {app.id};
          fired := fired + [app.id];
        }
        i := i + 1;
      }
      assert appointments[..i] == appointments;
      NewlyDueSpec(appointments, currentDay, currentTime, captured);
    }
  }

  // ---------------------------------------------------------------------------
  // The list, add and delete
  // ---------------------------------------------------------------------------

  /** The type selector: everything, or one type. */
  datatype TypeFilter = AllTypes | OnlyType(kind: AppointmentType)

  predicate KindMatches(a: Appointment, filter: TypeFilter) {
    filter.AllTypes? || a.kind == filter.kind
  }

  /** The text `new Date` reads: `date` + "T" + `time`. For ISO dates and
      `HH:MM` times its order is the order in time. */
  function DateTime(a: Appointment): string {
    a.date + "T" + a.time
  }

  /** `sortedAppointments`: a copy, filtered by type, earliest first. */
  function SortedAppointments(apps: seq<Appointment>, filter: TypeFilter): seq<Appointment> {
    SortBy(Filter(apps, (a: Appointment) => KindMatches(a, filter)), DateTime, Ascending)
  }

  /** The list holds each appointment of the selected type as often as the
      agenda does and no other, earliest first. */
  lemma SortedAppointmentsSpec(apps: seq<Appointment>, filter: TypeFilter)
    ensures forall a :: multiset(SortedAppointments(apps, filter))[a]
                        == if KindMatches(a, filter) then multiset(apps)[a] else 0
    ensures SortedBy(SortedAppointments(apps, filter), DateTime, Ascending)
  {
    var keep := (a: Appointment) => KindMatches(a, filter);
    SortBySpec(Filter(apps, keep), DateTime, Ascending);
    forall a ensures multiset(SortedAppointments(apps, filter))[a]
                     == if KindMatches(a, filter) then multiset(apps)[a] else 0 {
      FilterCount(apps, keep, a);
    }
  }

  /** The add form; the type select always holds a value. */
  datatype AppointmentDraft = AppointmentDraft(
    title: Option<string>,
    kind: AppointmentType,
    date: Option<string>,
    time: Option<string>,
    location: Option<string>,
    address: Option<string>,
    notes: Option<string>)

  predicate Admitted(d: AppointmentDraft) {
    Truthy(d.title) && Truthy(d.date) && Truthy(d.time)
  }

  /** The appointment `handleAdd` puts first. */
  function NewAppointment(d: AppointmentDraft, id: string): Appointment
    requires Admitted(d)
  {
    Appointment(id, Upper(d.title.value), d.kind, d.date.value, d.time.value,
                UpperOr(d.location, Exams.NotInformed), Some(UpperOr(d.address, "")),
                Some(UpperOr(d.notes, "")), false)
  }

  /** The new appointment is upper case in its text fields, keeps the form's
      day, time and type, is not yet notified, and has a location. */
  lemma NewAppointmentSpec(d: AppointmentDraft, id: string)
    requires Admitted(d)
    ensures var a := NewAppointment(d, id);
            && a.id == id && a.kind == d.kind && a.date == d.date.value && a.time == d.time.value
            && Upper(a.title) == a.title && Upper(a.location) == a.location
            && a.location != "" && !a.notified
            && (a.location == Exams.NotInformed <==> !Truthy(d.location) || Upper(d.location.value) == Exams.NotInformed)
  {
    UpperIdempotent(d.title.value);
    Exams.DefaultNamesNormalised();
    assert Upper(Exams.NotInformed) == Exams.NotInformed;
    if Truthy(d.location) {
      UpperIdempotent(d.location.value);
      assert |Upper(d.location.value)| == |d.location.value|;
    }
  }

  function AppointmentId(a: Appointment): string { a.id }

  /** `handleAdd`: an admitted form puts one appointment first; otherwise
      nothing changes. */
  method Add(app: AppState, d: AppointmentDraft, id: string)
    modifies app`appointments, app`store
    ensures Admitted(d) ==> app.appointments == [NewAppointment(d, id)] + old(app.appointments)
    ensures Admitted(d) ==> app.store == old(app.store)[AppointmentsKey := AppointmentList(app.appointments)]
    ensures !Admitted(d) ==> app.appointments == old(app.appointments) && app.store == old(app.store)
    ensures old(app.Synced()) ==> app.Synced()
  {
    if Admitted(d) {
      app.SetAppointments([NewAppointment(d, id)] + app.appointments);
    }
  }

  /** `handleDelete`, once confirmed. */
  method Delete(app: AppState, id: string)
    modifies app`appointments, app`store
    ensures app.appointments == RemoveId(old(app.appointments), id, AppointmentId)
    ensures app.store == old(app.store)[AppointmentsKey := AppointmentList(app.appointments)]
    ensures old(app.Synced()) ==> app.Synced()
  {
    app.SetAppointments(RemoveId(app.appointments, id, AppointmentId));
  }
}
