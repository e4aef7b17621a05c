/**
 * The dashboard's two lists (components/Dashboard.tsx): the latest exams
 * and the next appointments. "Now" is a parameter in the text form the
 * appointments' `date` + "T" + `time` take, so that their string order is
 * their order in time.
 */
module Dashboard {
  import opened Types
  import opened Text
  import opened Sorting
  import opened Collections
  import Agenda

  /** `exams.slice(0, 3)`. */
  function LatestExams(exams: seq<ExamRecord>): seq<ExamRecord> {
    if |exams| <= 3 then exams else exams[..3]
  }

  /** The first three exams in stored order, or all of them when there are
      fewer. */
  lemma LatestExamsSpec(exams: seq<ExamRecord>)
    ensures |LatestExams(exams)| == if |exams| < 3 then |exams| else 3
    ensures LatestExams(exams) <= exams
  {
  }

  /** Not in the past. */
  predicate Upcoming(a: Appointment, now: string) {
    StrLe(now, Agenda.DateTime(a))
  }

  /** The appointments not in the past, earliest first. */
  function UpcomingSorted(apps: seq<Appointment>, now: string): seq<Appointment> {
    SortBy(Filter(apps, (a: Appointment) => Upcoming(a, now)), Agenda.DateTime, Ascending)
  }

  /** `upcomingAppointments`: the first six of them. */
  function UpcomingAppointments(apps: seq<Appointment>, now: string): seq<Appointment> {
    var sorted := UpcomingSorted(apps, now);
    if |sorted| <= 6 then sorted else sorted[..6]
  }

  /** At most six appointments, each one of the agenda's and not in the
      past, earliest first; they are the earliest upcoming ones, so every
      upcoming appointment left out is no earlier than any shown, and none is
      left out when fewer than six are shown. */
  lemma UpcomingAppointmentsSpec(apps: seq<Appointment>, now: string)
    ensures var r := UpcomingAppointments(apps, now);
            && |r| <= 6
            && (forall a :: a in r ==> a in apps && Upcoming(a, now))
            && SortedBy(r, Agenda.DateTime, Ascending)
            && (forall a :: a in apps && Upcoming(a, now) && a !in r ==>
                  |r| == 6 && forall i :: 0 <= i < |r| ==> StrLe(Agenda.DateTime(r[i]), Agenda.DateTime(a)))
  {
    var kept := Filter(apps, (a: Appointment) => Upcoming(a, now));
    var sorted := UpcomingSorted(apps, now);
    SortBySpec(kept, Agenda.DateTime, Ascending);
    SortByLength(kept, Agenda.DateTime, Ascending);
    var r := UpcomingAppointments(apps, now);
    assert r <= sorted;
    forall a | a in r ensures a in apps && Upcoming(a, now) {
      assert a in sorted;
    }
    forall a | a in apps && Upcoming(a, now) && a !in r
      ensures |r| == 6 && forall i :: 0 <= i < |r| ==> StrLe(Agenda.DateTime(r[i]), Agenda.DateTime(a))
    {
      assert a in sorted;
      var k :| 0 <= k < |sorted| && sorted[k] == a;
      assert forall j :: 0 <= j < |r| ==> r[j] == sorted[j];
    }
  }
}
