/**
 * The analytics screen (components/Analytics.tsx): the exam name selected
 * by default, the series of one exam's numeric results in date order, and
 * the minimum, maximum, latest value and trend of that series. Values are
 * read as the classifier reads them (first comma to dot, then a decimal
 * prefix); results that do not read as a number are left out of the series.
 */
module Analytics {
  import opened Wrappers
  import opened Types
  import opened Text
  import opened Sorting
  import opened Collections
  import opened ExamStatus
  import Reports

  /** The selection after the render: the first name in order when nothing
      is selected and there are exams, otherwise the selection as it was. */
  function DefaultSelection(selected: string, exams: seq<ExamRecord>): string {
    var names := Reports.ExamNameOptions(exams);
    if selected == "" && |names| > 0 then names[0] else selected
  }

  /** A selection made by default is the least exam name there is. */
  lemma DefaultSelectionSpec(selected: string, exams: seq<ExamRecord>)
    ensures selected != "" ==> DefaultSelection(selected, exams) == selected
    ensures |exams| == 0 ==> DefaultSelection(selected, exams) == selected
    ensures selected == "" && |exams| > 0 ==>
              var r := DefaultSelection(selected, exams);
              (exists i :: 0 <= i < |exams| && exams[i].examName == r) &&
              forall i :: 0 <= i < |exams| ==> StrLe(r, exams[i].examName)
  {
    Reports.OptionsSpec([], [], exams);
    var names := Reports.ExamNameOptions(exams);
    if selected == "" && |exams| > 0 {
      assert exams[0].examName in names;
      forall i | 0 <= i < |exams| ensures StrLe(names[0], exams[i].examName) {
        assert exists j :: 0 <= j < |exams| && exams[j].examName == exams[i].examName;
        assert exams[i].examName in names;
        var k :| 0 <= k < |names| && names[k] == exams[i].examName;
        if k == 0 { StrLeRefl(names[0]); }
      }
      assert names[0] in names;
    }
  }

  /** One point of the chart. */
  datatype ChartPoint = ChartPoint(value: real, originalValue: string, originalDate: string)

  /** The value reads as a number under `read`. */
  predicate Readable(e: ExamRecord, read: string -> Option<real>) {
    read(e.value).Some?
  }

  function PointOf(e: ExamRecord, read: string -> Option<real>): ChartPoint
    requires Readable(e, read)
  {
    ChartPoint(read(e.value).value, e.value, e.date)
  }

  /** The points of the exams whose value reads as a number, in order. */
  function Points(es: seq<ExamRecord>, read: string -> Option<real>): seq<ChartPoint> {
    if es == [] then []
    else (if Readable(es[0], read) then [PointOf(es[0], read)] else []) + Points(es[1..], read)
  }

  function ExamDate(e: ExamRecord): string { e.date }

  function PointDate(p: ChartPoint): string { p.originalDate }

  /** The exams of the selected name, earliest first. */
  function Selection(exams: seq<ExamRecord>, selected: string): seq<ExamRecord> {
    SortBy(Filter(exams, (e: ExamRecord) => e.examName == selected), ExamDate, Ascending)
  }

  /** `chartData`: values are read as `parseFloat` reads them after the
      first comma becomes a dot. */
  function ChartData(exams: seq<ExamRecord>, selected: string): seq<ChartPoint> {
    if selected == "" then [] else Points(Selection(exams, selected), NumericValue)
  }

  lemma SelectionSpec(exams: seq<ExamRecord>, selected: string)
    ensures SortedBy(Selection(exams, selected), ExamDate, Ascending)
    ensures forall e :: e in Selection(exams, selected) <==> e in exams && e.examName == selected
  {
    var kept := Filter(exams, (e: ExamRecord) => e.examName == selected);
    SortBySpec(kept, ExamDate, Ascending);
    SortByLength(kept, ExamDate, Ascending);
  }

  lemma {:induction false} PointsMembership(es: seq<ExamRecord>, read: string -> Option<real>)
    ensures forall p :: p in Points(es, read) <==>
              exists i :: 0 <= i < |es| && Readable(es[i], read) && PointOf(es[i], read) == p
  {
    if es != [] {
      PointsMembership(es[1..], read);
      forall p | exists i :: 0 <= i < |es| && Readable(es[i], read) && PointOf(es[i], read) == p
        ensures p in Points(es, read)
      {
        var i :| 0 <= i < |es| && Readable(es[i], read) && PointOf(es[i], read) == p;
        if i > 0 { assert es[1..][i - 1] == es[i]; }
      }
      forall p | p in Points(es[1..], read)
        ensures exists i :: 0 <= i < |es| && Readable(es[i], read) && PointOf(es[i], read) == p
      {
        var i :| 0 <= i < |es[1..]| && Readable(es[1..][i], read) && PointOf(es[1..][i], read) == p;
        assert es[i + 1] == es[1..][i];
      }
    }
  }

  lemma {:induction false} PointsSorted(es: seq<ExamRecord>, read: string -> Option<real>)
    requires SortedBy(es, ExamDate, Ascending)
    ensures SortedBy(Points(es, read), PointDate, Ascending)
  {
    if es != [] {
      assert SortedBy(es[1..], ExamDate, Ascending);
      PointsSorted(es[1..], read);
      PointsMembership(es[1..], read);
      var r := Points(es, read);
      var tail := Points(es[1..], read);
      if Readable(es[0], read) {
        forall i, j | 0 <= i < j < |r| ensures Before(PointDate(r[i]), PointDate(r[j]), Ascending) {
          if i == 0 {
            assert r[j] == tail[j - 1];
            assert r[j] in tail;
            var k :| 0 <= k < |es[1..]| && Readable(es[1..][k], read) && PointOf(es[1..][k], read) == r[j];
            assert es[1..][k] == es[k + 1];
          } else {
            assert r[i] == tail[i - 1] && r[j] == tail[j - 1];
          }
        }
      }
    }
  }

  /** The points of a date-ordered list holding exactly the exams of one
      name are those exams' readable values, in date order. */
  lemma PointsOfSelection(sorted: seq<ExamRecord>, exams: seq<ExamRecord>, selected: string, read: string -> Option<real>)
    requires SortedBy(sorted, ExamDate, Ascending)
    requires forall e :: e in sorted <==> e in exams && e.examName == selected
    ensures forall p :: p in Points(sorted, read) <==>
              exists i :: 0 <= i < |exams| && exams[i].examName == selected
                          && Readable(exams[i], read) && PointOf(exams[i], read) == p
    ensures SortedBy(Points(sorted, read), PointDate, Ascending)
  {
    PointsMembership(sorted, read);
    PointsSorted(sorted, read);
    forall p ensures p in Points(sorted, read) <==>
                     exists i :: 0 <= i < |exams| && exams[i].examName == selected
                                 && Readable(exams[i], read) && PointOf(exams[i], read) == p
    {
      if p in Points(sorted, read) {
        var i :| 0 <= i < |sorted| && Readable(sorted[i], read) && PointOf(sorted[i], read) == p;
        assert sorted[i] in sorted;
        var j :| 0 <= j < |exams| && exams[j] == sorted[i];
      }
      if exists i :: 0 <= i < |exams| && exams[i].examName == selected && Readable(exams[i], read) && PointOf(exams[i], read) == p {
        var i :| 0 <= i < |exams| && exams[i].examName == selected && Readable(exams[i], read) && PointOf(exams[i], read) == p;
        assert exams[i] in sorted;
        var j :| 0 <= j < |sorted| && sorted[j] == exams[i];
      }
    }
  }

  /** The chart holds a point for exactly the exams of the selected name
      whose value reads as a number, each carrying that number, its text and
      its date, earliest first; nothing is charted with no selection. */
  lemma ChartDataSpec(exams: seq<ExamRecord>, selected: string)
    ensures selected == "" ==> ChartData(exams, selected) == []
    ensures forall p :: p in ChartData(exams, selected) <==>
              selected != "" && exists i :: 0 <= i < |exams| && exams[i].examName == selected
                                           && Readable(exams[i], NumericValue) && PointOf(exams[i], NumericValue) == p
    ensures SortedBy(ChartData(exams, selected), PointDate, Ascending)
  {
    if selected != "" {
      SelectionSpec(exams, selected);
      PointsOfSelection(Selection(exams, selected), exams, selected, NumericValue);
    }
  }

  // ---------------------------------------------------------------------------
  // The statistics
  // ---------------------------------------------------------------------------

  datatype Trend = Rising | Falling | Steady

  /** The label the screen shows for a trend. */
  function TrendLabel(t: Trend): string {
    match t
    case Rising => "subindo"
    case Falling => "descendo"
    case Steady => "estável"
  }

  datatype Stats = Stats(min: real, max: real, latest: real, trend: Trend)

  function Values(points: seq<ChartPoint>): (r: seq<real>)
    ensures |r| == |points|
    ensures forall i :: 0 <= i < |points| ==> r[i] == points[i].value
  {
    seq(|points|, i requires 0 <= i < |points| => points[i].value)
  }

  /** `Math.min(...vs)` of a non-empty list. */
  function MinOf(vs: seq<real>): real
    requires |vs| > 0
  {
    if |vs| == 1 then vs[0] else var m := MinOf(vs[1..]); if vs[0] < m then vs[0] else m
  }

  /** `Math.max(...vs)` of a non-empty list. */
  function MaxOf(vs: seq<real>): real
    requires |vs| > 0
  {
    if |vs| == 1 then vs[0] else var m := MaxOf(vs[1..]); if vs[0] > m then vs[0] else m
  }

  lemma {:induction false} MinMaxSpec(vs: seq<real>)
    requires |vs| > 0
    ensures MinOf(vs) in vs && MaxOf(vs) in vs
    ensures forall i :: 0 <= i < |vs| ==> MinOf(vs) <= vs[i] <= MaxOf(vs)
  {
    if |vs| > 1 {
      MinMaxSpec(vs[1..]);
      forall i | 0 < i < |vs| ensures MinOf(vs) <= vs[i] <= MaxOf(vs) {
        assert vs[i] == vs[1..][i - 1];
      }
    }
  }

  /** The trend of the last two values; a single value is steady. */
  function TrendOf(vs: seq<real>): Trend
    requires |vs| > 0
  {
    if |vs| > 1 then
      var latest := vs[|vs| - 1];
      var previous := vs[|vs| - 2];
      if latest > previous then Rising else if latest < previous then Falling else Steady
    else Steady
  }

  /** `stats`. */
  function ComputeStats(points: seq<ChartPoint>): Option<Stats> {
    if |points| == 0 then None
    else
      var vs := Values(points);
      Some(Stats(MinOf(vs), MaxOf(vs), vs[|vs| - 1], TrendOf(vs)))
  }

  /** The statistics exist exactly when the chart has a point; then the
      minimum and maximum are values of the chart bounding every other, the
      latest value is the last point's and lies between them, and the trend
      compares it with the one before. */
  lemma StatsSpec(points: seq<ChartPoint>)
    ensures ComputeStats(points).None? <==> |points| == 0
    ensures |points| > 0 ==>
              var s := ComputeStats(points).value;
              && s.latest == points[|points| - 1].value
              && s.min <= s.latest <= s.max
              && (exists i :: 0 <= i < |points| && points[i].value == s.min)
              && (exists i :: 0 <= i < |points| && points[i].value == s.max)
              && (forall i :: 0 <= i < |points| ==> s.min <= points[i].value <= s.max)
              && (|points| == 1 ==> s.trend == Steady)
              && (|points| > 1 ==>
                    var previous := points[|points| - 2].value;
                    (s.trend == Rising <==> s.latest > previous) &&
                    (s.trend == Falling <==> s.latest < previous) &&
                    (s.trend == Steady <==> s.latest == previous))
  {
    if |points| > 0 {
      var vs := Values(points);
      MinMaxSpec(vs);
      var mi :| 0 <= mi < |vs| && vs[mi] == MinOf(vs);
      var ma :| 0 <= ma < |vs| && vs[ma] == MaxOf(vs);
      assert points[mi].value == MinOf(vs);
      assert points[ma].value == MaxOf(vs);
    }
  }
}
