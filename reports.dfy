/**
 * The reports screen (components/Reports.tsx): the exam filter, the
 * multi-select of exam names, the laboratory and doctor options, and the
 * semicolon-separated export. Every data field of the export is quoted with
 * inner quotes doubled, as in section 2 of RFC 4180; the model pairs the
 * writer with a reader for that format and proves that the exported file
 * reads back as the header and the rows written.
 *
 * Dates are ISO `YYYY-MM-DD` strings compared in string order, which is
 * their order in time. The `pt-BR` date rendering of the export is a
 * parameter, since it depends on the host's locale and time zone.
 */
module Reports {
  import opened Wrappers
  import opened Types
  import opened Text
  import opened Sorting
  import opened Collections
  import opened ExamStatus

  // ---------------------------------------------------------------------------
  // The filter
  // ---------------------------------------------------------------------------

  /** The filter state; an empty criterion matches everything. */
  datatype ReportFilter = ReportFilter(
    examNames: seq<string>,
    laboratory: string,
    doctorName: string,
    dateStart: string,
    dateEnd: string)

  /** The initial filter. */
  const NoFilter := ReportFilter([], "", "", "", "")

  predicate Matches(e: ExamRecord, f: ReportFilter) {
    && (|f.examNames| == 0 || e.examName in f.examNames)
    && (f.laboratory == "" || e.laboratory == f.laboratory)
    && (f.doctorName == "" || e.doctorName == f.doctorName)
    && (f.dateStart == "" || StrLe(f.dateStart, e.date))
    && (f.dateEnd == "" || StrLe(e.date, f.dateEnd))
  }

  /** `filteredExams`. */
  function FilteredExams(exams: seq<ExamRecord>, f: ReportFilter): seq<ExamRecord> {
    Filter(exams, (e: ExamRecord) => Matches(e, f))
  }

  /** An exam is kept, as often as it occurs, exactly when it meets every
      criterion; the kept exams stay in their order, since the result is the
      filter of each part of the list. */
  lemma FilteredExamsSpec(exams: seq<ExamRecord>, more: seq<ExamRecord>, f: ReportFilter)
    ensures forall e :: multiset(FilteredExams(exams, f))[e] == if Matches(e, f) then multiset(exams)[e] else 0
    ensures FilteredExams(exams + more, f) == FilteredExams(exams, f) + FilteredExams(more, f)
  {
    var keep := (e: ExamRecord) => Matches(e, f);
    forall e ensures multiset(FilteredExams(exams, f))[e] == if Matches(e, f) then multiset(exams)[e] else 0 {
      FilterCount(exams, keep, e);
    }
    FilterAppend(exams, more, keep);
  }

  /** With no criterion set, the report lists every exam. */
  lemma NoFilterKeepsAll(exams: seq<ExamRecord>)
    ensures FilteredExams(exams, NoFilter) == exams
  {
    FilterAllKept(exams, (e: ExamRecord) => Matches(e, NoFilter));
  }

  /** `toggleExamSelection`: removes a selected name, appends another. */
  function Toggled(names: seq<string>, name: string): seq<string> {
    if name in names then Filter(names, (n: string) => n != name) else names + [name]
  }

  /** The toggled name changes side and every other name stays as it was;
      a selection without repeats keeps none. */
  lemma ToggledSpec(names: seq<string>, name: string)
    ensures name in Toggled(names, name) <==> name !in names
    ensures forall n :: n != name ==> (n in Toggled(names, name) <==> n in names)
    ensures NoDuplicates(names) ==> NoDuplicates(Toggled(names, name))
  {
    var r := Toggled(names, name);
    if NoDuplicates(names) && name in names {
      var keep := (n: string) => n != name;
      forall i, j | 0 <= i < j < |r| ensures r[i] != r[j] {
        NoDuplicatesCount(names, r[i]);
        FilterCount(names, keep, r[i]);
        DistinctByCount(r, i, j);
      }
    }
  }

  /** Toggling a name on and off restores the selection exactly; toggling
      it off and on restores which names are selected. */
  lemma ToggleTwice(names: seq<string>, name: string)
    ensures name !in names ==> Toggled(Toggled(names, name), name) == names
    ensures forall n :: n in Toggled(Toggled(names, name), name) <==> n in names
  {
    var keep := (n: string) => n != name;
    if name !in names {
      FilterAppend(names, [name], keep);
      FilterAllKept(names, keep);
      assert Filter([name], keep) == [];
    }
    ToggledSpec(names, name);
    ToggledSpec(Toggled(names, name), name);
  }

  /** The filter after a toggle: only the name selection changes. */
  function ToggleExamSelection(f: ReportFilter, name: string): (r: ReportFilter)
    ensures r.laboratory == f.laboratory && r.doctorName == f.doctorName
    ensures r.dateStart == f.dateStart && r.dateEnd == f.dateEnd
  {
    f.(examNames := Toggled(f.examNames, name))
  }

  /** `clearExams`: the name selection is emptied, so the report keeps what
      the other criteria admit. */
  function ClearExams(f: ReportFilter): (r: ReportFilter)
    ensures r.examNames == []
    ensures r.laboratory == f.laboratory && r.doctorName == f.doctorName
    ensures r.dateStart == f.dateStart && r.dateEnd == f.dateEnd
  {
    f.(examNames := [])
  }

  /** Clearing the names admits every exam the other criteria admit. */
  lemma ClearExamsWidens(exams: seq<ExamRecord>, f: ReportFilter, e: ExamRecord)
    requires e in FilteredExams(exams, f)
    ensures e in FilteredExams(exams, ClearExams(f))
  {
  }

  // ---------------------------------------------------------------------------
  // The option lists
  // ---------------------------------------------------------------------------

  /** `s.map(f)`. */
  function Project<T>(s: seq<T>, f: T -> string): (r: seq<string>)
    ensures |r| == |s|
    ensures forall i :: 0 <= i < |s| ==> r[i] == f(s[i])
  {
    seq(|s|, i requires 0 <= i < |s| => f(s[i]))
  }

  /** A projected list holds exactly the projections of the elements. */
  lemma ProjectMembership<T>(s: seq<T>, f: T -> string)
    ensures forall x :: x in Project(s, f) <==> exists i :: 0 <= i < |s| && f(s[i]) == x
  {
    var r := Project(s, f);
    forall x | x in r ensures exists i :: 0 <= i < |s| && f(s[i]) == x {
      var i :| 0 <= i < |r| && r[i] == x;
    }
  }

  /** `uniqueExams`. */
  function ExamNameOptions(exams: seq<ExamRecord>): seq<string> {
    UniqueSorted(Project(exams, (e: ExamRecord) => e.examName))
  }

  /** `uniqueLabs`: the registry's names when it has any, else the exams'. */
  function LaboratoryOptions(labs: seq<Laboratory>, exams: seq<ExamRecord>): seq<string> {
    if |labs| > 0 then UniqueSorted(Project(labs, (l: Laboratory) => l.name))
    else UniqueSorted(Project(exams, (e: ExamRecord) => e.laboratory))
  }

  /** `uniqueDocs`: the registry's names when it has any, else the exams'. */
  function DoctorOptions(doctors: seq<Doctor>, exams: seq<ExamRecord>): seq<string> {
    if |doctors| > 0 then UniqueSorted(Project(doctors, (d: Doctor) => d.name))
    else UniqueSorted(Project(exams, (e: ExamRecord) => e.doctorName))
  }

  /** The options are sorted without repeats and offer exactly the names of
      the registry, or of the exams when the registry is empty. */
  lemma OptionsSpec(labs: seq<Laboratory>, doctors: seq<Doctor>, exams: seq<ExamRecord>)
    ensures var r := LaboratoryOptions(labs, exams);
            && (forall i, j :: 0 <= i < j < |r| ==> StrLe(r[i], r[j]) && r[i] != r[j])
            && forall x :: x in r <==>
                 if |labs| > 0 then exists i :: 0 <= i < |labs| && labs[i].name == x
                 else exists i :: 0 <= i < |exams| && exams[i].laboratory == x
    ensures var r := DoctorOptions(doctors, exams);
            && (forall i, j :: 0 <= i < j < |r| ==> StrLe(r[i], r[j]) && r[i] != r[j])
            && forall x :: x in r <==>
                 if |doctors| > 0 then exists i :: 0 <= i < |doctors| && doctors[i].name == x
                 else exists i :: 0 <= i < |exams| && exams[i].doctorName == x
    ensures var r := ExamNameOptions(exams);
            forall x :: x in r <==> exists i :: 0 <= i < |exams| && exams[i].examName == x
  {
    ProjectMembership(labs, (l: Laboratory) => l.name);
    ProjectMembership(doctors, (d: Doctor) => d.name);
    ProjectMembership(exams, (e: ExamRecord) => e.laboratory);
    ProjectMembership(exams, (e: ExamRecord) => e.doctorName);
    ProjectMembership(exams, (e: ExamRecord) => e.examName);
  }

  // ---------------------------------------------------------------------------
  // The export
  // ---------------------------------------------------------------------------

  const Headers: seq<string> := ["Data", "Exame", "Resultado", "Unidade", "Referencia", "Status", "Laboratorio", "Medico"]

  /** The byte-order mark the file starts with. */
  const Bom: char := '﻿'

  /** `xs.join(sep)`. */
  function Join(xs: seq<string>, sep: char): string
    decreases |xs|
  {
    if xs == [] then "" else if |xs| == 1 then xs[0] else xs[0] + [sep] + Join(xs[1..], sep)
  }

  /** `replace(/"/g, '""')`. */
  function Doubled(s: string): string {
    if s == [] then "" else (if s[0] == '"' then "\"\"" else [s[0]]) + Doubled(s[1..])
  }

  /** A field as written: quoted, with its quotes doubled. */
  function Quoted(s: string): string {
    "\"" + Doubled(s) + "\""
  }

  function QuoteAll(row: seq<string>): (r: seq<string>)
    ensures |r| == |row|
  {
    if row == [] then [] else [Quoted(row[0])] + QuoteAll(row[1..])
  }

  /** One line of the file: the quoted fields joined by ';'. */
  function RowLine(row: seq<string>): string {
    Join(QuoteAll(row), ';')
  }

  function RowLines(rows: seq<seq<string>>): (r: seq<string>)
    ensures |r| == |rows|
  {
    if rows == [] then [] else [RowLine(rows[0])] + RowLines(rows[1..])
  }

  /** The first line. */
  function HeaderLine(): string {
    Join(Headers, ';')
  }

  /** The text of the file: the header and one line per row, joined by '\n'. */
  function CsvContent(rows: seq<seq<string>>): string {
    Join([HeaderLine()] + RowLines(rows), '\n')
  }

  /** The fields exported for one exam, the Status column being the label of
      the exam's health status. */
  function ExportRow(e: ExamRecord, localeDate: string -> string): (r: seq<string>)
    ensures |r| == |Headers|
  {
    [localeDate(e.date), e.examName, e.value, e.unit, e.referenceRange,
     StatusLabel(GetHealthStatus(e.value, e.referenceRange)), e.laboratory, e.doctorName]
  }

  function ExportRows(exams: seq<ExamRecord>, localeDate: string -> string): (r: seq<seq<string>>)
    ensures |r| == |exams|
    ensures forall i :: 0 <= i < |exams| ==> r[i] == ExportRow(exams[i], localeDate)
  {
    if exams == [] then [] else [ExportRow(exams[0], localeDate)] + ExportRows(exams[1..], localeDate)
  }

  /** `handleExportCSV`: the contents of the downloaded file. */
  function ExportFile(exams: seq<ExamRecord>, f: ReportFilter, localeDate: string -> string): string {
    [Bom] + CsvContent(ExportRows(FilteredExams(exams, f), localeDate))
  }

  // The reader

  /** The text of a quoted field after its opening quote, up to the closing
      quote, a doubled quote standing for one; and what follows. */
  function ReadQuoted(s: string): (r: Option<(string, string)>)
    ensures r.Some? ==> |r.value.1| < |s|
    decreases |s|
  {
    if s == [] then None
    else if s[0] == '"' then
      if |s| > 1 && s[1] == '"' then
        match ReadQuoted(s[2..])
        case None => None
        case Some((v, rest)) => Some(("\"" + v, rest))
      else Some(("", s[1..]))
    else
      match ReadQuoted(s[1..])
      case None => None
      case Some((v, rest)) => Some(([s[0]] + v, rest))
  }

  /** A line of quoted fields separated by ';', and what follows it. */
  function ReadRow(s: string): (r: Option<(seq<string>, string)>)
    ensures r.Some? ==> |r.value.1| < |s|
    decreases |s|
  {
    if s == [] || s[0] != '"' then None
    else
      match ReadQuoted(s[1..])
      case None => None
      case Some((v, rest)) =>
        if rest != [] && rest[0] == ';' then
          match ReadRow(rest[1..])
          case None => None
          case Some((vs, after)) => Some(([v] + vs, after))
        else Some(([v], rest))
  }

  /** Lines of quoted fields separated by '\n', to the end of the text. */
  function ReadRows(s: string): Option<seq<seq<string>>>
    decreases |s|
  {
    match ReadRow(s)
    case None => None
    case Some((row, rest)) =>
      if rest == [] then Some([row])
      else if rest[0] == '\n' then
        match ReadRows(rest[1..])
        case None => None
        case Some(rows) => Some([row] + rows)
      else None
  }

  /** A whole file: the mark, the header line, then the rows. */
  function ReadFile(file: string): Option<(string, seq<seq<string>>)> {
    if file == [] || file[0] != Bom then None else ReadContent(file[1..])
  }

  /** The text after the mark: the header line, then the rows. */
  function ReadContent(content: string): Option<(string, seq<seq<string>>)> {
    var k := IndexOf(content, '\n');
    if k == |content| then Some((content, []))
    else
      match ReadRows(content[k + 1..])
      case None => None
      case Some(rows) => Some((content[..k], rows))
  }

  /** Un-doubling a written field gives the field back, whatever follows
      the closing quote other than another quote. */
  lemma {:induction false} ReadQuotedDoubled(v: string, rest: string)
    requires rest == [] || rest[0] != '"'
    ensures ReadQuoted(Doubled(v) + "\"" + rest) == Some((v, rest))
    decreases |v|
  {
    var s := Doubled(v) + "\"" + rest;
    if v == [] {
      assert s == "\"" + rest;
      assert s[1..] == rest;
    } else {
      ReadQuotedDoubled(v[1..], rest);
      var tail := Doubled(v[1..]) + "\"" + rest;
      if v[0] == '"' {
        assert s == "\"\"" + tail;
        assert s[2..] == tail;
        assert "\"" + v[1..] == v;
      } else {
        assert s == [v[0]] + tail;
        assert s[1..] == tail;
        assert [v[0]] + v[1..] == v;
      }
    }
  }

  /** A written field, followed by anything but a quote, reads back. */
  lemma ReadField(v: string, rest: string)
    requires rest == [] || rest[0] != '"'
    ensures var s := Quoted(v) + rest; s != [] && s[0] == '"' && ReadQuoted(s[1..]) == Some((v, rest))
  {
    var s := Quoted(v) + rest;
    assert s[1..] == Doubled(v) + "\"" + rest;
    ReadQuotedDoubled(v, rest);
  }

  lemma RowLineSplit(row: seq<string>)
    requires |row| > 0
    ensures |row| == 1 ==> RowLine(row) == Quoted(row[0])
    ensures |row| > 1 ==> RowLine(row) == Quoted(row[0]) + ";" + RowLine(row[1..])
  {
    var q := QuoteAll(row);
    assert q[0] == Quoted(row[0]);
    assert q[1..] == QuoteAll(row[1..]);
  }

  /** A written line reads back as its fields. */
  lemma {:induction false} ReadRowLine(row: seq<string>, rest: string)
    requires |row| > 0
    requires rest == [] || rest[0] == '\n'
    ensures ReadRow(RowLine(row) + rest) == Some((row, rest))
    decreases |row|
  {
    RowLineSplit(row);
    if |row| == 1 {
      ReadField(row[0], rest);
      assert [row[0]] == row;
    } else {
      var more := RowLine(row[1..]) + rest;
      assert RowLine(row) + rest == Quoted(row[0]) + (";" + more);
      ReadField(row[0], ";" + more);
      assert (";" + more)[1..] == more;
      ReadRowLine(row[1..], rest);
      assert [row[0]] + row[1..] == row;
    }
  }

  /** Written lines read back as their rows. */
  lemma {:induction false} ReadRowsLines(rows: seq<seq<string>>)
    requires |rows| > 0
    requires forall i :: 0 <= i < |rows| ==> |rows[i]| > 0
    ensures ReadRows(Join(RowLines(rows), '\n')) == Some(rows)
    decreases |rows|
  {
    var lines := RowLines(rows);
    if |rows| == 1 {
      assert Join(lines, '\n') == RowLine(rows[0]) + "";
      ReadRowLine(rows[0], "");
      assert [rows[0]] == rows;
    } else {
      assert lines[1..] == RowLines(rows[1..]);
      var more := Join(RowLines(rows[1..]), '\n');
      assert Join(lines, '\n') == RowLine(rows[0]) + ("\n" + more);
      ReadRowLine(rows[0], "\n" + more);
      assert ("\n" + more)[1..] == more;
      ReadRowsLines(rows[1..]);
      assert [rows[0]] + rows[1..] == rows;
    }
  }

  /** A joined list avoids a character that neither the separator nor any
      item holds. */
  lemma {:induction false} JoinAvoids(xs: seq<string>, sep: char, c: char)
    requires c != sep
    requires forall i :: 0 <= i < |xs| ==> c !in xs[i]
    ensures c !in Join(xs, sep)
    decreases |xs|
  {
    if |xs| > 1 {
      JoinAvoids(xs[1..], sep, c);
    }
  }

  /** No column title holds a line break. */
  lemma HeadersOneLine()
    ensures forall i :: 0 <= i < |Headers| ==> '\n' !in Headers[i]
  {
    assert '\n' !in Headers[0] && '\n' !in Headers[1] && '\n' !in Headers[2] && '\n' !in Headers[3];
    assert '\n' !in Headers[4] && '\n' !in Headers[5] && '\n' !in Headers[6] && '\n' !in Headers[7];
  }

  lemma HeaderLineOneLine()
    ensures '\n' !in HeaderLine()
  {
    HeadersOneLine();
    JoinAvoids(Headers, ';', '\n');
  }

  /** The file reads back as the header line and the rows written, in
      order. */
  lemma ReadFileContent(rows: seq<seq<string>>)
    requires forall i :: 0 <= i < |rows| ==> |rows[i]| > 0
    ensures ReadFile([Bom] + CsvContent(rows)) == Some((HeaderLine(), rows))
  {
    var file := [Bom] + CsvContent(rows);
    assert file[1..] == CsvContent(rows);
    HeaderLineOneLine();
    if rows == [] {
      ReadEmptyContent();
    } else {
      ReadNonEmptyContent(rows);
    }
    assert ReadContent(CsvContent(rows)) == Some((HeaderLine(), rows));
  }

  lemma ReadEmptyContent()
    requires '\n' !in HeaderLine()
    ensures ReadContent(CsvContent([])) == Some((HeaderLine(), []))
  {
    assert [HeaderLine()] + RowLines([]) == [HeaderLine()];
  }

  lemma ReadNonEmptyContent(rows: seq<seq<string>>)
    requires rows != []
    requires forall i :: 0 <= i < |rows| ==> |rows[i]| > 0
    requires '\n' !in HeaderLine()
    ensures ReadContent(CsvContent(rows)) == Some((HeaderLine(), rows))
  {
    var h := HeaderLine();
    var lines := [h] + RowLines(rows);
    var body := Join(RowLines(rows), '\n');
    assert lines[1..] == RowLines(rows);
    assert CsvContent(rows) == h + ['\n'] + body;
    IndexOfSplit(h, '\n', body);
    assert CsvContent(rows)[|h| + 1..] == body;
    assert CsvContent(rows)[..|h|] == h;
    ReadRowsLines(rows);
  }

  /** The downloaded file is the mark, the header line, and one line per
      exam of the report, in the report's order, each reading back as that
      exam's fields. */
  lemma ExportRoundTrip(exams: seq<ExamRecord>, f: ReportFilter, localeDate: string -> string)
    ensures ReadFile(ExportFile(exams, f, localeDate))
            == Some((HeaderLine(), ExportRows(FilteredExams(exams, f), localeDate)))
  {
    ReadFileContent(ExportRows(FilteredExams(exams, f), localeDate));
  }

  /** The Status field of line `i` names the exam's health status and no
      other. */
  lemma ExportedStatus(exams: seq<ExamRecord>, localeDate: string -> string, i: int, s: HealthStatus)
    requires 0 <= i < |exams|
    ensures ExportRows(exams, localeDate)[i][5] == StatusLabel(s) <==> s == GetHealthStatus(exams[i].value, exams[i].referenceRange)
  {
    StatusFieldNamesStatus(ExportRow(exams[i], localeDate), GetHealthStatus(exams[i].value, exams[i].referenceRange), s);
  }

  /** A Status field holding the label of h names h and no other status. */
  lemma StatusFieldNamesStatus(row: seq<string>, h: HealthStatus, s: HealthStatus)
    requires |row| > 5 && row[5] == StatusLabel(h)
    ensures row[5] == StatusLabel(s) <==> s == h
  {
    if StatusLabel(s) == StatusLabel(h) {
      StatusLabelInjective(s, h);
    }
  }
}
