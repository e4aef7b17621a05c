/**
 * The laboratory-exam screen (components/Exams.tsx) apart from its classifier:
 * saving a typed exam or a batch of extracted rows, registering the doctor and
 * laboratory an exam names, editing and deleting records, the filtered view
 * and the per-status counters.
 *
 * The register helpers read the doctor and laboratory lists of the render in
 * which the handler runs (`known` below) but append through functional
 * updates (to the list as it is by then, `app.doctors`), so within one batch
 * every row is checked against the list from before the batch.
 */
module Exams {
  import opened Wrappers
  import opened Types
  import opened Text
  import opened Sorting
  import opened Collections
  import opened ExamStatus
  import opened App

  // ---------------------------------------------------------------------------
  // Drafts and the records they become
  // ---------------------------------------------------------------------------

  /** A `Partial<ExamRecord>`: the add form, a row extracted from an uploaded
      report, or the edit form. */
  datatype ExamDraft = ExamDraft(
    id: Option<string>,
    examName: Option<string>,
    value: Option<string>,
    unit: Option<string>,
    referenceRange: Option<string>,
    laboratory: Option<string>,
    doctorName: Option<string>,
    date: Option<string>,
    notes: Option<string>)

  /** The fresh ids one saved row consumes: its record's, and those of the
      doctor and laboratory records it may register. */
  datatype FreshIds = FreshIds(record: string, doctor: string, laboratory: string)

  const NotInformed := "NÃO INFORMADO"
  const NoLaboratory := "N/A"
  const GeneralPractitioner := "CLÍNICO GERAL"

  /** Only drafts with an exam name and a value are saved. */
  predicate Admitted(d: ExamDraft) {
    Truthy(d.examName) && Truthy(d.value)
  }

  /** The doctor a draft names, defaulting to "NÃO INFORMADO", trimmed and upper-cased. */
  function DraftDoctor(d: ExamDraft): string {
    NameKey(OrElse(d.doctorName, NotInformed))
  }

  /** The laboratory a draft names, defaulting to "N/A", trimmed and upper-cased. */
  function DraftLaboratory(d: ExamDraft): string {
    NameKey(OrElse(d.laboratory, NoLaboratory))
  }

  predicate UpperCased(s: string) {
    Upper(s) == s
  }

  /** The record a saved draft becomes. */
  function NewExamRecord(d: ExamDraft, id: string, today: string): ExamRecord
    requires Admitted(d)
  {
    ExamRecord(
      id,
      Upper(d.examName.value),
      Upper(d.value.value),
      Upper(OrElse(d.unit, "")),
      Upper(OrElse(d.referenceRange, "")),
      DraftLaboratory(d),
      DraftDoctor(d),
      OrElse(d.date, today),
      Some(Upper(OrElse(d.notes, ""))))
  }

  /** A saved record has every text upper-cased, a missing doctor or
      laboratory replaced by its default and a missing date by today. */
  lemma NewExamRecordSpec(d: ExamDraft, id: string, today: string)
    requires Admitted(d)
    ensures var r := NewExamRecord(d, id, today);
            && r.id == id
            && UpperCased(r.examName) && UpperCased(r.value) && UpperCased(r.unit)
            && UpperCased(r.referenceRange) && UpperCased(r.laboratory) && UpperCased(r.doctorName)
            && r.notes.Some? && UpperCased(r.notes.value)
            && (!Truthy(d.doctorName) ==> r.doctorName == NotInformed)
            && (!Truthy(d.laboratory) ==> r.laboratory == NoLaboratory)
            && (!Truthy(d.date) ==> r.date == today)
  {
    UpperIdempotent(d.examName.value);
    UpperIdempotent(d.value.value);
    UpperIdempotent(OrElse(d.unit, ""));
    UpperIdempotent(OrElse(d.referenceRange, ""));
    UpperIdempotent(OrElse(d.notes, ""));
    NameKeyUpperCased(OrElse(d.doctorName, NotInformed));
    NameKeyUpperCased(OrElse(d.laboratory, NoLaboratory));
    DefaultNamesNormalised();
  }

  /** A normalised name is upper case. */
  lemma NameKeyUpperCased(s: string)
    ensures UpperCased(NameKey(s))
  {
    NameKeyIdempotent(s);
    UpperTrimCommute(Upper(s));
    UpperIdempotent(s);
  }

  /** The two defaults are already normalised, and the register helpers skip both. */
  lemma DefaultNamesNormalised()
    ensures NameKey(NotInformed) == NotInformed
    ensures NameKey(NoLaboratory) == NoLaboratory
    ensures IgnoredDoctorName(NotInformed) && IgnoredLaboratoryName(NotInformed)
    ensures IgnoredLaboratoryName(NoLaboratory)
  {
  }

  // ---------------------------------------------------------------------------
  // Registering the doctor and the laboratory an exam names
  // ---------------------------------------------------------------------------

  /** Names the doctor helper skips: empty, or "não informado" in any case. */
  predicate IgnoredDoctorName(name: string) {
    name == "" || Lower(name) == "não informado"
  }

  /** Names the laboratory helper skips: those of the doctor helper and "N/A". */
  predicate IgnoredLaboratoryName(name: string) {
    IgnoredDoctorName(name) || name == NoLaboratory
  }

  predicate KnownDoctor(doctors: seq<Doctor>, key: string) {
    exists i :: 0 <= i < |doctors| && NameKey(doctors[i].name) == key
  }

  predicate KnownLaboratory(laboratories: seq<Laboratory>, key: string) {
    exists i :: 0 <= i < |laboratories| && NameKey(laboratories[i].name) == key
  }

  /** `registerDoctorIfNew(name)`: the existence check reads `known`, the
      append goes to `current`. */
  function RegisterDoctor(known: seq<Doctor>, current: seq<Doctor>, name: string, id: string): (r: seq<Doctor>)
    ensures |r| == |current| + 1 <==> !IgnoredDoctorName(name) && !KnownDoctor(known, NameKey(name))
    ensures |r| == |current| || |r| == |current| + 1
    ensures r[..|current|] == current
    ensures |r| > |current| ==> r[|current|] == Doctor(id, NameKey(name), GeneralPractitioner, None, None, None)
  {
    if IgnoredDoctorName(name) || KnownDoctor(known, NameKey(name)) then current
    else current + [Doctor(id, NameKey(name), GeneralPractitioner, None, None, None)]
  }

  /** `registerLaboratoryIfNew(name)`, with the same split between `known` and `current`. */
  function RegisterLaboratory(known: seq<Laboratory>, current: seq<Laboratory>, name: string, id: string): (r: seq<Laboratory>)
    ensures |r| == |current| + 1 <==> !IgnoredLaboratoryName(name) && !KnownLaboratory(known, NameKey(name))
    ensures |r| == |current| || |r| == |current| + 1
    ensures r[..|current|] == current
    ensures |r| > |current| ==> r[|current|] == Laboratory(id, NameKey(name), None, None)
  {
    if IgnoredLaboratoryName(name) || KnownLaboratory(known, NameKey(name)) then current
    else current + [Laboratory(id, NameKey(name), None, None)]
  }

  /** Once a doctor is registered from the current list, the name is known:
      registering it again changes nothing. */
  lemma RegisterDoctorIdempotent(doctors: seq<Doctor>, name: string, id: string, id2: string)
    ensures var once := RegisterDoctor(doctors, doctors, name, id);
            RegisterDoctor(once, once, name, id2) == once
  {
    var once := RegisterDoctor(doctors, doctors, name, id);
    if |once| > |doctors| {
      NameKeyIdempotent(name);
      assert NameKey(once[|doctors|].name) == NameKey(name);
    }
  }

  /** Once a laboratory is registered from the current list, registering it again changes nothing. */
  lemma RegisterLaboratoryIdempotent(laboratories: seq<Laboratory>, name: string, id: string, id2: string)
    ensures var once := RegisterLaboratory(laboratories, laboratories, name, id);
            RegisterLaboratory(once, once, name, id2) == once
  {
    var once := RegisterLaboratory(laboratories, laboratories, name, id);
    if |once| > |laboratories| {
      NameKeyIdempotent(name);
      assert NameKey(once[|laboratories|].name) == NameKey(name);
    }
  }

  method RegisterDoctorIfNew(app: AppState, known: seq<Doctor>, name: string, id: string)
    modifies app`doctors, app`store
    ensures app.doctors == RegisterDoctor(known, old(app.doctors), name, id)
    ensures app.doctors == old(app.doctors) ==> app.store == old(app.store)
    ensures app.doctors != old(app.doctors) ==> app.store == old(app.store)[DoctorsKey := DoctorList(app.doctors)]
    ensures old(app.Synced()) ==> app.Synced()
  {
    if !(name == "" || Lower(name) == "não informado") {
      var normalized := NameKey(name);
      var isKnown := exists i :: 0 <= i < |known| && NameKey(known[i].name) == normalized;
      if !isKnown {
        app.SetDoctors(app.doctors + [Doctor(id, normalized, GeneralPractitioner, None, None, None)]);
      }
    }
  }

  method RegisterLaboratoryIfNew(app: AppState, known: seq<Laboratory>, name: string, id: string)
    modifies app`laboratories, app`store
    ensures app.laboratories == RegisterLaboratory(known, old(app.laboratories), name, id)
    ensures app.laboratories == old(app.laboratories) ==> app.store == old(app.store)
    ensures app.laboratories != old(app.laboratories) ==>
              app.store == old(app.store)[LaboratoriesKey := LaboratoryList(app.laboratories)]
    ensures old(app.Synced()) ==> app.Synced()
  {
    if !(name == "" || Lower(name) == "não informado" || name == NoLaboratory) {
      var normalized := NameKey(name);
      var isKnown := exists i :: 0 <= i < |known| && NameKey(known[i].name) == normalized;
      if !isKnown {
        app.SetLaboratories(app.laboratories + [Laboratory(id, normalized, None, None)]);
      }
    }
  }

  /** The part both save handlers share: register the draft's doctor and
      laboratory (checked against `knownDoctors` and `knownLaboratories`)
      and build its record. */
  method SaveRow(app: AppState, knownDoctors: seq<Doctor>, knownLaboratories: seq<Laboratory>,
                 row: ExamDraft, ids: FreshIds, today: string) returns (record: ExamRecord)
    requires Admitted(row)
    modifies app`doctors, app`laboratories, app`store
    ensures record == NewExamRecord(row, ids.record, today)
    ensures app.doctors == RegisterDoctor(knownDoctors, old(app.doctors), DraftDoctor(row), ids.doctor)
    ensures app.laboratories == RegisterLaboratory(knownLaboratories, old(app.laboratories), DraftLaboratory(row), ids.laboratory)
    ensures app.store == RegistriesSaved(old(app.store), old(app.doctors), app.doctors, old(app.laboratories), app.laboratories)
    ensures old(app.Synced()) ==> app.Synced()
  {
    var docName := NameKey(OrElse(row.doctorName, NotInformed));
    var labName := NameKey(OrElse(row.laboratory, NoLaboratory));
    RegisterDoctorIfNew(app, knownDoctors, docName, ids.doctor);
    RegisterLaboratoryIfNew(app, knownLaboratories, labName, ids.laboratory);
    record := NewExamRecord(row, ids.record, today);
  }

  // ---------------------------------------------------------------------------
  // Saving one exam
  // ---------------------------------------------------------------------------

  /** `handleSaveExam`: an admitted draft registers its doctor and laboratory
      and goes to the front of the list; any other draft changes nothing. */
  method SaveExam(app: AppState, draft: ExamDraft, ids: FreshIds, today: string)
    modifies app`exams, app`doctors, app`laboratories, app`store
    ensures Admitted(draft) ==> app.exams == [NewExamRecord(draft, ids.record, today)] + old(app.exams)
    ensures Admitted(draft) ==> app.doctors == RegisterDoctor(old(app.doctors), old(app.doctors), DraftDoctor(draft), ids.doctor)
    ensures Admitted(draft) ==>
              app.laboratories == RegisterLaboratory(old(app.laboratories), old(app.laboratories), DraftLaboratory(draft), ids.laboratory)
    ensures !Admitted(draft) ==> app.exams == old(app.exams) && app.doctors == old(app.doctors)
    ensures !Admitted(draft) ==> app.laboratories == old(app.laboratories) && app.store == old(app.store)
    ensures Admitted(draft) ==>
              app.store == RegistriesSaved(old(app.store), old(app.doctors), app.doctors, old(app.laboratories), app.laboratories)
                             [ExamsKey := ExamList(app.exams)]
    ensures old(app.Synced()) ==> app.Synced()
  {
    if Truthy(draft.examName) && Truthy(draft.value) {
      var exams := app.exams;
      var record := SaveRow(app, app.doctors, app.laboratories, draft, ids, today);
      app.SetExams([record] + exams);
    }
  }

  // ---------------------------------------------------------------------------
  // Saving a batch of extracted rows
  // ---------------------------------------------------------------------------

  /** The records an extracted batch becomes: admitted rows only, in row order. */
  function BatchRecords(rows: seq<ExamDraft>, ids: seq<FreshIds>, today: string): (r: seq<ExamRecord>)
    requires |ids| == |rows|
    ensures |r| <= |rows|
    ensures (forall i :: 0 <= i < |rows| ==> Admitted(rows[i])) ==> |r| == |rows|
    ensures (forall i :: 0 <= i < |rows| ==> !Admitted(rows[i])) ==> r == []
    decreases |rows|
  {
    if rows == [] then []
    else
      var n := |rows| - 1;
      BatchRecords(rows[..n], ids[..n], today)
        + (if Admitted(rows[n]) then [NewExamRecord(rows[n], ids[n].record, today)] else [])
  }

  /** The doctors after a batch as the handler runs it: every admitted row is
      checked against the list from before the batch (`known`). */
  function BatchDoctors(known: seq<Doctor>, current: seq<Doctor>, rows: seq<ExamDraft>, ids: seq<FreshIds>): seq<Doctor>
    requires |ids| == |rows|
    decreases |rows|
  {
    if rows == [] then current
    else
      var n := |rows| - 1;
      var before := BatchDoctors(known, current, rows[..n], ids[..n]);
      if Admitted(rows[n]) then RegisterDoctor(known, before, DraftDoctor(rows[n]), ids[n].doctor) else before
  }

  function BatchLaboratories(known: seq<Laboratory>, current: seq<Laboratory>, rows: seq<ExamDraft>, ids: seq<FreshIds>): seq<Laboratory>
    requires |ids| == |rows|
    decreases |rows|
  {
    if rows == [] then current
    else
      var n := |rows| - 1;
      var before := BatchLaboratories(known, current, rows[..n], ids[..n]);
      if Admitted(rows[n]) then RegisterLaboratory(known, before, DraftLaboratory(rows[n]), ids[n].laboratory) else before
  }

  /** The batch over the first i + 1 rows is the batch over the first i
      rows followed by row i. */
  lemma BatchPrefixStep(known: seq<Doctor>, knownLabs: seq<Laboratory>, rows: seq<ExamDraft>, ids: seq<FreshIds>,
                        i: nat, today: string)
    requires |ids| == |rows| && i < |rows|
    ensures BatchRecords(rows[..i + 1], ids[..i + 1], today)
            == BatchRecords(rows[..i], ids[..i], today)
               + (if Admitted(rows[i]) then [NewExamRecord(rows[i], ids[i].record, today)] else [])
    ensures BatchDoctors(known, known, rows[..i + 1], ids[..i + 1])
            == var before := BatchDoctors(known, known, rows[..i], ids[..i]);
               if Admitted(rows[i]) then RegisterDoctor(known, before, DraftDoctor(rows[i]), ids[i].doctor) else before
    ensures BatchLaboratories(knownLabs, knownLabs, rows[..i + 1], ids[..i + 1])
            == var before := BatchLaboratories(knownLabs, knownLabs, rows[..i], ids[..i]);
               if Admitted(rows[i]) then RegisterLaboratory(knownLabs, before, DraftLaboratory(rows[i]), ids[i].laboratory)
               else before
  {
    assert rows[..i + 1][..i] == rows[..i] && ids[..i + 1][..i] == ids[..i];
  }

  /** The same step for the batch checked against the lists as they stand. */
  lemma BatchCheckedPrefixStep(doctors: seq<Doctor>, laboratories: seq<Laboratory>, rows: seq<ExamDraft>,
                               ids: seq<FreshIds>, i: nat)
    requires |ids| == |rows| && i < |rows|
    ensures BatchDoctorsChecked(doctors, rows[..i + 1], ids[..i + 1])
            == var before := BatchDoctorsChecked(doctors, rows[..i], ids[..i]);
               if Admitted(rows[i]) then RegisterDoctor(before, before, DraftDoctor(rows[i]), ids[i].doctor) else before
    ensures BatchLaboratoriesChecked(laboratories, rows[..i + 1], ids[..i + 1])
            == var before := BatchLaboratoriesChecked(laboratories, rows[..i], ids[..i]);
               if Admitted(rows[i]) then RegisterLaboratory(before, before, DraftLaboratory(rows[i]), ids[i].laboratory)
               else before
  {
    assert rows[..i + 1][..i] == rows[..i] && ids[..i + 1][..i] == ids[..i];
  }

  lemma WholePrefix<T>(s: seq<T>)
    ensures s[..|s|] == s
  {
  }

  /** One pass of the batch loop: row i, when admitted, registers its doctor
      and laboratory against the lists from before the batch and adds its
      record after the ones saved so far. */
  method SaveBatchRow(app: AppState, doctors: seq<Doctor>, laboratories: seq<Laboratory>, rows: seq<ExamDraft>,
                      ids: seq<FreshIds>, i: nat, today: string, valid: seq<ExamRecord>) returns (next: seq<ExamRecord>)
    requires |ids| == |rows| && i < |rows|
    requires valid == BatchRecords(rows[..i], ids[..i], today)
    requires app.doctors == BatchDoctors(doctors, doctors, rows[..i], ids[..i])
    requires app.laboratories == BatchLaboratories(laboratories, laboratories, rows[..i], ids[..i])
    modifies app`doctors, app`laboratories, app`store
    ensures next == BatchRecords(rows[..i + 1], ids[..i + 1], today)
    ensures app.doctors == BatchDoctors(doctors, doctors, rows[..i + 1], ids[..i + 1])
    ensures app.laboratories == BatchLaboratories(laboratories, laboratories, rows[..i + 1], ids[..i + 1])
    ensures app.doctors == old(app.doctors) || |app.doctors| > |old(app.doctors)|
    ensures app.laboratories == old(app.laboratories) || |app.laboratories| > |old(app.laboratories)|
    ensures app.store == RegistriesSaved(old(app.store), old(app.doctors), app.doctors, old(app.laboratories), app.laboratories)
    ensures old(app.Synced()) ==> app.Synced()
  {
    var row := rows[i];
    BatchPrefixStep(doctors, laboratories, rows, ids, i, today);
    next := valid;
    if Truthy(row.examName) && Truthy(row.value) {
      var record := SaveRow(app, doctors, laboratories, row, ids[i], today);
      next := valid + [record];
    }
  }

  /** The loop of `handleSaveExtracted`: the records of the admitted rows, in
      order, with their doctors and laboratories registered against the lists
      from before the batch. */
  method SaveBatchRows(app: AppState, rows: seq<ExamDraft>, ids: seq<FreshIds>, today: string) returns (valid: seq<ExamRecord>)
    requires |ids| == |rows|
    modifies app`doctors, app`laboratories, app`store
    ensures valid == BatchRecords(rows, ids, today)
    ensures app.doctors == BatchDoctors(old(app.doctors), old(app.doctors), rows, ids)
    ensures app.laboratories == BatchLaboratories(old(app.laboratories), old(app.laboratories), rows, ids)
    ensures app.store == RegistriesSaved(old(app.store), old(app.doctors), app.doctors, old(app.laboratories), app.laboratories)
    ensures old(app.Synced()) ==> app.Synced()
  {
    var doctors, laboratories := app.doctors, app.laboratories;
    valid := [];
    var i := 0;
    while i < |rows|
      invariant 0 <= i <= |rows|
      invariant valid == BatchRecords(rows[..i], ids[..i], today)
      invariant app.doctors == BatchDoctors(doctors, doctors, rows[..i], ids[..i])
      invariant app.laboratories == BatchLaboratories(laboratories, laboratories, rows[..i], ids[..i])
      invariant app.doctors == doctors || |app.doctors| > |doctors|
      invariant app.laboratories == laboratories || |app.laboratories| > |laboratories|
      invariant app.store == RegistriesSaved(old(app.store), doctors, app.doctors, laboratories, app.laboratories)
      invariant old(app.Synced()) ==> app.Synced()
    {
      ghost var doctorsBefore, laboratoriesBefore := app.doctors, app.laboratories;
      valid := SaveBatchRow(app, doctors, laboratories, rows, ids, i, today, valid);
      RegistriesSavedTwice(old(app.store), doctors, doctorsBefore, app.doctors,
                           laboratories, laboratoriesBefore, app.laboratories);
      i := i + 1;
    }
    WholePrefix(rows);
    WholePrefix(ids);
  }

  /** `handleSaveExtracted`: the admitted rows, in order, go before the
      existing records; their doctors and laboratories are registered against
      the lists from before the batch. */
  method SaveExtracted(app: AppState, rows: seq<ExamDraft>, ids: seq<FreshIds>, today: string)
    requires |ids| == |rows|
    modifies app`exams, app`doctors, app`laboratories, app`store
    ensures app.exams == BatchRecords(rows, ids, today) + old(app.exams)
    ensures app.doctors == BatchDoctors(old(app.doctors), old(app.doctors), rows, ids)
    ensures app.laboratories == BatchLaboratories(old(app.laboratories), old(app.laboratories), rows, ids)
    ensures app.store == RegistriesSaved(old(app.store), old(app.doctors), app.doctors, old(app.laboratories), app.laboratories)
                           [ExamsKey := ExamList(app.exams)]
    ensures old(app.Synced()) ==> app.Synced()
  {
    var valid := SaveBatchRows(app, rows, ids, today);
    app.SetExams(valid + app.exams);
  }

  /** No two doctors share a normalised name. */
  predicate DistinctDoctorNames(doctors: seq<Doctor>) {
    forall i, j :: 0 <= i < j < |doctors| ==> NameKey(doctors[i].name) != NameKey(doctors[j].name)
  }

  predicate DistinctLaboratoryNames(laboratories: seq<Laboratory>) {
    forall i, j :: 0 <= i < j < |laboratories| ==> NameKey(laboratories[i].name) != NameKey(laboratories[j].name)
  }

  /** One more row at the end of a batch. */
  lemma BatchRecordsStep(rows: seq<ExamDraft>, ids: seq<FreshIds>, row: ExamDraft, next: FreshIds, today: string)
    requires |ids| == |rows|
    ensures BatchRecords(rows + [row], ids + [next], today)
            == BatchRecords(rows, ids, today) + (if Admitted(row) then [NewExamRecord(row, next.record, today)] else [])
  {
    assert (rows + [row])[..|rows|] == rows;
    assert (ids + [next])[..|ids|] == ids;
  }

  lemma BatchDoctorsStep(known: seq<Doctor>, current: seq<Doctor>, rows: seq<ExamDraft>, ids: seq<FreshIds>,
                         row: ExamDraft, next: FreshIds)
    requires |ids| == |rows|
    ensures BatchDoctors(known, current, rows + [row], ids + [next])
            == var before := BatchDoctors(known, current, rows, ids);
               if Admitted(row) then RegisterDoctor(known, before, DraftDoctor(row), next.doctor) else before
  {
    assert (rows + [row])[..|rows|] == rows;
    assert (ids + [next])[..|ids|] == ids;
  }

  lemma BatchLaboratoriesStep(known: seq<Laboratory>, current: seq<Laboratory>, rows: seq<ExamDraft>, ids: seq<FreshIds>,
                              row: ExamDraft, next: FreshIds)
    requires |ids| == |rows|
    ensures BatchLaboratories(known, current, rows + [row], ids + [next])
            == var before := BatchLaboratories(known, current, rows, ids);
               if Admitted(row) then RegisterLaboratory(known, before, DraftLaboratory(row), next.laboratory) else before
  {
    assert (rows + [row])[..|rows|] == rows;
    assert (ids + [next])[..|ids|] == ids;
  }

  /** A two-element sequence is its first element followed by its second. */
  lemma TwoAsPair<T>(s: seq<T>)
    requires |s| == 2
    ensures [s[0]] + [s[1]] == s
  {
  }

  /** As written, two rows of one batch that name the same new doctor
      register that doctor twice. */
  lemma BatchRegistersDoctorTwice(doctors: seq<Doctor>, row: ExamDraft, ids: seq<FreshIds>)
    requires |ids| == 2 && Admitted(row)
    requires !IgnoredDoctorName(DraftDoctor(row)) && !KnownDoctor(doctors, DraftDoctor(row))
    ensures var after := BatchDoctors(doctors, doctors, [row, row], ids);
            |after| == |doctors| + 2 && after[|doctors|].name == after[|doctors| + 1].name
    ensures !DistinctDoctorNames(BatchDoctors(doctors, doctors, [row, row], ids))
  {
    NameKeyIdempotent(OrElse(row.doctorName, NotInformed));
    BatchDoctorsStep(doctors, doctors, [], [], row, ids[0]);
    var once := BatchDoctors(doctors, doctors, [row], [ids[0]]);
    assert |once| == |doctors| + 1;
    BatchDoctorsStep(doctors, doctors, [row], [ids[0]], row, ids[1]);
    TwoAsPair([row, row]);
    TwoAsPair(ids);
    var after := BatchDoctors(doctors, doctors, [row, row], ids);
    assert after == RegisterDoctor(doctors, once, DraftDoctor(row), ids[1].doctor);
    assert after[|doctors|] == once[|doctors|];
  }

  /** The same for laboratories. */
  lemma BatchRegistersLaboratoryTwice(laboratories: seq<Laboratory>, row: ExamDraft, ids: seq<FreshIds>)
    requires |ids| == 2 && Admitted(row)
    requires !IgnoredLaboratoryName(DraftLaboratory(row)) && !KnownLaboratory(laboratories, DraftLaboratory(row))
    ensures var after := BatchLaboratories(laboratories, laboratories, [row, row], ids);
            |after| == |laboratories| + 2 && after[|laboratories|].name == after[|laboratories| + 1].name
    ensures !DistinctLaboratoryNames(BatchLaboratories(laboratories, laboratories, [row, row], ids))
  {
    NameKeyIdempotent(OrElse(row.laboratory, NoLaboratory));
    BatchLaboratoriesStep(laboratories, laboratories, [], [], row, ids[0]);
    var once := BatchLaboratories(laboratories, laboratories, [row], [ids[0]]);
    assert |once| == |laboratories| + 1;
    BatchLaboratoriesStep(laboratories, laboratories, [row], [ids[0]], row, ids[1]);
    TwoAsPair([row, row]);
    TwoAsPair(ids);
    var after := BatchLaboratories(laboratories, laboratories, [row, row], ids);
    assert after == RegisterLaboratory(laboratories, once, DraftLaboratory(row), ids[1].laboratory);
    assert after[|laboratories|] == once[|laboratories|];
  }

  /** The batch with each row checked against the list as it stands, which
      is what "register if new" asks for. */
  function BatchDoctorsChecked(current: seq<Doctor>, rows: seq<ExamDraft>, ids: seq<FreshIds>): seq<Doctor>
    requires |ids| == |rows|
    decreases |rows|
  {
    if rows == [] then current
    else
      var n := |rows| - 1;
      var before := BatchDoctorsChecked(current, rows[..n], ids[..n]);
      if Admitted(rows[n]) then RegisterDoctor(before, before, DraftDoctor(rows[n]), ids[n].doctor) else before
  }

  function BatchLaboratoriesChecked(current: seq<Laboratory>, rows: seq<ExamDraft>, ids: seq<FreshIds>): seq<Laboratory>
    requires |ids| == |rows|
    decreases |rows|
  {
    if rows == [] then current
    else
      var n := |rows| - 1;
      var before := BatchLaboratoriesChecked(current, rows[..n], ids[..n]);
      if Admitted(rows[n]) then RegisterLaboratory(before, before, DraftLaboratory(rows[n]), ids[n].laboratory) else before
  }

  /** Registering against the current list never adds a second doctor of a known name. */
  lemma RegisterDoctorKeepsNamesDistinct(doctors: seq<Doctor>, name: string, id: string)
    requires DistinctDoctorNames(doctors)
    ensures DistinctDoctorNames(RegisterDoctor(doctors, doctors, name, id))
  {
    var r := RegisterDoctor(doctors, doctors, name, id);
    if |r| > |doctors| {
      forall i | 0 <= i < |doctors| ensures NameKey(r[i].name) != NameKey(r[|doctors|].name) {
        NameKeyIdempotent(name);
        assert r[i] == doctors[i];
      }
    }
  }

  lemma RegisterLaboratoryKeepsNamesDistinct(laboratories: seq<Laboratory>, name: string, id: string)
    requires DistinctLaboratoryNames(laboratories)
    ensures DistinctLaboratoryNames(RegisterLaboratory(laboratories, laboratories, name, id))
  {
    var r := RegisterLaboratory(laboratories, laboratories, name, id);
    if |r| > |laboratories| {
      forall i | 0 <= i < |laboratories| ensures NameKey(r[i].name) != NameKey(r[|laboratories|].name) {
        NameKeyIdempotent(name);
        assert r[i] == laboratories[i];
      }
    }
  }

  /** Checked against the list as it stands, a batch keeps doctor names distinct. */
  lemma {:induction false} BatchDoctorsCheckedDistinct(current: seq<Doctor>, rows: seq<ExamDraft>, ids: seq<FreshIds>)
    requires |ids| == |rows| && DistinctDoctorNames(current)
    ensures DistinctDoctorNames(BatchDoctorsChecked(current, rows, ids))
    decreases |rows|
  {
    if rows != [] {
      var n := |rows| - 1;
      BatchDoctorsCheckedDistinct(current, rows[..n], ids[..n]);
      var before := BatchDoctorsChecked(current, rows[..n], ids[..n]);
      RegisterDoctorKeepsNamesDistinct(before, DraftDoctor(rows[n]), ids[n].doctor);
    }
  }

  lemma {:induction false} BatchLaboratoriesCheckedDistinct(current: seq<Laboratory>, rows: seq<ExamDraft>, ids: seq<FreshIds>)
    requires |ids| == |rows| && DistinctLaboratoryNames(current)
    ensures DistinctLaboratoryNames(BatchLaboratoriesChecked(current, rows, ids))
    decreases |rows|
  {
    if rows != [] {
      var n := |rows| - 1;
      BatchLaboratoriesCheckedDistinct(current, rows[..n], ids[..n]);
      var before := BatchLaboratoriesChecked(current, rows[..n], ids[..n]);
      RegisterLaboratoryKeepsNamesDistinct(before, DraftLaboratory(rows[n]), ids[n].laboratory);
    }
  }

  /** One pass of the checked batch loop: row i, when admitted, registers
      its doctor and laboratory against the lists as they stand. */
  method SaveCheckedBatchRow(app: AppState, doctors: seq<Doctor>, laboratories: seq<Laboratory>, rows: seq<ExamDraft>,
                             ids: seq<FreshIds>, i: nat, today: string, valid: seq<ExamRecord>)
    returns (next: seq<ExamRecord>)
    requires |ids| == |rows| && i < |rows|
    requires valid == BatchRecords(rows[..i], ids[..i], today)
    requires app.doctors == BatchDoctorsChecked(doctors, rows[..i], ids[..i])
    requires app.laboratories == BatchLaboratoriesChecked(laboratories, rows[..i], ids[..i])
    modifies app`doctors, app`laboratories, app`store
    ensures next == BatchRecords(rows[..i + 1], ids[..i + 1], today)
    ensures app.doctors == BatchDoctorsChecked(doctors, rows[..i + 1], ids[..i + 1])
    ensures app.laboratories == BatchLaboratoriesChecked(laboratories, rows[..i + 1], ids[..i + 1])
    ensures app.doctors == old(app.doctors) || |app.doctors| > |old(app.doctors)|
    ensures app.laboratories == old(app.laboratories) || |app.laboratories| > |old(app.laboratories)|
    ensures app.store == RegistriesSaved(old(app.store), old(app.doctors), app.doctors, old(app.laboratories), app.laboratories)
    ensures old(app.Synced()) ==> app.Synced()
  {
    var row := rows[i];
    BatchPrefixStep(doctors, laboratories, rows, ids, i, today);
    BatchCheckedPrefixStep(doctors, laboratories, rows, ids, i);
    next := valid;
    if Truthy(row.examName) && Truthy(row.value) {
      var record := SaveRow(app, app.doctors, app.laboratories, row, ids[i], today);
      next := valid + [record];
    }
  }

  /** The loop of the checked batch save. */
  method SaveCheckedBatchRows(app: AppState, rows: seq<ExamDraft>, ids: seq<FreshIds>, today: string) returns (valid: seq<ExamRecord>)
    requires |ids| == |rows|
    modifies app`doctors, app`laboratories, app`store
    ensures valid == BatchRecords(rows, ids, today)
    ensures app.doctors == BatchDoctorsChecked(old(app.doctors), rows, ids)
    ensures app.laboratories == BatchLaboratoriesChecked(old(app.laboratories), rows, ids)
    ensures app.store == RegistriesSaved(old(app.store), old(app.doctors), app.doctors, old(app.laboratories), app.laboratories)
    ensures old(app.Synced()) ==> app.Synced()
  {
    var doctors, laboratories := app.doctors, app.laboratories;
    valid := [];
    var i := 0;
    while i < |rows|
      invariant 0 <= i <= |rows|
      invariant valid == BatchRecords(rows[..i], ids[..i], today)
      invariant app.doctors == BatchDoctorsChecked(doctors, rows[..i], ids[..i])
      invariant app.laboratories == BatchLaboratoriesChecked(laboratories, rows[..i], ids[..i])
      invariant app.doctors == doctors || |app.doctors| > |doctors|
      invariant app.laboratories == laboratories || |app.laboratories| > |laboratories|
      invariant app.store == RegistriesSaved(old(app.store), doctors, app.doctors, laboratories, app.laboratories)
      invariant old(app.Synced()) ==> app.Synced()
    {
      ghost var doctorsBefore, laboratoriesBefore := app.doctors, app.laboratories;
      valid := SaveCheckedBatchRow(app, doctors, laboratories, rows, ids, i, today, valid);
      RegistriesSavedTwice(old(app.store), doctors, doctorsBefore, app.doctors,
                           laboratories, laboratoriesBefore, app.laboratories);
      i := i + 1;
    }
    WholePrefix(rows);
    WholePrefix(ids);
  }

  /** The batch save with every row checked against the lists as they stand. */
  method SaveExtractedChecked(app: AppState, rows: seq<ExamDraft>, ids: seq<FreshIds>, today: string)
    requires |ids| == |rows|
    modifies app`exams, app`doctors, app`laboratories, app`store
    ensures app.exams == BatchRecords(rows, ids, today) + old(app.exams)
    ensures app.doctors == BatchDoctorsChecked(old(app.doctors), rows, ids)
    ensures app.laboratories == BatchLaboratoriesChecked(old(app.laboratories), rows, ids)
    ensures app.store == RegistriesSaved(old(app.store), old(app.doctors), app.doctors, old(app.laboratories), app.laboratories)
                           [ExamsKey := ExamList(app.exams)]
    ensures old(app.Synced()) ==> app.Synced()
  {
    var valid := SaveCheckedBatchRows(app, rows, ids, today);
    app.SetExams(valid + app.exams);
  }

  // ---------------------------------------------------------------------------
  // Editing and deleting
  // ---------------------------------------------------------------------------

  function ExamId(e: ExamRecord): string { e.id }

  /** `{ ...exam, ...patch }`: every field the patch carries wins, and every
      field it lacks keeps the record's value. */
  function Merge(e: ExamRecord, p: ExamDraft): (r: ExamRecord)
    ensures p.id.Some? ==> r.id == p.id.value
    ensures p.id.None? ==> r.id == e.id
    ensures p.examName.Some? ==> r.examName == p.examName.value
    ensures p.examName.None? ==> r.examName == e.examName
    ensures p.value.Some? ==> r.value == p.value.value
    ensures p.value.None? ==> r.value == e.value
    ensures p.unit.Some? ==> r.unit == p.unit.value
    ensures p.unit.None? ==> r.unit == e.unit
    ensures p.referenceRange.Some? ==> r.referenceRange == p.referenceRange.value
    ensures p.referenceRange.None? ==> r.referenceRange == e.referenceRange
    ensures p.laboratory.Some? ==> r.laboratory == p.laboratory.value
    ensures p.laboratory.None? ==> r.laboratory == e.laboratory
    ensures p.doctorName.Some? ==> r.doctorName == p.doctorName.value
    ensures p.doctorName.None? ==> r.doctorName == e.doctorName
    ensures p.date.Some? ==> r.date == p.date.value
    ensures p.date.None? ==> r.date == e.date
    ensures p.notes.Some? ==> r.notes == p.notes
    ensures p.notes.None? ==> r.notes == e.notes
    ensures p == ExamDraft(None, None, None, None, None, None, None, None, None) ==> r == e
  {
    ExamRecord(
      p.id.GetOr(e.id),
      p.examName.GetOr(e.examName),
      p.value.GetOr(e.value),
      p.unit.GetOr(e.unit),
      p.referenceRange.GetOr(e.referenceRange),
      p.laboratory.GetOr(e.laboratory),
      p.doctorName.GetOr(e.doctorName),
      p.date.GetOr(e.date),
      if p.notes.Some? then p.notes else e.notes)
  }

  /** `handleStartEdit`: the edit form starts as a copy of the record; a
      record without notes gives a form without the key. */
  function StartEdit(e: ExamRecord): ExamDraft {
    ExamDraft(Some(e.id), Some(e.examName), Some(e.value), Some(e.unit), Some(e.referenceRange),
              Some(e.laboratory), Some(e.doctorName), Some(e.date), e.notes)
  }

  /** Saving an untouched edit form gives back the record it was copied
      from, over that record or over any record with the same notes. */
  lemma MergeStartEdit(e: ExamRecord, target: ExamRecord)
    requires target.notes == e.notes || e.notes.Some?
    ensures Merge(target, StartEdit(e)) == e
  {
  }

  /** Saving the same form twice is saving it once. */
  lemma MergeIdempotent(e: ExamRecord, p: ExamDraft)
    ensures Merge(Merge(e, p), p) == Merge(e, p)
  {
  }

  /** `handleSaveEdit`: with an id, a name and a value in the form, the
      records carrying that id take the form's fields; nothing else changes. */
  method SaveEdit(app: AppState, form: ExamDraft)
    modifies app`exams, app`store
    ensures Truthy(form.id) && Truthy(form.examName) && Truthy(form.value) ==>
              app.exams == ReplaceId(old(app.exams), form.id.value, ExamId, (e: ExamRecord) => Merge(e, form))
    ensures Truthy(form.id) && Truthy(form.examName) && Truthy(form.value) ==>
              app.store == old(app.store)[ExamsKey := ExamList(app.exams)]
    ensures !(Truthy(form.id) && Truthy(form.examName) && Truthy(form.value)) ==>
              app.exams == old(app.exams) && app.store == old(app.store)
    ensures old(app.Synced()) ==> app.Synced()
  {
    if Truthy(form.id) && Truthy(form.examName) && Truthy(form.value) {
      app.SetExams(ReplaceId(app.exams, form.id.value, ExamId, (e: ExamRecord) => Merge(e, form)));
    }
  }

  /** `handleDeleteExam`, once confirmed. */
  method DeleteExam(app: AppState, id: string)
    modifies app`exams, app`store
    ensures app.exams == RemoveId(old(app.exams), id, ExamId)
    ensures app.store == old(app.store)[ExamsKey := ExamList(app.exams)]
    ensures old(app.Synced()) ==> app.Synced()
  {
    app.SetExams(RemoveId(app.exams, id, ExamId));
  }

  // ---------------------------------------------------------------------------
  // The filtered view
  // ---------------------------------------------------------------------------

  /** The value of the status filter that selects a status. */
  function StatusKey(s: HealthStatus): string {
    match s
    case Success => "success"
    case Warning => "warning"
    case Danger => "danger"
    case Neutral => "neutral"
    case Info => "info"
  }

  /** The five filters of the screen; "all" (or an empty date) switches one off. */
  datatype ExamFilters = ExamFilters(examName: string, laboratory: string, status: string, startDate: string, endDate: string)

  predicate NameMatches(e: ExamRecord, f: ExamFilters) {
    f.examName == "all" || Upper(e.examName) == Upper(f.examName)
  }

  predicate LaboratoryMatches(e: ExamRecord, f: ExamFilters) {
    f.laboratory == "all" || NameKey(e.laboratory) == NameKey(f.laboratory)
  }

  predicate StatusMatches(e: ExamRecord, f: ExamFilters) {
    f.status == "all" || StatusKey(GetHealthStatus(e.value, e.referenceRange)) == f.status
  }

  predicate DateMatches(e: ExamRecord, f: ExamFilters) {
    (f.startDate == "" || StrLe(f.startDate, e.date)) && (f.endDate == "" || StrLe(e.date, f.endDate))
  }

  /** An exam passes the view when it meets every active filter. */
  predicate Matches(e: ExamRecord, f: ExamFilters) {
    NameMatches(e, f) && LaboratoryMatches(e, f) && StatusMatches(e, f) && DateMatches(e, f)
  }

  function ExamDate(e: ExamRecord): string { e.date }

  /** One step of the chain: the filter is applied only when it is active. */
  function Stage(s: seq<ExamRecord>, active: bool, keep: ExamRecord -> bool): seq<ExamRecord> {
    if active then Filter(s, keep) else s
  }

  lemma StageCount(s: seq<ExamRecord>, active: bool, keep: ExamRecord -> bool, x: ExamRecord)
    ensures multiset(Stage(s, active, keep))[x] == if !active || keep(x) then multiset(s)[x] else 0
  {
    if active { FilterCount(s, keep, x); }
  }

  function ByName(f: ExamFilters): ExamRecord -> bool {
    (e: ExamRecord) => Upper(e.examName) == Upper(f.examName)
  }

  function ByLaboratory(f: ExamFilters): ExamRecord -> bool {
    (e: ExamRecord) => NameKey(e.laboratory) == NameKey(f.laboratory)
  }

  function ByStatus(f: ExamFilters): ExamRecord -> bool {
    (e: ExamRecord) => StatusKey(GetHealthStatus(e.value, e.referenceRange)) == f.status
  }

  function FromDate(f: ExamFilters): ExamRecord -> bool {
    (e: ExamRecord) => StrLe(f.startDate, e.date)
  }

  function UntilDate(f: ExamFilters): ExamRecord -> bool {
    (e: ExamRecord) => StrLe(e.date, f.endDate)
  }

  /** The filters of the view, applied one after the other. */
  function FilterChain(exams: seq<ExamRecord>, f: ExamFilters): seq<ExamRecord> {
    var byName := Stage(exams, f.examName != "all", ByName(f));
    var byLaboratory := Stage(byName, f.laboratory != "all", ByLaboratory(f));
    var byStatus := Stage(byLaboratory, f.status != "all", ByStatus(f));
    var byStart := Stage(byStatus, f.startDate != "", FromDate(f));
    Stage(byStart, f.endDate != "", UntilDate(f))
  }

  /** `filteredExams`: the filtered exams, newest first. */
  function FilteredExams(exams: seq<ExamRecord>, f: ExamFilters): seq<ExamRecord> {
    SortBy(FilterChain(exams, f), ExamDate, Descending)
  }

  /** The chain keeps every exam that meets all the active filters, as often
      as the list holds it, and drops every other exam. */
  lemma FilterChainCount(exams: seq<ExamRecord>, f: ExamFilters, x: ExamRecord)
    ensures multiset(FilterChain(exams, f))[x] == if Matches(x, f) then multiset(exams)[x] else 0
  {
    var byName := Stage(exams, f.examName != "all", ByName(f));
    var byLaboratory := Stage(byName, f.laboratory != "all", ByLaboratory(f));
    var byStatus := Stage(byLaboratory, f.status != "all", ByStatus(f));
    var byStart := Stage(byStatus, f.startDate != "", FromDate(f));
    StageCount(exams, f.examName != "all", ByName(f), x);
    StageCount(byName, f.laboratory != "all", ByLaboratory(f), x);
    StageCount(byLaboratory, f.status != "all", ByStatus(f), x);
    StageCount(byStatus, f.startDate != "", FromDate(f), x);
    StageCount(byStart, f.endDate != "", UntilDate(f), x);
  }

  /** The view holds exactly the exams that meet every active filter, as often
      as the list holds them, newest first. */
  lemma FilteredExamsSpec(exams: seq<ExamRecord>, f: ExamFilters)
    ensures forall x :: multiset(FilteredExams(exams, f))[x] == if Matches(x, f) then multiset(exams)[x] else 0
    ensures forall x :: x in FilteredExams(exams, f) <==> x in exams && Matches(x, f)
    ensures SortedBy(FilteredExams(exams, f), ExamDate, Descending)
  {
    var chain := FilterChain(exams, f);
    SortBySpec(chain, ExamDate, Descending);
    forall x ensures multiset(FilteredExams(exams, f))[x] == if Matches(x, f) then multiset(exams)[x] else 0 {
      FilterChainCount(exams, f, x);
    }
    forall x ensures x in FilteredExams(exams, f) <==> x in exams && Matches(x, f) {
      FilterChainCount(exams, f, x);
      assert x in FilteredExams(exams, f) <==> x in multiset(FilteredExams(exams, f));
      assert x in exams <==> x in multiset(exams);
    }
  }

  // ---------------------------------------------------------------------------
  // The per-status counters
  // ---------------------------------------------------------------------------

  datatype StatusCounts = StatusCounts(success: nat, warning: nat, danger: nat, neutral: nat, info: nat)
  {
    function Get(s: HealthStatus): nat {
      match s
      case Success => success
      case Warning => warning
      case Danger => danger
      case Neutral => neutral
      case Info => info
    }

    function Increment(s: HealthStatus): StatusCounts {
      match s
      case Success => this.(success := success + 1)
      case Warning => this.(warning := warning + 1)
      case Danger => this.(danger := danger + 1)
      case Neutral => this.(neutral := neutral + 1)
      case Info => this.(info := info + 1)
    }

    function Total(): nat {
      success + warning + danger + neutral + info
    }
  }

  function ExamHealth(e: ExamRecord): HealthStatus {
    GetHealthStatus(e.value, e.referenceRange)
  }

  /** How many exams the classifier puts in status `s`. */
  function CountStatus(exams: seq<ExamRecord>, s: HealthStatus): nat
    decreases |exams|
  {
    if exams == [] then 0
    else CountStatus(exams[..|exams| - 1], s) + (if ExamHealth(exams[|exams| - 1]) == s then 1 else 0)
  }

  /** Every exam is counted under exactly one status. */
  lemma {:induction false} CountStatusSum(exams: seq<ExamRecord>)
    ensures CountStatus(exams, Success) + CountStatus(exams, Warning) + CountStatus(exams, Danger)
            + CountStatus(exams, Neutral) + CountStatus(exams, Info) == |exams|
    decreases |exams|
  {
    if exams != [] {
      CountStatusSum(exams[..|exams| - 1]);
    }
  }

  /** `statsCount`: one pass over the exams, one increment per exam. */
  method StatsCount(exams: seq<ExamRecord>) returns (counts: StatusCounts)
    ensures forall s :: counts.Get(s) == CountStatus(exams, s)
    ensures counts.Total() == |exams|
  {
    counts := StatusCounts(0, 0, 0, 0, 0);
    var i := 0;
    while i < |exams|
      invariant 0 <= i <= |exams|
      invariant forall s :: counts.Get(s) == CountStatus(exams[..i], s)
    {
      var s := GetHealthStatus(exams[i].value, exams[i].referenceRange);
      assert exams[..i + 1][..i] == exams[..i];
      counts := counts.Increment(s);
      i := i + 1;
    }
    assert exams[..i] == exams;
    CountStatusSum(exams);
    assert counts.Total() == counts.Get(Success) + counts.Get(Warning) + counts.Get(Danger)
                             + counts.Get(Neutral) + counts.Get(Info);
  }
}
