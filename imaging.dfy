/**
 * The imaging-report screen (components/ImagingExams.tsx): the option lists
 * of its two filters, the filtered view, its own register-if-new helpers,
 * the save and delete handlers, and the preparation of an attached `data:`
 * URI for viewing: the header gives the MIME type and the decoded payload is
 * cut into byte arrays of at most 512 bytes.
 *
 * Base64 decoding (`atob`) is a parameter that either fails or yields the
 * byte characters; opening a window and building the `Blob` are not modelled
 * beyond the value handed to them.
 */
module ImagingExams {
  import opened Wrappers
  import opened Types
  import opened Text
  import opened Sorting
  import opened Collections
  import opened App
  import Exams

  // ---------------------------------------------------------------------------
  // Filter options and the filtered view
  // ---------------------------------------------------------------------------

  /** The exam types, upper-cased and trimmed, in list order. */
  function TypeNames(es: seq<ImagingExam>): (r: seq<string>)
    ensures |r| == |es|
    ensures forall i :: 0 <= i < |es| ==> r[i] == NameKey(es[i].examType)
  {
    seq(|es|, i requires 0 <= i < |es| => NameKey(es[i].examType))
  }

  /** The doctor names, upper-cased and trimmed, in list order. */
  function DoctorNames(es: seq<ImagingExam>): (r: seq<string>)
    ensures |r| == |es|
    ensures forall i :: 0 <= i < |es| ==> r[i] == NameKey(es[i].doctorName)
  {
    seq(|es|, i requires 0 <= i < |es| => NameKey(es[i].doctorName))
  }

  /** `uniqueTypes`: each normalised exam type once, in sort order. */
  function UniqueTypes(es: seq<ImagingExam>): (r: seq<string>)
    ensures forall i, j :: 0 <= i < j < |r| ==> StrLe(r[i], r[j]) && r[i] != r[j]
    ensures forall x :: x in r <==> exists i :: 0 <= i < |es| && NameKey(es[i].examType) == x
  {
    var names := TypeNames(es);
    assert forall x :: x in names <==> exists i :: 0 <= i < |es| && NameKey(es[i].examType) == x by {
      forall x | x in names ensures exists i :: 0 <= i < |es| && NameKey(es[i].examType) == x {
        var i :| 0 <= i < |names| && names[i] == x;
      }
    }
    UniqueSorted(names)
  }

  /** `uniqueDocs`: each normalised doctor name once, in sort order. */
  function UniqueDoctors(es: seq<ImagingExam>): (r: seq<string>)
    ensures forall i, j :: 0 <= i < j < |r| ==> StrLe(r[i], r[j]) && r[i] != r[j]
    ensures forall x :: x in r <==> exists i :: 0 <= i < |es| && NameKey(es[i].doctorName) == x
  {
    var names := DoctorNames(es);
    assert forall x :: x in names <==> exists i :: 0 <= i < |es| && NameKey(es[i].doctorName) == x by {
      forall x | x in names ensures exists i :: 0 <= i < |es| && NameKey(es[i].doctorName) == x {
        var i :| 0 <= i < |names| && names[i] == x;
      }
    }
    UniqueSorted(names)
  }

  /** The value of a filter that matches everything. */
  const AnyValue := "all"

  /** Both filters accept the exam: each is `AnyValue` or equal to the exam's
      field once both are upper-cased and trimmed. */
  predicate FilterMatches(e: ImagingExam, typeFilter: string, docFilter: string) {
    && (typeFilter == AnyValue || NameKey(e.examType) == NameKey(typeFilter))
    && (docFilter == AnyValue || NameKey(e.doctorName) == NameKey(docFilter))
  }

  function ImagingDate(e: ImagingExam): string { e.date }

  /** `filteredExams`: the matching exams, newest first. */
  function FilteredImaging(es: seq<ImagingExam>, typeFilter: string, docFilter: string): seq<ImagingExam> {
    SortBy(Filter(es, (e: ImagingExam) => FilterMatches(e, typeFilter, docFilter)), ImagingDate, Descending)
  }

  /** The view holds every matching exam as often as the list does and no
      other exam, newest first; with both filters at `AnyValue` it is a
      reordering of the whole list. */
  lemma FilteredImagingSpec(es: seq<ImagingExam>, typeFilter: string, docFilter: string)
    ensures forall e :: multiset(FilteredImaging(es, typeFilter, docFilter))[e]
                        == if FilterMatches(e, typeFilter, docFilter) then multiset(es)[e] else 0
    ensures SortedBy(FilteredImaging(es, typeFilter, docFilter), ImagingDate, Descending)
    ensures typeFilter == AnyValue && docFilter == AnyValue ==>
              multiset(FilteredImaging(es, typeFilter, docFilter)) == multiset(es)
  {
    var keep := (e: ImagingExam) => FilterMatches(e, typeFilter, docFilter);
    SortBySpec(Filter(es, keep), ImagingDate, Descending);
    forall e ensures multiset(FilteredImaging(es, typeFilter, docFilter))[e]
                     == if FilterMatches(e, typeFilter, docFilter) then multiset(es)[e] else 0 {
      FilterCount(es, keep, e);
    }
  }

  // ---------------------------------------------------------------------------
  // Registering the doctor and the laboratory a report names
  // ---------------------------------------------------------------------------

  /** The specialty given to a doctor first seen on an imaging report. */
  const Radiologist := "RADIOLOGISTA/ESPECIALISTA"

  /** Names both helpers skip: empty, or "NÃO INFORMADO" once upper-cased.
      "N/A" is not skipped. */
  predicate IgnoredName(name: string) {
    name == "" || Upper(name) == Exams.NotInformed
  }

  /** `registerDoctorIfNew(name)` over the current list. */
  function RegisterDoctor(doctors: seq<Doctor>, name: string, id: string): (r: seq<Doctor>)
    ensures |r| == |doctors| + 1 <==> !IgnoredName(name) && !Exams.KnownDoctor(doctors, NameKey(name))
    ensures |r| == |doctors| || |r| == |doctors| + 1
    ensures r[..|doctors|] == doctors
    ensures |r| > |doctors| ==> r[|doctors|] == Doctor(id, NameKey(name), Radiologist, None, None, None)
  {
    if IgnoredName(name) || Exams.KnownDoctor(doctors, NameKey(name)) then doctors
    else doctors + [Doctor(id, NameKey(name), Radiologist, None, None, None)]
  }

  /** `registerLaboratoryIfNew(name)` over the current list. */
  function RegisterLaboratory(laboratories: seq<Laboratory>, name: string, id: string): (r: seq<Laboratory>)
    ensures |r| == |laboratories| + 1 <==> !IgnoredName(name) && !Exams.KnownLaboratory(laboratories, NameKey(name))
    ensures |r| == |laboratories| || |r| == |laboratories| + 1
    ensures r[..|laboratories|] == laboratories
    ensures |r| > |laboratories| ==> r[|laboratories|] == Laboratory(id, NameKey(name), None, None)
  {
    if IgnoredName(name) || Exams.KnownLaboratory(laboratories, NameKey(name)) then laboratories
    else laboratories + [Laboratory(id, NameKey(name), None, None)]
  }

  /** A registered name is known afterwards: registering it again changes nothing. */
  lemma RegisterIdempotent(doctors: seq<Doctor>, laboratories: seq<Laboratory>, name: string, id: string, id2: string)
    ensures var once := RegisterDoctor(doctors, name, id); RegisterDoctor(once, name, id2) == once
    ensures var once := RegisterLaboratory(laboratories, name, id); RegisterLaboratory(once, name, id2) == once
  {
    NameKeyIdempotent(name);
    var d := RegisterDoctor(doctors, name, id);
    if |d| > |doctors| {
      assert NameKey(d[|doctors|].name) == NameKey(name);
    }
    var l := RegisterLaboratory(laboratories, name, id);
    if |l| > |laboratories| {
      assert NameKey(l[|laboratories|].name) == NameKey(name);
    }
  }

  /** Unlike the lab-exam helper, "N/A" is registered as a laboratory. */
  lemma NotApplicableIsRegistered(name: string)
    requires name == Exams.NoLaboratory
    ensures !IgnoredName(name) && Exams.IgnoredLaboratoryName(name)
  {
  }

  method RegisterDoctorIfNew(app: AppState, name: string, id: string)
    modifies app`doctors, app`store
    ensures app.doctors == RegisterDoctor(old(app.doctors), name, id)
    ensures app.doctors == old(app.doctors) ==> app.store == old(app.store)
    ensures app.doctors != old(app.doctors) ==> app.store == old(app.store)[DoctorsKey := DoctorList(app.doctors)]
    ensures old(app.Synced()) ==> app.Synced()
  {
    if !(name == "" || Upper(name) == Exams.NotInformed) {
      var normalized := NameKey(name);
      var isKnown := exists i :: 0 <= i < |app.doctors| && NameKey(app.doctors[i].name) == normalized;
      if !isKnown {
        app.SetDoctors(app.doctors + [Doctor(id, normalized, Radiologist, None, None, None)]);
      }
    }
  }

  method RegisterLaboratoryIfNew(app: AppState, name: string, id: string)
    modifies app`laboratories, app`store
    ensures app.laboratories == RegisterLaboratory(old(app.laboratories), name, id)
    ensures app.laboratories == old(app.laboratories) ==> app.store == old(app.store)
    ensures app.laboratories != old(app.laboratories) ==>
              app.store == old(app.store)[LaboratoriesKey := LaboratoryList(app.laboratories)]
    ensures old(app.Synced()) ==> app.Synced()
  {
    if !(name == "" || Upper(name) == Exams.NotInformed) {
      var normalized := NameKey(name);
      var isKnown := exists i :: 0 <= i < |app.laboratories| && NameKey(app.laboratories[i].name) == normalized;
      if !isKnown {
        app.SetLaboratories(app.laboratories + [Laboratory(id, normalized, None, None)]);
      }
    }
  }

  // ---------------------------------------------------------------------------
  // Save and delete
  // ---------------------------------------------------------------------------

  /** The add form: a `Partial<ImagingExam>`. */
  datatype ImagingDraft = ImagingDraft(
    patientName: Option<string>,
    examType: Option<string>,
    region: Option<string>,
    doctorName: Option<string>,
    laboratory: Option<string>,
    date: Option<string>,
    reportSummary: Option<string>,
    conclusion: Option<string>,
    notes: Option<string>,
    fileUri: Option<string>,
    fileMimeType: Option<string>)

  /** The ids the save handler draws: one per record it may create. */
  datatype ImagingIds = ImagingIds(exam: string, doctor: string, laboratory: string)

  /** The form admits a save when it has an exam type and a laboratory. */
  predicate Admitted(d: ImagingDraft) {
    Truthy(d.examType) && Truthy(d.laboratory)
  }

  /** A text field upper-cased and trimmed, missing becoming "". */
  function Cleaned(o: Option<string>): string {
    NameKey(OrElse(o, ""))
  }

  function DraftDoctor(d: ImagingDraft): string {
    NameKey(OrElse(d.doctorName, Exams.NotInformed))
  }

  function DraftLaboratory(d: ImagingDraft): string {
    NameKey(OrElse(d.laboratory, Exams.NotInformed))
  }

  /** The exam `handleSave` puts first. */
  function NewImagingExam(d: ImagingDraft, id: string, today: string): ImagingExam
    requires Admitted(d)
  {
    ImagingExam(id, Some(Cleaned(d.patientName)), NameKey(d.examType.value), Cleaned(d.region),
                DraftDoctor(d), DraftLaboratory(d), OrElse(d.date, today),
                Cleaned(d.reportSummary), Cleaned(d.conclusion), Some(Cleaned(d.notes)),
                d.fileUri, d.fileMimeType)
  }

  /** Every text field of the saved exam is already upper-cased and trimmed,
      and the attachment fields are the form's own. */
  lemma NewImagingExamSpec(d: ImagingDraft, id: string, today: string)
    requires Admitted(d)
    ensures var e := NewImagingExam(d, id, today);
            && e.id == id
            && NameKey(e.examType) == e.examType && NameKey(e.region) == e.region
            && NameKey(e.doctorName) == e.doctorName && NameKey(e.laboratory) == e.laboratory
            && NameKey(e.reportSummary) == e.reportSummary && NameKey(e.conclusion) == e.conclusion
            && e.laboratory == NameKey(d.laboratory.value)
            && e.fileUri == d.fileUri && e.fileMimeType == d.fileMimeType
            && (e.date == if Truthy(d.date) then d.date.value else today)
  {
    NameKeyIdempotent(d.examType.value);
    NameKeyIdempotent(OrElse(d.region, ""));
    NameKeyIdempotent(OrElse(d.doctorName, Exams.NotInformed));
    NameKeyIdempotent(d.laboratory.value);
    NameKeyIdempotent(OrElse(d.reportSummary, ""));
    NameKeyIdempotent(OrElse(d.conclusion, ""));
  }

  /** A form without a doctor saves "NÃO INFORMADO", which the doctor helper skips. */
  lemma MissingDoctorSkipped(d: ImagingDraft)
    requires !Truthy(d.doctorName)
    ensures DraftDoctor(d) == Exams.NotInformed && IgnoredName(DraftDoctor(d))
  {
    Exams.DefaultNamesNormalised();
    assert Upper(Exams.NotInformed) == Exams.NotInformed;
  }

  /** `handleSave`: an admitted form registers its doctor and laboratory if
      new and puts the new exam first; otherwise nothing changes. */
  method Save(app: AppState, d: ImagingDraft, ids: ImagingIds, today: string)
    modifies app`imagingExams, app`doctors, app`laboratories, app`store
    ensures Admitted(d) ==> app.imagingExams == [NewImagingExam(d, ids.exam, today)] + old(app.imagingExams)
    ensures Admitted(d) ==> app.doctors == RegisterDoctor(old(app.doctors), DraftDoctor(d), ids.doctor)
    ensures Admitted(d) ==> app.laboratories == RegisterLaboratory(old(app.laboratories), DraftLaboratory(d), ids.laboratory)
    ensures Admitted(d) ==>
              app.store == RegistriesSaved(old(app.store), old(app.doctors), app.doctors, old(app.laboratories), app.laboratories)
                             [ImagingKey := ImagingList(app.imagingExams)]
    ensures !Admitted(d) ==> && app.imagingExams == old(app.imagingExams) && app.doctors == old(app.doctors)
                             && app.laboratories == old(app.laboratories) && app.store == old(app.store)
    ensures old(app.Synced()) ==> app.Synced()
  {
    if Admitted(d) {
      var docName := DraftDoctor(d);
      var labName := DraftLaboratory(d);
      RegisterDoctorIfNew(app, docName, ids.doctor);
      RegisterLaboratoryIfNew(app, labName, ids.laboratory);
      var exam := NewImagingExam(d, ids.exam, today);
      app.SetImagingExams([exam] + app.imagingExams);
    }
  }

  function ImagingId(e: ImagingExam): string { e.id }

  /** The delete button of the detail view, once confirmed. */
  method Delete(app: AppState, id: string)
    modifies app`imagingExams, app`store
    ensures app.imagingExams == RemoveId(old(app.imagingExams), id, ImagingId)
    ensures app.store == old(app.store)[ImagingKey := ImagingList(app.imagingExams)]
    ensures old(app.Synced()) ==> app.Synced()
  {
    app.SetImagingExams(RemoveId(app.imagingExams, id, ImagingId));
  }

  // ---------------------------------------------------------------------------
  // Viewing an attachment
  // ---------------------------------------------------------------------------

  /** `s.split(c)[0]`: the text before the first `c`, or all of it. */
  function FirstField(s: string, c: char): (r: string)
    ensures c !in r
    ensures StartsWith(s, r)
    ensures |r| == |s| || s[|r|] == c
  {
    s[..IndexOf(s, c)]
  }

  /** `s.split(c)[1]` where `c` occurs: the text between the first `c` and the
      next one, or the end. */
  function SecondField(s: string, c: char): (r: string)
    requires c in s
    ensures c !in r
    ensures var rest := s[|FirstField(s, c)| + 1..]; StartsWith(rest, r) && (|r| == |rest| || rest[|r|] == c)
  {
    FirstField(s[|FirstField(s, c)| + 1..], c)
  }

  const DataPrefix := "data:"
  const DefaultMime := "application/pdf"

  /** The header of a `data:` URI: the text before its first comma, which
      keeps the scheme's colon. */
  function DataHeader(uri: string): (r: string)
    requires StartsWith(uri, DataPrefix) && ',' in uri
    ensures ':' in r
  {
    var r := FirstField(uri, ',');
    assert uri[4] == ':' && uri[0] != ',' && uri[1] != ',' && uri[2] != ',' && uri[3] != ',' && uri[4] != ',';
    assert r[4] == ':';
    r
  }

  /** The MIME type handed to the `Blob`: the stored one if set, otherwise
      what the URI header names between ':' and ';', otherwise PDF. */
  function AttachmentMime(fileMimeType: Option<string>, header: string): string
    requires ':' in header
  {
    if Truthy(fileMimeType) then fileMimeType.value
    else
      var named := FirstField(SecondField(header, ':'), ';');
      if named != "" then named else DefaultMime
  }

  /** With no stored type, a header `data:<m>;...` gives `m`, and PDF when
      `m` is empty. */
  lemma AttachmentMimeFromHeader(m: string, rest: string)
    requires ':' !in m && ';' !in m
    ensures ':' in DataPrefix + m + ";" + rest
    ensures AttachmentMime(None, DataPrefix + m + ";" + rest) == if m == "" then DefaultMime else m
  {
    var header := DataPrefix + m + ";" + rest;
    assert header == "data" + [':'] + (m + ";" + rest);
    IndexOfSplit("data", ':', m + ";" + rest);
    assert FirstField(header, ':') == "data";
    var after := header[5..];
    assert after == m + ";" + rest;
    var field := SecondField(header, ':');
    assert StartsWith(after, field);
    assert after == m + [';'] + rest;
    IndexOfSplit(m, ';', rest);
    assert field[..|m| + 1] == m + [';'];
    assert IndexOf(field, ';') == |m| by {
      IndexOfSplit(m, ';', field[|m| + 1..]);
      assert field == m + [';'] + field[|m| + 1..];
    }
  }

  /** What the component ends up doing with the exam's attachment. */
  datatype Viewing =
    | NothingToOpen
    | OpenUri(uri: string)
    | OpenBytes(chunks: seq<seq<bv8>>, mime: string)

  const ChunkSize := 512

  /** `new Uint8Array(numbers)`: each number taken modulo 256. */
  function Uint8(n: int): bv8 {
    (n % 256) as bv8
  }

  /** The bytes the payload's characters stand for. */
  function Bytes(s: string): (r: seq<bv8>)
    ensures |r| == |s|
    ensures forall i :: 0 <= i < |s| ==> r[i] == Uint8(s[i] as int)
  {
    seq(|s|, i requires 0 <= i < |s| => Uint8(s[i] as int))
  }

  lemma BytesAppend(a: string, b: string)
    ensures Bytes(a + b) == Bytes(a) + Bytes(b)
  {
  }

  /** The arrays laid end to end, as the `Blob` reads them. */
  function Concat(chunks: seq<seq<bv8>>): seq<bv8>
    decreases |chunks|
  {
    if chunks == [] then [] else Concat(chunks[..|chunks| - 1]) + chunks[|chunks| - 1]
  }

  function Min(a: int, b: int): int { if a < b then a else b }

  /** The inner loop of `viewPdfAttachment`: the character codes of one
      slice copied into a fresh array, which then becomes a `Uint8Array`. */
  method SliceBytes(slice: string) returns (byteArray: seq<bv8>)
    ensures byteArray == Bytes(slice)
  {
    var byteNumbers := new int[|slice|];
    for i := 0 to |slice|
      invariant forall j :: 0 <= j < i ==> byteNumbers[j] == slice[j] as int
    {
      byteNumbers[i] := slice[i] as int;
    }
    byteArray := seq(byteNumbers.Length, j requires 0 <= j < byteNumbers.Length reads byteNumbers => Uint8(byteNumbers[j]));
  }

  /** `k` slices cover exactly `n` characters when the last one starts
      before the end. */
  lemma SliceCount(n: nat, k: nat)
    requires n <= ChunkSize * k && (k == 0 || ChunkSize * (k - 1) < n)
    ensures k == (n + ChunkSize - 1) / ChunkSize
  {
  }

  /** The outer loop of `viewPdfAttachment`: slices of at most 512
      characters, each turned into a byte array. The arrays laid end to end
      are the payload's bytes, every array but the last is full, none is
      empty, and there are as many as 512-character slices are needed. */
  method SliceIntoChunks(byteCharacters: string) returns (byteArrays: seq<seq<bv8>>)
    ensures Concat(byteArrays) == Bytes(byteCharacters)
    ensures forall k :: 0 <= k < |byteArrays| ==> 0 < |byteArrays[k]| <= ChunkSize
    ensures forall k :: 0 <= k < |byteArrays| - 1 ==> |byteArrays[k]| == ChunkSize
    ensures |byteArrays| == (|byteCharacters| + ChunkSize - 1) / ChunkSize
  {
    byteArrays := [];
    var offset := 0;
    while offset < |byteCharacters|
      invariant offset == ChunkSize * |byteArrays|
      invariant |byteArrays| > 0 ==> offset - ChunkSize < |byteCharacters|
      invariant Concat(byteArrays) == Bytes(byteCharacters[..Min(offset, |byteCharacters|)])
      invariant forall k :: 0 <= k < |byteArrays| ==> 0 < |byteArrays[k]| <= ChunkSize
      invariant forall k :: 0 <= k < |byteArrays| - 1 ==> |byteArrays[k]| == ChunkSize
      invariant offset <= |byteCharacters| ==> forall k :: 0 <= k < |byteArrays| ==> |byteArrays[k]| == ChunkSize
      decreases |byteCharacters| - offset
    {
      var end := Min(offset + ChunkSize, |byteCharacters|);
      var slice := byteCharacters[offset..end];
      var byteArray := SliceBytes(slice);
      assert byteCharacters[..end] == byteCharacters[..offset] + slice;
      BytesAppend(byteCharacters[..offset], slice);
      byteArrays := byteArrays + [byteArray];
      offset := offset + ChunkSize;
    }
    assert byteCharacters[..Min(offset, |byteCharacters|)] == byteCharacters;
    SliceCount(|byteCharacters|, |byteArrays|);
  }

  /** `viewPdfAttachment`, given `atob`. Nothing happens without an
      attachment. A `data:` URI with a comma has the text after its first
      comma decoded and sliced, under the MIME type above; a URI of any other
      form, a `data:` URI without a comma, and a payload `atob` rejects are
      all opened as they are. */
  method ViewAttachment(exam: ImagingExam, atob: string -> Option<string>) returns (v: Viewing)
    ensures v == NothingToOpen <==> !Truthy(exam.fileUri)
    ensures v.OpenUri? ==> v.uri == exam.fileUri.value
    ensures v.OpenBytes? <==>
              && Truthy(exam.fileUri) && StartsWith(exam.fileUri.value, DataPrefix) && ',' in exam.fileUri.value
              && atob(SecondField(exam.fileUri.value, ',')).Some?
    ensures v.OpenBytes? ==>
              && Concat(v.chunks) == Bytes(atob(SecondField(exam.fileUri.value, ',')).value)
              && v.mime == AttachmentMime(exam.fileMimeType, DataHeader(exam.fileUri.value))
  {
    if !Truthy(exam.fileUri) {
      return NothingToOpen;
    }
    var uri := exam.fileUri.value;
    if !StartsWith(uri, DataPrefix) || ',' !in uri {
      return OpenUri(uri);
    }
    var header := DataHeader(uri);
    var base64Content := SecondField(uri, ',');
    var mime := AttachmentMime(exam.fileMimeType, header);
    var decoded := atob(base64Content);
    if decoded.None? {
      return OpenUri(uri);
    }
    var chunks := SliceIntoChunks(decoded.value);
    v := OpenBytes(chunks, mime);
  }
}
