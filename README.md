# LifeTrace, modelled in Dafny

LifeTrace is a personal health-record tracker that runs entirely in the
browser. It is a React single-page application. A signed-in user records:

- laboratory exam results, each classified against its reference range as
  normal, warning, critical, informative or unclassified;
- imaging exams, with their PDF or image attachments;
- the doctors and laboratories behind them;
- appointments, which ring an alarm when they fall due;
- recurring check-up reminders.

Reports export the results as CSV, and the analytics screen charts one exam
over time.

Every collection lives in React state, and a save effect mirrors it into
`localStorage`. The user and the account record live there too. A separate
IndexedDB wrapper offers the same kind of persistence per object store.

This project models that core:

| module | models | form |
|---|---|---|
| `ExamStatus` | the result classifier `getHealthStatus` and its regular expressions | pure |
| `Exams`, `ImagingExams`, `Doctors`, `Laboratories`, `Agenda` | each screen's handlers, as methods on the application state | imperative |
| `Reports`, `Analytics`, `Dashboard` | the derived views and the CSV export | pure |
| `Reminders` | the reminder screen's own list (a class) and its date arithmetic (pure) | mixed |
| `Login`, `Register`, `Profile` | the account flow | mixed |
| `App` | the state hub (`AppState`: screen, user, collections, the `localStorage` map) with its load and save effects | imperative |
| `Storage` | the IndexedDB wrapper: a `Database` class over named stores | imperative |

Shared modules:

- `Types`: the records of `types.ts`.
- `Text`: case mapping, trimming, substring search and string order.
- `Sorting`: a stable sort by a string key.
- `Collections`: filter, delete by id, update by id.
- `Wrappers`: `Option` and `Result`.

The application state is one class, `App.AppState`. Every handler that
changes a collection is a method with a field-granular `modifies` clause. It
states the new collection and the new storage map. It also keeps the
invariant `Synced()`: each stored collection equals the state's collection.
That invariant is the post-state of React's save effects.

Values the browser supplies are parameters:

- fresh ids (`Date.now()`, `Math.random()`);
- today's date and the current time;
- `toLocaleDateString`;
- `atob`;
- the extracted rows of the AI reader.

Where the written specification and the code disagree, the model follows the
code:

- **Doctor unification.** `unifiedDoctors` (components/Doctors.tsx:26-38) keeps
  one whole record per name. A later record replaces the kept one when it has
  a CRM the kept one lacks, or an address the kept one lacks. Fields are not
  merged field by field. `Doctors.UnifyDoctors` and
  `Doctors.AddressOnlyDisplacesCrmOnly` state this behaviour.
- **Demonstration e-mail.** For an empty username the fallback login user's
  e-mail is `usuario@saude.com`, not the lower-cased username followed by
  `@saude.com` (components/Login.tsx:33).

## Model

| member | source | states |
|---|---|---|
| ExamStatus.StatusLabelInjective | components/Exams.tsx:75-81 | the five status labels are pairwise different, so a label names one status |
| ExamStatus.BlankRangeIsNeutral | components/Exams.tsx:16 | a range that is empty, "N/A" or white space only gives the unclassified verdict whatever the result, and only such a range stops at that guard |
| ExamStatus.NumericValueFirstCommaOnly | components/Exams.tsx:18-19 | only the first comma of a result is read as a decimal point; the second comma ends the number |
| ExamStatus.CleanRangeFirstCommaOnly | components/Exams.tsx:20 | the range is lower-cased with only its first comma turned into a dot; later commas stay |
| ExamStatus.ParseFloatStopsAt | components/Exams.tsx:18-19 | `parseFloat` ignores everything after a character that cannot continue a number |
| ExamStatus.ParseFloatNeedsDigit | components/Exams.tsx:18-19 | a text without digits is not a number (NaN) |
| ExamStatus.ParseFloatNatStr | components/Exams.tsx:18-19 | a plain decimal digit string reads as its value |
| ExamStatus.AltThenNumber | components/Exams.tsx:44-61 | the alternative-then-number pattern, tried alternative by alternative, yields the bounds of a captured number that starts with a digit or dot |
| ExamStatus.AltThenNumberComplete | components/Exams.tsx:44-61 | any parse with an alternative after the earlier ones fail is found, with the same number start and a number at least as long (greedy) |
| ExamStatus.AltThenNumberSound | components/Exams.tsx:44-61 | whatever is found is a parse with one of the alternatives |
| ExamStatus.IntervalAt | components/Exams.tsx:24-27 | the anchored interval pattern captures two non-empty numbers at its start |
| ExamStatus.IntervalAtComplete | components/Exams.tsx:24-27 | every backtracking parse of the interval pattern is found, with the same low bound and the greedy high bound |
| ExamStatus.IntervalAtSound | components/Exams.tsx:24-27 | every interval read is a parse of the pattern |
| ExamStatus.FindInterval | components/Exams.tsx:24-27 | `match` reports the leftmost position where the interval pattern matches, and none when it matches nowhere |
| ExamStatus.FindIntervalLeftmost | components/Exams.tsx:24-27 | whenever the pattern can match, a match is reported no later than that place |
| ExamStatus.FindBound | components/Exams.tsx:44-61 | `match` for a bound pattern: the leftmost matching position and its number, or none |
| ExamStatus.BoundAtComplete | components/Exams.tsx:44-61 | every parse of a bound pattern is found, with the greedy number |
| ExamStatus.FindBoundLeftmost | components/Exams.tsx:44-61 | a bound match is reported no later than any place where the pattern matches |
| ExamStatus.WordListsWellFormed | components/Exams.tsx:24-61 | the separator and bound word lists meet the conditions under which the leftmost greedy reading equals the regex engine's |
| ExamStatus.IntervalStatusMeaning | components/Exams.tsx:29-40 | inside the closed interval is normal; within 20% of its width outside either end is a warning; farther is critical |
| ExamStatus.IntervalVerdict | components/Exams.tsx:14-41 | any non-blank range whose lower-cased, comma-fixed text holds an interval, wherever it starts, classifies the result by the interval decision for its two bounds |
| ExamStatus.NaturalIntervalStatus | components/Exams.tsx:15-41 | end to end for "lo sep hi" ranges with any listed separator: normal, warning and critical exactly as above |
| ExamStatus.LowerBoundStatusMeaning | components/Exams.tsx:44-51 | above the bound is normal; from 80% of it up to it is a warning; lower is critical |
| ExamStatus.UpperBoundStatusMeaning | components/Exams.tsx:54-61 | below the bound is normal; from it up to 120% of it is a warning; higher is critical |
| ExamStatus.LowerBoundVerdict | components/Exams.tsx:44-51 | any non-blank range whose normalised text holds no interval but a lower bound, wherever it starts, classifies by the lower-bound decision |
| ExamStatus.UpperBoundVerdict | components/Exams.tsx:54-61 | any non-blank range whose normalised text holds neither an interval nor a lower bound, but an upper bound, wherever it starts, classifies by the upper-bound decision |
| ExamStatus.NaturalLowerBoundStatus | components/Exams.tsx:15-51 | end to end for "word t" with any lower-bound phrase |
| ExamStatus.NaturalUpperBoundStatus | components/Exams.tsx:15-61 | end to end for "word t" with any upper-bound phrase |
| ExamStatus.NumberlessRangeIsNeutral | components/Exams.tsx:23-72 | a numeric result against a range with no digit, dot or comma is unclassified |
| ExamStatus.TextStatusMeaning | components/Exams.tsx:63-70 | a healthy phrase anywhere wins, then an unhealthy one gives critical, then an inconclusive one gives informative, else unclassified (all four directions) |
| ExamStatus.TextualVerdict | components/Exams.tsx:63-70 | a result with no digit, against a non-blank range, is judged by the phrase table on its trimmed lower-case text |
| ExamStatus.AbnormalReadsNormal | components/Exams.tsx:63-68 | "ANORMAL" contains "normal" and is read as normal |
| ExamStatus.NonReactiveIsNormal | components/Exams.tsx:63-68 | "NÃO REAGENTE" is normal although it contains "reagente" |
| ExamStatus.NotDetectedIsNormal | components/Exams.tsx:63-68 | "NÃO DETECTADO" is normal although it contains "detectado" |
| ExamStatus.ReactiveIsCritical | components/Exams.tsx:63-69 | "REAGENTE" alone is critical |
| ExamStatus.IndeterminateIsInfo | components/Exams.tsx:63-70 | "INDETERMINADO" is informative |
| Exams.NewExamRecordSpec | components/Exams.tsx:323-352 | a saved record is upper-cased throughout, has the given id, and takes the defaults for a missing doctor, laboratory or date |
| Exams.DefaultNamesNormalised | components/Exams.tsx:215-240 | the two default names are already normalised and the register helpers skip them |
| Exams.RegisterDoctor | components/Exams.tsx:215-227 | exactly one general practitioner is appended when the name is not ignored and not known; otherwise the list is unchanged |
| Exams.RegisterLaboratory | components/Exams.tsx:229-240 | exactly one laboratory is appended when the name is not ignored and not known; otherwise the list is unchanged |
| Exams.RegisterDoctorIdempotent | components/Exams.tsx:215-227 | registering a name again after registering it changes nothing |
| Exams.RegisterLaboratoryIdempotent | components/Exams.tsx:229-240 | the same for laboratories |
| Exams.RegisterDoctorKeepsNamesDistinct | components/Exams.tsx:215-227 | checked against the current list, registration keeps doctor names distinct |
| Exams.RegisterLaboratoryKeepsNamesDistinct | components/Exams.tsx:229-240 | the same for laboratories |
| Exams.RegisterDoctorIfNew | components/Exams.tsx:215-227 | the doctor list becomes the registration result; storage changes only when the list does |
| Exams.RegisterLaboratoryIfNew | components/Exams.tsx:229-240 | the same for laboratories |
| Exams.SaveRow | components/Exams.tsx:276-302 | one row: its doctor and laboratory registered, its record built; storage changes under the doctor and laboratory keys only, each written exactly when its list changed, and every other key keeps its value |
| Exams.SaveExam | components/Exams.tsx:323-352 | an admitted draft goes first and registers its doctor and laboratory; storage gets the new exam list and the changed registries and keeps every other key; any other draft changes nothing, storage included |
| Exams.BatchRecords | components/Exams.tsx:276-302 | the admitted rows of a batch, in order: all of them when all are admitted, none when none are |
| Exams.BatchRecordsStep | components/Exams.tsx:276-302 | one more row adds its record exactly when it is admitted |
| Exams.BatchDoctorsStep | components/Exams.tsx:276-302 | one more row registers its doctor, checked against the list from before the batch |
| Exams.BatchLaboratoriesStep | components/Exams.tsx:276-302 | the same for laboratories |
| Exams.SaveBatchRow | components/Exams.tsx:276-302 | one pass of the batch loop: an admitted row adds its record after the ones saved so far and registers its doctor and laboratory against the lists from before the batch; the lists only grow, and storage changes under the doctor and laboratory keys only, each written exactly when its list changed |
| Exams.SaveBatchRows | components/Exams.tsx:276-302 | the batch loop: the records of the admitted rows in row order, the registries as the source builds them, and storage changes under the doctor and laboratory keys only, each written exactly when its list changed |
| Exams.SaveCheckedBatchRow | components/Exams.tsx:276-302 | one pass of the corrected batch loop, registering against the lists as they stand; the lists only grow, and storage changes under the doctor and laboratory keys only, each written exactly when its list changed |
| Exams.SaveCheckedBatchRows | components/Exams.tsx:276-302 | the corrected batch loop: the same records, the checked registries, and storage changes under the doctor and laboratory keys only, each written exactly when its list changed |
| Exams.SaveExtracted | components/Exams.tsx:276-302 | the batch's records go before the existing ones; doctors and laboratories are registered against the lists as they were before the batch; storage gets the new exam list and the changed registries and keeps every other key |
| Exams.BatchRegistersDoctorTwice | components/Exams.tsx:276-302 | as written, two rows naming one new doctor register it twice |
| Exams.BatchRegistersLaboratoryTwice | components/Exams.tsx:276-302 | as written, two rows naming one new laboratory register it twice |
| Exams.BatchDoctorsCheckedDistinct | components/Exams.tsx:276-302 | checking each row against the list as it stands keeps doctor names distinct |
| Exams.BatchLaboratoriesCheckedDistinct | components/Exams.tsx:276-302 | the same for laboratories |
| Exams.SaveExtractedChecked | components/Exams.tsx:276-302 | the corrected batch save: the same records, with registration against the current lists, and the same storage writes |
| Exams.Merge | components/Exams.tsx:204-213 | `{ ...exam, ...editFormData }`: each of the nine fields takes the form's value when the form has it and keeps the record's otherwise |
| Exams.MergeStartEdit | components/Exams.tsx:199-213 | saving the form `handleStartEdit` copied from a record, untouched, gives back that record |
| Exams.MergeIdempotent | components/Exams.tsx:204-213 | saving the same form twice is saving it once |
| Exams.SaveEdit | components/Exams.tsx:204-213 | with an id, a name and a value, the records with that id take the form's fields and storage gets the new exam list, every other key kept; otherwise nothing changes, storage included |
| Exams.DeleteExam | components/Exams.tsx:192-197 | the records with the id are removed and no others; storage gets the new exam list and keeps every other key |
| Exams.FilterChainCount | components/Exams.tsx:164-182 | the filter chain keeps each exam meeting every active filter, as often as the list has it, and drops the rest |
| Exams.FilteredExamsSpec | components/Exams.tsx:164-182 | the view is exactly the matching exams, with multiplicity, newest first |
| Exams.CountStatusSum | components/Exams.tsx:378-385 | every exam is counted under exactly one status |
| Exams.StatsCount | components/Exams.tsx:378-385 | the single-pass count equals the per-status count, and the counts sum to the number of exams |
| Doctors.DoctorKeyIsNameKey | components/Doctors.tsx:29 | doctors are unified under the same normalised name the rest of the application uses |
| Doctors.KeptValuesFacts | components/Doctors.tsx:27-35 | before sorting, each name has one record, and every record is an input record |
| Doctors.KeptValuesComplete | components/Doctors.tsx:27-35 | before sorting, every name in the input has a record |
| Doctors.UnifiedDoctorsSpec | components/Doctors.tsx:26-38 | one record per name, every input name represented, records unchanged, sorted by name |
| Doctors.UnifiedDoctorsIdempotent | components/Doctors.tsx:26-38 | unifying the unified list changes nothing |
| Doctors.AddressOnlyDisplacesCrmOnly | components/Doctors.tsx:33 | a later record with only an address displaces a kept record with only a CRM, losing the CRM |
| Doctors.CompleteRecordStays | components/Doctors.tsx:33 | a kept record with both a CRM and an address is never displaced |
| Doctors.UnifyDoctors | components/Doctors.tsx:26-38 | the loop over the map equals the unification function |
| Doctors.NormalisedIdempotent | components/Doctors.tsx:40-70 | normalising a doctor twice is normalising once |
| Doctors.NewDoctorSpec | components/Doctors.tsx:40-54 | the saved doctor takes the id, keeps the phone, has its name and specialty normalised, and is its own normal form |
| Doctors.Save | components/Doctors.tsx:40-54 | with a name and a specialty, one normalised doctor is appended and storage gets the new list, every other key kept; otherwise nothing changes, storage included |
| Doctors.Update | components/Doctors.tsx:56-70 | the doctors with the viewed id become its normalised edit and the rest stay; storage gets the new list, every other key kept; with nothing viewed nothing changes |
| Doctors.Delete | components/Doctors.tsx:72-78 | the doctors with the id are removed and no others; storage gets the new list, every other key kept |
| Laboratories.FirstPerKeyPositions | components/Laboratories.tsx:21-29 | the kept records are exactly the first occurrences of their names, in input order |
| Laboratories.FirstPerKeyKeys | components/Laboratories.tsx:21-29 | no name is kept twice and every name in the input is kept |
| Laboratories.DistinctKeysKept | components/Laboratories.tsx:21-29 | a list whose names are distinct is kept whole |
| Laboratories.UnifiedIsSubsequence | components/Laboratories.tsx:21-29 | the unified list is the input with the later namesakes left out |
| Laboratories.UnifiedLaboratoriesSpec | components/Laboratories.tsx:21-29 | first record per name only, every name represented, and unification is idempotent |
| Laboratories.UnifyLaboratories | components/Laboratories.tsx:21-29 | the filter with its seen-set equals the unification function |
| Laboratories.NormalisedSpec | components/Laboratories.tsx:31-57 | normalising is idempotent and keeps the name the list is unified under |
| Laboratories.NewLaboratorySpec | components/Laboratories.tsx:31-43 | the saved laboratory takes the id, keeps the phone, has its name upper-cased and is normalised |
| Laboratories.Save | components/Laboratories.tsx:31-43 | with a name, one normalised laboratory is appended and storage gets the new list, every other key kept; otherwise nothing changes, storage included |
| Laboratories.Update | components/Laboratories.tsx:45-57 | the laboratories with the viewed id become its normalised edit; storage gets the new list, every other key kept; with nothing viewed nothing changes |
| Laboratories.Delete | components/Laboratories.tsx:59-64 | the laboratories with the id are removed and no others; storage gets the new list, every other key kept |
| ImagingExams.TypeNames | components/ImagingExams.tsx:58-61 | the normalised exam type of each exam, in order |
| ImagingExams.DoctorNames | components/ImagingExams.tsx:63-66 | the normalised doctor name of each exam, in order |
| ImagingExams.UniqueTypes | components/ImagingExams.tsx:58-61 | each normalised exam type exactly once, sorted |
| ImagingExams.UniqueDoctors | components/ImagingExams.tsx:63-66 | each normalised doctor name exactly once, sorted |
| ImagingExams.FilteredImagingSpec | components/ImagingExams.tsx:91-97 | exactly the matching exams, with multiplicity, newest first; with no filter, all of them |
| ImagingExams.RegisterDoctor | components/ImagingExams.tsx:99-110 | one radiologist is appended exactly when the name is not ignored and not known |
| ImagingExams.RegisterLaboratory | components/ImagingExams.tsx:112-122 | one laboratory is appended exactly when the name is not ignored and not known |
| ImagingExams.RegisterIdempotent | components/ImagingExams.tsx:99-122 | registering a name again changes nothing |
| ImagingExams.NotApplicableIsRegistered | components/ImagingExams.tsx:112-122 | unlike the laboratory-exam helper, "N/A" is registered as a laboratory |
| ImagingExams.RegisterDoctorIfNew | components/ImagingExams.tsx:99-110 | the doctor list becomes the registration result; storage changes only when it does |
| ImagingExams.RegisterLaboratoryIfNew | components/ImagingExams.tsx:112-122 | the same for laboratories |
| ImagingExams.NewImagingExamSpec | components/ImagingExams.tsx:202-225 | the saved exam's texts are normalised, its attachment is the form's, and the date defaults to today |
| ImagingExams.MissingDoctorSkipped | components/ImagingExams.tsx:202-225 | a form without a doctor saves "NÃO INFORMADO", which is not registered |
| ImagingExams.Save | components/ImagingExams.tsx:202-225 | an admitted form registers its doctor and laboratory and goes first; storage gets the new imaging list and the changed registries and keeps every other key; otherwise nothing changes, storage included |
| ImagingExams.Delete | components/ImagingExams.tsx:461 | the exams with the id are removed and no others; storage gets the new list, every other key kept |
| ImagingExams.FirstField | components/ImagingExams.tsx:129-133 | `split(c)[0]`: the longest prefix without `c` |
| ImagingExams.SecondField | components/ImagingExams.tsx:129-133 | `split(c)[1]`: the text between the first `c` and the next one |
| ImagingExams.DataHeader | components/ImagingExams.tsx:129-133 | the header of a `data:` URI keeps the scheme's colon |
| ImagingExams.AttachmentMimeFromHeader | components/ImagingExams.tsx:131-133 | without a stored type, `data:m;…` gives `m`, or PDF when `m` is empty |
| ImagingExams.Bytes | components/ImagingExams.tsx:141-143 | one byte per payload character: its code, truncated to 8 bits |
| ImagingExams.BytesAppend | components/ImagingExams.tsx:138-146 | the bytes of a concatenation are the concatenated bytes |
| ImagingExams.SliceBytes | components/ImagingExams.tsx:141-144 | the inner array loop yields the slice's bytes |
| ImagingExams.SliceCount | components/ImagingExams.tsx:138-146 | the number of slices is the payload length divided by 512, rounded up |
| ImagingExams.SliceIntoChunks | components/ImagingExams.tsx:138-146 | the chunks laid end to end are the payload's bytes; each is non-empty and at most 512 long; all but the last are full |
| ImagingExams.ViewAttachment | components/ImagingExams.tsx:124-146 | nothing without an attachment; a decodable `data:` URI gives its bytes under the derived MIME type; anything else opens the URI itself |
| Agenda.FiredIdsSpec | components/Agenda.tsx:91-97 | an id rings exactly when a due appointment carries it and it is not the last notified id |
| Agenda.SingleDueRingsOnce | components/Agenda.tsx:85-101 | with one due appointment the first tick rings it and later ticks ring nothing |
| Agenda.TwoDueAlternate | components/Agenda.tsx:85-101 | as written, two appointments due in one minute ring alternately on every tick |
| Agenda.AlarmMonitor.constructor | components/Agenda.tsx:85-101 | the mounted effect: nothing notified, sound on, running |
| Agenda.AlarmMonitor.Tick | components/Agenda.tsx:85-101 | one interval callback: rings the fired ids, plays a tone for each when sound is on, and remembers the last one |
| Agenda.AlarmMonitor.SetSound | components/Agenda.tsx:85-101 | the sound toggle |
| Agenda.AlarmMonitor.Stop | components/Agenda.tsx:100 | the cleanup clears the interval |
| Agenda.AlarmMonitor.Restart | components/Agenda.tsx:85-101 | the effect re-runs with a new interval |
| Agenda.NewlyDueSpec | components/Agenda.tsx:91-97 | the corrected alarm rings only due ids not rung before |
| Agenda.NotifiedOnce | components/Agenda.tsx:91-97 | with the corrected alarm, a second tick on the same inputs rings nothing |
| Agenda.NotifyingMonitor.constructor | components/Agenda.tsx:85-101 | the corrected alarm starts with nothing notified |
| Agenda.NotifyingMonitor.Tick | components/Agenda.tsx:85-101 | the corrected tick rings each due id once and records it |
| Agenda.SortedAppointmentsSpec | components/Agenda.tsx:103-111 | the appointments of the selected type, with multiplicity, earliest first |
| Agenda.NewAppointmentSpec | components/Agenda.tsx:113-139 | the new appointment is upper-cased, keeps the day, time and type, is not notified, and has a location (the default when none is given) |
| Agenda.Add | components/Agenda.tsx:113-139 | an admitted form puts one appointment first and storage gets the new list, every other key kept; otherwise nothing changes, storage included |
| Agenda.Delete | components/Agenda.tsx:141-145 | the appointments with the id are removed and no others; storage gets the new list, every other key kept |
| Reports.FilteredExamsSpec | components/Reports.tsx:55-67 | an exam is kept, as often as it occurs, exactly when it meets every criterion, in list order |
| Reports.NoFilterKeepsAll | components/Reports.tsx:55-67 | with no criterion the report is the whole list |
| Reports.ToggledSpec | components/Reports.tsx:101-110 | the toggled name changes side; every other name stays; no repeats appear |
| Reports.ToggleTwice | components/Reports.tsx:101-110 | toggling a name twice restores the selection |
| Reports.ToggleExamSelection | components/Reports.tsx:101-110 | only the name selection of the filter changes |
| Reports.ClearExams | components/Reports.tsx:112 | the name selection is emptied and the other criteria stay |
| Reports.ClearExamsWidens | components/Reports.tsx:112 | clearing the names keeps every exam the report had |
| Reports.OptionsSpec | components/Reports.tsx:43-53 | the options are sorted, without repeats, and are exactly the registry's names, or the exams' names when the registry is empty |
| Reports.QuoteAll | components/Reports.tsx:88 | one quoted field per field |
| Reports.RowLines | components/Reports.tsx:86-89 | one line per row |
| Reports.ExportRow | components/Reports.tsx:75-84 | one field per header column |
| Reports.ExportRows | components/Reports.tsx:75-84 | one row per exam of the report, in order |
| Reports.ReadQuoted | components/Reports.tsx:88 | reading a quoted field consumes input |
| Reports.ReadRow | components/Reports.tsx:86-89 | reading a line consumes input |
| Reports.ReadQuotedDoubled | components/Reports.tsx:88 | a field with its quotes doubled reads back as the field |
| Reports.ReadField | components/Reports.tsx:88 | a quoted field reads back whatever follows it other than a quote |
| Reports.ReadRowLine | components/Reports.tsx:86-89 | a written line reads back as its fields |
| Reports.ReadRowsLines | components/Reports.tsx:86-89 | written lines read back as their rows |
| Reports.HeaderLineOneLine | components/Reports.tsx:74 | the header line contains no line break |
| Reports.ReadFileContent | components/Reports.tsx:86-91 | the file (mark, header, rows) reads back as the header and the rows |
| Reports.ExportRoundTrip | components/Reports.tsx:73-91 | the downloaded file reads back as the header and one line per report exam, in order |
| Reports.ExportedStatus | components/Reports.tsx:81 | the Status field names the exam's health status and no other |
| Analytics.DefaultSelectionSpec | components/Analytics.tsx:30-36 | a chosen name stays; with none chosen, the default is the least exam name present |
| Analytics.SelectionSpec | components/Analytics.tsx:38-54 | exactly the exams of the selected name, earliest first |
| Analytics.PointsMembership | components/Analytics.tsx:38-54 | a point exists exactly for each exam whose value reads as a number |
| Analytics.PointsSorted | components/Analytics.tsx:38-54 | points keep the date order of their exams |
| Analytics.PointsOfSelection | components/Analytics.tsx:38-54 | the points of the selection are those exams' readable values, in date order |
| Analytics.ChartDataSpec | components/Analytics.tsx:38-54 | the chart has a point for exactly the selected exams whose value is a number, earliest first, and nothing with no selection |
| Analytics.Values | components/Analytics.tsx:58 | the values of the points, in order |
| Analytics.MinMaxSpec | components/Analytics.tsx:58-59 | the minimum and maximum are values of the list and bound every other |
| Analytics.StatsSpec | components/Analytics.tsx:56-65 | statistics exist exactly when there is a point; the latest is the last point's value and lies between the minimum and the maximum; the trend compares it with the one before |
| Dashboard.LatestExamsSpec | components/Dashboard.tsx:23 | the first three exams in stored order, or all when fewer |
| Dashboard.UpcomingAppointmentsSpec | components/Dashboard.tsx:25-31 | at most six appointments, all upcoming and earliest first; any upcoming one left out is no earlier than those shown |
| Reminders.DaysInMonth | components/Reminders.tsx:37-41 | a month has between 28 and 31 days |
| Reminders.MonthStartGrowth | components/Reminders.tsx:37-41 | `k` months span between 28k and 31k days |
| Reminders.AddMonthsSpec | components/Reminders.tsx:37-41 | `setMonth(+n)` on the calendar of a host at or east of UTC: keeps the day when the target month has it, otherwise overflows into the next month, and always yields a valid date |
| Reminders.AddMonthsDays | components/Reminders.tsx:37-41 | moving on `k` months moves on between 28k and 31k days |
| Reminders.PrevDay | components/Reminders.tsx:38-39 | the evening before, as a host west of UTC sees midnight UTC: a valid date one day earlier |
| Reminders.NextDay | components/Reminders.tsx:40 | back to UTC from a host west of it: a valid date one day later |
| Reminders.LocalAddMonthsSpec | components/Reminders.tsx:37-41 | `setMonth(getMonth() + n)` on the host's calendar: `AddMonths` at or east of UTC, the day after `AddMonths` of the day before west of it; both agree on days 2 to 28 |
| Reminders.LocalAddMonthsDays | components/Reminders.tsx:37-41 | in either zone, `k` months on is between 28k and 31k days on, never in an earlier month |
| Reminders.WestOfUtcFirstOfMarch | components/Reminders.tsx:37-41 | west of UTC, 1 March plus one month is 30 March (29 outside leap years), against 1 April at or east of UTC |
| Reminders.DigitsValueDigits | components/Reminders.tsx:40 | a number written with `w` digits reads back as itself |
| Reminders.DigitsOfValue | components/Reminders.tsx:40 | a digit string is the writing of its value |
| Reminders.IsoDateRoundTrip | components/Reminders.tsx:37-41 | a date with a four-digit year reads back from its ISO text |
| Reminders.ParseIsoParts | components/Reminders.tsx:37-41 | "yyyy-mm-dd" reads as those numbers when they form a valid date |
| Reminders.ParseIsoRoundTrip | components/Reminders.tsx:37-41 | a text that reads as a date is that date's ISO text |
| Reminders.NonIsoYearUnread | components/Reminders.tsx:40 | dates outside years 0 to 9999 are written in a form that does not read back |
| Reminders.GetStatusSpec | components/Reminders.tsx:79-88 | a past date is overdue; one within 30 days is due soon; later is up to date (all three directions) |
| Reminders.ScheduledFromToday | components/Reminders.tsx:68-77 | in either zone, a reminder just marked done is not overdue, and is up to date when it repeats every two months or more |
| Reminders.NewReminderSpec | components/Reminders.tsx:43-60 | a new reminder is active, upper-cased, and due its frequency in months after its last date, on the host's calendar |
| Reminders.ReminderList.constructor | components/Reminders.tsx:43-77 | the list starts with the given reminders |
| Reminders.ReminderList.AddReminder | components/Reminders.tsx:43-60 | an admitted form whose date can be moved puts one reminder first; otherwise nothing changes |
| Reminders.ReminderList.DeleteReminder | components/Reminders.tsx:62-66 | the reminders with the id are removed and no others |
| Reminders.ReminderList.MarkAsDone | components/Reminders.tsx:68-77 | the marked reminder gets today as its last date and a next date its frequency on, on the host's calendar; the others are untouched |
| App.PreLoginScreen | App.tsx:82-91 | without a user only the registration and password screens are reachable by name; every other screen shows the login form |
| App.StoredUser | App.tsx:32-40 | a user is restored exactly when the user key holds a user record |
| App.WithCollections | App.tsx:49-67 | after the save effects every collection key holds its collection, and the user and account keys are untouched |
| App.RegistriesSaved | App.tsx:57-63 | the save effects of the doctor and laboratory lists: a changed list is written under its key, an unchanged one leaves its key as it was, and no other key changes |
| App.RegistriesSavedTwice | App.tsx:57-63 | two rounds of those save effects are one round, when the lists only grow |
| App.ReloadRestoresCollections | App.tsx:30-67 | what the save effects write is what the next start-up loads |
| App.AppState.constructor | App.tsx:20-27 | the initial state: the login screen, no user, empty collections |
| App.AppState.SetExams | App.tsx:49-51 | the setter plus its save effect keeps storage synchronised |
| App.AppState.SetImagingExams | App.tsx:53-55 | the same for imaging exams |
| App.AppState.SetDoctors | App.tsx:57-59 | the same for doctors |
| App.AppState.SetLaboratories | App.tsx:61-63 | the same for laboratories |
| App.AppState.SetAppointments | App.tsx:65-67 | the same for appointments |
| App.AppState.ReadStorage | App.tsx:30-47 | the mount effect: the stored user (dashboard) or none (login) and every stored collection, empty when absent, with storage only read |
| App.AppState.WriteCollections | App.tsx:49-67 | the save effects: every collection written under its own key, the other keys kept, storage synchronised |
| App.AppState.Load | App.tsx:30-47 | the mount effect restores the stored user (dashboard) or not (login), restores every stored collection (empty when absent), and leaves storage synchronised |
| App.AppState.Login | App.tsx:76-80 | the user is set and stored and the dashboard opens; nothing else changes |
| App.AppState.Logout | App.tsx:69-74 | only the user key is removed; collections and the account record stay |
| Login.StoredAccount | components/Login.tsx:19-22 | an account exists exactly when the account key holds a user record |
| Login.LoginUserSpec | components/Login.tsx:17-39 | a username matching up to case signs in the stored account itself; otherwise the demonstration user, built from the typed name or the defaults and without a password |
| Login.HandleSubmit | components/Login.tsx:17-39 | exactly one sign-in with that user; the typed password is ignored |
| Register.WithField | components/Register.tsx:71-74 | the edited field takes the value and the other fields stay |
| Register.RegistrationSpec | components/Register.tsx:42-69 | rejected exactly when the e-mails differ up to case or the passwords differ, the e-mail check first; an accepted user is case-normalised and has no password; the account is the user plus the password |
| Register.RegisterThenLogin | components/Register.tsx:67-68 | a registered account is found again by the login form whatever case the username is typed in, with its password |
| Register.RegisterScreen.constructor | components/Register.tsx:12-27 | the form opens empty, without an error |
| Register.RegisterScreen.HandleInputChange | components/Register.tsx:71-74 | the field takes the value (upper-cased when asked) and the error clears |
| Register.RegisterScreen.HandleRegister | components/Register.tsx:42-69 | a rejected form only shows its message; an accepted one stores the account, then signs the user in |
| Profile.MergeSpec | components/Profile.tsx:32-37 | every property the edited user has wins; the account keeps the others, its password in particular |
| Profile.MergeIdempotent | components/Profile.tsx:32-37 | saving the same edit twice gives the same account |
| Profile.SaveThenLogin | components/Profile.tsx:28-40 | after a save the account still signs in under the edited username, with its old password when the edit has none |
| Profile.ProfileScreen.constructor | components/Profile.tsx:11-13 | the screen opens on the signed-in user, not editing |
| Profile.ProfileScreen.HandleSave | components/Profile.tsx:28-40 | the user becomes the edited one and is stored; an existing account is rewritten with the merge; editing ends |
| Storage.UpgradedSpec | services/storageService.ts:10-17 | the upgrade creates exactly the missing listed stores, empty, and keeps existing ones |
| Storage.UpgradeIdempotent | services/storageService.ts:10-17 | upgrading again changes nothing |
| Storage.PutSpec | services/storageService.ts:24-34 | a save is what the next load returns; the last save wins; other stores stay; each store keeps one slot |
| Storage.EmptyStoreLoadsNothing | services/storageService.ts:36-46 | a store never written loads as nothing |
| Storage.Database.constructor | services/storageService.ts:6-22 | no database yet |
| Storage.Database.Open | services/storageService.ts:6-22 | the first open runs the upgrade over the six store names; later opens change nothing |
| Storage.Database.SaveData | services/storageService.ts:24-34 | after opening, the value replaces the named store's slot, or a missing store fails with nothing written |
| Storage.Database.LoadData | services/storageService.ts:36-46 | after opening, the named store's slot, or a failure for a missing store |
| Storage.SaveThenLoad | services/storageService.ts:24-46 | saving to one of the six stores and loading it returns the saved value |
| Collections.RemoveId | components/Exams.tsx:194 | deletion by id: every record with the id goes, every other keeps its multiplicity |
| Collections.ReplaceId | components/Doctors.tsx:66 | update by id: the records with the id are replaced, the others stay in place |
| Sorting.SortBySpec | components/Exams.tsx:181 | the sort yields a sorted permutation |
| Sorting.SortBySortedIdentity | components/Exams.tsx:181 | a list already in order is left exactly as it is |
| Sorting.InsertWithKey | components/Exams.tsx:181 | inserting puts the new element before every element of equal key |
| Sorting.SortByStable | components/Exams.tsx:181 | the sort is stable: for every key, the elements with that key come out in their input order |
| Sorting.UniqueSorted | components/Reports.tsx:43 | `Array.from(new Set(xs)).sort()`: each string once, in order |

## Left out

- The real regular-expression engine is not modelled. Each pattern of `getHealthStatus` is a deterministic greedy matcher. Completeness lemmas show that it finds every backtracking parse when the word lists are well formed.
- `parseFloat` reads an optional sign and a decimal prefix. Exponents and `Infinity` are not read.
- ExamStatus.ParseFloatNatStr, ExamStatus.IntervalStatusMeaning, ExamStatus.NaturalIntervalStatus, ExamStatus.LowerBoundStatusMeaning, ExamStatus.NaturalLowerBoundStatus, ExamStatus.UpperBoundStatusMeaning, ExamStatus.NaturalUpperBoundStatus: numbers are exact reals, not IEEE-754 doubles. A value exactly on the 80%, 120% or ±20%-of-width edge is a warning in the model but can be danger in JavaScript, whose products round: `3 * 1.2` is 3.5999999999999996, so "3.6" against "< 3" is danger there; `3 * 0.8` is 2.4000000000000004, so "2.4" against "> 3" is danger; and `(0.7 - 0.2) * 0.2` is 0.09999999999999998, so "0.8" against "0.2 - 0.7" is danger. Digit strings longer than a double's 17 significant digits are read exactly, and strings beyond a double's range (more than 309 digits) are read as numbers, where JavaScript gets `Infinity`, fails `isFinite` and classifies the text instead.
- `localeCompare`, `sort()` and comparisons of `new Date(...)` are modelled as code-point order on ISO date and time strings. Locale collation and non-ISO date texts are not modelled. JavaScript compares strings by UTF-16 code units, so the order differs from the model's only between characters above U+FFFF and characters from U+E000 to U+FFFF.
- Text.Upper, Text.Lower and Laboratories.NormalisedSpec: case mapping is exact only for ASCII and Latin-1. JavaScript maps `ß` to `SS` (so `"Straße"` becomes `"STRASSE"`, one character longer), and it also maps `ÿ`, `µ`, Greek, Cyrillic and Latin Extended letters, which the model leaves unchanged.
- Reminders.CalculateNextDate, Reminders.NewReminderSpec, Reminders.ScheduledFromToday and Reminders.ReminderList.MarkAsDone: the host's time zone is reduced to "at or east of UTC" or "west of UTC", with an offset of less than a day. Summer-time changes between the two dates are not modelled. The zone is a parameter because the result depends on it: west of UTC, one month after 2024-03-01 comes out as 2024-03-30 (Reminders.WestOfUtcFirstOfMarch).
- Agenda.AlarmMonitor.Tick: components/Agenda.tsx:88-89 takes the date from `toISOString()` (UTC) and the time from `toTimeString()` (local time). The model takes the current day and the current time as two independent parameters, so it does not capture a date and a time that disagree near midnight.
- `toLocaleDateString`, `atob`, `Date.now()`, `Math.random()`, today's date and the current time are parameters.
- Blob, object URLs, `window.open`, `window.print`, file downloads and `FileReader` photo handlers are left out. The export's result is the file's text, and the attachment viewer's result is the bytes and MIME type it would open.
- The AI reader in services/geminiService.ts is not part of this model. Its extracted rows are an input to `Exams.SaveExtracted`.
- Web Audio is reduced to a count of tones played.
- `window.confirm` is modelled as confirmed. A cancelled delete changes nothing.
- JSON serialisation is not modelled. Storage holds typed values, and a key holding a value of another shape is read as absent.
- IndexedDB's asynchrony, `onerror` paths, version conflicts and blocked upgrades are not modelled. `Storage.Database` is a sequential store map.
- components/ForgotPassword.tsx and components/Sidebar.tsx are not part of this model. They only display and navigate.
- The reminders screen is not mounted by App.tsx and keeps its own list. `Reminders.ReminderList` holds that state and is not persisted.
- Reminders.AddMonthsSpec: JavaScript's year range limit (about ±275,760 years) is not modelled. Dates outside years 0 to 9999 are written with a signed six-digit year and are not read back.
- Reports.HeaderLineOneLine: the fixed header texts are not restated as a lemma about their exact characters. Only the absence of a line break is stated.
- Rendering, styling, the mobile menu and the pagination of lists are left out.

## Findings

| source | as written | input that shows it | evidently intended | confidence | as-written member | corrected member |
|---|---|---|---|---|---|---|
| components/Agenda.tsx:85-101 | the interval callback remembers only the last notified id and skips only that one | two appointments `a`, `b` due in the same minute: successive ticks ring `a`,`b`, then `a`, then `b`, and so on until the minute passes | each due appointment rings once | not executed | Agenda.TwoDueAlternate | Agenda.NotifiedOnce |
| components/Exams.tsx:276-302 | every row of an extracted batch is checked against the doctor and laboratory lists captured before the batch | two rows naming the same new doctor `X`: `X` is registered twice, and the same holds for a laboratory | a name is registered at most once | not executed | Exams.BatchRegistersDoctorTwice | Exams.BatchDoctorsCheckedDistinct |
