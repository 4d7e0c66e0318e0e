# gradeReports: the student identity-resolution and merge engine

gradeReports collects grades for a course from many spreadsheets and writes one report
per student. Each spreadsheet row becomes a record `(studentInfo, grades)`. The engine
in `main.py` merges these records into a single roster. The configuration declares the
attributes of a student (student id, clicker id, name, section ...). Each attribute
has two flags:

- `identifiesStudent`: the value can be used to find the student;
- `onePerStudent`: a student has only one value for it.

The first attribute with both flags is the *primary* attribute. The roster holds:

- a student table keyed by primary id;
- a reverse index for every identifying attribute, from value to primary id.

A record is resolved to a student in one of two ways:

- directly, by its primary id;
- through the index, by any identifying value already linked to a student.

A record that cannot be resolved yet is deferred. The loop retries it after later
records have filled in the index. Before a record is merged it is checked against:

- the values already held for one-per-student attributes;
- the index.

Grades are combined per assignment, keeping the larger one.

The project models:

- this engine (`main.py`);
- the value-cleaning filters (`lib/mung.py`);
- the defaulting of attribute flags in `loadConfig` (`lib/config.py`);
- the reader dispatch and the row slicing of campus rosters (`lib/spreadsheetReader.py`);
- the file-type classifier `inferType` (`autoconf.py`).

Modules:

- `Wrappers` (wrappers.dfy): `Option`, `Result`, `Outcome`.
- `Dicts` (dicts.dfy): a Python dict as an ordered sequence of pairs.
- `Mung` (mung.dfy): the filter table and `checkAndClean`.
- `Config` (config.dfy): the JSON values of the configuration. It also holds the class `StudentAttributes`, whose `Canonicalize` method is the defaulting loop, updating the attribute table in place.
- `SpreadsheetReader` (spreadsheet_reader.dfy): `getRows` and `stripRoster`. `stripRoster` is a method with the source's two scanning loops, proved against a function.
- `AutoConf` (autoconf.dfy): `inferType`.
- `RosterSpec` (roster_spec.dfy): the engine stated as functions on an immutable roster state, with the lemmas about them.
- `Roster` (roster.dfy): the class `Roster`, whose fields are the student table, the index and the warning log. It has one method per in-place step of `mergeIntoRoster` and `gatherData`, each with loops over the record. Each is proved to produce exactly the state that the `RosterSpec` function describes.
- `Scenarios` (scenarios.dfy): two small runs worked out in full.
  - First: a clicker record that precedes the roster row linking its clicker id is deferred, then merged on the second pass.
  - Second: two records disagree on a one-per-student attribute; the first value is kept, a warning is logged, and both grades are merged.

The engine's state is modelled as follows:

- A record attribute's value is `Mung.Val`: a string or an integer (the integer 0 that `NVto0` and `NoneTo0` produce).
- An entry's value for an attribute is `Single` for a one-per-student attribute. For other attributes it is `Many`, a set.
- The reverse indices are one map keyed by `(attribute, value)`.
- The warnings that `logger.warning` writes are collected in a list.
- The exceptions that end a run are the datatype `Crash`.

## Model

| member | source | states |
|---|---|---|
| Mung.FilterNamed | lib/mung.py:18-28 | the table lookup finds the entry of exactly that name, and nothing for any other name |
| Mung.StripText | lib/mung.py:19 | `strip` removes only whitespace (the `str.isspace` set) at both ends, and the result neither begins nor ends with whitespace |
| Mung.StripTrimmed | lib/mung.py:19 | a string that is already trimmed is left unchanged by `strip` |
| Mung.StripIdempotent | lib/mung.py:19 | `strip` is idempotent |
| Mung.UpperText | lib/mung.py:23 | `upper` keeps the length, maps each character, and leaves no lower-case ASCII letter |
| Mung.UpperIdempotent | lib/mung.py:23 | `toUpper` is idempotent |
| Mung.BeforeSlash | lib/mung.py:26 | `split('/')[0]` contains no '/', and is the whole string when there is no '/' |
| Mung.BeforeSlashPrefix | lib/mung.py:26 | `split('/')[0]` is a prefix of the string, ending at its first '/' or at its end |
| Mung.UcsdIDShape | lib/mung.py:11 | the regular expression `^[AU]\d{8}$` matches exactly nine characters: A or U, then eight digits |
| Mung.Apply | lib/mung.py:18-28 | each filter's result: `NVto0` and `NoneTo0` never fail; the string filters fail on an integer; each check returns its input unchanged when it passes |
| Mung.RemoveHashDropsOne | lib/mung.py:22 | `remove#` drops exactly one leading '#' |
| Mung.RemoveHashKeeps | lib/mung.py:22 | `remove#` leaves a string without a leading '#' unchanged, the empty string included |
| Mung.EightCharExact | lib/mung.py:14-17 | `8char` returns its input if and only if the input has eight characters, and raises IncorrectFormat otherwise |
| Mung.UcsdIDCheckExact | lib/mung.py:10-13 | `ucsdIDCheck` returns its input if and only if it is A or U followed by eight digits, and raises IncorrectFormat otherwise |
| Mung.FiltersIdempotent | lib/mung.py:19-23 | applying `strip` or `toUpper` twice is applying it once |
| Mung.StripDenominatorMeaning | lib/mung.py:26 | `stripDenominator` never fails on a string, leaves no '/', is `strip` of the prefix before the first '/', and equals `strip` on a string without '/' |
| Mung.ZeroingFilters | lib/mung.py:24-25 | `NVto0` changes exactly "NV", and `NoneTo0` exactly "" and "None"; each changes its input into 0 |
| Mung.CheckAndClean | lib/mung.py:3-6 | an empty filter list is the identity; an unknown-filter error names a filter of the list |
| Mung.CheckAndCleanConcat | lib/mung.py:3-6 | running a concatenated filter list is running the first list, then the second |
| Mung.UnknownFilterFails | lib/mung.py:5 | a name missing from the table stops the chain with a KeyError once the filters before it succeed |
| Mung.NineCharUndefined | autoconf.py:137 | the filter list that the configuration guesser writes for student ids fails on every id, because the table has no '9char' |
| Config.Truthy | main.py:88-89 | a flag value is false exactly for null, false, 0, "", [] and {}, as Python's truth test |
| Config.Contains | lib/config.py:13-17 | `key in v`: dict membership for a dict, true for a string equal to the key; a TypeError exactly for null, booleans and numbers |
| Config.SetDefault | lib/config.py:13-18 | on a dict: the key is added with the default when missing, and every value present is kept; a string or list survives only if it already contains the key, and is then unchanged |
| Config.Canonical | lib/config.py:13-18 | a dict always survives the three defaults as a dict; any other value that survives is unchanged |
| Config.CanonicalObject | lib/config.py:13-18 | on a flag dict: exactly the three missing flags are added, with defaults False, False and []; every value present is kept |
| Config.CanonicalIdempotent | lib/config.py:12-18 | the defaulting is idempotent |
| Config.CanonicalNonObject | lib/config.py:13-18 | a non-dict value survives only if it is a string or list that already mentions all three flags, and is then unchanged |
| Config.CanonicalItems | lib/config.py:12-18 | the attribute names and their order are unchanged |
| Config.CanonicalItemsFlags | lib/config.py:12-18 | after the loop every flag-dict attribute holds all three flags, defaulted where missing, with its other values kept |
| Config.CanonicalItemsIdempotent | lib/config.py:12-18 | running the whole loop twice is running it once |
| Config.StudentAttributes.Canonicalize | lib/config.py:12-18 | the in-place loop raises exactly when some attribute cannot be defaulted, with that attribute's error; otherwise the table becomes the canonical table |
| SpreadsheetReader.GetRows | lib/spreadsheetReader.py:13-29 | `.csv` with a sheet name, `.xlsx` without one, and any other suffix are the three errors; otherwise `isRoster` picks the roster reader, the suffix picks csv or xlsx, and the sheet name is passed on |
| SpreadsheetReader.Scan | lib/spreadsheetReader.py:56-58 | a `for ... break` loop stops at the first matching row, or keeps the last index; an empty row before that fails at `line[0]` |
| SpreadsheetReader.StripRosterRows | lib/spreadsheetReader.py:52-64 | no rows is the UnboundLocalError; otherwise a failure is the IndexError of an empty row, and the rows kept are non-empty and no more than the input |
| SpreadsheetReader.StripRoster | lib/spreadsheetReader.py:52-64 | the two in-place scans and slices compute the function `StripRosterRows`, with both error cases |
| SpreadsheetReader.StripRosterIsSuffix | lib/spreadsheetReader.py:56-64 | the rows kept are a non-empty suffix of the input |
| SpreadsheetReader.StripRosterCuts | lib/spreadsheetReader.py:56-64 | the first cut is the first blank-led row, or the last row; the second is the first filled row after it, or the last row; what is kept starts at the second cut |
| SpreadsheetReader.SecondCut | lib/spreadsheetReader.py:61-64 | the second scan, read on the whole input, skips only blank-led rows |
| SpreadsheetReader.StripRosterWithoutTable | lib/spreadsheetReader.py:56-59 | with no blank-led row, only the final row survives |
| SpreadsheetReader.StripRosterAllBlankAfterTable | lib/spreadsheetReader.py:61-64 | when every row after the table is blank-led, the last row is kept |
| AutoConf.ScanMaxPoints | autoconf.py:32-36 | a column found by the `lastCol` loop is its predecessor's name plus " - Max Points" |
| AutoConf.ScanMaxPointsMeaning | autoconf.py:32-36 | the `lastCol` loop finds a column if and only if some column is its predecessor's name plus " - Max Points", the first column's predecessor being "" |
| AutoConf.InferType | autoconf.py:21-44 | any suffix other than `.csv` gives "unknown"; a `.csv` file without a header raises |
| AutoConf.InferTypeRules | autoconf.py:29-44 | the `.csv` rules in order: the roster header, then a Max Points pair, then the Timestamp forms (Score decides scored or unscored), otherwise "other"; an empty header raises |
| AutoConf.RosterTakesPrecedence | autoconf.py:29-30 | a header starting with the four roster columns is a roster, whatever follows |
| AutoConf.GradescopeBeforeForms | autoconf.py:32-36 | a Timestamp header with a "Timestamp - Max Points" column is classified as Gradescope, not as a form |
| RosterSpec.SchemaOf | main.py:88 | the engine reads each attribute's flags in configuration order, keeping the names |
| RosterSpec.CanonicalSchema | lib/config.py:13-16 | after the defaulting, every flag dict can be read by the engine, and a flag reads true if and only if it was given and is truthy |
| RosterSpec.FindPrimaryAttr | main.py:76-80 | the first attribute, in dict order, with both flags; none if and only if no attribute has both |
| RosterSpec.ResolveByIndex | main.py:87-93 | the student that the first indexed identifying item, in record order, maps to; none if and only if no item is indexed |
| Dicts.Lookup | main.py:85-86 | a dict lookup fails if and only if the key is absent; a value found is stored under the key |
| RosterSpec.GetStudentIDOwnId | main.py:85-86 | a record that carries the primary attribute is the student its value names |
| RosterSpec.GetStudentID | main.py:84-93 | the record's own primary id when present; otherwise the index lookup of an identifying item; unidentifiable (None) if and only if no identifying item is indexed |
| RosterSpec.CheckItems | main.py:133-150 | the loop passes if and only if every item agrees with the held values and the index; a failure names a conflicting item's attribute |
| RosterSpec.CheckMerge | main.py:128-150 | read-only; passes if and only if no one-per-student value differs from the held one and no identifying value is indexed to another student |
| RosterSpec.ApplyItem | main.py:104-126 | one item: the primary attribute is skipped; a singleton overwrite fires only for a held one-per-student value that differs, an index reassignment only for an identifying value indexed to another student, and the `.add` failure only on a held singleton of a set attribute |
| RosterSpec.ApplyItems | main.py:104-126 | the apply loop can only fail with the two unreachable raises or the `.add` on a non-set |
| RosterSpec.Merge | main.py:95-126 | a refused merge only logs its reason: no entry is created and the index is unchanged; an accepted one adds the entry for the id and logs nothing |
| RosterSpec.ApplyItemFacts | main.py:104-126 | one applied item: held values only grow, the index only gains entries, the item is recorded, and other attributes are unchanged |
| RosterSpec.ApplyItemsGrowsAndAbsorbs | main.py:104-126 | a successful apply loop only grows the entry, never reassigns an index entry, and records every item |
| RosterSpec.ApplyItemsFrame | main.py:104-126 | a successful apply loop adds nothing else: every attribute held afterwards was held or is in the record, attributes the record lacks are unchanged, every new index entry comes from the record, and the primary attribute is neither added to the entry nor indexed |
| RosterSpec.MergeFrame | main.py:95-126 | a passing merge adds nothing to the entry or the index that the record does not carry, and skips the primary attribute |
| RosterSpec.ApplyItemsSucceeds | main.py:112-126 | after a passing check on a well-shaped entry, neither "should be unreachable" raise fires |
| RosterSpec.ApplyAbsorbedNoop | main.py:104-126 | applying items that are all recorded already changes nothing |
| RosterSpec.MergeIdempotent | main.py:95-126 | merging the same record a second time leaves the table and the index as the first merge left them |
| RosterSpec.MergeSound | main.py:95-126 | on a well-shaped table a merge never crashes, keeps the table well-shaped, never reassigns an index entry, and changes no other student; accepted, it records every item, adds nothing the record does not carry, and skips the primary attribute; refused, it changes nothing |
| RosterSpec.StrLessTrichotomy | main.py:184 | Python's string `<` is a strict total order |
| RosterSpec.CombineGrade | main.py:179-186 | with no prior grade, or a string score, the incoming grade is stored; an identical grade is kept; the result is one of the two grades; a failure is the TypeError of `max` |
| RosterSpec.CombineGradeIsMax | main.py:183-184 | for a numeric score the stored grade is the tuple maximum; it fails if and only if a held string score or a tie against a None annotation makes the tuples unorderable |
| RosterSpec.CombineGradeSymmetric | main.py:184 | for two numeric grades, the one kept does not depend on their order |
| RosterSpec.MergeGrades | main.py:178-186 | the grade loop can only fail on a missing entry or an unorderable pair |
| RosterSpec.MergeGradesFrame | main.py:178-186 | the grade loop changes only the grades of this student; it fails with KeyError exactly when there is a grade and no entry |
| RosterSpec.AddGrade | main.py:178-186 | one grade: a KeyError when the student has no entry, otherwise only the TypeError of `max`; on success the index, the other students and this student's info are unchanged |
| RosterSpec.AddGradeStep | main.py:179-186 | one grade: the stored grade becomes the combined one, and a duplicate is logged exactly when a grade was held |
| RosterSpec.MergeGradesKeepsOthers | main.py:178-186 | grades of assignments the record does not name are kept |
| RosterSpec.MergeGradesCombines | main.py:178-186 | each assignment of the record ends with the combination of the grade held before and the incoming one |
| RosterSpec.MergeGradesLog | main.py:179-181 | one duplicate warning is logged per assignment already graded, in record order |
| RosterSpec.PassStep | main.py:171-186 | one record is either deferred or counts as progress; it never fails for lack of a primary attribute |
| RosterSpec.PassFrom | main.py:170-186 | a pass defers only records it was given; it made progress if and only if it defers fewer than it was given |
| RosterSpec.OnePass | main.py:167-186 | one pass defers only records drawn from its input, no more of them than it was given; it progressed if and only if fewer records are deferred than were pending |
| RosterSpec.Gather | main.py:167-189 | the loop terminates (each repeat has strictly fewer records); what is left over is drawn from the input |
| RosterSpec.Unidentifiable | main.py:191-192 | one "could not identify student" warning per record left over, in order |
| RosterSpec.Run | main.py:152-194 | the run fails for lack of a primary attribute if and only if no attribute has both flags |
| RosterSpec.PassFromDefersSubseq | main.py:170-175 | a pass appends its deferred records to those deferred before, in input order: an order-preserving sub-list of the pending records |
| RosterSpec.OnePassDefersSubseq | main.py:168-175 | the records one pass defers are an order-preserving sub-list of its input |
| RosterSpec.GatherLeftoversSubseq | main.py:167-189 | the records left over by the whole loop are an order-preserving sub-list of the input |
| RosterSpec.PassFromNoProgress | main.py:170-175 | a pass that resolves nothing leaves the roster as it was and defers every record, each unresolvable |
| RosterSpec.GatherLeftoversUnresolvable | main.py:187-192 | on exit, every record left over is unresolvable against the final roster |
| RosterSpec.PassStepSound | main.py:171-186 | on a well-shaped roster one record keeps it well-shaped, never reassigns an index entry, and can only crash in the grade step |
| RosterSpec.MergeGradesKeepsShape | main.py:178-186 | the grade loop keeps the roster well-shaped and leaves the index alone |
| RosterSpec.PassFromSound | main.py:170-186 | a pass keeps the roster well-shaped, never reassigns an index entry, and can only crash in the grade step |
| RosterSpec.GatherSound | main.py:167-189 | the whole loop keeps the roster well-shaped and never reassigns an index entry; the "should be unreachable" raises never fire |
| RosterSpec.ShouldPrint | main.py:196-200 | true if and only if every filter attribute is present in the student's info |
| Roster.Roster.constructor | main.py:155 | the roster starts with no student and empty indices |
| Roster.Roster.AbsorbItem | main.py:104-126 | one in-place turn of the apply loop, on the entry and the index, matching `ApplyItem` |
| Roster.Roster.AbsorbItems | main.py:104-126 | the in-place apply loop over a record's items, matching `ApplyItems` |
| Roster.Roster.MergeIntoRoster | main.py:95-126 | the in-place `mergeIntoRoster` leaves exactly the state `Merge` gives, or reports its crash |
| Roster.Roster.MergeGrades | main.py:178-186 | the in-place grade loop leaves exactly the state of `MergeGrades`, or reports its crash |
| Roster.Roster.RunPass | main.py:168-186 | one in-place pass returns the deferred records and the progress flag of `OnePass`, and leaves its roster |
| Roster.Roster.LogUnidentified | main.py:191-192 | logs the warnings of `Unidentifiable` and changes nothing else |
| Roster.Roster.GatherData | main.py:167-192 | the in-place `while True` loop ends with the roster and leftovers of `Gather`, plus the leftover warnings, or with its crash |
| Roster.GatherStudents | main.py:152-194 | `gatherData` from the records on returns the student table of `Run`, or its crash |
| Scenarios.FirstPass | main.py:170-175 | scenario one, first pass: the clicker record is deferred and the roster row links the clicker id |
| Scenarios.SecondPass | main.py:170-186 | scenario one, second pass: the deferred record resolves through the index and its grade is stored |
| Scenarios.DeferredRecordResolves | main.py:167-189 | scenario one, whole run: one student with the clicker id and the grade, and nothing left over |
| Scenarios.RefusedFirstMergeCrashes | main.py:96-102 | a refused record for a student with no entry crashes the grade step with KeyError |
| Scenarios.FirstWriter | main.py:95-126 | scenario two, first record: the student is created with its section and grade |
| Scenarios.SecondWriterRefused | main.py:96-100 | scenario two, second record: refused on the section and logged, while its grade is still stored |
| Scenarios.ConflictPass | main.py:170-186 | scenario two: one pass resolves both records and defers none |
| Scenarios.ConflictKeepsFirstWriter | main.py:167-189 | scenario two, whole run: the first section is kept, one conflict warning is logged, and both grades are merged |

## Left out

- `sourceToGrades` (main.py:27-74) reads the source files and parses dates. The records it produces are the input of the model.
- The assignment catalogue built at main.py:157-161. It only passes configuration through.
- Logging side effects:
  - Warnings are collected in a list instead of written.
  - The `DuplicateFilter` of the logger, which suppresses repeated messages, is not modelled.
  - The error `findPrimaryAttr` logs at main.py:80 is not modelled.
- Scores are integers or strings.
  - The `toFloat` filter (lib/mung.py:27) and float scores are not modelled; `toFloat` is an error outcome.
  - The sentinel `(-float('inf'), None)` of main.py:179 is modelled as "no prior grade".
- RosterSpec.Run: with no primary attribute the source still runs the loop and logs every record as unidentified before `roster[None]` raises at main.py:194. The model returns the crash at once, without that log.
- RosterSpec.Merge: the state left at a crash is not modelled. A crash is reported without the partial updates before it; the model proves that on well-shaped input the apply loop never crashes.
- RosterSpec.MergeGrades: a duplicate warning logged just before a `max` that raises is not kept; only the crash is reported.
- RosterSpec.GetStudentID: records are required to use only configured attributes (KeysKnown). The source looks every record attribute up in the configuration, so other records cannot arise.
- RosterSpec.SchemaOf: the engine's view of the flags is read only from flag dicts. A flag given as a string or list (accepted by `loadConfig` when it already mentions all three flag names) is not read.
- Config.StudentAttributes.Canonicalize: when the loop raises, the contract does not describe the partial updates made before the raise.
- Reading the configuration file and parsing its JSON (lib/config.py:9). The model starts from the parsed `studentAttributes` object. JSON numbers are limited to integers.
- Mung.UpperText: upper-casing covers ASCII letters only. Unicode case mapping, including mappings that change the length, is not modelled.
- Mung.UcsdIDShape: `\d` is read as the ASCII digits. Python's `re` also accepts other Unicode decimal digits.
- The readers behind `getRows`: pyexcel, openpyxl and `get_records` (lib/spreadsheetReader.py:31-50, 67). `stripRoster` is modelled up to the row slicing, and `getRows` as the choice of reader. Both take the file suffix as input instead of a path.
- `inferType` takes the file suffix and the header row as inputs. Opening the file and `csv.DictReader` are not modelled.
- The report loop, argparse and the printing modules (main.py:7-19 and 202-223). They are output only.
- Behaviours of the code that the model keeps as written:
  - `getStudentID` resolves a record in the record's own attribute order (main.py:87), not in schema order.
  - With several attributes that have both flags, `findPrimaryAttr` picks the first (main.py:77-79).
  - With none, the run ends with a KeyError at main.py:194, not with a configuration error.
  - The fixed-point loop of `gatherData` has no iteration bound (main.py:167); it terminates because every repeat has fewer records.
  - `stripRoster` raises an UnboundLocalError on no rows and an IndexError on an empty row (lib/spreadsheetReader.py:56-64). `StripRosterRows` returns both as errors, for any list of rows.
