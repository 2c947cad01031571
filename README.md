# Glow Table Finder — a verified model of its data handling

Glow Table Finder is a small React application. It keeps a list of people,
each with a name, a birth date and a document number. This project models the
parts of it that handle that data, in Dafny:

- **Bulk import** (`BulkImport`): pasted text is split into lines and each line
  into comma-separated parts. A blank line is skipped. A line with fewer than
  three parts is skipped with a warning. Every other line becomes a record
  with a fresh id, and its date goes through `formatDate`. On success the
  records go out together and the text area is cleared.
- **Date formatting** (`DateFormat`): `D/M/YYYY` and `D-M-YYYY` are read day
  first. Any other text goes to the platform's date parser. The result is the
  ISO date part, or the input unchanged when the date is invalid.
- **Duplicate highlighting** (`PeopleTable`): one pass builds three
  key-to-count maps:
  - name, lower-cased;
  - birth date, as it is;
  - document number, lower-cased.

  A cell is highlighted when its key is counted more than once.
- **The list of people** (`PersonManager`): adding appends a record. Deleting
  removes every record with the given id.
- **The entry form** (`PersonForm`): a record is built only when all three
  inputs are non-empty. Nothing is trimmed. The inputs are cleared afterwards.
- **Exports** (`ExportOptions`): CSV, JSON and tab-separated text. Each is
  refused for an empty list. The CSV and text exports write a header line and
  then one line per person, with no quoting.

Shared pieces:

- `Text` models JavaScript's `split` with a one-character separator, `join`
  and `trim`.
- `Seqs` models `Array.prototype.filter`.
- `Records` holds the `Person` record.

Platform services are parameters of the model:

- The JavaScript `Date` object is a `DatePlatform` holding three uninterpreted
  functions: construct from fields, parse text, render as ISO.
- `toLowerCase` is `lower`.
- `toLocaleDateString("pt-BR")` is `display`.
- `JSON.stringify` is `stringify`.
- `crypto.randomUUID()` is `newId`:
  - during one import, the k-th record drawn gets `newId(k)`;
  - the form takes its id as an argument.

Every property below holds for every choice of these parameters, except two
examples that take as a hypothesis what `toLowerCase` does to their strings:
`PeopleTable.PunctuationKeptInDocumentKey` and
`PeopleTable.WhiteSpaceKeptInNameKey` assume `lower` leaves those strings as
they are.

The model follows the code as written:

- The importer splits only at commas. Semicolons, tabs and runs of white
  space are not separators.
- Only the slash and dash day-first shapes are recognised. Dotted dates go to
  the platform parser.
- No calendar check is made: `31/04/2020` is handed to the `Date`
  constructor, which rolls it over (`DateFormat.NoCalendarCheck`).
- Imported records are not de-duplicated.
- Duplicate keys are not normalised beyond lower-casing. White space and
  punctuation stay part of the key (`PeopleTable.WhiteSpaceKeptInNameKey`,
  `PeopleTable.PunctuationKeptInDocumentKey`).

## Model

| member | source | states |
|---|---|---|
| Text.Trim | src/components/BulkImport.tsx:28 | `trim()` returns empty exactly when the text is all JavaScript white space; otherwise the result neither starts nor ends with white space |
| Text.Split | src/components/BulkImport.tsx:31 | `split(sep)` always yields at least one piece and no piece holds the separator |
| Text.SplitCount | src/components/BulkImport.tsx:31 | a text splits into one piece more than it holds separators |
| Text.SplitFirst | src/components/BulkImport.tsx:91 | the first piece of a split is the text up to the first separator, without it, or the whole text when it holds none |
| Text.Join | src/components/ExportOptions.tsx:30-32 | `join` puts the first piece first, followed by the separator when more pieces follow; SplitJoin and JoinSplit make it the inverse of `split` |
| Text.JoinAvoids | src/components/ExportOptions.tsx:29-32 | a character in no piece, other than the separator, is not in the joined text |
| Seqs.Filter | src/components/PersonManager.tsx:36 | `filter` keeps at most the elements it is given, and every element it keeps passes the test |
| Seqs.FilterMembers | src/components/PersonManager.tsx:36 | an element is kept exactly when it occurs and passes the test |
| Seqs.FilterAppend | src/components/PersonManager.tsx:36 | filtering a concatenation filters each side, in order |
| Text.SplitJoin | src/components/ExportOptions.tsx:29-32 | splitting a joined list gives the list back when no piece holds the separator |
| Text.JoinSplit | src/components/ExportOptions.tsx:29-32 | `join` undoes `split`: joining the pieces of a split gives the text back |
| Text.SplitThree | src/components/ExportOptions.tsx:31 | splitting three pieces joined by the separator splits each piece on its own |
| DateFormat.DigitsValue | src/components/BulkImport.tsx:72 | `Number` of a digit string of length n is below 10^n |
| DateFormat.LeadingZero | src/components/BulkImport.tsx:72 | a leading zero does not change the number a digit group stands for |
| DateFormat.ShapeOfFields | src/components/BulkImport.tsx:71-72 | three digit groups (1–2, 1–2 and 4 digits) joined by a separator match the day-first pattern, and splitting gives the groups back in order |
| DateFormat.FieldsOfShape | src/components/BulkImport.tsx:71-72 | conversely, text matching the pattern is exactly three such groups joined by the separator |
| DateFormat.Render | src/components/BulkImport.tsx:86-91 | an invalid time value gives the input back; a valid one gives the ISO text up to, and without, its first `T`, or all of it when it has none |
| DateFormat.FormatDate | src/components/BulkImport.tsx:65-96 | the result is the input when the built date is invalid; otherwise it is text without a `T` (the date part of the ISO string) |
| DateFormat.FormatDateDayFirst | src/components/BulkImport.tsx:70-79 | `BuildDate` reads `D/M/YYYY` and `D-M-YYYY` alike, day first, as `new Date(YYYY, M - 1, D)` |
| DateFormat.DayFirstArgumentsBounded | src/components/BulkImport.tsx:71-73 | the constructor gets a day and month below 100 and a year below 10000 |
| DateFormat.ZeroPaddingSameDate | src/components/BulkImport.tsx:71-73 | `05/03/2020` and `5/3/2020` build the same date, and format alike when it is valid |
| DateFormat.AbsentSeparatorNoShape | src/components/BulkImport.tsx:71 | text without the separator never matches its pattern |
| DateFormat.FormatDateOtherwise | src/components/BulkImport.tsx:80-83 | for text of neither shape, `BuildDate` is the platform parser |
| DateFormat.IsoDatesAreParsed | src/components/BulkImport.tsx:80-83 | every ISO `YYYY-MM-DD` date is not taken for `D-M-YYYY`; it goes to the parser |
| DateFormat.SampleDigits | src/components/BulkImport.tsx:72 | `Number("31") == 31`, `Number("04") == 4`, `Number("2020") == 2020` |
| DateFormat.NoCalendarCheck | src/components/BulkImport.tsx:71-73 | `31/04/2020` is passed to the constructor as year 2020, month index 3, day 31, unchecked |
| BulkImport.Lines | src/components/BulkImport.tsx:23 | the trimmed text gives one line more than it holds line breaks, and no line holds one |
| BulkImport.Parts | src/components/BulkImport.tsx:31 | a line has one part more than it has commas, and each part is trimmed |
| BulkImport.AcceptedIffTwoCommas | src/components/BulkImport.tsx:28-36 | a line gives a record exactly when it is not blank and holds at least two commas; a non-blank line with fewer is warned about |
| BulkImport.ParsedPeople | src/components/BulkImport.tsx:27-47 | the loop makes at most one record per line; `ParsedPeopleFollowAcceptedLines` says which |
| BulkImport.ParsedPeopleFollowAcceptedLines | src/components/BulkImport.tsx:27-47 | the loop makes one record per accepted line, in line order; the k-th record has the k-th id, parts 0 and 2 as name and document, and part 1 through `formatDate` |
| BulkImport.SameAcceptedLinesSamePeople | src/components/BulkImport.tsx:27-47 | the records depend only on the accepted lines |
| BulkImport.Import | src/components/BulkImport.tsx:15-57 | all-white-space input is refused before any parsing; input with no accepted line gives "nothing valid"; otherwise the records go out; the warnings are exactly the rejected lines in order |
| BulkImport.BlankLineIgnored | src/components/BulkImport.tsx:28 | a blank line changes neither the records nor the warnings |
| BulkImport.RejectedLineWarnedAndSkipped | src/components/BulkImport.tsx:33-36 | a line with fewer than three parts gives no record, is warned about in place, and the lines after it are handled as before |
| BulkImport.ExtraPartsIgnored | src/components/BulkImport.tsx:39-44 | parts after the third do not reach the record |
| BulkImport.ThreeFieldLine | src/components/BulkImport.tsx:31-44 | `PersonOf`, the record of lines 39-44: `name,date,doc` with no commas inside gives the trimmed name and document and the formatted trimmed date |
| BulkImport.BulkImport.constructor | src/components/BulkImport.tsx:13 | the text area starts empty |
| BulkImport.BulkImport.HandleImport | src/components/BulkImport.tsx:15-62 | the handler's outcome is `Import` of the text area; the text area is cleared only when records were handed on |
| PeopleTable.TallyCounts | src/components/PeopleTable.tsx:20-24 | `Tally`, the map the `forEach` pass builds per column, holds exactly the keys that occur, each with its number of occurrences |
| PeopleTable.CountStep | src/components/PeopleTable.tsx:21-23 | one `forEach` step increments the person's key in each map (`get(k) \|\| 0` + 1) |
| PeopleTable.BuildDuplicateMap | src/components/PeopleTable.tsx:14-27 | the one-pass loop builds exactly the three count maps of the list |
| PeopleTable.IndexCounts | src/components/PeopleTable.tsx:14-27 | `Index`, the memoised `duplicateMap`: each map counts, for every key, the people whose column has that key; keys nobody has are absent |
| PeopleTable.TwiceIffTwoPositions | src/components/PeopleTable.tsx:29-33 | a key occurs at least twice exactly when two positions hold it |
| PeopleTable.CountedTwiceIff | src/components/PeopleTable.tsx:29-33 | a key is counted more than once exactly when two positions hold it |
| PeopleTable.IsDuplicateIff | src/components/PeopleTable.tsx:29-33 | `IsDuplicate`, the three `isDuplicate` lookups, holds exactly when two people share the value's key |
| PeopleTable.UnknownKeyNotDuplicate | src/components/PeopleTable.tsx:29-33 | a key no person has is never reported as a duplicate |
| PeopleTable.HighlightedIffShared | src/components/PeopleTable.tsx:62-70 | a person's cell is highlighted exactly when another person shares its key |
| PeopleTable.SumValuesRemove | src/components/PeopleTable.tsx:20-24 | the sum of a map's counts does not depend on the order keys are taken |
| PeopleTable.TallySum | src/components/PeopleTable.tsx:20-24 | the counts of a tally add up to the number of keys |
| PeopleTable.CountsAddUpToPeople | src/components/PeopleTable.tsx:20-24 | in each of the three maps, the counts add up to the number of people |
| PeopleTable.PunctuationKeptInDocumentKey | src/components/PeopleTable.tsx:23 | `123.456.789-00` and `12345678900` are different document keys, so neither is flagged |
| PeopleTable.WhiteSpaceKeptInNameKey | src/components/PeopleTable.tsx:21 | names are only lower-cased; extra white space makes a different key |
| PersonManager.WithoutId | src/components/PersonManager.tsx:36 | the records kept are exactly those of the list whose id differs, and there are no more of them than before |
| PersonManager.WithoutIdAppend | src/components/PersonManager.tsx:35-36 | deleting splits over a concatenation, so the survivors keep their order |
| PersonManager.DeleteAbsentId | src/components/PersonManager.tsx:35-36 | deleting an id no record has leaves the list unchanged |
| PersonManager.DeleteIdempotent | src/components/PersonManager.tsx:35-36 | deleting the same id twice is the same as deleting it once |
| PersonManager.DeleteUniqueId | src/components/PersonManager.tsx:35-36 | when ids are distinct, deleting the id at position i removes exactly that record |
| PersonManager.AddThenDelete | src/components/PersonManager.tsx:31-36 | a record added under a fresh id and then deleted leaves the list as it was |
| PersonManager.PersonManager.constructor | src/components/PersonManager.tsx:11 | the list starts empty |
| PersonManager.PersonManager.HandleAddPerson | src/components/PersonManager.tsx:31-33 | the record is appended; nothing else changes |
| PersonManager.PersonManager.HandleDeletePerson | src/components/PersonManager.tsx:35-38 | the new list is the old one without the records carrying the id |
| PersonManager.PersonManager.SubmitForm | src/components/PersonManager.tsx:46 | a complete form appends its record and clears all three inputs; an incomplete one adds nothing and keeps the inputs as they were |
| PersonForm.Submission | src/components/PersonForm.tsx:21-31 | a record is built exactly when all three inputs are non-empty, and it holds the inputs as typed |
| PersonForm.BlankNameAccepted | src/components/PersonForm.tsx:21 | an input of a single blank counts as filled in, since nothing is trimmed |
| PersonForm.PersonForm.constructor | src/components/PersonForm.tsx:14-16 | the three inputs start empty |
| PersonForm.PersonForm.HandleSubmit | src/components/PersonForm.tsx:18-41 | the handler hands on `Submission` of the inputs; on success it clears all three inputs, otherwise it keeps them |
| ExportOptions.ConvertToCsv | src/components/ExportOptions.tsx:20-33 | the CSV is empty exactly when the list is |
| ExportOptions.ExportToCsv | src/components/ExportOptions.tsx:41-47 | the CSV export is refused exactly for an empty list; otherwise it is the converted text |
| ExportOptions.ExportToJson | src/components/ExportOptions.tsx:61-67 | the JSON export is refused exactly for an empty list; otherwise it is the whole list stringified |
| ExportOptions.ExportToText | src/components/ExportOptions.tsx:81-96 | the text export is refused exactly for an empty list; otherwise it is the tab header followed by one tab line per person |
| ExportOptions.TextRowIsJoin | src/components/ExportOptions.tsx:90 | `TextRow`, the template-literal line, is the three cells joined by tabs |
| ExportOptions.HeaderLine | src/components/ExportOptions.tsx:23 | the header is `Nome`, `Data de Nascimento`, `Número do Documento` joined by the separator, with no line break |
| ExportOptions.TableLines | src/components/ExportOptions.tsx:29-32 | `Table`: splitting the exported text at line breaks gives back the header and the rows, when none holds a line break |
| ExportOptions.TableFirstLine | src/components/ExportOptions.tsx:29-32 | the first line of a table is its header, whatever the rows hold |
| ExportOptions.CsvFirstLineAlways | src/components/ExportOptions.tsx:20-33 | for every non-empty list, line breaks in cells included, the first CSV line is the exact header |
| ExportOptions.CsvLines | src/components/ExportOptions.tsx:20-33 | when no cell holds a line break, the CSV has one line more than there are people: the exact header line, then each person's row in list order |
| ExportOptions.TextFirstLineAlways | src/components/ExportOptions.tsx:81-96 | for every non-empty list, line breaks in cells included, the first line of the text export is the exact tab header |
| ExportOptions.TextLines | src/components/ExportOptions.tsx:81-96 | when no cell holds a line break, the text export has one line more than there are people: the exact tab header line, then each person's line in order |
| ExportOptions.CsvRowColumns | src/components/ExportOptions.tsx:24-31 | `CsvRow`: a CSV row with no comma in its cells splits back into name, displayed date and document |
| ExportOptions.TextRowColumns | src/components/ExportOptions.tsx:88-91 | a text line with no tab in its cells splits back into its three cells |
| ExportOptions.CsvRowUnquoted | src/components/ExportOptions.tsx:31 | cells are not quoted: a row splits into the pieces of each cell, so a comma in a name adds a column |
| ExportOptions.CsvRowAlwaysAccepted | src/components/ExportOptions.tsx:24-31 | every CSV row, commas in its cells or not, is a line the bulk import accepts |
| ExportOptions.CsvRowReimported | src/components/ExportOptions.tsx:24-31 | when no cell holds a comma, a CSV row pasted into the bulk import gives back the trimmed name and document and the formatted displayed date |

## Left out

- The JavaScript `Date` object (construction, parsing, time zones, `toISOString`, `toLocaleDateString`) is platform behaviour. It is left uninterpreted as the `DatePlatform` parameter and the `display` parameter. Nothing is claimed about which calendar dates are valid.
- DateFormat.FormatDate: the `catch` branch (BulkImport.tsx:92-95) is not modelled. The platform functions are total, so nothing throws. `toISOString` only throws for invalid dates, and the code returns before calling it.
- BulkImport.BulkImport.HandleImport: the `try`/`catch` around the loop (BulkImport.tsx:58-61) is not modelled. The id oracle `newId` is total, but `crypto.randomUUID` (line 40) throws outside a secure context, and the caller's `onImport` (line 54) may throw. In either case the real handler imports nothing, keeps the text area's text and shows the error toast; the model does not capture that outcome.
- The toast messages are not modelled. The outcome datatype says which message ends the import handler, and the warnings are the skipped lines.
- `crypto.randomUUID()` is an oracle. Uniqueness of ids is not modelled; `PersonManager.DeleteUniqueId` takes it as a hypothesis.
- `toLowerCase` is the `lower` parameter. Unicode case mapping is not modelled.
- Persistence to `localStorage` and reloading from it (PersonManager.tsx:14-29) are left out: browser storage and JSON parsing are I/O.
- `JSON.stringify` output is the `stringify` parameter. Its formatting is not modelled.
- Downloads (Blob, object URLs, links) and toast notifications in ExportOptions.tsx are I/O.
- Rendering (JSX, CSS classes, the disabled export button) is not modelled, apart from the duplicate highlighting rule.
- The input `onChange` handlers that copy typed text into the form and text area state are plain field assignments, left to the caller.
- src/pages/Index.tsx and src/types/Person are not part of this model. The `Person` record's four string fields are taken from the components that build it.
- The importer's `onImport` callback: in the application the import component is not connected to the list of people. `HandleImport` returns the records instead of passing them on.
- CsvRowReimported (`ExportOptions.CsvRowReimported`) is stated only for cells without commas. Cells are not quoted, so a comma inside a cell splits it and shifts the later columns: the name `Silva, João` comes back as `Silva`. `CsvRowUnquoted` states that split, and `CsvRowAlwaysAccepted` states that such a row is still accepted; the record it then gives is not stated.
- Text.Trim: its result being the middle slice of the input is stated on its two halves, `TrimStart` and `TrimEnd`, rather than on `Trim` itself.
