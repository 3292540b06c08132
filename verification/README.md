# Dictionary import and template helpers, modelled in Dafny

This project models the import side of the dictionary template service
(`TemplateService`). That covers:

- the gate of `ImportDictionary`, which refuses with `Err9001` an upload that
  is missing or is not an `.xlsx` file, and one whose token property is
  missing or holds a value other than the template's;
- the row-by-row import `HandleImportData`, which runs over the concept,
  concept-relationship, example and example-relationship sheets in that order;
- the two helpers for the error column, `ClearError` and `SetErrorMessage`;
- the pure helpers `GetExportFileName` and `GetConfigData`.

Modules:

- `Common`: `Option`, `Guid` (a natural number) and a checked `DateTime`.
  `DateTime` counts days by the Gregorian calendar. Also `Find`, the
  first-match lookup of `List<T>.Find`, with its contract proved as the
  lemma `FindFirst`.
- `ExportName`: the export file name. It has the normalised dictionary name
  and a `yyyyMMdd'T'HHmmss` stamp, with a parser proving that both can be
  read back.
- `ConfigData`: the configuration name lists and the filter that drops "no
  link" entries.
- `Sheet`: one data sheet and its pass.
  - `Worksheet` is a class whose error column (`errorCells`) and red rows
    (`redRows`) are updated in place by `ClearError` and `SetErrorMessage`.
  - `Run` is the specification of a pass: a left fold over the rows. At each
    row a decision function sees the row and the records accepted so far, and
    either appends one record or records one tagged error and annotates the
    row.
- `ImportRules`: what the import builds and what each sheet's rule does.
  - The records are concepts, concept relationships, examples and example
    relationships; the typed rows are their sheet counterparts.
  - `ValidateBusinessMater` is not visible, so each sheet's rule is a
    function-valued field of `Validators`.
  - Each sheet's rule resolves the row's names by first match and then appends
    a record or rejects.
- `ImportPass`: the four imperative sheet loops and `HandleImportData`.
  - Each loop is proved against `Run`.
  - `Guid.NewGuid` becomes a counter (`GuidSupply`), so the k-th identity
    drawn in an import is `firstId + k`.
  - `PassIds`, `PassReferences` and `PassCounts` state what a whole import
    guarantees.
- `ImportGate`: `Path.GetExtension`, the token check and `ImportDictionary`.

The source's `HandleImportData` returns nothing: its four accepted lists and
the error list stay local, and only the annotated workbook goes back to the
caller. The model returns them as an `ImportOutcome`, so that what the import
would store can be stated.

The relationship sheets resolve link types against the user's full link
lists (`ListConceptLink`, `ListExampleLink`). Those lists still include the
"no link" entries that `GetConfigData` filters out of the template. The model
does the same: an entry of type "no link" can be matched by name during an
import.

## Model

| member | source | states |
|---|---|---|
| Common.Find | HUST.Core/Services/TemplateService.cs:438-440 | a value found is an element of the list that satisfies the predicate |
| Common.FindFirst | HUST.Core/Services/TemplateService.cs:438-440 | `List<T>.Find`: None exactly when no element matches; otherwise the value is an element that matches, and no element before it matches |
| Common.CalendarDates | HUST.Core/Services/TemplateService.cs:391 | `DateTime` dates exist in the Gregorian calendar: 29 February only in leap years (2000 and 2024, not 1900 or 2023), no 30 February and no 31 April |
| ConfigData.WithoutNoLink | HUST.Core/Services/TemplateService.cs:257-260 | the kept entries are never "no link"; every other entry is kept; the result is a subsequence of the input, so order is kept |
| ConfigData.Names | HUST.Core/Services/TemplateService.cs:257-265 | the `Select` to names: one name per entry, position by position |
| ConfigData.GetConfigData | HUST.Core/Services/TemplateService.cs:251-267 | the two link lists are the names of the entries that are not "no link"; the tone, mode, register, nuance and dialect lists are exactly the names of all entries, in order |
| ConfigData.WithoutNoLinkCount | HUST.Core/Services/TemplateService.cs:257-260 | the filtered list has exactly as many entries as the input has real links |
| ConfigData.WithoutNoLinkAppend | HUST.Core/Services/TemplateService.cs:257-260 | filtering a concatenation is concatenating the filtered parts, so kept entries keep their relative order |
| ConfigData.WithoutNoLinkKeepsLinks | HUST.Core/Services/TemplateService.cs:257-260 | a list with no "no link" entry is left unchanged |
| ConfigData.ConceptLinkNames | HUST.Core/Services/TemplateService.cs:257-258 | the concept-link names offered are the names of the real links, in configuration order, one per real link |
| ExportName.ReplaceSpaces | HUST.Core/Services/TemplateService.cs:235 | same length; each space becomes `_` and every other character is kept; no space remains |
| ExportName.NormalizeName | HUST.Core/Services/TemplateService.cs:235-239 | a null name reads as empty; the length is min(length, 20); position i holds the i-th character with spaces replaced, so a name of 20 or fewer characters is kept whole |
| ExportName.Pad | HUST.Core/Services/TemplateService.cs:242 | a zero-padded field of exactly `width` decimal digits |
| ExportName.PadRoundTrip | HUST.Core/Services/TemplateService.cs:242 | reading a padded field back gives the number, when it fits the width |
| ExportName.FormatStamp | HUST.Core/Services/TemplateService.cs:242 | `yyyyMMdd'T'HHmmss` is 15 characters: `T` at position 8 and digits everywhere else |
| ExportName.StampRoundTrip | HUST.Core/Services/TemplateService.cs:242 | parsing the stamp gives back the instant, so different instants give different stamps |
| ExportName.StampExample | HUST.Core/Services/TemplateService.cs:242 | 15 January 2024 at 09:30:00 is stamped `20240115T093000` |
| ExportName.GetExportFileName | HUST.Core/Services/TemplateService.cs:233-244 | the length is the pattern's literal text plus the normalised name plus the 15-character stamp |
| ExportName.ExportFileNameRoundTrip | HUST.Core/Services/TemplateService.cs:240-243 | the file name puts the normalised name before the stamp in the pattern, and both (with the clock's reading when no time is given) can be read back from it |
| ExportName.LongNameCut | HUST.Core/Services/TemplateService.cs:236-239 | a name over 20 characters becomes the replaced form of its first 20 |
| ExportName.LongNameExample | HUST.Core/Services/TemplateService.cs:235-239 | "My Dictionary Name Is Long" becomes "My_Dictionary_Name_I" |
| Sheet.Tag | HUST.Core/Services/TemplateService.cs:411-412 | the error entry keeps the verdict and message and carries the sheet's index and name |
| Sheet.NextEffect | HUST.Core/Services/TemplateService.cs:409-425 | one decided row grows exactly one of the two lists by one entry; an accepted row appends its record and changes nothing else; a rejected row appends its tagged error, writes its message to its own error cell (every other cell keeps its text) and turns red |
| Sheet.RunStep | HUST.Core/Services/TemplateService.cs:404-426 | `Run` is a left fold of `Next`: one more row either appends exactly its record, or appends exactly one tagged error, writes its message to its error cell and paints it red |
| Sheet.RunPartition | HUST.Core/Services/TemplateService.cs:404-426 | after `Run`, accepted records plus error entries number the rows; every error entry is tagged with this sheet |
| Sheet.RunGrows | HUST.Core/Services/TemplateService.cs:418-425 | the accepted list and the error list only grow: the state after any prefix is a prefix of the final state |
| Sheet.VerdictPrefix | HUST.Core/Services/TemplateService.cs:404-426 | the verdict on a row depends only on the rows up to it: rows after it change nothing |
| Sheet.RunOriginAt | HUST.Core/Services/TemplateService.cs:404-426 | the k-th accepted record comes from some row i, the rows before i accepted exactly the first k records, and the rule accepted row i with the k-th record |
| Sheet.RunOrigin | HUST.Core/Services/TemplateService.cs:404-426 | the k-th accepted record comes from a row whose rule accepted it when the first k records were accepted |
| Sheet.RunKeeps | HUST.Core/Services/TemplateService.cs:418-425 | a record accepted at any row is in the final list, since nothing is removed |
| Sheet.RunRedRows | HUST.Core/Services/TemplateService.cs:409-415 | the rows painted red are exactly the rows whose error cell was written |
| Sheet.RunErrorCells | HUST.Core/Services/TemplateService.cs:409-415 | a row's error cell is written exactly when some rejected row has that row index |
| Sheet.RunErrorMessages | HUST.Core/Services/TemplateService.cs:409-415 | with distinct row indices, each rejected row's error cell holds that row's own message |
| Sheet.RunAnnotations | HUST.Core/Services/TemplateService.cs:409-415 | with distinct row indices, the error cells set after the pass are exactly those of rejected rows, each holding its own message, and the red rows are exactly those rows |
| Sheet.Worksheet.ClearError | HUST.Core/Services/TemplateService.cs:547-551 | the error column is empty and no row is red |
| Sheet.Worksheet.SetErrorMessage | HUST.Core/Services/TemplateService.cs:560-564 | the row is painted red and its error cell holds the message; every other cell keeps its text |
| Common.FindByFirst | HUST.Core/Services/TemplateService.cs:438-440 | `Find(x => key(x) == k)`, the form of every name lookup of the import (concepts by title, examples by rich text, links and vocabulary entries by name): None exactly when no entry has that key, otherwise the first entry that has it |
| ImportRules.OptionalId | HUST.Core/Services/TemplateService.cs:495-499 | null exactly for an empty name; otherwise the id of the entry found |
| ImportRules.ConceptVerdict | HUST.Core/Services/TemplateService.cs:407-425 | a concept row is accepted exactly when its validation passes, and then yields a concept with the next fresh id, the row's title and description, the target dictionary and the shared time; otherwise the row carries the validator's verdict |
| ImportRules.ConceptRelDecision | HUST.Core/Services/TemplateService.cs:438-460 | a concept-relationship row is accepted exactly when the validator passes it and its child, parent and link type are all found; it then yields the relationship of their ids with the target dictionary and time; otherwise it carries the validator's verdict |
| ImportRules.ExampleRecord | HUST.Core/Services/TemplateService.cs:487-503 | the example built from a row: the given id, the row's rich text and note, `Detail` derived by `StripHtml`, the target dictionary and time, and each tag null exactly for a blank name and otherwise the id of the entry found |
| ImportRules.ExampleDecision | HUST.Core/Services/TemplateService.cs:473-503 | an example row is accepted exactly when the validator passes it and every non-blank tag name is found; it then yields the example with the next fresh id and its row's contents; otherwise it carries the validator's verdict |
| ImportRules.ExampleRelDecision | HUST.Core/Services/TemplateService.cs:516-538 | an example-relationship row is accepted exactly when the validator passes it and its concept, example and link type are all found; it then yields the relationship of their ids with the target dictionary and time; otherwise it carries the validator's verdict |
| ImportRules.ExampleVerdictByResult | HUST.Core/Services/TemplateService.cs:479-503 | when the rule rates an example row valid, every non-blank tag name resolved and the row yields its example record with the next fresh id; otherwise the row is rejected with the rule's verdict |
| ImportRules.ConceptIds | HUST.Core/Services/TemplateService.cs:418-425 | the k-th accepted concept has id `firstId + k`, the target dictionary and the shared time |
| ImportRules.ConceptSheet | HUST.Core/Services/TemplateService.cs:404-426 | a row is accepted exactly when its validation passes; accepted plus rejected number the rows; the k-th concept has id `firstId + k`, the target dictionary, the shared time, and the title and description of a row that validated against the concepts before it |
| ImportRules.ConceptRelVerdictByResult | HUST.Core/Services/TemplateService.cs:435-460 | when the rule rates a row valid, its child, parent and link type were found and the row yields the relationship of their ids; otherwise the row is rejected with the rule's verdict |
| ImportRules.ConceptRelRefs | HUST.Core/Services/TemplateService.cs:438-456 | every accepted concept relationship joins two concepts of the given list by a link of the given list, with the target dictionary and the shared time |
| ImportRules.ConceptRelSheet | HUST.Core/Services/TemplateService.cs:435-460 | a row whose child, parent or link type is not found is rejected with its verdict; every accepted relationship joins two concepts accepted in this import by a configured link type and carries the target dictionary and time |
| ImportRules.ConceptRelFirstMatch | HUST.Core/Services/TemplateService.cs:438-456 | the child and parent ids are those of the FIRST accepted concepts with those titles, and the link id is that of the first link with that name |
| ImportRules.ExampleIds | HUST.Core/Services/TemplateService.cs:479-501 | the k-th accepted example has the k-th id of its run, the target dictionary and the shared time |
| ImportRules.ExampleSheet | HUST.Core/Services/TemplateService.cs:470-503 | accepted plus rejected number the rows; the k-th example has the k-th id of its run, the target dictionary and the time, copies its row's rich text and note, derives `Detail` by `StripHtml`, and each tag is null exactly when the name is empty and otherwise the first entry with that name |
| ImportRules.TagFound | HUST.Core/Services/TemplateService.cs:495-499 | the tag id built from a lookup is null exactly for an empty name and otherwise names the first entry of that name |
| ImportRules.ExampleRelVerdictByResult | HUST.Core/Services/TemplateService.cs:513-538 | when the rule rates a row valid, its concept, example and link type were found and the row yields the relationship of their ids; otherwise the row is rejected with the rule's verdict |
| ImportRules.ExampleRelRefs | HUST.Core/Services/TemplateService.cs:516-533 | every accepted example relationship joins a concept and an example of the given lists by a link of the given list, with the target dictionary and the shared time |
| ImportRules.ExampleRelSheet | HUST.Core/Services/TemplateService.cs:513-538 | a row whose concept, example or link type is not found is rejected with its verdict; every accepted relationship joins a concept and an example accepted in this import by a configured link type |
| ImportPass.GuidSupply.NewGuid | HUST.Core/Services/TemplateService.cs:420 | hands out the next identity and never the same one twice |
| ImportPass.ImportConcepts | HUST.Core/Services/TemplateService.cs:397-426 | clears the sheet's error column, then leaves the concepts, error entries, error cells and red rows of `Run` over the rows, drawing one id per concept |
| ImportPass.ImportConceptRelationships | HUST.Core/Services/TemplateService.cs:428-461 | clears the sheet's error column, then leaves exactly the state of `Run` of the concept-relationship rule over the rows |
| ImportPass.ImportExamples | HUST.Core/Services/TemplateService.cs:463-504 | clears the sheet's error column, then leaves exactly the state of `Run` of the example rule over the rows, drawing one id per example |
| ImportPass.ImportExampleRelationships | HUST.Core/Services/TemplateService.cs:506-539 | clears the sheet's error column, then leaves exactly the state of `Run` of the example-relationship rule over the rows |
| ImportPass.HandleImportData | HUST.Core/Services/TemplateService.cs:388-540 | runs the four passes in order, each later sheet resolving against the final lists of the earlier ones; the workbook's annotations and the returned lists and errors (in sheet order) are those of `Pass` |
| ImportPass.Outcome | HUST.Core/Services/TemplateService.cs:388-540 | what an import yields: the four accepted lists as the passes left them, and every error entry of the four sheets, the concept sheet's first and the example-relationship sheet's last |
| ImportPass.PassIds | HUST.Core/Services/TemplateService.cs:418-425 | concepts take ids `firstId`, `firstId+1`, … in order, and examples the ids right after them, so no example shares an id with a concept |
| ImportPass.PassReferences | HUST.Core/Services/TemplateService.cs:438-456 | every concept relationship joins two concepts accepted in this import, and every example relationship joins a concept and an example accepted in this import |
| ImportPass.PassCounts | HUST.Core/Services/TemplateService.cs:404-539 | `Pass`: on each of the four sheets, records plus error entries number that sheet's rows; so over the whole import, too |
| ImportGate.ExtensionScan | HUST.Core/Services/TemplateService.cs:202 | the backward scan of `Path.GetExtension`: empty, or the text from a period that is not last and is followed by no period or separator |
| ImportGate.GetExtension | HUST.Core/Services/TemplateService.cs:202 | `Path.GetExtension`: the text from the last period after the last separator, or empty when there is none or the name ends in a period |
| ImportGate.ExcelExtensionIff | HUST.Core/Services/TemplateService.cs:202 | the extension check passes exactly for names ending in `.xlsx` |
| ImportGate.TokenMatches | HUST.Core/Services/TemplateService.cs:211-212 | the token check fails when the property is missing, and passes only when the property holds exactly the expected value |
| ImportGate.UploadAccepted | HUST.Core/Services/TemplateService.cs:202-212 | no file is refused; an accepted upload has the `.xlsx` extension and the matching token |
| ImportGate.UploadAcceptedIff | HUST.Core/Services/TemplateService.cs:202-215 | the gate passes exactly when there is a file, its name ends in `.xlsx` and its token property equals the expected value |
| ImportGate.TargetDictionary | HUST.Core/Services/TemplateService.cs:196-199 | the requested dictionary, or the session's current one when none is given |
| ImportGate.ImportDictionary | HUST.Core/Services/TemplateService.cs:193-223 | a refused upload returns `Err9001` and leaves the workbook and the id supply untouched; an accepted one runs `HandleImportData` on the target dictionary |

## Left out

- Reading and writing workbooks is not modelled: the EPPlus parsing of sheets
  into typed rows, `GetAsByteArray`, and font colours other than red and
  black. A sheet is its index, name, row sequence, error column and set of
  red rows.
- `ValidateBusinessMater` and `FunctionUtil.StripHtml` are not part of this
  model. They are parameters: the rules in `Validators` and a deterministic
  `stripHtml`.
- `ImportPass.HandleImportData`, `ImportPass.ImportConceptRelationships`,
  `ImportPass.ImportExamples`, `ImportPass.ImportExampleRelationships`,
  `ImportGate.ImportDictionary`: these require `ValidatorsSound`, meaning
  that a rule never rates a row valid when a name the row dereferences was
  not found. Under any other rule the source
  throws a null-reference exception, and that crash path is not modelled.
  The specification functions (`ConceptRelVerdict` and the others) reject
  such a row instead.
- `ImportPass.HandleImportData`, `ImportGate.ImportDictionary`: these return
  the import's `ImportOutcome` (the four accepted lists and the error list).
  The source discards it: `HandleImportData` returns nothing and
  `ImportDictionary` returns only the workbook's bytes. The outcome is
  returned so that what the import builds can be stated.
- `DateTime.Now`, `Guid.NewGuid` and the user's configuration
  (`GetAllConfigData`) are inputs: the `now` and `clockNow` parameters, the
  `GuidSupply` counter and a `RawConfig`.
- Dictionary ids are not parsed from text: they arrive as `Guid` values, so
  the `Guid.Parse` failure on a malformed id is not modelled.
  `ImportGate.ImportDictionary`: when neither a dictionary id nor a session
  dictionary exists, the source passes null on and `Guid.Parse` throws; the
  model always has a session dictionary.
- The template constants are parameters or fields. These are the export-file
  pattern, the token property's name and value, the sheet names and the
  error-column indices.
- A null string and an empty string are both modelled as `""`. Row cells,
  the dictionary name, and the token's text are treated alike here.
- `ImportGate.GetExtension`: the directory separators are `/` and `\`, as on
  Windows. On Unix `Path.GetExtension` stops only at `/`.
- `ExportName.FormatStamp`: an instant is year, month, day, hour, minute and
  second. Sub-second precision plays no part in the stamp. The stamp is
  written in the Gregorian calendar, as under the invariant culture or any
  culture whose calendar is Gregorian. Under a culture with another calendar
  (Thai Buddhist in th-TH, Hijri in ar-SA) `ToString` writes that calendar's
  year and month, and the model does not capture this.
- `ExportName.NormalizeName`, `ExportName.LongNameCut`: lengths count Unicode
  scalar values (Dafny `char`), not the UTF-16 code units that .NET's `Length`
  and `Substring` count. A name with characters outside the Basic
  Multilingual Plane keeps fewer characters in the source. A cut that falls
  between the two halves of a surrogate pair leaves a lone surrogate there,
  which the model cannot represent.
- These operations of the same service are not modelled:
  - `DowloadTemplateImportDictionary`, `ExportDictionary`, `SetConfigData`
    and `SetExportData` load template files, bind cells and map objects;
  - `GetExportData` and `BackupData` query repositories, send mail and read
    the session.
