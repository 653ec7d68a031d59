# Productivity tracker — a verified model of its store, totals and document import

The tracker records, per month, how many times a legal-office worker performed
each of a fixed catalog of task types. It adds the counts up per task, weights
them by each task's unit value, and can import a month from a document. An
external extraction service reads the document and returns a JSON reply. The
tracker repairs that reply and merges it into the store.

This project models, in Dafny:

- **Catalog** (`catalog.dfy`): the 43 tasks with their ids and unit values, the 12 month tokens and the two selectable years.
  A unit value is held as an integer number of tenths of a point.
- **JavaScript text primitives** (`js_text.dfy`), modelled the way the program relies on them:
  - `trim` over the ECMAScript whitespace and line-terminator set;
  - `toLowerCase` for ASCII and Latin-1 capitals;
  - `indexOf` and `split`;
  - the global `parseInt` with whitespace skipping, a sign and a `0x` prefix;
  - `String(n)` for integers.
- **Period** (`period.dfy`):
  - the period value `year*12 + indexOf(month)`;
  - the store key `"<year>-<month>"`;
  - how the totals decode a key back into a period value.
- **Store** (`store.dfy`):
  - the map from period key to task id to count, where an absent cell reads 0;
  - the point update and the overwriting merge;
  - the column sums behind the per-task totals, with the optional inclusive period filter;
  - total effort, and points in tenths.
- **Normalizer** (`normalizer.dfy`):
  - stripping code fences from the reply, with the parse step as a parameter;
  - the entry filter, where later duplicates win;
  - month normalisation over the closed vocabulary of tokens and full Portuguese names;
  - the order of the checks, which fixes which error an import reports, and the exact messages.
- **Tracker** (`tracker.dfy`): the component state as a class `App`.
  - Fields: the counts, the settings, the active year and the import-error slot.
  - Methods: the first-start state, editing a cell, reset, applying an import reply, the effect that clears the server name when no positive count remains, and the totals loops.
  - The import (`Tracker.Applied`, `Tracker.Imported`) and the clear-name effect (`Tracker.ClearedName`) are also stated as functions on a `State` value, so lemmas can relate several calls. Editing a cell is stated on the counts alone (`Store.SetCount`); reset empties the counts.

Behaviours of the code worth knowing, each proved in the model:

- **Negative counts are kept.** Editing a cell stores `parseInt(value) || 0` with no clamping, so typing `-3` stores -3 (`JsText.NegativeKept`).
- **A missing entries list is an empty import, not a format error.** A reply whose `data` is missing or not a list yields no entries. Once its month is recognised, it is rejected as empty (`Normalizer.MissingEntriesExample`).
- **Entries are not required to have a positive id.** The entry filter keeps any truthy `taskId`, so negative ids are kept. Only 0 and a missing id are dropped.
- **The year is not validated.** A missing or zero year falls back to the year on screen (`Tracker.ImportYear`).
  A negative year produces a key whose period value cannot be decoded. Such a key is never counted while the filter is on (`Period.NegativeYearKeyHasNoValue`).

## Model

| member | source | states |
|---|---|---|
| Catalog.CatalogIdsDistinct | src/constants.ts:7-51 | the catalog has 43 tasks and no two share an id |
| Catalog.CatalogInDocumentOrder | src/constants.ts:7-51 | tasks are listed in document order, with 291 and 292 sorting as sub-items of code 29 |
| Catalog.CatalogKeepsSplitCodes | src/constants.ts:17-35 | ids 10, 11, 291 and 292 are all distinct catalog entries |
| Catalog.CatalogGaps | src/constants.ts:18-50 | no task has id 12, 25, 29, 34, 35, 36, 46 or 47 |
| Catalog.CatalogUnitValues | src/constants.ts:8-50 | every unit value is a whole number of tenths between 0.1 and 1.8 |
| Catalog.MonthsShape | src/constants.ts:53-55 | 12 pairwise-distinct three-letter tokens, jan first and dez last, none containing '-' |
| Period.SelectorKeysDecode | src/constants.ts:57 | a key built from a selectable year and month decodes to that period's value |
| JsText.IndexOf | src/App.tsx:121 | the result is -1 exactly when the month is absent; otherwise it is the position of its first occurrence |
| Period.MonthIndex | src/App.tsx:121 | the index lies in -1..11, is -1 exactly for a non-token, and otherwise points at the token |
| Period.PeriodValueOrder | src/App.tsx:122 | for valid months, the period value orders periods by year and then month (both directions) |
| Period.PeriodValueInjective | src/App.tsx:122 | two valid periods with the same value are the same period |
| Period.PeriodValueExamples | src/App.tsx:122 | fev/2026 < mar/2026 < jan/2027 |
| JsText.Split | src/App.tsx:133 | no field contains the separator, and the fields joined by it give back the key |
| JsText.SplitAfterField | src/App.tsx:133 | splitting `a-b`, where `a` has no '-', yields `a` followed by the fields of `b` |
| JsText.ParseIntOfIntToString | src/App.tsx:134 | parseInt reads back any integer rendered in decimal |
| Period.DecodeEncodeKey | src/App.tsx:133-135 | a key built from a non-negative year and a dash-free month splits back into that year and month |
| Period.EncodedKeyValue | src/App.tsx:133-135 | such a key's decoded period value is the period value of its year and month |
| Period.NegativeYearKeyHasNoValue | src/App.tsx:133-135 | a key built from a negative year decodes to no year and so to no period value |
| Store.OnePeriodTotal | src/App.tsx:130-141 | with the filter off, a store holding one period totals each task to that period's count, and an absent task to 0 |
| Store.CountedEncodedKey | src/App.tsx:137 | a period's key is counted iff the filter is off or its value lies within start..end, both included |
| Store.ColumnSumRemove | src/App.tsx:131-140 | any key can be summed first, so a column sum does not depend on the order keys are visited in |
| Store.ColumnSumAgree | src/App.tsx:131-140 | stores whose keys contribute alike have equal column sums |
| Store.ActiveFilterRestricts | src/App.tsx:126-140 | an active filter's sum equals the unfiltered sum over exactly the keys whose value lies in the inclusive range |
| Store.Totals | src/App.tsx:125-144 | the totals have exactly one entry per given task id (the catalog's ids in the program) |
| Tracker.App.ColumnTotal | src/App.tsx:131-141 | the loop over the store's keys, in any order, yields the task's column sum under the filter |
| Tracker.App.TotalsOf | src/App.tsx:130-142 | the loop over a task list yields one entry per listed id, holding that task's column sum |
| Tracker.App.TaskTotals | src/App.tsx:125-144 | the totals computed from the state equal the specification's per-task totals under the settings' filter |
| Store.ZeroTotalsZeroEffort | src/App.tsx:146-154 | when every task total is 0, the effort and the points are 0 |
| Store.EffortUpdate | src/App.tsx:146-154 | changing one listed task's total moves the effort by the difference, and the points by the difference times that task's unit value |
| Tracker.App.TotalEffort | src/App.tsx:146-148 | the effort is the sum of the catalog tasks' totals |
| Tracker.App.TotalPointsTenths | src/App.tsx:150-154 | the points, in tenths, are the sum of each task's total times its unit value |
| JsText.ParseIntOrZeroOfIntToString | src/App.tsx:168 | typing the decimal text of any integer, negative ones included, stores that integer |
| JsText.NonNumericIsZero | src/App.tsx:168 | any text holding no decimal digit, the empty text included, stores 0 |
| JsText.ParseIntDecimal | src/App.tsx:168 | decimal digits (leading zeros allowed, except a lone 0 followed by x or X), followed by anything but a digit, read as the digits' value; the trailing text is ignored |
| JsText.ParseIntNegativeDecimal | src/App.tsx:168 | the same after a minus sign reads as the negated value |
| JsText.NoDigitIsNaN | src/App.tsx:168 | text starting with neither whitespace, a sign nor a digit is NaN |
| JsText.EmptyIsNaN | src/App.tsx:168 | the empty string is NaN |
| JsText.TrailingTextIgnored | src/App.tsx:168 | "12" followed by any text that does not start with a digit stores 12 |
| JsText.NegativeKept | src/App.tsx:168 | "-3" reads as -3: the value is not clamped |
| Store.SetCountFrame | src/App.tsx:169-176 | after a point update the cell reads the new value and every other cell, row and key is unchanged |
| Tracker.App.SetValue | src/App.tsx:167-177 | the edited cell holds `parseInt(value) \|\| 0`, every other cell is unchanged, and the settings, year and error slot are untouched |
| Store.SetCountTotals | src/App.tsx:167-177 | an edit changes only its own task's total, by the new contribution minus the old one |
| Store.SetCountEffort | src/App.tsx:146-177 | an edit moves the effort by the change in its task's total |
| Store.SetCountPoints | src/App.tsx:150-177 | an edit moves the points by the change in its task's total times that task's unit value |
| Tracker.App.Reset | src/App.tsx:179-189 | the store is empty, the server name is cleared and the filter is switched off, other settings are kept, and every task total is 0 |
| Tracker.ResetTotals | src/App.tsx:179-189 | after a reset every catalog task totals 0, and so do the effort and the points |
| Tracker.App.constructor | src/App.tsx:71-111 | a first start holds the seeded February 2026 counts, the filter fev/2026..dez/2026 switched off, no server name, year 2026 and no error |
| Tracker.SeedKey | src/App.tsx:76-81 | the seed's only key is the one the editor builds for fev/2026 |
| Tracker.SeedTotals | src/App.tsx:76-81 | with the filter off, task 40 totals 114 and an unseeded task totals 0 |
| Tracker.App.ClearNameWhenNoData | src/App.tsx:208-216 | the effect clears the server name exactly when no positive count is left, and changes nothing else |
| Tracker.ClearedNameOutcome | src/App.tsx:208-216 | the effect never changes the counts, and the name ends empty iff no positive count remains or it was empty already |
| Tracker.ImportKeepsName | src/App.tsx:208-216 | after an accepted import a positive count exists, so the effect keeps the imported name |
| Normalizer.StripFencedBody | src/App.tsx:371 | a body wrapped in a json code fence is parsed as the trimmed body |
| Normalizer.StripUnfenced | src/App.tsx:371 | text without backticks is only trimmed |
| Normalizer.RemoveFencesKeeps | src/App.tsx:371 | removing fences leaves backtick-free text unchanged |
| Normalizer.Decode | src/App.tsx:369-407 | a failed service call and an unparsable reply fail with their own kinds; an accepted reply has a vocabulary month and a non-empty map of positive counts |
| Normalizer.Extract | src/App.tsx:369-407 | the reading steps, run in the handler's order (strip and parse, filter the entries, normalise the month, reject an empty import), give exactly the decoded outcome |
| Normalizer.Formatted | src/App.tsx:379-386 | every kept id is non-zero and every kept quantity positive |
| Normalizer.FormattedKeys | src/App.tsx:379-386 | an id is kept iff some entry with that id has a truthy id and a positive quantity |
| Normalizer.FormattedLastWins | src/App.tsx:381-384 | a kept id holds the quantity of its last kept entry |
| Normalizer.FormatEntries | src/App.tsx:379-386 | the loop over the entries builds exactly the filtered map |
| JsText.TrimPadded | src/App.tsx:389 | trimming ignores any whitespace padding on either side |
| JsText.LowerAt | src/App.tsx:389 | lower-casing works character by character |
| JsText.ToLowerIdempotent | src/App.tsx:389 | lower-casing twice is lower-casing once |
| Normalizer.NormalizeMonth | src/App.tsx:389-396 | a normalised month is always one of the 12 tokens |
| Normalizer.NormalizeMonthAccepts | src/App.tsx:389-396 | each token and each full Portuguese month name normalise to that month's token |
| Normalizer.NormalizeMonthOnlyAccepts | src/App.tsx:389-396 | a raw month normalises to a month's token only if, lower-cased and trimmed, it is that token or that month's full name |
| Normalizer.NormalizeMonthRejects | src/App.tsx:389-400 | anything else is not recognised |
| Normalizer.NormalizeMonthIgnoresPadding | src/App.tsx:389 | whitespace around the month does not change the result |
| Normalizer.NormalizeMonthIgnoresCase | src/App.tsx:389 | lower-casing the month first does not change the result |
| Normalizer.FullNameExample | src/App.tsx:391-395 | "Fevereiro" normalises to "fev" |
| Normalizer.PaddedCapitalsExample | src/App.tsx:389-395 | " MARÇO " normalises to "mar" |
| Normalizer.NumberIsNoMonth | src/App.tsx:389-400 | no text made of digits is a month |
| Normalizer.UnknownWordIsNoMonth | src/App.tsx:398-400 | "smarch" is not a month |
| Normalizer.Normalize | src/App.tsx:379-407 | an accepted reply has a vocabulary month and a non-empty map of positive counts; a rejection is the unrecognised-month or the empty-import error |
| Normalizer.NormalizeOutcome | src/App.tsx:388-407 | the month error occurs iff the month is not recognised; acceptance occurs iff the month is recognised and some entry is kept |
| Normalizer.NormalizeAccepts | src/App.tsx:402-410 | a recognised month with a non-empty filtered map is accepted with the reply's name and year |
| Normalizer.NormalizeExample | src/App.tsx:379-407 | the "J. SILVA" / "Fevereiro" / 2026 reply becomes fev with entries {1: 5}, and task 99 is dropped for its zero quantity |
| Normalizer.MissingEntriesExample | src/App.tsx:379-407 | a reply without an entries list is rejected as empty |
| Normalizer.UnknownMonthExample | src/App.tsx:398-400 | months "13" and "smarch" are rejected as unrecognised, naming the raw value |
| Normalizer.ZeroQuantityExample | src/App.tsx:379-407 | a reply whose only entry has quantity 0 is rejected as empty |
| Normalizer.MessageContents | src/App.tsx:399-426 | the month error names the raw month, or "Não encontrado" when it is missing or empty; a failed call shows its own message, or the fallback text when that is empty |
| Tracker.ImportFailureKeepsState | src/App.tsx:398-426 | a rejected reply records its message and leaves the counts, the settings and the year unchanged |
| Tracker.ImportSuccessMerges | src/App.tsx:410-422 | an accepted reply overwrites the imported cells of its period and leaves every other cell; the name and the year change only when supplied; the error slot is empty |
| Tracker.ImportIdempotent | src/App.tsx:410-422 | applying the same reply twice gives the same state as applying it once |
| Store.MergeFrame | src/App.tsx:412-418 | imported cells read the imported counts, and every other cell reads what it read before |
| Store.MergeIdempotent | src/App.tsx:412-418 | merging the same entries twice equals merging them once |
| Tracker.App.ApplyResult | src/App.tsx:398-422 | a failure records its message and changes nothing else; an accepted record is merged into its period's row, and the name and year are taken from it when supplied |
| Tracker.App.ApplyImport | src/App.tsx:369-422 | the handler's new state is exactly the import transition applied to the old state |

## Left out

- Rendering, layout, animation and the two-step reset confirmation are user-interface concerns.
- The extraction-service call, prompt construction, file reading and file-type dispatch are left out.
  - The service's reply comes in as a `Reply`, either its text or a failure with its message.
- `JSON.parse` is a parameter `parse: string -> Option<Response>` of the import.
  - `Response` is the already-decoded reply, where each field is present or absent.
  - A field that is `null`, or any other falsy value, behaves as an absent field: `taskId` and `quantity` in the entry filter, `month` in month normalisation (it reads as `''` and fails with the "Não encontrado" message), and `year` and `serverName` in the merge. `None` models all of these.
  - Type-confused fields are not modelled. A truthy month that is not a string (a number, `true`, an object or an array) raises a runtime error in the program, whose text becomes the error message; so does a `null` top-level value.
  - A `null` element of the `data` list is not modelled. In the program it raises a runtime error in the entry filter, before the month is checked.
  - A quantity given as a string such as `"5"` raises nothing: it passes `> 0` and is stored as text, and the totals then concatenate strings instead of adding numbers.
- Persistence to `localStorage`, `handleSave` and its timer are left out.
  - Restoring saved settings over the defaults is also left out. The constructor models a first start with nothing saved.
- PDF and spreadsheet export are left out.
- `calculateBusinessDays` and the holiday list depend on the system clock and on `Date`. The days worked are a constructor parameter.
- The daily effort goal, the target and the percentage are fractional and are left out.
  - Points are modelled exactly, as integer tenths.
- The `isImporting` flag and the asynchronous ordering of the import are not modelled. The import is applied as one step.
- Tracker.App.TotalEffort: sums the totals over the catalog list. The program sums `Object.values(taskTotals)`, whose keys are exactly the catalog's distinct ids (`Store.Totals`, `Catalog.CatalogIdsDistinct`).
- JsText.ToLower: lower-cases ASCII and the Latin-1 capitals only. No other character lower-cases to a letter of a month token or name, so month normalisation is unaffected.
- Normalizer.Entry, Normalizer.Response and JsText.IntToString: numbers are integers, while the program's are doubles. Not modelled:
  - a quantity of 2.5 passes `> 0` and is stored as 2.5;
  - a `taskId` of 1.5 is stored under the key `"1.5"` and never reaches a catalog task's total;
  - a year of 2026.5 builds the period key `2026.5-fev` and becomes the active year;
  - `String(n)` switches to exponent form once |n| reaches 1e21.
- JsText.ParseInt: works on unbounded integers. It does not model the loss of precision above 2^53 or the `-0` that `parseInt("-0")` returns (which `|| 0` turns into 0 anyway).
- Store.SetCountEffort, Store.SetCountPoints and Store.EffortUpdate: stated for any list of distinct catalog tasks that includes the edited id.
  - `Store.CatalogListsIds` shows that the catalog itself meets these requirements.
  - The instance over the catalog's literal list is not spelled out.
