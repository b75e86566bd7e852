# TEKS lesson planner: standards parsing and lesson-plan logic in Dafny

This project models the data logic of the TEKS lesson-plan visualizer. That is a React
application. It reads a lesson plan as JSON, loads the Texas standards (TEKS) for the plan's
subject from a CSV file, cross-references every standard ID the plan cites, and lets the
teacher edit single activities.

The model covers four parts of the application:

- **`Strings`** (`strings.dfy`) holds the JavaScript string built-ins the code relies on:
  `trim`, `toLowerCase`, `split` with a one-character separator, and `join`. Whitespace and
  case folding are ASCII only.
- **`Types`** (`types.dfy`) holds the records of `types.ts`. It adds the two optional fields
  the code uses but the interfaces omit: `isFolder` on a standard definition and
  `ainara_activities` on an activity.
- **`TeksData`** and **`TeksDataFacts`** (`teks_data.dfy`, `teks_data_facts.dfy`) cover the
  two standards parsers of `services/teksData.ts`.
  - `ParseCsv` and `ParseTsv` are methods with the source's loop over lines. Each is proved
    equal to a specification function: a fold of per-line outcomes into a map.
  - The CSV tokenizer is the regular expression `(".*?"|[^",\s]+)(?=\s*,|\s*$)` under the
    `g` flag. It is modelled as a left-to-right scan over the rest of the line. At each
    position the scan tries the lazy quoted alternative, then the maximal bare run, then
    checks the look-ahead. If nothing matches, it moves one character on. It is proved that
    shorter bare runs can never satisfy the look-ahead, so trying only the maximal run is
    exact.
  - The `split(',')` path is taken only when the scan finds no token at all.
- **`LessonPlanView`** (`lesson_plan_view.dfy`) covers the `errors` computation that lists
  the unresolved standard IDs of a plan. It is a method with the two nested walks of the
  source. It is proved equal to a specification function, and the membership, order and
  repeat properties are proved about that function.
- **`AppShell`** (`app_shell.dfy`) covers `App.tsx`:
  - the subject-to-file table and `getCsvFilename`, as pure functions;
  - the page state as a class `App` with the handlers `handleVisualize` and `handleBack`;
  - the standards-load effect, in which the primary fetch, the fallback fetch and the
    empty database are modelled with the fetch results given as a function parameter.
- **`ActivityBlock`** (`activity_block.dfy`) covers `components/ActivityBlock.tsx`:
  - the edit buffer, as a class `ActivityEditor`;
  - the single-field and single-rubric-level updates;
  - the `join(', ')` / `split(',').map(trim).filter(Boolean)` pair that edits the standards
    list;
  - the move-button bounds.

The missing-standards list deduplicates activity IDs but not goal IDs.
`RepeatedGoalListedTwice` shows that an absent goal cited twice is listed twice.
`NoDuplicatesWhenGoalsDistinct` proves that the list is repeat-free when the goals are.

## Model

| member | source | states |
|---|---|---|
| Strings.Trim | services/teksData.ts:13 | `trim`: drops leading and trailing ASCII whitespace; `TrimIsTrimmed`, `TrimEmpty`, `TrimOfTrimmed`, `TrimKeepsChars` and `TrimPadded` state its properties |
| Strings.Join | components/ActivityBlock.tsx:110 | `join`: the parts with the separator between consecutive parts, `""` for no parts; `SplitJoin` and `JoinSplit` make it the inverse of `split` |
| Strings.TrimAllTrimmed | services/teksData.ts:22 | after `map(c => c.trim())` no column starts or ends with whitespace |
| Strings.TrimAllAppend | services/teksData.ts:22 | the trimming map works element by element: mapping a concatenation maps each part, so columns keep their order |
| Strings.Split | services/teksData.ts:9 | `split` always returns at least one part, and no part contains the separator |
| Strings.TrimIsTrimmed | services/teksData.ts:13 | a trimmed string neither starts nor ends with whitespace |
| Strings.TrimEmpty | services/teksData.ts:13-14 | a line trims to the empty (falsy) string exactly when it is all whitespace |
| Strings.TrimOfTrimmed | services/teksData.ts:21 | trimming a string that neither starts nor ends with whitespace changes nothing, so the `trim` after the quote stripping leaves an unquoted word as it is |
| Strings.TrimKeepsChars | services/teksData.ts:13 | trimming introduces no character |
| Strings.TrimPadded | App.tsx:93 | whitespace added on either side is removed by trim |
| Strings.DropSpacesAppend | services/teksData.ts:13 | leading-whitespace removal over a concatenation: all of an all-space prefix goes, otherwise only the prefix's own leading space |
| Strings.TrimEndAppend | services/teksData.ts:13 | trailing-whitespace removal over a concatenation, the mirror case |
| Strings.LowerIsLowerCase | App.tsx:93 | the result of `toLowerCase` has no upper-case letter |
| Strings.LowerOfLowerCase | App.tsx:93 | lower-casing lower-case text changes nothing |
| Strings.SplitJoin | components/ActivityBlock.tsx:110-111 | splitting the join of separator-free parts gives back exactly those parts |
| Strings.JoinSplit | services/teksData.ts:59 | joining the parts of a split with the separator gives back the original text |
| Strings.SplitTwo | services/teksData.ts:59 | two separator-free parts around one separator split into exactly those two parts |
| TeksData.Database | services/teksData.ts:36-40 | in the record the loop builds, every key is the `id` of the definition stored under it |
| TeksData.DatabaseKeys | services/teksData.ts:36-78 | a key is present exactly when some line's outcome is an entry for it |
| TeksData.DatabaseLastWins | services/teksData.ts:36-78 | the stored entry for an ID is the one from the last line that defines it |
| TeksData.DatabaseValueFromRow | services/teksData.ts:36-78 | every stored entry is the outcome of some line |
| TeksData.BareRunLength | services/teksData.ts:17 | the bare alternative `[^",\s]+` takes the longest run of characters that are not quote, comma or whitespace |
| TeksData.QuotedMatchLength | services/teksData.ts:17 | a quoted token found by the lazy `".*?"` ends in a quote and is followed by the look-ahead `\s*,` or `\s*$` |
| TeksData.BareBacktrackingFails | services/teksData.ts:17 | no shorter prefix of a bare run satisfies the look-ahead, so backtracking never yields a bare token |
| TeksData.Matches | services/teksData.ts:17 | every token the global match returns is non-empty |
| TeksData.MatchLength | services/teksData.ts:17 | one attempt of the token regex at a position: the quoted alternative when the text starts with a quote, else the longest bare run, kept only if the look-ahead holds; `QuotedMatchLength`, `QuotedMatchIsFirst`, `BareRunLength` and `BareBacktrackingFails` state what it finds |
| TeksData.QuotedMatchIsFirst | services/teksData.ts:17 | the lazy `".*?"` closes at the first quote followed by a field end; when it fails, every such quote lies past a line break |
| TeksData.StripQuotes | services/teksData.ts:21 | the quote-stripping `replace`: at most one leading and one trailing quote removed; `StripQuote` gives its inverse on quoted fields |
| TeksData.CsvColumns | services/teksData.ts:20-22 | the regex tokens unquoted and trimmed, or the trimmed comma split when there is no token; `QuotedFieldsAreColumns`, `CsvColumnsOfBareMatches`, `UnquotedMultiWordField` and `EmptyFieldShifts` state what it yields |
| TeksData.CsvRow | services/teksData.ts:13-41 | one CSV line's outcome as a value: the entry it makes or none; `CsvRowShape`, `CsvRowDefines`, `QuotedCsvRow`, `EmptyFieldShiftsEntry` and `ShortIdDroppedByCsv` state its properties |
| TeksData.TsvRow | services/teksData.ts:56-79 | one TSV line's outcome as a value; `TsvRowShape`, `TsvRowDefines`, `TsvFieldsRoundTrip`, `ShortIdKeptByTsv` and `TrailingEmptyColumnsDropLine` state its properties |
| TeksData.CsvLine | services/teksData.ts:13-41 | the body of the CSV loop for one line stores exactly the line's specified outcome |
| TeksData.ParseCsv | services/teksData.ts:8-45 | parseCSV is total and returns the fold of the per-line outcomes, later lines overwriting earlier ones |
| TeksData.TsvLine | services/teksData.ts:56-79 | the body of the TSV loop for one line stores exactly the line's specified outcome |
| TeksData.ParseTsv | services/teksData.ts:51-83 | parseTSV is total and returns the fold of the per-line outcomes |
| TeksDataFacts.CsvDatabaseEntries | services/teksData.ts:29-40 | every CSV entry is keyed by its own ID, the ID is longer than two characters and is not `id`/`standard` in any case, description and category are non-empty, and no folder flag is set |
| TeksDataFacts.CsvRowShape | services/teksData.ts:25-40 | the same facts for the entry made from any single line |
| TeksDataFacts.CsvRowDefines | services/teksData.ts:13-41 | a line yields an entry for `k` exactly when it is non-blank, has two columns, is not a header and its first column `k` is longer than two |
| TeksDataFacts.CsvDatabaseKeys | services/teksData.ts:12-43 | a key is in the CSV database exactly when some qualifying line carries it as first column |
| TeksDataFacts.CsvLastLineWins | services/teksData.ts:36-39 | the entry comes from the last qualifying line; description is column 2 or "No description provided" when empty, category is column 3 or "General" when missing or empty |
| TeksDataFacts.CommaSkipped | services/teksData.ts:17 | a comma never starts a token: the scan moves past it |
| TeksDataFacts.QuotedFieldMatches | services/teksData.ts:17 | a quoted field without quotes or line breaks, followed by a field end, is read as one token |
| TeksDataFacts.QuotedLineMatches | services/teksData.ts:17 | a comma-separated line of such quoted fields tokenizes into exactly the quoted fields |
| TeksDataFacts.StripQuote | services/teksData.ts:21 | stripping the quotes of a quoted field gives the field back |
| TeksDataFacts.QuotedFieldsAreColumns | services/teksData.ts:17-21 | a quoted line's columns are its fields, unquoted and trimmed, and embedded commas stay inside their field |
| TeksDataFacts.QuotedCsvRow | services/teksData.ts:17-40 | a line of three quoted fields makes the entry with those fields, defaults applied to empty ones |
| TeksDataFacts.BareFieldMatches | services/teksData.ts:17 | an unquoted word followed by a field end is read as one token |
| TeksDataFacts.SpacesSkipped | services/teksData.ts:17 | whitespace never starts a token |
| TeksDataFacts.WordBeforeSpaceDropped | services/teksData.ts:17 | a word followed by whitespace and another word is not a token: only the last word of a run can be |
| TeksDataFacts.UnquotedMultiWordField | services/teksData.ts:17-22 | in `id,w1 w2,cat` the two-word field keeps only its last word: the columns are `[id, w2, cat]` |
| TeksDataFacts.CsvColumnsOfBareMatches | services/teksData.ts:20-22 | when all tokens are bare words, the columns are the tokens themselves |
| TeksDataFacts.EmptyFieldShifts | services/teksData.ts:17-22 | no token is empty, so in `id,,cat` the empty middle column vanishes and the columns are `[id, cat]` |
| TeksDataFacts.EmptyFieldShiftsEntry | services/teksData.ts:17-39 | that line's entry takes the category as its description, and its category falls back to "General" |
| TeksDataFacts.AstralIdDropped | services/teksData.ts:35 | with lengths in Unicode scalar values, the ID `𝔸a` has length two and its line yields no entry |
| TeksDataFacts.ShortIdDroppedByCsv | services/teksData.ts:35 | a CSV line whose ID has one character yields no entry |
| TeksDataFacts.TsvDatabaseEntries | services/teksData.ts:68-78 | every TSV entry is keyed by its own non-empty ID, which is not `id`/`new id` in any case, has category "General", a folder flag and a non-empty description |
| TeksDataFacts.TsvRowShape | services/teksData.ts:61-78 | the same facts for the entry made from any single line |
| TeksDataFacts.TsvRowDefines | services/teksData.ts:56-79 | a line yields an entry for `k` exactly when it is non-blank, has three tab columns and its trimmed first column `k` is non-empty and not a header |
| TeksDataFacts.TsvDatabaseKeys | services/teksData.ts:55-81 | a key is in the TSV database exactly when some such line carries it; there is no length filter |
| TeksDataFacts.TsvLastLineWins | services/teksData.ts:73-77 | the entry comes from the last line carrying the ID; it is a folder exactly when the trimmed second column is `f`, and its category is "General" |
| TeksDataFacts.TsvFieldsRoundTrip | services/teksData.ts:56-78 | the line `id TAB flag TAB description TAB grade` yields the entry with that ID, description (or the placeholder) and folder flag; the grade is dropped |
| TeksDataFacts.ShortIdKeptByTsv | services/teksData.ts:72 | a one-character ID is kept by the TSV parser |
| TeksDataFacts.TrailingEmptyColumnsDropLine | services/teksData.ts:56-61 | the line is trimmed before the tab split, so a TSV line with only blank columns after the flag loses them and is skipped as too short |
| LessonPlanView.GoalsMissing | components/LessonPlanView.tsx:18-20 | the goal walk as a value: absent goal IDs in goal order, repeats kept; `GoalsMissingMembers`, `GoalsMissingDistinct` and `RepeatedGoalListedTwice` state its properties |
| LessonPlanView.Flatten | components/LessonPlanView.tsx:23-24 | the activities' standard lists, concatenated in order; `FlattenMembers` states its contents |
| LessonPlanView.AddNew | components/LessonPlanView.tsx:23-29 | the activity walk as a value: append each absent ID not yet listed; `AddNewMembers`, `AddNewExtends`, `AppendedAreNew` and `AppendedInFirstSeenOrder` state its properties |
| LessonPlanView.MissingReport | components/LessonPlanView.tsx:14-32 | the `errors` value: the goal walk then the activity walk; `MissingReportMembers`, `MissingAreAbsent`, `MissingReportOrder` and `NoDuplicatesWhenGoalsDistinct` state its properties |
| LessonPlanView.ShowsErrorBanner | components/LessonPlanView.tsx:53 | the banner condition `errors.length > 0`; `NoBannerIffAllDefined` says when it holds |
| LessonPlanView.FindMissingStandards | components/LessonPlanView.tsx:14-32 | the nested walks over goals and activity standards compute exactly the specified missing list |
| LessonPlanView.GoalsMissingMembers | components/LessonPlanView.tsx:18-20 | the goal phase lists exactly the goal IDs absent from the database |
| LessonPlanView.AddNewMembers | components/LessonPlanView.tsx:23-29 | after the activity phase, an ID is listed exactly when it was listed before or is an absent activity ID |
| LessonPlanView.FlattenMembers | components/LessonPlanView.tsx:23-24 | the activity walk visits exactly the IDs of the activities' standard lists |
| LessonPlanView.MissingReportMembers | components/LessonPlanView.tsx:14-32 | an ID is in the result exactly when the plan cites it, as a goal or in an activity, and the database lacks it |
| LessonPlanView.MissingAreAbsent | components/LessonPlanView.tsx:19-25 | every listed ID is absent from the database |
| LessonPlanView.NoBannerIffAllDefined | components/LessonPlanView.tsx:31-53 | the error banner is hidden exactly when every cited ID is in the database |
| LessonPlanView.AddNewExtends | components/LessonPlanView.tsx:23-29 | the activity phase only appends to the list |
| LessonPlanView.GoalsComeFirst | components/LessonPlanView.tsx:18-29 | the list begins with the absent goals, in goal order |
| LessonPlanView.AppendedAreNew | components/LessonPlanView.tsx:25-27 | the IDs the activity phase adds are absent activity IDs, not already listed, and none repeats |
| LessonPlanView.AppendedInFirstSeenOrder | components/LessonPlanView.tsx:23-29 | the added IDs follow the order of their first occurrence across activities |
| LessonPlanView.MissingReportOrder | components/LessonPlanView.tsx:18-29 | the list is the absent goals followed by new absent activity IDs in first-seen order, each once and none already a goal entry |
| LessonPlanView.RepeatedGoalListedTwice | components/LessonPlanView.tsx:18-20 | goal IDs are not deduplicated: an absent goal cited twice is listed twice |
| LessonPlanView.GoalsMissingDistinct | components/LessonPlanView.tsx:18-20 | with repeat-free goals, the goal phase is repeat-free |
| LessonPlanView.NoDuplicatesWhenGoalsDistinct | components/LessonPlanView.tsx:19-25 | with repeat-free goals, the whole list is repeat-free |
| AppShell.ReplaceSpaceRuns | App.tsx:101 | `replace(/\s+/g, '-')` leaves no whitespace |
| AppShell.ReplaceSpaceRunsOfNoSpace | App.tsx:101 | text without whitespace is left unchanged |
| AppShell.ReplaceOneRun | App.tsx:101 | a whitespace run between non-space text becomes a single `-` |
| AppShell.ReplaceSpaceRunsWithoutDash | App.tsx:101 | a result without `-` came from text with neither whitespace nor `-` |
| AppShell.ReplaceSpaceRunsLowerCase | App.tsx:101 | the replacement keeps lower-case text lower-case |
| AppShell.TableValues | App.tsx:70-90 | the table maps every synonym to one of the ten file names |
| AppShell.TableKeysHaveNoDash | App.tsx:70-90 | no synonym in the table contains `-` |
| AppShell.TableNamesClean | App.tsx:70-90 | every file name in the table is lower case and free of whitespace |
| AppShell.SelfNamedEntries | App.tsx:72-87 | `english`, `mathematics`, `science` and `career` map to themselves |
| AppShell.TableFixedPoints | App.tsx:70-90 | a file name that is itself a key maps to itself |
| AppShell.Normalize | App.tsx:93 | `subject.toLowerCase().trim()`; `NormalizeIsLowerCase` and `CsvFilenameIgnoresPaddingAndCase` state its properties |
| AppShell.FileNameFor | App.tsx:96-101 | the table entry for a normalised name, else the name with whitespace runs replaced by `-`; `FileNameOutsideTable` and `TableFixedPoints` state its two branches |
| AppShell.CsvFilename | App.tsx:92-102 | `getCsvFilename`; `CsvFilenameHasNoSpace`, `CsvFilenameIdempotent`, `CsvFilenameIgnoresPaddingAndCase`, `CsvFilenameOutsideTable` and `PaddedAbbreviationResolves` state its properties |
| AppShell.NormalizeIsLowerCase | App.tsx:93 | the normalised subject is lower case |
| AppShell.CsvFilenameHasNoSpace | App.tsx:92-102 | getCsvFilename never returns whitespace and always returns lower-case text |
| AppShell.CsvFilenameIdempotent | App.tsx:92-102 | `getCsvFilename(getCsvFilename(s)) == getCsvFilename(s)` |
| AppShell.CsvFilenameIgnoresPaddingAndCase | App.tsx:93 | surrounding whitespace and letter case do not change the file name |
| AppShell.CsvFilenameOutsideTable | App.tsx:101 | a subject not in the table maps to its normalised text with whitespace runs replaced by `-` |
| AppShell.FileNameOutsideTable | App.tsx:96-101 | for a normalised name not in the table, the lookup falls through to the replacement |
| AppShell.PaddedAbbreviationResolves | App.tsx:73-97 | `" ELA "` resolves to `english` |
| AppShell.App.constructor | App.tsx:105-109 | the initial state: the given JSON text, no plan, empty database, no error, not loading |
| AppShell.App.SetJsonInput | App.tsx:218 | editing the text area replaces the JSON text and nothing else |
| AppShell.App.HandleVisualize | App.tsx:148-162 | the error becomes the rejection message of the parse outcome, or none; the plan is replaced only when the input is accepted |
| AppShell.App.HandleBack | App.tsx:164-168 | plan none, database empty, error none; the JSON text is kept |
| AppShell.App.LoadStandards | App.tsx:112-146 | with a plan, the database becomes the specified load outcome for the subject's primary path and loading ends false; without a plan nothing changes |
| AppShell.HasRequiredFields | App.tsx:154 | the schema check: title and subject present and non-empty, activities present; `EmptyActivitiesAccepted` shows the truthiness edge |
| AppShell.RejectionMessage | App.tsx:150-161 | the error `handleVisualize` sets: the thrown message or "Invalid JSON format", the missing-fields message, or none; `RejectionMessageNonEmpty` states its properties |
| AppShell.RejectionMessageNonEmpty | App.tsx:154-161 | an input is accepted exactly when it parsed and has its required fields; a rejection always carries a non-empty message |
| AppShell.EmptyActivitiesAccepted | App.tsx:154 | an empty activities array passes the truthiness check, an empty title does not |
| AppShell.StandardsSource | App.tsx:121-144 | the text the load effect parses: the primary body, else the fallback body, else none; `LoadOutcomes` states each case |
| AppShell.LoadedDatabase | App.tsx:121-144 | the database the load effect stores: the CSV parse of that text, or empty; `LoadedDatabaseWellFormed` states that its keys are well formed |
| AppShell.LoadOutcomes | App.tsx:121-144 | the primary file when served, else the generic `CSVs/teks.csv` when served, else the empty database; a rejected primary fetch skips the fallback |
| AppShell.PrimaryPathShape | App.tsx:116-117 | the primary path is `CSVs/` + the file name + `.csv`, free of whitespace |
| AppShell.LoadedDatabaseWellFormed | App.tsx:134-143 | whatever the fetches return, every loaded key is the ID of its entry and longer than two characters |
| ActivityBlock.ApplyEdit | components/ActivityBlock.tsx:40-42 | `handleChange(field, v)` sets that field to `v` and leaves every other field unchanged |
| ActivityBlock.EditsCommute | components/ActivityBlock.tsx:40-42 | edits to different fields commute |
| ActivityBlock.LastEditWins | components/ActivityBlock.tsx:40-42 | of two edits to one field the later one wins |
| ActivityBlock.EditToSameValue | components/ActivityBlock.tsx:40-42 | setting a field to its current value leaves the activity unchanged |
| ActivityBlock.SetLevel | components/ActivityBlock.tsx:47-50 | one rubric level gets the new text and the other levels keep theirs |
| ActivityBlock.SetLevelToSameText | components/ActivityBlock.tsx:44-52 | writing a level's own text back leaves the rubric unchanged |
| ActivityBlock.ApplyRubricEdit | components/ActivityBlock.tsx:44-52 | `handleRubricChange(level, v)` changes only that level; all other levels and all non-rubric fields are unchanged |
| ActivityBlock.FormatStandards | components/ActivityBlock.tsx:110 | the displayed text `join(', ')`; `JoinSpaced` and `FormatThenSplit` state its properties |
| ActivityBlock.ParseStandards | components/ActivityBlock.tsx:111 | the typed text `split(',').map(trim).filter(Boolean)`; `ParsedIdsAreClean`, `ParseFormatRoundTrip` and `ParseIsStable` state its properties |
| ActivityBlock.DropEmpty | components/ActivityBlock.tsx:111 | `filter(Boolean)`: an element is kept exactly when it is in the input and non-empty, and everything is kept when nothing is empty |
| ActivityBlock.DropEmptyAppend | components/ActivityBlock.tsx:111 | the filter works element by element: filtering a concatenation filters each part, so the kept elements stay in input order |
| ActivityBlock.DropEmptyOne | components/ActivityBlock.tsx:111 | a single element is kept exactly when it is non-empty |
| ActivityBlock.ParsedIdsAreClean | components/ActivityBlock.tsx:111 | every parsed ID is non-empty, trimmed and comma-free |
| ActivityBlock.JoinSpaced | components/ActivityBlock.tsx:110 | `join(', ')` is the comma join of the IDs, each after the first preceded by one space |
| ActivityBlock.FormatThenSplit | components/ActivityBlock.tsx:110-111 | splitting the displayed text at commas and trimming gives back the clean IDs |
| ActivityBlock.ParseFormatRoundTrip | components/ActivityBlock.tsx:110-111 | parsing the displayed text of a list of clean IDs returns the same list |
| ActivityBlock.ParseIsStable | components/ActivityBlock.tsx:110-111 | re-displaying and re-parsing a parsed list changes nothing |
| ActivityBlock.MoveUpDisabled | components/ActivityBlock.tsx:149 | `disabled={index === 0}`; `MoveBounds` states what it guarantees |
| ActivityBlock.MoveDownDisabled | components/ActivityBlock.tsx:157 | `disabled={index === totalActivities - 1}`; `MoveBounds` states what it guarantees |
| ActivityBlock.DisplayNumber | components/ActivityBlock.tsx:62 | the one-based "Activity n" number; `MoveBounds` bounds it by the card count |
| ActivityBlock.ShowsSuggestions | components/ActivityBlock.tsx:211 | the suggestions panel shows when the list is present and non-empty; `SuggestionsSurviveEdits` keeps it fixed under edits |
| ActivityBlock.SuggestionsSurviveEdits | components/ActivityBlock.tsx:211 | no field or rubric edit changes whether the suggestions panel shows |
| ActivityBlock.RetypedStandardsUnchanged | components/ActivityBlock.tsx:110-111 | typing back the displayed standards text of clean IDs leaves the activity unchanged |
| ActivityBlock.MoveBounds | components/ActivityBlock.tsx:149-157 | an enabled move-up has a card above and an enabled move-down a card below; a single card has both disabled; the shown number is between 1 and the card count |
| ActivityBlock.ActivityEditor.constructor | components/ActivityBlock.tsx:27-28 | the card starts out of edit mode with the buffer equal to the given activity |
| ActivityBlock.ActivityEditor.ReceiveProps | components/ActivityBlock.tsx:17-28 | new props replace the activity and position; the buffer and edit mode keep their values |
| ActivityBlock.ActivityEditor.StartEditing | components/ActivityBlock.tsx:141 | the Edit button enters edit mode with the buffer unchanged |
| ActivityBlock.ActivityEditor.StandardsText | components/ActivityBlock.tsx:110 | the text the standards input displays for the buffer; `HandleStandardsInput` says retyping it changes nothing |
| ActivityBlock.ActivityEditor.HandleChange | components/ActivityBlock.tsx:40-42 | the buffer becomes the single-field edit of the old buffer; nothing else changes |
| ActivityBlock.ActivityEditor.HandleStandardsInput | components/ActivityBlock.tsx:110-111 | the buffer's standards become the parsed text; nothing else changes; typing back the displayed text of clean IDs leaves the buffer as it was |
| ActivityBlock.ActivityEditor.HandleRubricChange | components/ActivityBlock.tsx:44-52 | the buffer becomes the single-level rubric edit of the old buffer; nothing else changes |
| ActivityBlock.ActivityEditor.HandleSave | components/ActivityBlock.tsx:30-33 | the buffer is handed to the parent and edit mode ends |
| ActivityBlock.ActivityEditor.HandleCancel | components/ActivityBlock.tsx:35-38 | the buffer is restored to the current activity and edit mode ends |

## Left out

- services/gemini.ts is not part of this model. It is a client for a remote generative-AI service and has no local logic.
- The presentation components (components/ActivityCard.tsx, components/StandardPill.tsx, components/RubricTable.tsx) and all markup and styling are left out. StandardPill's validity test is the `x in db` test of the missing-standards check. RubricTable's row order is a constant.
- `JSON.parse` and `fetch` are inputs.
  - A parse is a `ParseOutcome`: either a thrown message or the candidate's fields. Only the three required fields are checked; the other fields are assumed well-typed. So an input such as `{"title":"t","subject":"s","activities":[]}`, which passes the check at App.tsx:154, has no counterpart: in the application, rendering it makes the `errors` memo call `forEach` on the missing `overarching_goals_standards` (components/LessonPlanView.tsx:18) and throw, and an activity without `activity_standards` throws the same way at components/LessonPlanView.tsx:24.
  - A fetch is a function from path to `FetchOutcome`.
  - A failure of `res.text()` is not modelled.
- React hook scheduling is left out. The load effect is the method `LoadStandards`, run after the plan changes.
- `useMemo` caching and console logging are left out.
- Races between overlapping loads are left out, because they are concurrency.
- JavaScript prototype keys, such as `toString` in a plain object or `__proto__`, are left out. The database is a plain map.
- `toLowerCase`, `trim` and `\s` are modelled with ASCII letters and the ASCII whitespace characters. Unicode case folding and Unicode spaces are left out.
- The regex `.` is modelled as excluding only `\n` and `\r`. The lines come from `split('\n')`, so only `\r` can occur inside a line. The Unicode line separators U+2028 and U+2029 are not excluded.
- The footer year, which comes from the clock, is left out. The sample plan string is left out too: the initial JSON text is a constructor parameter.
- The delete and move callbacks are left out: they are owned by the parent list, and only their enabled state is modelled.
- AppShell.App.HandleVisualize: the parsed title and subject are taken as strings and the activities as an array, so a truthy value of another kind (a number as title, an object as activities), which the check at App.tsx:154 accepts, cannot be represented; the model does not capture accepting such input.
- Lengths are counted in Unicode scalar values, while `id.length > 2` at services/teksData.ts:35 counts UTF-16 code units. An ID with a character outside the Basic Multilingual Plane differs: `"𝔸a"` has JavaScript length 3 and is kept by parseCSV, but its Dafny length is 2 and the model drops it (`TeksDataFacts.AstralIdDropped`).
- ActivityBlock.ApplyEdit covers the five form fields the edit form binds (title, timeframe, student-will statement, assignment, standards). It does not cover an arbitrary `keyof Activity`.
- ActivityBlock.ApplyRubricEdit covers the five rubric levels the form shows. It does not cover an arbitrary key string.
