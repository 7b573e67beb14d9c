# Patient portal core, modelled in Dafny

This project models the core of the patient portal's client. The patient fills in health
questionnaires. The answers are stored as a free-form JSON object per submission, and the
portal turns them into three chart series: general health, food, and sleep. Beside the
questionnaires, the patient keeps a daily mood log on a calendar.

The model covers four source files:

- `src/hooks/useHealthData.ts`: the hook that loads a user's submissions and builds the
  series. It classifies each submission by form id, makes its answer keys canonical with
  `normalizeKeys` (NFD, combining marks removed, lower case, whitespace runs to `_`), and
  reads each field through a `??` alias chain and `Number(...)`.
- `src/components/HealthCharts.tsx`: the chart component. It has the "no data" guard, the
  split of `presion` ("120/80") into systolic and diastolic values, and the food and sleep
  charts, which take their records as they are.
- `src/pages/CalendarPage.tsx`: the calendar page. It holds the `daily_logs` table, which is
  upserted on (user, day); the page state around `handleSave` and `loadLogs`; and the day
  lookups behind the tiles, the selected day's log, and its appointments.
- `src/pages/Forms.tsx`: the questionnaire page. It covers the answer object edited one field
  at a time, the guarded submit with its reset-or-retain rule, and the question list read
  from a form's schema.

Modules:

| file | module | what it holds |
|---|---|---|
| `wrappers.dfy` | `Wrappers` | `Option` |
| `arrays.dfy` | `Arrays` | `filter` and `find` on arrays, with the positions they select |
| `json.dfy` | `Json` | JSON values; the host built-ins as a `Host` record; `Number(...)`; `??` |
| `key_normalizer.dfy` | `KeyNormalizer` | `normalizeKeys` and the canonical-key lemmas |
| `health_data.dfy` | `HealthData` | form classification, extraction, the series, the hook as a class |
| `health_charts.dfy` | `HealthCharts` | `split`, the pressure split (as written and corrected), the chart view |
| `calendar_page.dfy` | `CalendarPage` | the log table, its query, the day lookups, the page as a class |
| `forms.dfy` | `Forms` | the answers object, question rendering, the page as a class |

Some host built-ins are used but their tables are not modelled: Unicode decomposition, case
mapping, `Number(string)` and `toLocaleDateString`. They are fields of a `Host` value that
the operations take as a parameter. `KeyNormalizer.ValidHost` states the only facts about
them that the proofs need, all of which Unicode satisfies:

- NFD is idempotent.
- Lower-casing is idempotent.
- Lower-casing a decomposed character that is not a mark gives such a character.
- `_` is left alone by both.

The Supabase queries are modelled as follows:

- A query's result is a parameter: `Option` for data-or-error, `bool` for whether a write
  succeeded.
- The calendar's `daily_logs` table is a map keyed on (user, day), which `QueryLogs` reads
  back in ascending day order.
- The questionnaire's `submissions` table is a sequence of rows that a successful submit
  appends to.

`Number(...)` has no NaN guard: `Number("abc")` is NaN, and NaN reaches the chart.
`Json.Number` has a `NaN` case, and `HealthData.Extract` carries it.

## Model

| member | source | states |
|---|---|---|
| Arrays.Filter | src/hooks/useHealthData.ts:46-47 | `filter` keeps exactly the elements satisfying the predicate, never more elements than the input |
| Arrays.Find | src/pages/CalendarPage.tsx:102 | `find` is `None` exactly when no element matches; otherwise it is the first matching element |
| Json.ToNumber | src/hooks/useHealthData.ts:52-53 | `Number(v)`: text goes through the host parser (possibly NaN), an object gives NaN, null/number/boolean give a finite number; no NaN guard |
| Json.FirstPresent | src/hooks/useHealthData.ts:79-90 | a `??` chain yields the first alias neither missing nor null (even `0` or `""`), and the fallback only when every alias is missing or null |
| KeyNormalizer.Decompose | src/hooks/useHealthData.ts:110 | `normalize("NFD")` leaves a key whose characters are all decomposed unchanged |
| KeyNormalizer.StripMarks | src/hooks/useHealthData.ts:111 | removing U+0300..U+036F leaves no combining mark and keeps every other character |
| KeyNormalizer.LowerCase | src/hooks/useHealthData.ts:112 | `toLowerCase()` applied per character, which is what it does on NFD output: one character for one, and a key with no upper-case character is unchanged |
| KeyNormalizer.CollapseSpaces | src/hooks/useHealthData.ts:113 | `replace(/\s+/g, "_")` leaves no whitespace and never lengthens the key |
| KeyNormalizer.NormalizeKey | src/hooks/useHealthData.ts:109-113 | a normalised key holds no whitespace |
| KeyNormalizer.NormalizeAnswers | src/hooks/useHealthData.ts:105-116 | `{}` for a value that is not an object; otherwise the keys are exactly the normalised input keys, and there are no more entries than in the input |
| KeyNormalizer.NormalizeKeys | src/hooks/useHealthData.ts:105-117 | the loop builds the dictionary of normalised entries (invariant: the entries seen so far); `{}` for a non-object |
| KeyNormalizer.NormalizedEntriesSpec | src/hooks/useHealthData.ts:107-115 | the keys are exactly the normalised input keys; at most one entry per input entry; a key's value is its last writer's |
| KeyNormalizer.CollectKeys | src/hooks/useHealthData.ts:114 | the keys written by the loop are the images of the input keys |
| KeyNormalizer.CollectLastWins | src/hooks/useHealthData.ts:114 | when two keys normalise alike, the later entry overwrites the earlier one |
| KeyNormalizer.CollectSize | src/hooks/useHealthData.ts:114 | the dictionary never has more entries than the object |
| KeyNormalizer.NormalizeKeyCanonical | src/hooks/useHealthData.ts:109-113 | every normalised key is canonical: no whitespace, no combining mark, no upper case, nothing left to decompose |
| KeyNormalizer.CanonicalIsFixed | src/hooks/useHealthData.ts:109-113 | normalising a canonical key returns it unchanged |
| KeyNormalizer.NormalizeKeyIdempotent | src/hooks/useHealthData.ts:109-113 | normalising twice is normalising once |
| KeyNormalizer.DecomposedIsStable | src/hooks/useHealthData.ts:110 | every character NFD produces is already decomposed |
| KeyNormalizer.StripMarksCanonical | src/hooks/useHealthData.ts:111 | mark removal leaves a canonical key alone |
| KeyNormalizer.CollapseRun | src/hooks/useHealthData.ts:113 | a whitespace run of any length becomes exactly one `_` |
| KeyNormalizer.CollapseAppend | src/hooks/useHealthData.ts:113 | the whitespace rewrite is local: cutting a key outside a run and rewriting the halves gives the same result |
| KeyNormalizer.CollapseLeadingRun | src/hooks/useHealthData.ts:113 | a run in front of a non-space part becomes one `_` in front of that part's rewrite |
| KeyNormalizer.CollapseRunBetween | src/hooks/useHealthData.ts:113 | a maximal run between two parts becomes one `_` between their rewrites |
| KeyNormalizer.CollapseSpaceFree | src/hooks/useHealthData.ts:113 | a key without whitespace is left alone by the rewrite |
| KeyNormalizer.CollapseCanonical | src/hooks/useHealthData.ts:113 | the rewrite leaves no whitespace and adds only `_`, so it keeps a key canonical |
| HealthData.Classify | src/hooks/useHealthData.ts:41-43 | a form id is in a category exactly when it equals that category's constant; any other id is in none |
| HealthData.InCategory | src/hooks/useHealthData.ts:46-47 | the filter callback accepts a submission exactly when its form id classifies as that category |
| HealthData.Series | src/hooks/useHealthData.ts:46-92 | a series is no longer than the submissions, and each of its points is the extraction of a submission of that category's form |
| HealthData.Extract | src/hooks/useHealthData.ts:48-92 | a point is dated by the locale date of `created_at` and has the shape of its category |
| HealthData.ExtractDefaults | src/hooks/useHealthData.ts:52-90 | each field on its own: when its key (or every alias) is missing or null, a numeric field is 0 and a text field `""`, whatever the other fields hold |
| HealthData.PresentFields | src/hooks/useHealthData.ts:52-67 | a present `peso`, `altura` or `comidas_dia` becomes `Number` of its value, even `0` or `""`; a present `presion` or `fuma` is passed on unconverted |
| HealthData.SleepAliasPriority | src/hooks/useHealthData.ts:79-84 | `descanso` comes from the first alias that is neither missing nor null, in priority order, even when it is `0` or `""` |
| HealthData.HorasSuenoAliasPriority | src/hooks/useHealthData.ts:85-90 | `horas_sueno` comes from the first alias that is neither missing nor null, in priority order |
| HealthData.SeriesSelects | src/hooks/useHealthData.ts:46-57 | a series has one point per submission of its form, in input order, and each point is that submission's extraction |
| HealthData.SeriesSkipsUnclassified | src/hooks/useHealthData.ts:46-47 | a submission of any other form changes no series |
| HealthData.SeriesPartition | src/hooks/useHealthData.ts:46-74 | the three series and the unclassified submissions together count every submission exactly once |
| HealthData.SeriesChronological | src/hooks/useHealthData.ts:31 | a chronological query yields series whose points come in non-decreasing creation time |
| HealthData.HealthDataHook.constructor | src/hooks/useHealthData.ts:16-19 | empty series, loading |
| HealthData.HealthDataHook.FetchAll | src/hooks/useHealthData.ts:21-99 | no user id: nothing changes; a query error keeps the series and ends loading; success rebuilds all three series from the reply and ends loading |
| HealthCharts.Split | src/components/HealthCharts.tsx:32 | `split` gives at least one piece and no piece holds the separator |
| HealthCharts.JoinSplit | src/components/HealthCharts.tsx:32 | joining the pieces of a split gives back the text |
| HealthCharts.SplitFirstTwo | src/components/HealthCharts.tsx:32 | the first two pieces are the text before the first separator and the text between the first and the second (or the end) |
| HealthCharts.PressureAsWritten | src/components/HealthCharts.tsx:29-35 | as written: a TypeError exactly when `presion` is present, not text and not null |
| HealthCharts.PressureAsWrittenThrowsOnNumber | src/components/HealthCharts.tsx:31 | a numeric `presion` (JSON `120`) makes the general chart throw |
| HealthCharts.SplitPressure | src/components/HealthCharts.tsx:29-35 | the corrected split agrees with the code wherever the code does not throw |
| HealthCharts.SplitPressureSpec | src/components/HealthCharts.tsx:29-35 | 0/0 unless `presion` is text with a `/`; then `Number` of the first two pieces, further pieces ignored |
| HealthCharts.SplitPressureExamples | src/components/HealthCharts.tsx:31-34 | "120/80" gives 120/80 and "abnormal" gives 0/0 |
| HealthCharts.FormatGeneral | src/components/HealthCharts.tsx:28-37 | one record per point, each with its point kept and the split pressure added |
| HealthCharts.Chart | src/components/HealthCharts.tsx:19-126 | the notice exactly when data is missing or empty; food and sleep pass the records through; the general chart's rows are exactly `FormatGeneral` of the records, each with its split pressure added |
| CalendarPage.MoodColor | src/pages/CalendarPage.tsx:104-108 | buena is green, regular yellow, mala red, in both directions |
| CalendarPage.DayOf | src/pages/CalendarPage.tsx:80 | the day of an instant is the day whose span holds it |
| CalendarPage.Upsert | src/pages/CalendarPage.tsx:85-87 | the upsert adds the log's (user, day) key if it is new, stores the log's mood and comment under it, and leaves every other key's entry as it was |
| CalendarPage.UpsertOneRow | src/pages/CalendarPage.tsx:85-87 | after the upsert the table holds the log as the only row of its (user, day); every other row is as it was |
| CalendarPage.UpsertSameDayOverwrites | src/pages/CalendarPage.tsx:85-87 | two saves for the same user and day leave only the second |
| CalendarPage.SortedDays | src/pages/CalendarPage.tsx:61 | a set of days in strictly ascending order, each once |
| CalendarPage.QueryLogs | src/pages/CalendarPage.tsx:56-62 | the query returns exactly the user's rows, by strictly ascending day |
| CalendarPage.LogOn | src/pages/CalendarPage.tsx:118-120 | `selectedLog` is none exactly when no log is for the day; otherwise it is one of the logs, for that day |
| CalendarPage.TileContent | src/pages/CalendarPage.tsx:101-111 | a tile has a dot exactly when some log is for its day, and the dot has the colour of such a log's mood |
| CalendarPage.LogOnSpec | src/pages/CalendarPage.tsx:101-120 | a tile has a dot, and `selectedLog` a value, exactly when some log is for that day; it is the first such log and the dot has its mood's colour; it is the first of the day's logs as `filter` would list them |
| CalendarPage.DailyAppointments | src/pages/CalendarPage.tsx:114-116 | the selected day's appointments are those of the list on that day, never more than the list |
| CalendarPage.DailyAppointmentsSelects | src/pages/CalendarPage.tsx:114-116 | the selected day's appointments are exactly those on that day, in list order |
| CalendarPage.SavedLogIsFound | src/pages/CalendarPage.tsx:93-120 | after a save and a reload, the saved log is what the page finds for its day |
| CalendarPage.OnDayAsWritten | src/pages/CalendarPage.tsx:102 | as written, at or east of UTC (less than a day ahead) a log matches exactly its own day |
| CalendarPage.OnDayAsWrittenShift | src/pages/CalendarPage.tsx:102 | as written, west of UTC a log matches the day before its own; at or east of UTC it matches its own day |
| CalendarPage.SavedLogMissedAsWritten | src/pages/CalendarPage.tsx:118-120 | as written, west of UTC the log just saved is not what the page finds for its day |
| CalendarPage.CalendarPage.constructor | src/pages/CalendarPage.tsx:25-32 | no user, no logs or appointments, today selected, empty comment and mood, loading, not saving |
| CalendarPage.CalendarPage.LoadLogs | src/pages/CalendarPage.tsx:56-63 | the logs become the user's rows when the query returns data and stay otherwise |
| CalendarPage.CalendarPage.LoadAppointments | src/pages/CalendarPage.tsx:65-72 | the appointments are replaced when the query returns data and kept otherwise |
| CalendarPage.CalendarPage.LoadUserAndData | src/pages/CalendarPage.tsx:35-51 | nothing without an authenticated user and their `users` row; otherwise the user id is set, both lists loaded, loading ended |
| CalendarPage.CalendarPage.SelectDate | src/pages/CalendarPage.tsx:141 | the selected date becomes the clicked date |
| CalendarPage.CalendarPage.ChooseMood | src/pages/CalendarPage.tsx:162 | the mood becomes the clicked one |
| CalendarPage.CalendarPage.EditComment | src/pages/CalendarPage.tsx:186 | the comment becomes the typed text |
| CalendarPage.CalendarPage.BeginSave | src/pages/CalendarPage.tsx:75-83 | rejected, changing nothing, without a user id or a mood; otherwise `saving` is set and the row is keyed on the selected day |
| CalendarPage.CalendarPage.FinishSave | src/pages/CalendarPage.tsx:85-98 | a successful upsert writes the table, reloads the logs and clears mood and comment; a failure changes nothing but `saving`; `saving` always ends |
| CalendarPage.CalendarPage.HandleSave | src/pages/CalendarPage.tsx:74-99 | the guard, the upsert, the reload and the reset; after a successful save and reload the selected day's log is the one saved |
| Forms.RenderQuestions | src/pages/Forms.tsx:76-88 | the notice exactly when no form is selected or its schema is falsy; an array schema's questions; no questions for a non-array schema |
| Forms.ControlOf | src/pages/Forms.tsx:96-107 | a text area exactly for type `textarea`; an input of type `text` for a question without a type; otherwise an input of the question's type |
| Forms.Lookup | src/pages/Forms.tsx:100 | `answers[key]` is absent exactly when no entry has the key; otherwise an entry's value |
| Forms.DisplayedAnswer | src/pages/Forms.tsx:100 | a control shows the stored text when the answer is text, and `""` when it is missing |
| Forms.TypedAnswerIsShown | src/pages/Forms.tsx:100-112 | what was typed into a field is what its control shows; other controls are unchanged |
| Forms.SetAnswer | src/pages/Forms.tsx:28-31 | a field edit adds at most one entry |
| Forms.SetAnswerShape | src/pages/Forms.tsx:28-31 | an existing key keeps its place and takes the new value; a new key goes last; every other entry stays as it was |
| Forms.SetAnswerUnique | src/pages/Forms.tsx:28-31 | the answers object never holds a key twice |
| Forms.SetAnswerSpec | src/pages/Forms.tsx:28-31 | the edited field reads the new value, every other field reads as before, existing keys keep their places |
| Forms.SubmittedAnswerIsRead | src/pages/Forms.tsx:57-63 | a typed answer is what the series extraction reads under the field's canonical key, unless another key normalises alike |
| Forms.FormsPage.constructor | src/pages/Forms.tsx:6-8 | no forms, no selection, empty answers |
| Forms.FormsPage.FetchForms | src/pages/Forms.tsx:13-21 | the list is replaced on success and kept on error |
| Forms.FormsPage.SelectForm | src/pages/Forms.tsx:135 | choosing a form, or going back, keeps the answers |
| Forms.FormsPage.HandleAnswerChange | src/pages/Forms.tsx:27-32 | the answers become the edit, which sets that field, keeps the others, and keeps keys unique |
| Forms.FormsPage.HandleSubmit | src/pages/Forms.tsx:35-73 | no form, no user or no `users` row: nothing changes; a failed insert keeps form and answers; a successful one appends the row (user row id, form id, answers) and resets form and answers |

## Left out

- Supabase, React rendering, Recharts, `alert`, `console` and navigation are left out. Queries are parameters, and a view is the value it is rendered from.
- `Promise.all` in `loadUserAndData` is modelled as the two loads in sequence. The two loads touch different state.
- The model does not capture interleaving across an `await`. `handleSave` is split at its `await` into `BeginSave` and `FinishSave`. A second save while `saving` is set is not excluded; the source only disables the button.
- Dates: the `yyyy-MM-dd` day is a day number, and instants are milliseconds of local time. `date-fns` `format` and `isSameDay` become `DayOf`. Time zones appear only as the `offset` of `OnDayAsWritten`.
- `toLocaleDateString` is the host's `localeDate`, so its formatting is not modelled.
- `KeyNormalizer.NormalizeKeys`: NFD and `toLowerCase` are applied one character at a time. Canonical reordering of marks, context-dependent lower-casing such as the Greek final sigma, and one-to-many lower-case mappings (U+0130 lower-cases to two characters) are not modelled. NFD decomposes U+0130 before lower-casing, so that case does not reach `toLowerCase`.
- `KeyNormalizer.NormalizeKeys`, `KeyNormalizer.NormalizeAnswers`, `KeyNormalizer.NormalizedEntriesSpec`: the dictionary is a plain `{}`, so a key that normalises to `__proto__` does not become an entry. An object value under it becomes the dictionary's prototype, so `{"__proto__": {"peso": 80}}` reads `peso` as 80. A value of any other type is dropped. The model treats `__proto__` as an ordinary key, so "the keys are exactly the images of the input keys" does not hold for it.
- `CalendarPage.LogOn`, `CalendarPage.TileContent`, `CalendarPage.LogOnSpec`, `CalendarPage.CalendarPage.HandleSave`: these use the corrected day match, with no time zone. West of UTC the code matches the day before (see Findings).
- JSON arrays are not among the modelled values. `normalizeKeys` treats an array like any object (its indices become keys); the model gives `{}` only for values that are not objects.
- `Object.entries` order, where integer-like keys come first, is taken to be the order of the object's entries.
- `Json.ToNumber`: infinities are not distinguished from other numbers; `Number` of text is the host's parser.
- The reload after a save reads the modelled table. Writes by other clients between the upsert and the reload are not modelled.
- `HealthCharts.Chart`, `HealthCharts.FormatGeneral`: both use the corrected `SplitPressure`, so a non-text `presion` gives 0/0 where the code throws (see Findings).
- `Forms.DisplayedAnswer`: a non-text answer shows as `""`, while `answers[q.name] || ""` would show a truthy number or boolean as its text. The page stores only text through `handleAnswerChange`, so this case does not arise.
- `HealthCharts.Chart`: the `return null` for an unknown chart type is unreachable, because the type is one of three.
- Only the first two pieces of `split("/")` are used, as in the source. A missing second piece (`"120/"`) goes through the host parser like any other text.
- The other pages and components (`Reports`, `Profile`, `Login`, `App`, `Navbar`, layout) are not part of this model.

## Findings

| source | as written | input that shows it | evidently intended | confidence | as-written member | corrected member |
|---|---|---|---|---|---|---|
| src/components/HealthCharts.tsx:31 | `d.presion?.includes("/")` calls `includes` on whatever `presion` holds; the extraction passes a non-text answer through unchanged | a general submission whose `presion` answer is the JSON number `120` makes the general chart throw a TypeError | a `presion` that is not text gives 0/0, as a missing one does | medium; not executed | HealthCharts.PressureAsWrittenThrowsOnNumber | HealthCharts.SplitPressure |
| src/pages/CalendarPage.tsx:102 | `isSameDay(new Date(l.date), date)` parses the stored `yyyy-MM-dd` as midnight UTC and compares local days | in a zone at UTC-5, a log saved for 16 October gets its dot on 15 October, and `selectedLog` for 16 October is not it | a log shows on the day it was saved for | medium; not executed | CalendarPage.SavedLogMissedAsWritten | CalendarPage.SavedLogIsFound |
