# Video-name generator: a Dafny model

This project models the naming logic of a form-driven video-name generator.
The form collects an account name, content frameworks, a planned publish date,
a script name and an optional editor name. From these the generator returns
either one canonical name such as `男主播A-信任,价格-20250601-Polo衫面料深度解析-张三`
or one error text such as `错误: 发布日期不能早于今天`.

The pipeline has four parts, one Dafny module each, on top of three support
modules:

- `Text` (`text.dfy`): JavaScript `trim`, `split` on one character and `join`
  with one character, over `seq<char>`. `IsSpace` is the ECMAScript WhiteSpace
  and LineTerminator set.
- `Calendar` (`calendar.dfy`): calendar dates, instants within a local day,
  decimal spelling, two-digit padding, and the `YYYYMMDD` stamp with its parser.
- `Wrappers` (`wrappers.dfy`): `Option` and `Outcome`.
- `Normalizer` (`normalizer.dfy`): the custom-framework parser, the
  preset/custom framework choice, and the collapse of the date field.
- `Validator` (`validator.dfy`): the four ordered generic rules and the
  custom-mode rule, stated once as a generic "first failing rule" reading.
- `Composer` (`composer.dfy`): the segments `[account, frameworks?, stamp?,
  script, editor?]` and their `-` join.
- `Pipeline` (`pipeline.dfy`): `execute`. It normalises, validates, applies the
  custom-mode rule, composes the name, and renders the result text.
  `ExecuteAsWritten` is `execute` exactly as written. `Execute` is the
  corrected pipeline: it differs only in reading an empty date array as no
  date (see Findings), and `Pipeline.ExecuteAgreesOffEmptyArray` proves the
  two agree on every other form.
- `Scenarios` (`scenarios.dfy`): worked example requests, each proved for
  concrete form values.

Modelling choices:

- "Now" is an explicit `Instant` parameter, so the past-date rule is a plain
  comparison.
- An `Instant` is a calendar date plus the milliseconds since that day's local
  midnight. `InstantBefore` is the order `<` gives two `Date` objects in one
  time zone. `StartOfDay` is `setHours(0, 0, 0, 0)`.
- Absent text fields are the empty string, which is how the pipeline's `|| ''`
  reads them. The mode radio is modelled by its `value` alone.
- A preset entry is a bare string or an option object (`Selection`). The
  expression `fw.value || fw` is modelled as written. A bare string stays
  itself. An option object whose `value` is missing or empty becomes the
  object. `join` then spells that object as `[object Object]`.
- In three places the code behaves differently from what a reader might
  expect. The model states the code's behaviour each time:
  - The framework segment appears when the joined framework text is
    non-empty, not when the list is non-empty. A preset list holding only `""`
    gives no segment. `Composer.FrameworkSegmentPresence` shows the two
    readings agree whenever every value is non-empty, as parsed custom
    frameworks always are.
  - An empty date array is not treated as absent. `ExecuteAsWritten` keeps
    this behaviour; `Execute` corrects it (see Findings).
  - An option object without a usable `value` is not skipped. It becomes
    `[object Object]`, as described above.

## Model

| member | source | states |
|---|---|---|
| Text.TrimStartSpec | src/index.ts:61 | dropping leading whitespace leaves the suffix that starts at the first non-whitespace character, and everything dropped was whitespace |
| Text.TrimEndSpec | src/index.ts:61 | dropping trailing whitespace leaves the prefix that ends at the last non-whitespace character, and everything dropped was whitespace |
| Text.TrimSpec | src/index.ts:61 | `Trim` (`String.prototype.trim`) returns the infix of its argument between leading and trailing whitespace; that infix has no whitespace at either end, and it is empty exactly when the text is all whitespace |
| Text.TrimOfPadded | src/index.ts:47 | trimming is determined by its result: a trimmed text padded with whitespace on both sides trims back to itself |
| Text.TrimIdempotent | src/index.ts:47 | `trim` is idempotent: trimming a piece that is already trimmed changes nothing |
| Text.Split | src/index.ts:46 | `split(',')` gives at least one piece, and no piece contains a comma |
| Text.SplitCount | src/index.ts:46 | `split(',')` gives exactly one more piece than there are commas in the text |
| Text.TrimIsTrimmed | src/index.ts:61 | the result of `trim` has no whitespace at either end |
| Text.Join | src/index.ts:66 | `join` of one element is that element; an empty join means every element was empty; two or more elements put the separator in the result |
| Text.JoinEndsWithLast | src/index.ts:96 | a join of two or more parts starts with the first part and the separator, and ends with the separator and the last part |
| Text.JoinSplit | src/index.ts:45-46 | joining the pieces of a split with the same separator gives the original text back |
| Text.SplitJoin | src/index.ts:96 | splitting a join of separator-free parts gives exactly those parts back |
| Text.SplitAround | src/index.ts:46 | the pieces of `a,b` are the pieces of `a` followed by the pieces of `b` |
| Calendar.DecimalText | src/index.ts:74-77 | `String(n)` is a non-empty digit string without a leading zero, and it reads back as `n` |
| Calendar.YearTextReadsBack | src/index.ts:74-77 | `YearText` (`String(year)`) starts with a minus sign exactly for a negative year, and its digits read back as the year's magnitude |
| Calendar.DecimalTextLength | src/index.ts:74 | a number between 10^(k-1) and 10^k - 1 is spelled with exactly k digits |
| Calendar.Pad2Digits | src/index.ts:75-76 | `Pad2` (`padStart(2, '0')`) of a month or day number gives exactly two digits that read back as the number |
| Calendar.StampRoundTrip | src/index.ts:73-77 | for years 1000 to 9999 the `Stamp` is eight digits, and parsing it as `YYYYMMDD` gives back the date it came from |
| Calendar.StampInjective | src/index.ts:73-77 | two dates with four-digit years get the same stamp exactly when they are the same date |
| Calendar.BeforeStartOfDay | src/index.ts:114-118 | an instant is before the midnight that starts today exactly when its calendar day is before today's |
| Calendar.DateBeforeTrichotomy | src/index.ts:118 | calendar days are strictly and totally ordered |
| Normalizer.TrimEachAppend | src/index.ts:47 | the `map(trim)` step works piece by piece: trimming the pieces of two lists one after the other is trimming each list |
| Normalizer.TrimEachIdempotent | src/index.ts:47 | trimming the pieces a second time changes nothing |
| Normalizer.TrimEachOfTrimmed | src/index.ts:47 | pieces that are already trimmed come through `map(trim)` unchanged |
| Normalizer.DropEmpty | src/index.ts:48 | the `filter` step keeps only non-empty pieces, all drawn from its input |
| Normalizer.ParseCustomFrameworks | src/index.ts:40-50 | every parsed framework is non-empty, trimmed and comma-free, and blank text parses to no frameworks |
| Normalizer.ParseIsSplitTrimFilter | src/index.ts:41-49 | the early return for blank text agrees with the general split, trim and filter path |
| Normalizer.ParseAroundComma | src/index.ts:45-49 | parsing `a,b` gives the frameworks of `a` followed by those of `b`, so order and duplicates are kept |
| Normalizer.ParseOnePiece | src/index.ts:45-49 | a comma-free text parses to its trimmed self, or to nothing when it is blank |
| Normalizer.ParseTrimmedPiece | src/index.ts:45-49 | a trimmed, non-empty, comma-free text parses to exactly itself |
| Normalizer.ParseJoinRoundTrip | src/index.ts:45-49 | joining well-formed frameworks with `,` and parsing the text gives the same list back |
| Normalizer.PresetValuesAppend | src/index.ts:228 | the preset mapping keeps order: the values of two selection lists one after the other are the values of each list in turn |
| Normalizer.PresetValuesOfOptions | src/index.ts:228 | `SelectionText` (`fw.value || fw`): option objects with non-empty values give back exactly those values |
| Normalizer.PresetValuesOfStrings | src/index.ts:228 | bare strings give back exactly themselves, the empty string included |
| Normalizer.PresetValuesOfValuelessOption | src/index.ts:228 | an option object whose `value` is missing or empty is not skipped: it contributes `[object Object]` at its own position |
| Normalizer.CustomFrameworkValuesRoundTrip | src/index.ts:219-222 | in custom mode the framework values are non-empty, trimmed and comma-free, and joining them with `,` parses back to the same values |
| Normalizer.FrameworkValuesReadOwnField | src/index.ts:219-229 | `IsCustomMode` (`frameworkMode.value === 'custom'`) decides which field is read: custom mode does not read the preset list, and any other mode does not read the free text |
| Normalizer.CollapseDateAsWrittenPicksFirst | src/index.ts:232-234 | as written, the collapse keeps the first delivered instant; the date is absent only when none was given, and an empty array becomes an invalid date |
| Normalizer.CollapseDatePicksFirst | src/index.ts:232-234 | the intended collapse keeps the first delivered instant, and there is no date exactly when no instant was delivered |
| Normalizer.CollapseDateDiffersOnEmptyArrayOnly | src/index.ts:232-234 | the intended and the as-written collapse differ on the empty array and on nothing else |
| Normalizer.NormalizeAgreesOffEmptyArray | src/index.ts:209-234 | the intended and the as-written normaliser give the same values exactly when the date is not an empty array |
| Validator.IsPastIsEarlierDay | src/index.ts:113-120 | `IsPast` holds of a date exactly when its calendar day is before today's; a date on today's day is accepted at any time of day |
| Validator.FirstFailingIndex | src/index.ts:105-126 | the position it returns is the first failing rule: every earlier rule holds and the rule at that position fails |
| Validator.FirstFailure | src/index.ts:105-126 | a rule list passes exactly when every rule holds; otherwise the reported error is that of a failing rule all of whose predecessors hold |
| Validator.ValidateInputs | src/index.ts:100-127 | each of the four errors is reported exactly when its rule fails and all earlier rules hold; the result passes exactly when all four hold |
| Validator.ValidateInputsIsFirstFailure | src/index.ts:105-126 | the validator equals the generic first-failure reading of the rule list (account, date present, date not past, script) |
| Validator.FirstFailureAt | src/index.ts:105-126 | the first failing rule alone decides the verdict |
| Validator.ShortAccountWins | src/index.ts:105-107 | an account shorter than two characters after trimming is reported whatever the other fields hold |
| Validator.MessageInjective | src/index.ts:105-254 | each of the five errors, the four validator errors and the custom-mode error, has its own `Message`, so the message text determines the error |
| Composer.DateSegment | src/index.ts:70-78 | the date segment is absent exactly when no date is given, and is never empty when present |
| Composer.AssembleLayout | src/index.ts:90-94 | the parts land in the order account, frameworks, date, script, editor, the framework and editor parts appear exactly when they are non-empty, and the date appears exactly when it is given |
| Composer.SegmentsLayout | src/index.ts:60-96 | `Segments` are the trimmed account, the `,`-joined frameworks if non-empty, the stamp if a date is given, the trimmed script, and the trimmed editor if non-empty, in that order and nothing else |
| Composer.NameEnds | src/index.ts:89-96 | `ComposeName` (`generateVideoName`) starts with the trimmed account and `-`, and ends with `-` and the trimmed editor, or the trimmed script when there is no editor |
| Composer.ComposeSplitRoundTrip | src/index.ts:96 | when no segment contains `-`, splitting `ComposeName` on `-` gives back its segments |
| Composer.ValidSegments | src/index.ts:89-96 | once validation passes, the name has three to five segments and none is empty |
| Composer.AssembleNonEmpty | src/index.ts:90-94 | with a non-empty account, script and date, the assembled list has three to five non-empty segments |
| Composer.FrameworkSegmentPresence | src/index.ts:64-67 | when every framework value is non-empty, the framework segment appears exactly when the list is non-empty |
| Composer.CustomFrameworkSegmentRoundTrip | src/index.ts:219-222 | in custom mode the framework segment of the name parses back to the framework list |
| Composer.NameIgnoresTimeOfDay | src/index.ts:73-77 | the name depends on the publish date's calendar day, not on its time of day |
| Pipeline.Run | src/index.ts:236-267 | a name is produced exactly when all five rules pass, and it is the composed name; otherwise the error is the first failing rule's; the custom-mode error is only reported after the generic rules passed |
| Pipeline.RunRules | src/index.ts:243-254 | the custom-mode rule is consulted only when the four generic rules all hold |
| Pipeline.RunAccepts | src/index.ts:256-267 | a request passing every rule gets the composed name |
| Pipeline.RunRejects | src/index.ts:243-247 | a request breaking a generic rule gets exactly that rule's error |
| Pipeline.ExecuteAgreesOffEmptyArray | src/index.ts:232-267 | `Execute`, the corrected pipeline, gives the same verdict as `ExecuteAsWritten` on every form whose date is not an empty array |
| Pipeline.RenderDistinguishesErrors | src/index.ts:243-254 | every rendered error starts with `错误: `, and two errors render to the same text exactly when they are the same error |
| Pipeline.CustomErrorOnlyAfterGenericRules | src/index.ts:249-254 | after the generic rules pass, the custom-mode error is reported exactly when custom mode is chosen and the free text parses to no framework, in `execute` as written and in the corrected pipeline |
| Pipeline.ShortAccountRejected | src/index.ts:237-247 | a short account rejects the whole request whatever else the form holds, an empty date array included, in `execute` as written and in the corrected pipeline |
| Pipeline.TodayIsAccepted | src/index.ts:113-120 | a publish date on today's calendar day, given as a timestamp or as the first element of an array, passes at any time of day, in `execute` as written and in the corrected pipeline |
| Pipeline.EmptyDateArrayAsWritten | src/index.ts:232-241 | in `ExecuteAsWritten` an empty date array passes validation and puts `NaNNaNNaN` into the name, while the corrected `Execute` reports the missing date |
| Scenarios.HappyPath | src/index.ts:207-267 | the full example request renders `男主播A-信任,价格-20250601-Polo衫面料深度解析-张三`, in `execute` as written and in the corrected pipeline |
| Scenarios.NoEditor | src/index.ts:84-94 | without an editor the same request renders without the editor segment, in both pipelines |
| Scenarios.EmptyCustomList | src/index.ts:249-254 | custom mode with empty free text is rejected with the custom-framework error, in both pipelines |
| Scenarios.PastDate | src/index.ts:113-120 | a publish date on the day before today is rejected as past, in both pipelines |
| Scenarios.ShortScript | src/index.ts:122-124 | a two-character script name is rejected, in both pipelines |
| Scenarios.CustomTextExample | src/index.ts:45-49 | `性价比, 实用性 ,美观度` parses to the three trimmed frameworks in order |
| Scenarios.CustomDuplicatesKept | src/index.ts:45-49 | a repeated framework is kept twice |
| Scenarios.ParseThree | src/index.ts:45-49 | three comma-separated texts parse to the concatenation of their own frameworks |
| Scenarios.ExampleStampText | src/index.ts:73-77 | 1 June 2025 is stamped `20250601` |
| Scenarios.EmptyDateArrayExample | src/index.ts:232-241 | the example request with an empty date array renders with `NaNNaNNaN` as written, and is rejected for a missing date once corrected |

## Left out

- The form schema, the option list, the `DEFAULT_FRAMEWORK_OPTIONS` constant and the `t` label table (src/index.ts:4-37, 130-205). They are declarative host configuration with no behaviour.
- The `async` wrapper, `try`/`catch`, `console.error` and the generic error text (src/index.ts:207-208, 268-273). The model is typed, so no field can be of an unexpected shape and nothing can throw.
- Turning timestamps into local dates: time zones, daylight-saving shifts and the epoch. An instant is given directly as a calendar date plus milliseconds since local midnight.
- The falsiness of the timestamp `0`. The code would report it as a missing date rather than a past date.
- `Calendar.ValidDate` is not built into the `Date` type. Only the stamp lemmas ask for it. The operations accept any triple, as the code would format any `Date`.
- Validator.ValidateInputs: lengths count Unicode characters, not UTF-16 code units. A character outside the Basic Multilingual Plane counts once here and twice in the source, so two-character and three-character minimums can differ for such text.
- Composer.ComposeSplitRoundTrip: stated only when no segment contains `-`. A hyphen inside an account, framework, script or editor name, or the minus sign of a negative year, makes the split ambiguous.
- Idempotence of composition is not stated as a lemma. Every operation is a Dafny function, so equal inputs give equal outputs by construction.
- Runtime shapes outside the typed model: a `frameworks` value that is not an array, or a mode object with a non-string `value`.

## Findings

| source | as written | input that shows it | evidently intended | confidence | as-written member | corrected member |
|---|---|---|---|---|---|---|
| src/index.ts:232-241 | an empty date array is not collapsed; it reaches `new Date([])`, which is an invalid date. It passes the presence check because `[]` is truthy, and passes the past-date check because comparing with NaN is false | `plannedPublishDate = []` with a valid account and script | an empty array means no date was picked, so the request is rejected with `请选择发布日期` | medium, not executed | Pipeline.EmptyDateArrayAsWritten | Normalizer.CollapseDate |
