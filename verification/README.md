# EV charging data processor, modelled in Dafny

`EVDataProcessor` (`Codes/data_processing.py`) cleans a table of electric-vehicle
charging sessions in a fixed sequence of steps:

1. Six categorical columns are cleaned: vehicle model, station location, time
   of day, day of week, charger type and user type. Each raw cell is filled,
   normalised, corrected through an alias table and relabelled through a
   canonical table.
2. Rows with a missing cell are dropped.
3. The start and end timestamps are split into date and time columns.
4. The `%`, `$` and `S` symbols are deleted, and the charge difference and the
   duration in minutes are derived.
5. Two diagnostics are computed: the count of duplicated rows and the outlier
   count of each numeric column under the 1.5·IQR rule.

The model follows the Python file step by step.

- **Table.** A table is a set of column names plus a sequence of rows. A row
  maps column names to cells. A cell is missing (`NaN`/`None`), a string or a
  number (`real`). All of this is in module `Tables`.
- **Processor.** The processor is a class, `Processor.EVDataProcessor`. Its
  field `df` is `None` until a table is loaded. Each pipeline step is a method
  that rewrites `df`. Each method is proved equal to a specification function
  of the old table: `CleanRules`, `HandleMissing`, `ProcessDatetime`,
  `CleanFeatures`, `DuplicateCount` and `OutlierCounts`. The lemmas about
  those functions state what the steps promise.
- **Failures.** A step called before `load` fails with `NotLoaded`, as
  `_ensure_df` does. A step that raises part-way (a `KeyError` for an absent
  column, or a value that cannot be parsed) leaves `df` with the assignments
  made before the failure, as pandas does.
- **Library calls.** Calls into pandas and Python whose results the file does
  not define are parameters of the model, gathered in
  `Tables.Conversions`. They are:
  - `str()` of a float;
  - `float()` of a string;
  - `pd.to_datetime` on a date or time token;
  - `Series.quantile`.

Strings are ASCII. Whitespace is Python's `str.isspace` restricted to ASCII:
codes 9–13, 28–31 and 32. `lower()` changes only `A`–`Z`.

Some behaviours of the code are stated as lemmas:

- **The `"nan"` test comes before the `#` cut.** `_normalize_text` tests for
  `"nan"` before it removes the trailing `#` run. So `"nan#"` becomes the
  string `"nan"`, not a missing value (`Normalizer.NormalizeNanHashExample`).
- **Normalising is not idempotent.** `"a# #"` becomes `"a#"`, which becomes
  `"a"` (`Normalizer.NormalizeNotIdempotent`).
- **Cleaning a column twice can change it.** One might expect categorical
  cleaning to be idempotent; the code is not. It is idempotent except for a
  kept value that ends in `#` or is `"nan"`. A raw `"nan#"` cleans to `"nan"`,
  and a second cleaning turns that into a missing value. The model follows the
  code: `Categorical.CleanTwice` proves idempotence for every other cleaned
  cell, the empty string of a blank cell included
  (`Categorical.CleanBlankCell`), and `Categorical.CleanVehicleNotIdempotent`
  exhibits the exception.
- **A line break stops the fraction cut.** The regex `\..*$` cuts the end
  time's fractional seconds only when no line break follows the `.`. In
  Python, `.` does not match a line break, and `$` also matches before a final
  line break (`Datetime.DropFractionBreak`).

## Model

| member | source | states |
|---|---|---|
| Normalizer.NormalizeText | Codes/data_processing.py:172-203 | the result is missing exactly when the input is None/NaN or its stripped lower-case form is "nan"; otherwise it is lower case, trimmed, and its whitespace is single plain spaces |
| Normalizer.NormalizedShape | Codes/data_processing.py:195-199 | cutting the `#` run, stripping and collapsing a lower-case string gives a normal form |
| Normalizer.NormalizeKeepsWords | Codes/data_processing.py:190-200 | the non-blank characters of the result are those of the stripped, lower-cased text once its trailing `#` run is cut |
| Normalizer.NormalizeTidy | Codes/data_processing.py:190-203 | a trimmed, single-spaced value not ending in `#` and not "nan" normalises to its lower-case form |
| Normalizer.NormalizeFixesNormalForms | Codes/data_processing.py:190-203 | a normal form that does not end in `#` and is not "nan" is left as it is |
| Normalizer.NormalizeTidyAfterStrip | Codes/data_processing.py:190-203 | a value whose stripped form is tidy normalises to that form lower-cased |
| Normalizer.NormalizePaddedExample | Codes/data_processing.py:190-203 | "Audi E-Tro  " normalises to "audi e-tro" |
| Normalizer.NormalizeNanExample | Codes/data_processing.py:190-194 | " NaN " normalises to missing |
| Normalizer.NormalizeNanHashExample | Codes/data_processing.py:190-197 | "nan#" normalises to the string "nan": the "nan" test precedes the `#` cut |
| Normalizer.NormalizeNotIdempotent | Codes/data_processing.py:196-200 | "a# #" normalises to "a#", which normalises to "a" |
| Normalizer.StripKeepsText | Codes/data_processing.py:190 | stripping removes only whitespace |
| Normalizer.Lookup | Codes/data_processing.py:206-230 | a key of the table is replaced by its entry; any other value and a missing value are returned unchanged |
| Text.Lower | Codes/data_processing.py:190 | ASCII `lower()`: same length, no upper-case letter left |
| Text.Strip | Codes/data_processing.py:190 | `strip()`: the result is trimmed, no longer than the input, and holds only characters of the input |
| Text.DropTrailingHashes | Codes/data_processing.py:197 | `re.sub("[#]+$", "", s)`: the result is a prefix of the input, does not end in `#`, and only `#` characters were cut |
| Text.Collapse | Codes/data_processing.py:200 | `re.sub(r"\s+", " ", s)`: empty only for an empty input, and blank at either end only where the input is |
| Text.CollapseRun | Codes/data_processing.py:200 | a maximal whitespace run between two texts becomes exactly one space, and the texts on either side collapse on their own |
| Text.TrimStartAppend | Codes/data_processing.py:200 | the leading whitespace run of a text that ends in a non-blank character is trimmed the same whatever follows it |
| Text.CollapseDoubleSpace | Codes/data_processing.py:200 | "a  b" collapses to "a b" |
| Text.SpaceChars | Codes/data_processing.py:200 | `\s` on ASCII matches exactly space, tab, line feed, carriage return, vertical tab, form feed and the four separators 28–31 |
| Text.CollapseSpaces | Codes/data_processing.py:200 | the collapsed string has only plain spaces and never two blanks in a row |
| Text.CollapseNoUpper | Codes/data_processing.py:200 | collapsing a string without upper-case letters gives one without upper-case letters |
| Text.CollapseKeepsText | Codes/data_processing.py:200 | collapsing keeps every non-blank character in order |
| Text.RemoveChar | Codes/data_processing.py:435-449 | `str.replace(c, "")`: the result has no `c` and the same characters otherwise, counted with multiplicity |
| Text.RemoveCharAppend | Codes/data_processing.py:435-449 | deleting a character works piece by piece, so the other characters keep their order |
| Text.Split | Codes/data_processing.py:380-385 | `str.split(" ")`: at least one field, the first is the text before the first space, no field holds a space |
| Text.JoinSplit | Codes/data_processing.py:380-385 | joining the fields with spaces gives back the string |
| Text.SplitJoin | Codes/data_processing.py:380-385 | splitting fields joined by spaces gives back the fields |
| Text.Repeat | Codes/data_processing.py:455 | `str * n` has n times the length, and each position holds the character of `s` at that position modulo the length of `s` |
| Tables.MapColumn | Codes/data_processing.py:259 | writing a column changes that column only, cell by cell, and keeps the rows |
| Tables.DeriveColumn | Codes/data_processing.py:380-385 | a new column is computed from another; all other cells are kept |
| Tables.CombineColumns | Codes/data_processing.py:452 | a new column is computed from two others; all other cells are kept |
| Tables.DropColumn | Codes/data_processing.py:406 | the column disappears and every other cell is kept |
| Tables.RenameColumn | Codes/data_processing.py:409-416 | the cells move to the new name and every other cell is kept |
| Tables.AsStr | Codes/data_processing.py:435 | `astype(str)`: a string is kept, a missing value becomes "nan" |
| CategoryRules.RulesWellDesigned | Codes/data_processing.py:64-165 | each of the six rule tables is well designed, as in the rows below |
| CategoryRules.RulesDistinct | Codes/data_processing.py:294-318 | the six rules clean six different columns |
| CategoryRules.VehicleWellDesigned | Codes/data_processing.py:64-122 | every vehicle alias target is a canonical key, no key is both an alias and a canonical key, each label lower-cases to its key, and all keys are reachable normal forms other than "nan" and "unknown" |
| CategoryRules.LocationWellDesigned | Codes/data_processing.py:73-131 | the same for the location tables |
| CategoryRules.TimeWellDesigned | Codes/data_processing.py:82-139 | the same for the time-of-day tables |
| CategoryRules.DayWellDesigned | Codes/data_processing.py:90-150 | the same for the day-of-week tables |
| CategoryRules.ChargerWellDesigned | Codes/data_processing.py:101-159 | the same for the charger-type tables |
| CategoryRules.UserWellDesigned | Codes/data_processing.py:106-165 | the same for the user-type tables |
| CategoryRules.VehicleTargets | Codes/data_processing.py:64-122 | every vehicle alias target is a key of the vehicle canonical table |
| CategoryRules.LocationTargets | Codes/data_processing.py:73-131 | every location alias target is a canonical key |
| CategoryRules.TimeTargets | Codes/data_processing.py:82-139 | every time-of-day alias target is a canonical key |
| CategoryRules.DayTargets | Codes/data_processing.py:90-150 | every day-of-week alias target is a canonical key |
| CategoryRules.ChargerTargets | Codes/data_processing.py:101-159 | every charger-type alias target is a canonical key |
| CategoryRules.UserTargets | Codes/data_processing.py:106-165 | every user-type alias target is a canonical key |
| CategoryRules.VehicleLabels | Codes/data_processing.py:116-122 | every vehicle label lower-cases to its key |
| CategoryRules.LocationLabels | Codes/data_processing.py:125-131 | every location label lower-cases to its key |
| CategoryRules.TimeLabels | Codes/data_processing.py:134-139 | every time-of-day label lower-cases to its key |
| CategoryRules.DayLabels | Codes/data_processing.py:142-150 | every day-of-week label lower-cases to its key |
| CategoryRules.ChargerLabels | Codes/data_processing.py:154-159 | every charger-type label lower-cases to its key |
| CategoryRules.UserLabels | Codes/data_processing.py:162-165 | every user-type label lower-cases to its key |
| CategoryRules.VehicleAliasKeys | Codes/data_processing.py:64-70 | every vehicle alias key is a plain lower-case phrase, neither "nan" nor "unknown" |
| CategoryRules.VehicleCanonKeys | Codes/data_processing.py:116-122 | every vehicle canonical key is such a phrase |
| CategoryRules.LocationAliasKeys | Codes/data_processing.py:73-79 | the same for the location aliases |
| CategoryRules.LocationCanonKeys | Codes/data_processing.py:125-131 | the same for the location canonical keys |
| CategoryRules.TimeAliasKeys | Codes/data_processing.py:82-87 | the same for the time-of-day aliases |
| CategoryRules.TimeCanonKeys | Codes/data_processing.py:134-139 | the same for the time-of-day canonical keys |
| CategoryRules.DayAliasKeys | Codes/data_processing.py:90-98 | the same for the day-of-week aliases |
| CategoryRules.DayCanonKeys | Codes/data_processing.py:142-150 | the same for the day-of-week canonical keys |
| CategoryRules.ChargerAliasKeys | Codes/data_processing.py:101-103 | the same for the charger-type aliases |
| CategoryRules.ChargerCanonKeys | Codes/data_processing.py:154-159 | the same for the charger-type canonical keys |
| CategoryRules.UserAliasKeys | Codes/data_processing.py:106-110 | the same for the user-type aliases |
| CategoryRules.UserCanonKeys | Codes/data_processing.py:162-165 | the same for the user-type canonical keys |
| CategoryRules.VehicleApart | Codes/data_processing.py:64-122 | no vehicle alias key is also a canonical key |
| CategoryRules.LocationApart | Codes/data_processing.py:73-131 | no location alias key is also a canonical key |
| CategoryRules.TimeApart | Codes/data_processing.py:82-139 | no time-of-day alias key is also a canonical key |
| CategoryRules.DayApart | Codes/data_processing.py:90-150 | no day-of-week alias key is also a canonical key |
| CategoryRules.ChargerApart | Codes/data_processing.py:101-159 | no charger-type alias key is also a canonical key |
| CategoryRules.UserApart | Codes/data_processing.py:106-165 | no user-type alias key is also a canonical key |
| CategoryRules.KeyReachable | Codes/data_processing.py:64-203 | every alias or canonical key is a fixed point of `_normalize_text`, so it can match |
| CategoryRules.NormalizeLabel | Codes/data_processing.py:116-203 | a canonical label normalises back to its key |
| CategoryRules.AliasesDoNotChain | Codes/data_processing.py:206-211 | an alias target is never itself an alias key, so one replacement pass suffices |
| CategoryRules.LabelNotUnknown | Codes/data_processing.py:116-165 | no canonical label is "unknown" or "Unknown" |
| Categorical.FilledText | Codes/data_processing.py:243 | `fillna("Unknown")` then `str()`: a missing cell becomes "Unknown" |
| Categorical.CleanCell | Codes/data_processing.py:243-256 | one cell of `_clean_categorical_column`: never a number, never "unknown" or "Unknown", and missing whenever the filled value normalises to missing |
| Categorical.CleanedSettled | Codes/data_processing.py:246-256 | every outcome of the case split is missing, a canonical label, or a normal form outside both tables other than "unknown" |
| Categorical.Relabel | Codes/data_processing.py:249-256 | never a number, and never the string "unknown" or "Unknown" |
| Categorical.CleanCellCases | Codes/data_processing.py:243-256 | a cleaned cell is, by cases on its normalised value: the label of its correction for a typo, its label for a correct form, missing for "unknown" or missing, the normalised value otherwise |
| Categorical.CleanKeepsMissing | Codes/data_processing.py:243-256 | a missing cell ends missing |
| Categorical.CleanMissingIff | Codes/data_processing.py:243-256 | a cell ends missing exactly when it normalises to missing or to "unknown" |
| Categorical.CleanedMissingIff | Codes/data_processing.py:246-253 | the case split ends missing exactly on a missing value and on "unknown" |
| Categorical.CleanCellShape | Codes/data_processing.py:243-256 | a cleaned cell is missing, a canonical label, or a normal form that is neither an alias, a canonical key nor "unknown" |
| Categorical.CleanRepairsTypo | Codes/data_processing.py:243-256 | a cell that normalises to an alias key ends as `canon[aliases[key]]` |
| Categorical.CleanKeepsLabel | Codes/data_processing.py:243-256 | a canonical label is cleaned to itself |
| Categorical.CleanTwice | Codes/data_processing.py:243-256 | cleaning a cleaned cell again changes nothing unless the kept value ends in `#` or is "nan"; the empty string is kept |
| Categorical.CleanKeepsPlain | Codes/data_processing.py:243-256 | a normal form outside both tables that does not end in `#` and is neither "nan" nor "unknown" is cleaned to itself, the empty string included |
| Categorical.CleanedPlain | Codes/data_processing.py:249-256 | a value outside both tables other than "unknown" passes the alias, label and unknown steps unchanged |
| Categorical.CleanBlankCell | Codes/data_processing.py:243-256 | a blank cell, all whitespace, is cleaned to the empty string, and the empty string counts as kept |
| Categorical.CleanCellFixed | Codes/data_processing.py:243-256 | a missing cell, a label and such a plain normal form are each cleaned to themselves |
| Categorical.CleanColumnTwice | Codes/data_processing.py:232-259 | a column of labels and missing cells is left as it is |
| Categorical.CleanColumn | Codes/data_processing.py:232-259 | `_clean_categorical_column`: every cell of the column is cleaned; the row count and every other column are unchanged |
| Categorical.FirstAbsent | Codes/data_processing.py:294-318 | the position of the first rule whose column is absent: all earlier columns are present |
| Categorical.CleanRules | Codes/data_processing.py:294-318 | `clean_categoricals_auto`: it fails with a KeyError for the first absent column, and succeeds when none is absent; rows, column set and untouched columns are kept |
| Categorical.CleanRulesCells | Codes/data_processing.py:294-318 | on success, each of the rule columns holds its cleaned cells |
| Categorical.CleanVehicleExample | Codes/data_processing.py:64-122 | "Audi E-Tro  " cleans to "Audi e-Tron" |
| Categorical.CleanVehicleNotIdempotent | Codes/data_processing.py:190-256 | "nan#" cleans to the string "nan", and "nan" cleans to missing |
| Missingness.DropNa | Codes/data_processing.py:369 | `dropna()`: each kept row is complete and comes from the input |
| Missingness.DropNaMembers | Codes/data_processing.py:369 | a row is kept exactly when it is a complete row of the input |
| Missingness.DropNaAppend | Codes/data_processing.py:369 | dropping works row by row, so the kept rows keep their order |
| Missingness.DropNaKeepsAll | Codes/data_processing.py:369 | nothing is dropped exactly when every row is complete |
| Missingness.DropNaTwice | Codes/data_processing.py:369 | dropping twice drops nothing more |
| Missingness.AllMissingCount | Codes/data_processing.py:345-363 | the count of rows whose eight key columns are all missing, at most the row count |
| Missingness.AbsentKey | Codes/data_processing.py:345-357 | the first key column absent from the table, if any |
| Missingness.AllMissingDropped | Codes/data_processing.py:345-369 | the all-missing rows are among the dropped ones |
| Missingness.HandleMissing | Codes/data_processing.py:331-370 | a KeyError exactly when a key column is absent; otherwise the all-missing count and the complete rows with the same columns |
| Missingness.HandleMissingLeavesNoGaps | Codes/data_processing.py:369 | after the step no cell of any column is missing |
| Datetime.FieldCell | Codes/data_processing.py:380-385 | `.str.split(" ").str[n]`: never a number, a field never holds a space |
| Datetime.DateField | Codes/data_processing.py:380-384 | `.str.split(" ").str[0]`: the text before the first space; missing for a cell that is not a string |
| Datetime.TimeField | Codes/data_processing.py:381-384 | `.str.split(" ").str[1]`: the text between the first and the second space; missing without a space or for a cell that is not a string |
| Datetime.DateToken | Codes/data_processing.py:380 | the date token is the text before the first space |
| Datetime.TimeToken | Codes/data_processing.py:381 | the time token is the second space-separated field, missing when there is no space |
| Datetime.SplitStamp | Codes/data_processing.py:380-385 | "date time" splits into its date and its time |
| Datetime.DropFraction | Codes/data_processing.py:388-390 | `re.sub(r"\..*$", "")`: the result is no longer than the input (the lemmas below give its value) |
| Datetime.DropFractionPlain | Codes/data_processing.py:388-390 | without a line break, everything from the first `.` is removed and no `.` remains |
| Datetime.DropFractionNoDot | Codes/data_processing.py:388-390 | a time without `.` is unchanged |
| Datetime.DropFractionBreak | Codes/data_processing.py:388-390 | ".5\nx" is unchanged: the regex does not cross a line break |
| Datetime.FractionExample | Codes/data_processing.py:388-390 | "12:30:00.0" becomes "12:30:00" |
| Datetime.FractionCell | Codes/data_processing.py:388-390 | a missing cell stays missing |
| Datetime.ParsedCell | Codes/data_processing.py:393-403 | a missing cell stays missing |
| Datetime.ParseColumn | Codes/data_processing.py:393-403 | fails exactly when some cell cannot be parsed; otherwise only that column is rewritten |
| Datetime.SplitColumns | Codes/data_processing.py:380-390 | the four new columns hold the date, time, date and fraction-free time fields |
| Datetime.ParseAll | Codes/data_processing.py:393-403 | the four conversions in order; success exactly when every new cell parses, and then each holds its parsed value |
| Datetime.Finish | Codes/data_processing.py:406-416 | the combined columns are replaced by the new ones under their final names; other columns are kept |
| Datetime.ProcessDatetime | Codes/data_processing.py:372-418 | `process_datetime_columns`: the table stays well formed with its row count, and on success both timestamp columns existed and the columns are the old ones without the four helper columns, plus the two date columns (the partial state of a failure is in the body only) |
| Datetime.ParsedRow | Codes/data_processing.py:380-403 | after a successful split and parse, the four new cells of a row are the parsed date and time tokens of its timestamps |
| Datetime.SplitColumnsParse | Codes/data_processing.py:380-403 | the split columns parse exactly when every date and time token of the timestamps parses |
| Datetime.ProcessDatetimeCells | Codes/data_processing.py:380-416 | on success each row holds the parsed date and time of each timestamp |
| Datetime.ProcessDatetimeKeepsOthers | Codes/data_processing.py:372-418 | on success every other column is unchanged |
| Datetime.ProcessDatetimeSucceeds | Codes/data_processing.py:372-418 | success exactly when both timestamp columns exist and every token parses |
| Features.Stripped | Codes/data_processing.py:435-449 | the stripped string holds no symbol |
| Features.FloatCell | Codes/data_processing.py:435-446 | a converted cell is never a string |
| Features.ToFloatColumn | Codes/data_processing.py:434-446 | fails exactly when some cell does not convert; otherwise only that column is rewritten |
| Features.StationCell | Codes/data_processing.py:449 | the station id is a string without `S` |
| Features.StripStationIds | Codes/data_processing.py:449 | only the station id column is rewritten |
| Features.Subtract | Codes/data_processing.py:452 | a number exactly when both are numbers, and then start plus the result is end |
| Features.TimesSixty | Codes/data_processing.py:455 | a number stays a number sixty times as large, a string becomes sixty copies of itself (sixty times the length, position `j` holding the character at `j` modulo the length), missing stays missing |
| Features.ConvertNumbers | Codes/data_processing.py:434-446 | the three conversions in order: the column set and row count are kept, and on success the three columns existed and each row holds its converted charge levels and cost (the partial state of a failure is in the body only) |
| Features.DeriveFeatures | Codes/data_processing.py:449-455 | station ids stripped, both new columns added; success exactly when the station id and hours columns exist |
| Features.CleanFeatures | Codes/data_processing.py:420-460 | `clean_symbols_and_features`; the row count is kept, and on success the five columns read existed and the two derived columns are added |
| Features.CleanFeaturesCells | Codes/data_processing.py:434-455 | on success each row holds the converted numbers, the id without `S`, end minus start, and hours times sixty |
| Features.CleanFeaturesKeepsOthers | Codes/data_processing.py:420-460 | on success every other column is unchanged |
| Features.ConvertNumbersSucceeds | Codes/data_processing.py:434-446 | the three conversions succeed exactly when their columns exist and every cell in them converts |
| Features.CleanFeaturesSucceeds | Codes/data_processing.py:420-460 | success exactly when the five columns read exist and every charge level and cost converts |
| Features.StrippedPieces | Codes/data_processing.py:435-449 | deleting a symbol keeps the text on either side in order |
| Features.PercentExample | Codes/data_processing.py:433-436 | "20%" gives "20" |
| Features.DollarExample | Codes/data_processing.py:443-446 | "$10.5" gives "10.5" |
| Features.StationExample | Codes/data_processing.py:449 | every `S` goes, not only a leading one: "S1S2" gives "12" |
| Diagnostics.Duplicated | Codes/data_processing.py:467 | a row is a duplicate exactly when it occurs among the other rows |
| Diagnostics.SameRowElsewhere | Codes/data_processing.py:467 | another index holds an equal row exactly when the rows before and after it contain it |
| Diagnostics.DuplicateMask | Codes/data_processing.py:467 | `duplicated(keep=False)`: a row is flagged exactly when another row equals it |
| Diagnostics.DuplicateCount | Codes/data_processing.py:467-470 | the number of flagged rows, at most the row count |
| Diagnostics.NoDuplicatesIff | Codes/data_processing.py:467-470 | the count is zero exactly when the rows are pairwise different |
| Diagnostics.DuplicateCountNeverOne | Codes/data_processing.py:467-470 | the count is never one: every copy of a repeated row is counted |
| Diagnostics.DuplicateCountAll | Codes/data_processing.py:467-470 | every row is counted exactly when every row has an equal partner |
| Diagnostics.NumericColumns | Codes/data_processing.py:482 | the columns without a string cell |
| Diagnostics.Values | Codes/data_processing.py:490-493 | the numbers `quantile` works on, at most one per row |
| Diagnostics.CountOutliers | Codes/data_processing.py:496-508 | the rows with a number outside the bounds, at most the number of numbers |
| Diagnostics.OutlierCount | Codes/data_processing.py:488-508 | the count for one column, with the quartiles of its numbers |
| Diagnostics.OutlierCounts | Codes/data_processing.py:482-508 | one entry per numeric column, each at most the row count |
| Diagnostics.OutlierCountsExt | Codes/data_processing.py:482-508 | a dictionary with the numeric columns as keys and each column's count as value is the outlier dictionary |
| Diagnostics.IsOutlier | Codes/data_processing.py:496-505 | strictly beyond `Q1 - 1.5 * IQR` or `Q3 + 1.5 * IQR`; with Q1 ≤ Q3 an outlier lies outside the quartiles |
| Diagnostics.NoOutliersIff | Codes/data_processing.py:496-508 | the count is zero exactly when no number of the column lies strictly beyond the 1.5·IQR fences |
| Diagnostics.InsideQuartiles | Codes/data_processing.py:496-505 | a value between the quartiles is never an outlier |
| Diagnostics.BoundsExample | Codes/data_processing.py:496-505 | with Q1 = 10 and Q3 = 20, 35 and -5 are not flagged, while 35.01 and -5.01 are |
| Diagnostics.NoOutliersInside | Codes/data_processing.py:496-508 | nothing is counted when every number lies between the quartiles |
| Diagnostics.AllMissingNoOutliers | Codes/data_processing.py:490-508 | a column of missing cells has no numbers and no outliers |
| Processor.EVDataProcessor.constructor | Codes/data_processing.py:20-25 | a new processor holds no table |
| Processor.EVDataProcessor.Load | Codes/data_processing.py:265-268 | after loading, `df` is the table |
| Processor.EVDataProcessor.EnsureDf | Codes/data_processing.py:521-524 | fails with NotLoaded exactly when no table is loaded |
| Processor.EVDataProcessor.CleanCategoricalColumn | Codes/data_processing.py:232-259 | cleans the column in `df`, or raises a KeyError, before writing, when it is absent |
| Processor.EVDataProcessor.CleanCategoricalsAuto | Codes/data_processing.py:294-318 | the six calls leave `df` and the outcome of `CleanRules` on the old table; NotLoaded without a table |
| Processor.EVDataProcessor.HandleMissingAndDropna | Codes/data_processing.py:331-370 | the count and the new `df` are those of `HandleMissing`; `df` is kept on a KeyError; NotLoaded without a table |
| Processor.EVDataProcessor.ProcessDatetimeColumns | Codes/data_processing.py:372-418 | the statements leave `df` and the outcome of `ProcessDatetime` on the old table; NotLoaded without a table |
| Processor.EVDataProcessor.CleanSymbolsAndFeatures | Codes/data_processing.py:420-460 | the statements leave `df` and the outcome of `CleanFeatures` on the old table; NotLoaded without a table |
| Processor.EVDataProcessor.CheckDuplicates | Codes/data_processing.py:462-472 | the duplicate count of `df`; NotLoaded without a table |
| Processor.EVDataProcessor.CheckOutliersIqr | Codes/data_processing.py:474-514 | the loop over the numeric columns fills exactly `OutlierCounts` of `df`; NotLoaded without a table |

## Left out

- `load`: `pd.read_csv` is file I/O. `Load` receives the table already read.
- `rename_columns`, `drop_user_id` and `get_df` are not modelled. The first
  two are plain pandas column operations outside the cleaning logic; `get_df`
  only returns `df`.
- Printing is not modelled. This covers `print_uniques_raw`,
  `print_uniques_clean`, the missing counts, the dtypes listing, the
  hard-coded percentage `150 / 1050 * 100` and the outlier report loop.
  - The counts the steps print are returned instead.
- Library conversions are abstract functions in `Tables.Conversions`:
  - `str()` of a float;
  - `float()` of a string, which gives a number, NaN or a ValueError;
  - `pd.to_datetime` and its `.dt.date`/`.dt.time`;
  - `Series.quantile` with linear interpolation.

  pandas infers one date format per column, which a per-cell conversion does
  not capture.
- Diagnostics.OutlierCount: the quartiles come from the abstract
  `quantile`. So no property of linear interpolation is proved, for example
  Q1 ≤ Q3.
- Diagnostics.NumericColumns: the column dtype is judged from the cells. A
  column without string cells counts as numeric, even one that pandas would
  type as `object` because it holds only missing values.
- Integers and floats are one kind of cell, `Num` with a `real`. Python
  prints `3` and `3.0` differently, so `str(x)` in `_normalize_text`
  (line 190) and `astype(str)` (lines 435–449) can differ from
  the `show` field of `Tables.Conversions` on a whole number held as an int.
- None, NaN and NaT are one missing cell. `astype(str)` turns them into
  "None", "nan" and "NaT"; `Tables.AsStr` always gives "nan".
- Floating point is modelled as `real`. Rounding is not modelled, so the
  products and differences are exact.
- Unicode is not modelled. Only ASCII `lower()`, `strip()` and `\s` are
  modelled.
- Column order is not modelled; a table holds a column set.
  - Renaming onto an existing name overwrites it.
- Errors of another kind are not modelled:
  - an `AttributeError` from `.str` on a column that holds no strings at all;
  - a `TypeError` from subtracting non-numbers. Cells that are not numbers
    subtract to missing, which cannot arise after the float conversions.
- Processor.EVDataProcessor.CleanCategoricalColumn requires a loaded table.
  Its only caller checks this first. Without the check, Python would raise a
  `TypeError`.
- `Codes/visualizations.py` and `main.py` are not part of this model. They
  hold plotting and a script that chains the steps.
