# OEE dashboard core in Dafny

This project models the two pieces of logic behind the OEE (Overall Equipment
Effectiveness) dashboard and proves properties about them:

- **The metric engine** (`calculate_oee_metrics`, `utils/calculations.py`).
  It overwrites each production record's planned production time with
  `totalPieces × idealCycleTime`. It then forms the Availability,
  Performance and Quality ratios and their product, OEE, and clips all four
  to [0, 1]. Records are a `datatype ProductionRow`. The table is an
  `array<ProductionRow>` that `Calculations.CalculateOeeMetrics` updates in
  place, and it is specified by the functions `WithMetrics` (one row) and
  `CalculateAll` (the whole table). Arithmetic is exact (`real`).
- **The ingestion layer** (`process_uploaded_file` and `validate_dataframe`,
  `utils/data_processing.py`). An uploaded file arrives already tokenised
  into a header and rows of cells (`Frames.Table`). A cell is text, a
  number, a timestamp or missing (pandas' NaN/NaT). A mutable
  `Frames.DataFrame` has its columns replaced in place.
  - `process_uploaded_file` recovers a header that landed in the first data
    row. It rejects a table without `startOfOrder`, converts that column with
    the `%m/%d/%Y %H:%M` format and a fallback re-parse, and wraps every
    error in its message prefixes.
  - `validate_dataframe` runs three fail-fast stages in a fixed order:
    required columns, numeric coercion of seven columns in list order, and
    non-empty identifiers.

  Each is a method over the `DataFrame` class (`ProcessUploadedFile`,
  `ValidateDataFrame`). Each is proved equal to a specification function
  (`Process`, `Validate`), and the source's promises are lemmas about those
  functions.

Supporting modules:

- `Decimal`: the decimal text `pd.to_numeric` accepts, and its value: the whole digits plus the fraction digits read as 0.f.
- `Timestamps`: a Gregorian calendar with leap years, the primary timestamp
  format and the ISO-like `YYYY-MM-DD HH:MM:SS` format, each with a
  round-trip lemma.
- `DateFallback`: the finding described below.

Two points where the model follows what the code does rather than what a
reader might expect:

- **No zero guards.** The code divides without a guard
  (`utils/calculations.py:13-19`), so the model requires a non-zero
  `actualProductionTime` and `totalPieces` (`Calculations.Computable`) and
  invents no guard.
- **Other date layouts.** The comment at `utils/data_processing.py:41` says
  the second conversion tries "more flexible parsing". `generate_sample_data.py`
  (lines 156 and 186) stores `datetime` values and writes them with
  `to_csv`, as `YYYY-MM-DD HH:MM:SS` text. The fallback as written cannot
  accept that text; see "## Findings".

## Model

| member | source | states |
|---|---|---|
| Calculations.Clip | utils/calculations.py:25-28 | the clipped value lies in [0, 1]; it is the input when the input is in range, 0 below and 1 above |
| Calculations.ClipMonotone | utils/calculations.py:25-28 | clipping preserves order |
| Calculations.Clipped | utils/calculations.py:22-28 | all four reported values lie in [0, 1]; that OEE is formed from the unclipped ratios is stated by `Calculations.ClippedComposition` |
| Calculations.MetricsOf | utils/calculations.py:13-28 | all four reported metrics lie in [0, 1] |
| Calculations.WithMetrics | utils/calculations.py:7-28 | planned time becomes totalPieces × idealCycleTime; the metrics are written and lie in [0, 1]; every other field, startOfOrder included, is unchanged; the row stays computable |
| Calculations.CalculateAll | utils/calculations.py:4-30 | row count and order are kept; each row differs from its input only in planned time and metrics; planned time is recomputed in every row; every row's four metrics lie in [0, 1] |
| Calculations.CalculateOeeMetrics | utils/calculations.py:4-30 | the array's new contents are the engine applied to its old contents, row by row |
| Calculations.ClippedComposition | utils/calculations.py:22-28 | reported OEE is the clipped product of the raw ratios; when no ratio needed clipping it equals the product of the three reported values |
| Calculations.OeeComposition | utils/calculations.py:22-28 | OEE is the clipped product of the unclipped ratios; when no ratio needed clipping, OEE equals Availability × Performance × Quality as reported |
| Calculations.AvailabilitySplit | utils/calculations.py:10-16 | raw Availability equals raw Performance plus plannedDowntime / actualProductionTime |
| Calculations.AvailabilityAtLeastPerformance | utils/calculations.py:10-26 | with non-negative planned downtime and positive production time, reported Availability is at least reported Performance |
| Calculations.QualityExact | utils/calculations.py:19-27 | with 0 ≤ goodPieces ≤ totalPieces and totalPieces > 0, Quality is exactly goodPieces / totalPieces |
| Calculations.PlannedTimeRecomputed | utils/calculations.py:10 | the uploaded planned production time has no effect on the result |
| Calculations.MetricsOfInputs | utils/calculations.py:10-22 | the metrics depend only on actual time, ideal cycle time, total and good pieces and planned downtime |
| Calculations.WithMetricsIdempotent | utils/calculations.py:10-28 | applying the engine to its own output row gives the same row |
| Calculations.CalculateAllIdempotent | utils/calculations.py:4-30 | applying the engine to its own output table gives the same table |
| Calculations.ConcreteScenario | utils/calculations.py:10-28 | 751 pieces, 698 good, cycle 0.5, production 471, downtime 35 give planned time 375.5, Availability 821/942, Performance 751/942, Quality 698/751 and OEE 573058/887364 |
| Decimal.ParseNumber | utils/data_processing.py:79 | the model of `pd.to_numeric` on one string; it has no ensures of its own and is specified by `Decimal.ParseDecimalText`, `Decimal.ParseUnsignedInteger`, `Decimal.SignForms` and `Decimal.NoDigitsNoNumber` |
| Decimal.UnsignedCharset | utils/data_processing.py:79 | unsigned text that reads as a number consists only of digits and decimal points |
| Decimal.NumberCharset | utils/data_processing.py:79 | text that coerces to a number consists only of digits, signs and decimal points |
| Decimal.ParseShowInt | utils/data_processing.py:79 | an integer written in decimal coerces back to that number |
| Decimal.ParseUnsignedDecimal | utils/data_processing.py:79 | unsigned text `w.f` with at least one digit reads as the value of w plus the fraction 0.f |
| Decimal.ParseSigned | utils/data_processing.py:79 | a leading '-' negates the unsigned reading, a leading '+' keeps it, and a text that does not read stays NaN under either sign |
| Decimal.ParseDecimalText | utils/data_processing.py:79 | for all digit strings w and f with some digit between them, `w.f`, `-w.f` and `+w.f` coerce to w + 0.f, negated for '-' |
| Decimal.ParseUnsignedInteger | utils/data_processing.py:79 | every non-empty run of digits, leading zeros allowed, reads as its decimal value |
| Decimal.SignForms | utils/data_processing.py:79 | text that reads as v unsigned and starts with a digit or '.' coerces to v as it stands, to -v after '-' and to v after '+' |
| Decimal.NoDigitsNoNumber | utils/data_processing.py:79 | text without a digit coerces to NaN |
| Decimal.HalfCoerces | utils/data_processing.py:79 | "0.5" coerces to 0.5 |
| Timestamps.DaysInMonth | utils/data_processing.py:39 | February has 29 days in leap years and 28 otherwise; April, June, September and November have 30; the other seven months have 31 |
| Timestamps.SkipSpaces | utils/data_processing.py:39 | the result is no longer than the input and does not start with whitespace |
| Timestamps.SkipSpacesSuffix | utils/data_processing.py:39 | what SkipSpaces returns is a suffix of its input |
| Timestamps.Whitespace | utils/data_processing.py:39 | the separator matches exactly when the text starts with whitespace, and it then consumes the whole run |
| Timestamps.SkipSpacesRun | utils/data_processing.py:39 | a run of whitespace before a non-space is skipped entirely |
| Timestamps.ParsePrimary | utils/data_processing.py:39 | every accepted text yields a valid timestamp with zero seconds |
| Timestamps.ParseSpacedText | utils/data_processing.py:39 | text of the form M/D/YYYY, any run of ASCII whitespace, then H:MM, is read back field for field, and only the calendar and clock checks decide |
| Timestamps.ParseFieldText | utils/data_processing.py:39 | month, day, hour and minute written with one or two digits each, leading zeros or not, a four-digit year and any whitespace run between date and time are read as the values of those digits, and only the calendar and clock checks decide |
| Timestamps.ParsePrimaryText | utils/data_processing.py:39 | text written as M/D/YYYY H:MM with one space is read back field for field, and only the calendar and clock checks decide |
| Timestamps.PrimaryRoundTrip | utils/data_processing.py:39 | every valid timestamp with zero seconds, written in the primary format, reads back as itself |
| Timestamps.EpochOrigin | utils/data_processing.py:79 | the nanosecond count a timestamp coerces to is 0 at 1970-01-01 00:00:00, and consecutive days within a month are one day number apart |
| Timestamps.MarchYearLength | utils/data_processing.py:79 | the year from March 1 of y - 1 to March 1 of y has 366 days exactly when y is a leap year, and 365 otherwise |
| Timestamps.NextMonthDay | utils/data_processing.py:79 | the last day of a month and the first day of the next month, across February in leap and common years and across the year's end, are one day number apart |
| Timestamps.LeapDay | utils/data_processing.py:39 | February 29 is valid exactly in leap years |
| Timestamps.ParseIso | utils/data_processing.py:43 | every accepted ISO-like text yields a valid timestamp |
| Timestamps.IsoRoundTrip | utils/data_processing.py:43 | every valid timestamp written in the ISO-like format reads back as itself |
| Frames.WithColumn | utils/data_processing.py:79 | assigning a column replaces exactly that column's cells and keeps the header, the row count and every other cell |
| Frames.DataFrame.ReplaceColumn | utils/data_processing.py:39 | the in-place column overwrite leaves the frame equal to WithColumn of its old contents |
| DataProcessing.PromoteFirstRow | utils/data_processing.py:26-27 | the names come from the first row's cells; the remaining rows keep their order |
| DataProcessing.RecoverHeader | utils/data_processing.py:21-27 | fails exactly when a name contains "Unnamed" and there is no first row or its first cell is not text; the out-of-bounds error is exactly the no-row case; on success the first row is promoted exactly when the heuristic applies, otherwise the table is unchanged |
| DataProcessing.PrimaryConvert | utils/data_processing.py:39 | a text cell becomes a timestamp exactly when the primary format parses it, and then that timestamp; everything else ends up as a timestamp or NaT |
| DataProcessing.ConvertStartOfOrder | utils/data_processing.py:35-47 | the model of the `startOfOrder` conversion; it has no ensures of its own and is specified by `DataProcessingProperties.ConvertStartOfOrderSpec` |
| DataProcessing.FlexibleConvert | utils/data_processing.py:43 | the identity on timestamps and NaT; text in either format becomes a timestamp |
| DataProcessing.Message | utils/data_processing.py:48-56 | every error message starts with "Error reading CSV file: "; date errors continue with "Error parsing dates: " |
| DataProcessing.Process | utils/data_processing.py:4-56 | the model of `process_uploaded_file` on values; it has no ensures of its own and is specified by `DataProcessingProperties.ProcessSpec` and `DataProcessingProperties.ProcessResult` |
| DataProcessing.ProcessUploadedFile | utils/data_processing.py:4-56 | the method fails with the same error as Process, or returns a new frame holding Process's table |
| DataProcessing.MissingColumnsOf | utils/data_processing.py:68 | a name is reported exactly when it is required and absent from the header |
| DataProcessing.ToNumeric | utils/data_processing.py:79 | text becomes a number exactly when it parses, and then that number; numbers are unchanged; NaN stays NaN |
| DataProcessing.CoerceColumn | utils/data_processing.py:79 | coercing a column keeps the table rectangular, with its header and row count |
| DataProcessing.CoerceNumeric | utils/data_processing.py:78-81 | the numeric loop keeps the header and row count |
| DataProcessing.CheckStrings | utils/data_processing.py:84-87 | a failure is the empty-values error for one of the checked columns |
| DataProcessing.Validate | utils/data_processing.py:58-89 | the model of `validate_dataframe` on values; it has no ensures of its own and is specified by `DataProcessingProperties.ValidatePassIff`, `DataProcessingProperties.ValidateNumericOrder` and `DataProcessingProperties.ValidateStringOrder` |
| DataProcessing.ValidateDataFrame | utils/data_processing.py:58-89 | the in-place validation leaves the frame and the outcome that Validate gives for the frame's old contents |
| DataProcessingProperties.ContainsIff | utils/data_processing.py:21 | the substring test holds exactly when the pattern occurs at some position |
| DataProcessingProperties.FallbackKeepsConverted | utils/data_processing.py:43 | the re-parse of an already converted column changes nothing |
| DataProcessingProperties.ConvertStartOfOrderSpec | utils/data_processing.py:35-47 | with the column present, conversion succeeds exactly when every value parses in the primary format; it then replaces that column by the parsed timestamps; any failure is the unparsed-dates error |
| DataProcessingProperties.MissingStartOfOrderRejected | utils/data_processing.py:35-36 | after header recovery, the column-not-found error, with the columns listed, is raised exactly when startOfOrder is absent |
| DataProcessingProperties.ProcessSpec | utils/data_processing.py:4-53 | header errors occur exactly when recovery fails; otherwise success holds exactly when startOfOrder is present and every value parses in the primary format |
| DataProcessingProperties.ProcessResult | utils/data_processing.py:21-53 | on success startOfOrder is present after recovery; the result keeps the recovered header, row count, order and every other cell, and stores in each startOfOrder cell the parsed timestamp of that cell |
| DataProcessingProperties.PrimaryFormatAccepted | utils/data_processing.py:39 | a timestamp written in the primary format converts back to itself |
| DataProcessingProperties.SampleDateParses | utils/data_processing.py:39 | "1/12/2025 14:12" reads as 12 January 2025, 14:12 |
| DataProcessingProperties.PaddedDateParses | utils/data_processing.py:39 | the zero-padded "01/12/2025 09:05" reads as 12 January 2025, 09:05 |
| DataProcessingProperties.ShortMinuteParses | utils/data_processing.py:39 | "1/12/2025 14:5", with a one-digit minute, reads as 12 January 2025, 14:05 |
| DataProcessingProperties.LeapDayParses | utils/data_processing.py:39 | a February 29 reading parses exactly when its year is a leap year, and then as that date and time |
| DataProcessingProperties.LeapDayRejected | utils/data_processing.py:39 | "2/29/2023 10:00" is rejected |
| DataProcessingProperties.LeapDayAccepted | utils/data_processing.py:39 | "2/29/2024 10:00" is accepted as 29 February 2024 |
| DataProcessingProperties.NumericColumnsDistinct | utils/data_processing.py:60-84 | the seven numeric names are distinct and required; the two identifier names and startOfOrder are required and not numeric |
| DataProcessingProperties.CoerceColumnFacts | utils/data_processing.py:79-80 | coercion writes ToNumeric of each cell into that column only; the NaN test fails exactly when some value is not numeric; other columns keep their numeric status |
| DataProcessingProperties.CoerceNumericUntouched | utils/data_processing.py:78-81 | the numeric loop leaves every column outside its list unchanged |
| DataProcessingProperties.CoerceNumericPass | utils/data_processing.py:78-81 | over distinct present columns, the loop passes exactly when all are numeric; a failure is the numeric error for one of them |
| DataProcessingProperties.FirstNonNumericShift | utils/data_processing.py:78-81 | after a numeric first column, the first non-numeric column of the rest is the first of the whole list |
| DataProcessingProperties.CoerceNumericOutcome | utils/data_processing.py:78-81 | over distinct present columns, the loop reports a column exactly when it is the first, in list order, that is not numeric |
| DataProcessingProperties.CoerceNumericValues | utils/data_processing.py:78-81 | after a passing loop, every listed column holds the coerced values, all numbers |
| DataProcessingProperties.CoerceNumericByName | utils/data_processing.py:78-81 | the same pass condition and coerced values, stated per column name |
| DataProcessingProperties.NumericColumnsAllNumeric | utils/data_processing.py:73-81 | with the header complete, the loop over the seven numeric columns passes exactly when each is numeric |
| DataProcessingProperties.ValidateMissingColumns | utils/data_processing.py:67-70 | the missing-columns error is raised exactly when a required name is absent; it reports exactly the absent names, and the table is not yet touched |
| DataProcessingProperties.ValidateNumericOrder | utils/data_processing.py:72-81 | with all columns present, the k-th numeric column is reported exactly when the earlier ones are numeric and it is not |
| DataProcessingProperties.CoerceNumericFailsBy | utils/data_processing.py:78-81 | a non-numeric listed column makes the loop fail, naming that column or an earlier one |
| DataProcessingProperties.OneBadCellRejects | utils/data_processing.py:78-81 | a single non-numeric cell in a numeric column rejects the table, naming that column or an earlier one |
| DataProcessingProperties.CheckStringsPass | utils/data_processing.py:84-87 | the string loop passes exactly when no checked column has a NaN or empty value |
| DataProcessingProperties.FirstBlankShift | utils/data_processing.py:84-87 | after a non-blank first column, the first blank column of the rest is the first of the whole list |
| DataProcessingProperties.CheckStringsOutcome | utils/data_processing.py:84-87 | over distinct present columns, the string loop reports a column exactly when it is the first, in list order, with a NaN or empty value |
| DataProcessingProperties.StringColumnsSurviveCoercion | utils/data_processing.py:78-87 | numeric coercion does not change which identifier columns are blank |
| DataProcessingProperties.OtherColumnsKeepBlanks | utils/data_processing.py:78-81 | the numeric loop does not change which columns outside its list are blank |
| DataProcessingProperties.StringChecksTransfer | utils/data_processing.py:84-87 | on a table blank exactly where t is blank in the checked columns, the string loop's verdict is the one t's values call for |
| DataProcessingProperties.StringChecksOnUpload | utils/data_processing.py:78-87 | the string loop, run after numeric coercion, passes or names a column exactly as the uploaded identifier values call for |
| DataProcessingProperties.ValidateStringOrder | utils/data_processing.py:83-87 | with all columns present, the k-th identifier column is reported exactly when all numeric columns are numeric, the earlier identifiers are not blank and it is |
| DataProcessingProperties.ValidatePassIff | utils/data_processing.py:58-89 | validation passes exactly when every required column is present, every numeric column is numeric and no identifier column is blank |
| DataProcessingProperties.ValidatePassStages | utils/data_processing.py:67-81 | a pass means all required columns were found and the numeric loop passed; the table returned is that loop's |
| DataProcessingProperties.ValidateComplete | utils/data_processing.py:67-87 | with every required column present, validation is the numeric loop, then the string loop if the numeric loop passed |
| DataProcessingProperties.ValidatePassNumbers | utils/data_processing.py:78-81 | after a pass, every numeric column holds the coerced values of the upload, all numbers |
| DataProcessingProperties.PassNumbersTransfer | utils/data_processing.py:78-81 | the table a passing numeric loop returns holds the coerced values of every listed column, all numbers |
| DataProcessingProperties.ValidatePassKeeps | utils/data_processing.py:78-89 | a pass keeps the header, row count and order, and every non-numeric column, startOfOrder included |
| DateFallback.IsoTextNotPrimary | utils/data_processing.py:39 | no valid timestamp written in the ISO-like format is read by the primary format |
| DateFallback.IsoValueRejected | utils/data_processing.py:39-47 | as written, one ISO-like `startOfOrder` value anywhere makes the conversion fail with the unparsed-dates error |
| DateFallback.GeneratedSampleText | generate_sample_data.py:39 | the generator's first timestamp, 1 January 2023 at midnight, is written as "2023-01-01 00:00:00" |
| DateFallback.GeneratedSampleRejected | utils/data_processing.py:39-47 | as written, an upload whose only date is "2023-01-01 00:00:00" fails with the unparsed-dates error |
| DateFallback.FlexibleReadsIso | utils/data_processing.py:43 | the flexible parser reads every ISO-like text back as the timestamp it encodes |
| DateFallback.IsoColumnAcceptedIntended | utils/data_processing.py:39-47 | corrected, a column written entirely in the ISO-like format converts, and each cell holds the timestamp its text encodes |
| DateFallback.IsoSampleParses | utils/data_processing.py:43 | "2025-01-12 14:12:00" is ISO-like text for 12 January 2025, 14:12, and the primary format rejects it |
| DateFallback.IsoRejectedAsWritten | utils/data_processing.py:39-47 | as written, an upload whose only date is "2025-01-12 14:12:00" fails with the unparsed-dates error |
| DateFallback.IntendedExtendsAsWritten | utils/data_processing.py:39-47 | wherever the code as written converts successfully, the corrected conversion gives the same result |
| DateFallback.FlexibleAgreesWithPrimary | utils/data_processing.py:43 | on a value the primary format reads, the flexible parser gives the same timestamp |
| DateFallback.IntendedSpec | utils/data_processing.py:39-47 | the corrected conversion succeeds exactly when the flexible parser reads every uploaded value, and it stores what that parser read |
| DateFallback.IsoAcceptedIntended | utils/data_processing.py:39-47 | corrected, "2025-01-12 14:12:00" is stored as 12 January 2025, 14:12, the same instant as "1/12/2025 14:12" |

## Left out

- Reading the file is not modelled: `pd.read_csv` tokenising, `#` comments, blank lines and column type inference (`utils/data_processing.py:18`). The input is a table of text cells, with NaN for an empty field.
- The debug prints and the `seek` calls have no effect on the result and are not modelled (`utils/data_processing.py:7-15`, `29-31`, `49-50`, `55`).
- Floating point is not modelled. The model uses exact `real` arithmetic: no rounding, no NaN and no ±inf from a division by zero. Division by zero is excluded by precondition instead (`Calculations.Computable`).
- The metrics are written column by column in the source and row by row in `CalculateOeeMetrics`. Every step is element-wise, so the final table is the same.
- `Calculations.CalculateOeeMetrics`: line 7 converts `startOfOrder`, which already holds timestamps when the engine runs, so it is modelled as the identity (records carry a `Frames.Instant`). Converting raw text there is not modelled.
- The wiring in `main.py` between validation and the engine is not modelled: building records from a validated table, the UI and the charts in `utils/visualizations.py`. Of `generate_sample_data.py` only the text form of its timestamps is modelled, as input for the finding.
- pandas' flexible date parser is modelled only on two textual formats: the primary format (`utils/data_processing.py:39`), then the ISO-like `YYYY-MM-DD HH:MM:SS` with two-digit fields that the repository's generator writes through `to_csv` (`generate_sample_data.py:156`, `186`). No format inference across a column, no other layouts, and numbers turn into NaT rather than epoch offsets. On the code as written it only ever sees already converted values, where it is the identity.
- `Timestamps.ParsePrimary`: strptime's `\d` and `\s` also match non-ASCII Unicode digits and whitespace, and it accepts a leading space in a one-digit field. The model reads ASCII digits and ASCII whitespace runs only, and does not model those forms.
- `Decimal.ParseNumber`: covers an optional sign, digits and at most one decimal point. Exponents, surrounding whitespace, `inf`/`nan` spellings and thousands separators are not modelled.
- `DataProcessing.ToNumeric`: a timestamp cell becomes its nanosecond count, which is what pandas gives for a datetime64 column. A timestamp inside an object column would coerce to NaN instead. The branch is never reached in the modelled flow, because validation coerces only the seven numeric columns and `startOfOrder` is not one of them.
- pandas stores timestamps in nanoseconds within about years 1677-2262. The model accepts years 1-9999 (Python's `datetime` range) and does not model out-of-bounds overflow.
- `DataProcessing.Message`: the contract fixes the prefixes of each message, not its whole text. The wording of pandas' own IndexError for an empty frame is an approximation. The validation errors' message texts are not modelled: the error datatype carries the offending column or set of columns instead.
- `DataProcessing.ShowNames`: quotes and backslashes inside column names are not escaped as Python's list rendering would escape them.
- A non-text cell (NaN, number or timestamp) in a promoted header row becomes the column name "" (`DataProcessing.HeaderName`); pandas keeps it as a NaN, number or timestamp name, which would print differently. None of them matches a required column.
- With duplicate column names, the model uses the first match. pandas would return several columns for `df[name]`.
- A set of column names is rendered in Python's arbitrary set order. The model reports the set itself.

## Findings

| source | as written | input that shows it | evidently intended | confidence | as-written member | corrected member |
|---|---|---|---|---|---|---|
| utils/data_processing.py:43 | the fallback re-parses the column that line 39 has already converted, where every value the primary format rejected is already NaT, so no other date format can ever be accepted | a table whose only `startOfOrder` value is "2025-01-12 14:12:00", or the generator's first timestamp "2023-01-01 00:00:00" (`generate_sample_data.py:39`, `156`, `186`), is rejected with "Some dates could not be parsed" | the fallback parses the uploaded text, so ISO-like values are accepted and give the same instant as the primary format | not executed | DateFallback.IsoRejectedAsWritten | DateFallback.IntendedSpec |

The corrected conversion is `DataProcessing.ConvertStartOfOrderIntended`, used by
`DataProcessing.ProcessIntended`. `DateFallback.IntendedExtendsAsWritten` shows that it changes
nothing on uploads the code as written accepts. `DateFallback.IsoColumnAcceptedIntended` shows that
it accepts every ISO-like column, and `DateFallback.IsoAcceptedIntended` shows the
repaired behaviour on the example.
