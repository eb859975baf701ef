# Spreadsheet import normalisation engine

A Dafny model of the normalisation engine of a small web service that loads
CSV and Excel sheets into a database table. The engine is the set of helpers
in `app.py` that every import passes through:

- `allowed_file` decides from the file name whether an upload is accepted.
- `snake_case` turns every header into a canonical `[a-z0-9_]` identifier.
  Accents are stripped by decomposing and dropping combining marks. Runs of
  blanks and dashes become one underscore, and every other character is dropped.
- The value coercers turn one cell into a clean value, or None when it cannot:
  - `clean_number` handles French and English numbers and currency symbols;
  - `parse_date` handles spreadsheet serial days and seven `strptime` date formats;
  - `parse_datetime` returns a date and a time;
  - `clean_text` trims, strips accents and drops control characters.
- `normalize_dataframe` processes a sheet in a fixed order:
  1. it canonicalises the headers;
  2. optionally, it detects date-and-time columns on a sample of ten values
     and splits each one into `date_X` and `heure_X`;
  3. it applies the forced column types;
  4. it turns every missing value into None.
- `dataframe_to_json_records` renders the sheet as one JSON object per row.
  The routes rename headers through the user's mapping first.
- Create mode declares one `"name" TYPE` column per header, chosen from the column's dtype.
- Both routes insert the records in slices of 1000:
  - append mode logs a failed slice as `Batch k: message` and goes on;
  - create mode stops at the first failure.

What the model uses in place of Python's own types:

- A sheet (`Tables.Table`) is a sequence of named columns of `Cells.Cell`
  values. Cells cover None, NaN, NaT, booleans, integers, floats, strings,
  timestamps and durations.
- Floats are exact decimals (`Decimals.Decimal`).
- Dates are proleptic Gregorian civil dates, with an ordinal count
  (`Calendar`). They are rendered as RFC 3339 `full-date` and `partial-time`
  strings, as `strftime('%Y-%m-%d')` and `strftime('%H:%M:%S')` do.
- `datetime.strptime` is modelled for the directives the engine uses (`Strptime`).
- The database is a parameter: a function that answers each slice with
  either the number of rows inserted or an error message.

Where the code and its comments or design notes disagree, the model follows the code:

- **Apostrophes in headers.** The `snake_case` docstring gives
  `"Date d'achat" -> "date_d_achat"`. The code drops the apostrophe and gives
  `"date_dachat"` (`Headers.SnakeCaseApostrophe`).
- **Numbers with both separators.** The comments of `clean_number` say that
  `1 000,50` and `1,000.50` are both understood. A text holding both a comma
  and a dot always comes out as None: either the comma becomes a second dot,
  or the comma stays. A text with only a comma is read as French
  (`NumberFacts.MixedSeparatorsRejected`, `NumberFacts.CleanNumberMixedSeparators`).
- **Numeric dates.** Numbers are truncated toward zero by `int(value)` before
  they are used as a day count. A fractional day never becomes a time of day,
  and the time of a numeric datetime is always `00:00:00`
  (`DateFacts.SerialTruncatesTowardZero`, `Dates.ParseDatetime`).
- **The `has_time` flag.** The detector sets `has_time`, but nothing reads
  it. A detected column always gets an `heure_` column, holding None for
  values without a time, unless its own name starts with `heure_`.
- **Split of a `date_` column.** When the detected column's name already
  starts with `date_`, the dates are written back under the same name. That
  column is then dropped, so the dates are lost
  (`NormalizeFacts.SplitDateSourceLost`).

## Model

| member | source | states |
|---|---|---|
| Uploads.LastIndexOf | app.py:68 | the position `rsplit('.', 1)` splits at: absent exactly when there is no dot; otherwise a dot with no dot after it |
| Uploads.AllowedFileIff | app.py:65-68 | a name is accepted exactly when it has a last dot whose dot-free suffix lower-cases to csv, xlsx or xls |
| Uploads.AllowedByExtension | app.py:44-68 | for a dot-free extension, `stem.ext` is accepted exactly when the lower-cased extension is allowed, whatever the stem |
| Uploads.AllowedFileCase | app.py:67-68 | the extension is compared case-insensitively: `.CSV` and `.csv` are both accepted, whatever the stem |
| Uploads.RefusedNames | app.py:65-68 | only the last extension counts (`x.csv.txt` is refused), and a name without a dot is refused |
| Headers.SnakeCase | app.py:87-104 | a canonical header holds only lower-case ASCII letters, digits and underscores; an empty header stays empty |
| Headers.SnakeCaseFixedPoint | app.py:92-104 | a header is left unchanged exactly when it is already canonical |
| Headers.SnakeCaseIdempotent | app.py:87-104 | canonicalising a header twice gives the same name as once |
| Headers.SnakeCaseApostrophe | app.py:90-104 | `W X'Y` becomes `w_xy`: the blank becomes an underscore and the apostrophe is dropped, not replaced |
| Headers.SnakeCaseAccent | app.py:96-104 | an accented `é` inside a header becomes a plain `e` |
| Headers.AlnumSnakeCase | app.py:101-104 | a header of ASCII letters and digits is only lower-cased |
| Cleaning.Unformat | app.py:125-129 | no no-break space, space or currency symbol is left |
| Cleaning.Separators | app.py:131-142 | only commas may change, each into a dot; a text with commas and no dot has no comma left |
| Cleaning.CleanNumber | app.py:107-147 | a missing value is None; a number or boolean is its own value; a blank text is None; any other text gives `float()` of the trimmed text once spaces and currency symbols are removed and its separators rewritten, and None when `float()` rejects it |
| NumberFacts.ParseFloatCharacters | app.py:144-147 | a text `float` accepts holds no comma and at most one dot |
| NumberFacts.MixedSeparatorsRejected | app.py:132-147 | whatever the rewrite does with a text holding both a comma and a dot, the result does not parse |
| NumberFacts.CleanNumberMixedSeparators | app.py:119-147 | a cell whose unformatted text holds both separators, as in `1,000.50` or `1.000,50`, cleans to None |
| NumberFacts.CleanNumberFrench | app.py:119-147 | `a b,c` (thousands blank, decimal comma) cleans to the number whose digits are `abc` with `c` after the point |
| NumberFacts.CleanNumberCurrency | app.py:119-147 | `€a.c` cleans to the number `a.c` |
| NumberFacts.CleanNumberIntText | app.py:113-147 | the text of an integer cleans to the same value as the integer itself |
| NumberFacts.IntTextSigned | app.py:144-145 | `float(str(n))` is `n` for every integer |
| NumberFacts.CleanNumberBlank | app.py:113-123 | blank text, None and NaN all clean to None |
| Calendar.OrdinalRoundTrip | app.py:164-165 | every date of years 1 to 9999 has an ordinal day number below the limit, and converting it back gives the same date |
| Calendar.FromOrdinalRoundTrip | app.py:164-165 | every day number below the limit converts to a valid date whose ordinal is that number |
| Calendar.RenderDate | app.py:159 | `strftime('%Y-%m-%d')` yields a well-formed `full-date` that reads back as the same date |
| Calendar.RenderTime | app.py:209 | `strftime('%H:%M:%S')` yields a well-formed `partial-time` that reads back as the same time |
| Dates.SerialDate | app.py:161-168 | a day count gives a date exactly when it fits in a Timedelta, and that date lies that many days after 1899-12-30 |
| Dates.ParseDateText | app.py:170-193 | an empty text is None; otherwise a date is found exactly when one of the seven formats parses the text, and it is always a well-formed `full-date` |
| Dates.FirstMatchIsFirst | app.py:186-191 | the fields returned are those of a format that parses the text, and every earlier format fails on it |
| Dates.ParseDate | app.py:150-193 | a missing value is None; a timestamp gives its own date; a number gives a date exactly when its whole part fits in a Timedelta, and that date lies that many days after the epoch; any other value gives the first date format its trimmed text matches |
| Dates.ParseDatetime | app.py:196-238 | missing gives (None, None); there is never a time without a date; a number gives the `parse_date` day at `00:00:00`; a text has a time exactly when a date-and-time format matches it, and otherwise falls back to its `parse_date` date |
| DateFacts.ParseDateIso | app.py:176-189 | an ISO `full-date` is returned unchanged |
| DateFacts.ParseDateIdempotent | app.py:150-193 | coercing an already coerced date changes nothing |
| DateFacts.ParseDateDayFirst | app.py:176-189 | `DD/MM/YYYY` is read day first |
| DateFacts.ParseDateMonthFirst | app.py:178-189 | `MM/DD/YYYY` with a day above 12 falls through the day-first formats and is read month first |
| DateFacts.ParseDateBlank | app.py:170-238 | blank text gives no date and no datetime |
| DateFacts.ParseDatetimeStamp | app.py:213-229 | a timestamp is split into its own date and time |
| DateFacts.ParseDatetimeShortClock | app.py:217-229 | `DD/MM/YYYY HH:MM` gives that date and that time with zero seconds |
| DateFacts.ParseDatetimeDateOnly | app.py:226-236 | a date without a time matches no datetime format and falls back to (date, None) |
| DateFacts.SerialEpoch | app.py:164-165 | day 0 is 1899-12-30 and day 1 is 1899-12-31 |
| DateFacts.SerialTruncatesTowardZero | app.py:165 | `-1.5` is read as day -1, not day -2 |
| DateFacts.SameWholeSameDate | app.py:161-166 | two numbers with the same whole part give the same date |
| DateFacts.SerialDistinct | app.py:164-166 | distinct day counts in range give distinct dates |
| Cleaning.CleanText | app.py:241-259 | a missing value is None; a result is never empty and holds no control character and no combining mark |
| TextFacts.CleanTextPlain | app.py:250-259 | trimmed printable ASCII text is returned unchanged |
| TextFacts.CleanTextAccent | app.py:253-254 | `é` inside a word becomes `e` |
| TextFacts.CleanTextTrimsFirst | app.py:250-257 | trimming happens before control characters are dropped: a leading blank is trimmed, but one behind a control character stays |
| TextFacts.ControlShieldsBlank | app.py:250-257 | a control character in front of a blank keeps the blank from being trimmed |
| TextFacts.LeadingBlankTrimmed | app.py:250-259 | a leading blank is trimmed away |
| Normalize.SnakeHeaders | app.py:280 | every header is replaced by its canonical form, in place, and the values stay |
| NormalizeFacts.SnakeHeadersIdempotent | app.py:280 | canonicalising the headers of a canonical sheet changes nothing |
| Normalize.Present | app.py:290 | `dropna()` keeps exactly the values that are not missing, in order |
| Normalize.Sample | app.py:290 | `head(10)` is the first ten present values, or all of them when there are fewer |
| Normalize.ScanDatesFinds | app.py:295-312 | the sampling loop reports a date column exactly when some sampled value is a number or contains a space and a colon, a slash or a dash |
| NormalizeFacts.DetectedIff | app.py:290-313 | a column is split exactly when one of its first ten present values looks like a date |
| NormalizeFacts.EmptyNotDetected | app.py:290-292 | a column with no present value is never split |
| Normalize.DateName | app.py:314 | the date column is named `date_X`, unless `X` already starts with `date_`; canonical names stay canonical |
| Normalize.TimeName | app.py:315 | there is no time column exactly when `X` starts with `heure_`; otherwise its name differs from both `X` and the date column |
| Normalize.DateParts | app.py:318-325 | the date column holds, row by row, the date `parse_datetime` finds, or None |
| Normalize.TimeParts | app.py:318-327 | the time column holds, row by row, the time `parse_datetime` finds, or None |
| Normalize.SplitColumn | app.py:285-330 | the pass raises only for a missing column whose name lacks `date`; an undetected column is left alone; a detected column is removed |
| NormalizeFacts.SplitKeepsParts | app.py:314-330 | after a split, `date_X` holds the dates and, unless `X` starts with `heure_`, `heure_X` holds the times |
| NormalizeFacts.SplitDatePart | app.py:314-325 | the date column holds the dates when its name differs from the source column's |
| NormalizeFacts.SplitTimePart | app.py:315-327 | when a time column exists it holds the times |
| NormalizeFacts.SplitDateSourceLost | app.py:314-330 | for a source named `date_...` the dates overwrite the source column and are dropped with it; only `heure_` survives |
| NormalizeFacts.SplitAllShape | app.py:283-330 | the split pass keeps every column as long as the sheet and every header canonical |
| Normalize.DateCell | app.py:337-338 | a forced date value is None or an ISO `full-date`; a timestamp keeps its own date |
| Normalize.NumberCell | app.py:339-340 | a forced numeric value is None or a float, and a number keeps its value |
| Normalize.TextCell | app.py:341-342 | a forced text value is None or a non-empty string |
| Normalize.Coercer | app.py:337-342 | only the kinds `date`, `numeric` and `text` have a coercer; other kinds are ignored |
| Normalize.ApplyType | app.py:333-342 | a directive for a missing column or an unknown kind changes nothing; otherwise the headers stay and the column becomes its coercer applied to each of its cells |
| NormalizeFacts.ApplyTypeFrame | app.py:333-342 | a directive keeps the headers and changes no other column |
| NormalizeFacts.ApplyDateOnlyDates | app.py:337-338 | after a date directive, the column holds only None and ISO dates |
| NormalizeFacts.ApplyNumericOnlyNumbers | app.py:339-340 | after a numeric directive, the column holds only None and floats |
| NormalizeFacts.ApplyTypesShape | app.py:333-342 | the directives keep the headers and the number of rows |
| Normalize.Unify | app.py:345 | NaN and NaT become None, and every other value stays |
| Normalize.UnifyNulls | app.py:345 | no NaN or NaT is left; a value becomes None exactly when it was missing; the headers and the other values stay |
| NormalizeFacts.UnifyNullsIdempotent | app.py:345 | unifying missing values twice is the same as once |
| Normalize.NormalizeTable | app.py:262-347 | without the split option, normalisation always succeeds |
| NormalizeFacts.NormalizeShape | app.py:262-347 | a normalised sheet keeps its row count, has only canonical headers and holds no NaN or NaT |
| NormalizeFacts.NormalizeHeaders | app.py:274-347 | without the split, the columns stay in place and each header is the canonical form of the original |
| Records.ToJson | app.py:357-369 | a value becomes JSON `null` exactly when it is missing; timestamps and durations become their text; strings are kept |
| Records.ToRecords | app.py:350-371 | one record per row, each keyed by the headers in column order, each value the JSON cleaning of the cell in that row and column |
| Records.FromJson | app.py:357-369 | every JSON value comes from a cell that renders back to it |
| Records.PlainRoundTrip | app.py:357-369 | None, booleans, numbers and strings survive the trip to JSON and back |
| Records.RecordsRoundTrip | app.py:350-371 | a sheet of such plain values can be rebuilt exactly from its records |
| Records.Rename | app.py:640-641 | a mapped header becomes its target, and nothing else changes: the column order, the values and the unmapped headers stay |
| Records.RenameEmpty | app.py:640-641 | an empty mapping changes nothing |
| Records.RenameRoundTrip | app.py:640-641 | renaming with a mapping and then with its inverse restores the sheet |
| Schema.SqlTypeOf | app.py:720-727 | BIGINT exactly for integer dtypes, DOUBLE PRECISION exactly for float dtypes, TIMESTAMP exactly for datetime dtypes, TEXT otherwise |
| Schema.ReadColumnDef | app.py:729 | a column entry read back gives a quote-free header and a type that write exactly that entry |
| Schema.ColumnDefRoundTrip | app.py:729 | every `"name" TYPE` entry of a quote-free header reads back as that header and type |
| Schema.SchemaColumns | app.py:716-729 | one entry per column |
| Schema.SchemaColumnsReadBack | app.py:716-729 | entry `i` names column `i` with the SQL type of its dtype, in column order |
| Schema.TextColumnIsText | app.py:718-727 | a column holding any string is declared TEXT |
| Importer.PrepareRecords | app.py:636-644 | without the split option there are always records to send: one per row of the sheet |
| Importer.Slice | app.py:652 | a slice is the next run of at most 1000 records; it is full unless it ends the list, and never empty while records remain |
| Importer.BatchesPartition | app.py:651-652 | the slices, joined in order, are exactly the records; none is empty or longer than the batch size |
| Importer.BatchStart | app.py:651-652 | slice `k` starts at record `k * 1000` |
| Importer.AppendRecords | app.py:647-658 | the total is the sum of the rows the database reports for each slice; there is one error line per failed slice, in order, numbered from 1 |
| Importer.ErrorLinesCount | app.py:649-658 | the number of error lines equals the number of failed slices |
| Importer.NoFailureNoErrors | app.py:653-658 | when no slice fails there is no error line |
| Importer.FirstFailure | app.py:757-761 | create mode succeeds exactly when every slice is inserted, and then reports the sum of the inserted rows; otherwise it reports the message of a failed slice all of whose predecessors were inserted |
| Importer.CreateRecords | app.py:754-761 | the loop of create mode stops with the message of the first failed slice |
| Importer.CreateAbortsOnFailure | app.py:757-759 | any failed slice aborts create mode |

## Left out

- File reading (`read_csv`, `read_excel`) is not modelled, and neither are the Flask routes, the JSON responses, previews and uploads on disk. The model starts from a sheet already in memory.
- The database client is a parameter that answers each slice. Its network behaviour and the `CREATE TABLE` RPC are not modelled. The statement around the column list is fixed text.
- Create mode leaves the slices inserted before a failure in the table. The model only reports the abort.
- Cleaning.CleanNumber: floats are exact decimals, so binary rounding is not modelled. Neither are `inf`, `nan`, digit underscores or the non-ASCII digits that `float()` accepts.
- Headers.SnakeCase: the NFD decomposition covers only the accented letters of Latin-1, and the `Mn` category only the combining marks U+0300 to U+036F. The full Unicode tables are not modelled.
- Cleaning.CleanText: the same restricted decomposition table as `snake_case`.
- Calendar.RenderDate: years below 1000 are rendered zero-padded to four digits, as RFC 3339 requires. The C library behind `strftime` may not pad them. Serial dates never reach such years.
- Dates.SerialDate: the Timedelta range is the whole-day bound of 106751 days. Overflow of the final `datetime` addition outside years 1 to 9999 cannot occur inside that bound.
- Dates.ParseDateText: `strptime` matches `\d` without `re.ASCII`, so its fields also accept non-ASCII decimal digits, such as full-width or Arabic-Indic ones. The model reads ASCII digits only, and such text gives None. The same holds for the date-and-time formats of Dates.ParseDatetime.
- Normalize.NormalizeTable: headers are modelled as strings. `snake_case` is applied to the raw labels without `str()`, so a non-string label (for example a numeric header read from a workbook) raises `TypeError` in `unicodedata.normalize`, and the route answers with an error. The model promises success without the split option only for string headers.
- Importer.PrepareRecords: for the same reason, records are promised without the split option only when every header is a string.
- Timestamps are whole seconds: microseconds and time zones are not modelled. `datetime.time` cells are not modelled either.
- Schema.InferDtype approximates pandas dtype inference for the cell kinds of the model. Object columns of mixed numbers are not told apart further.
- `df.where(pd.notnull(df), None)` can change a column's dtype. The model only replaces the values.
- Duplicate headers are not modelled: a lookup by name finds the first column with that name, while pandas returns all of them.
- The split pass raises `KeyError` for a missing column whose name lacks `date`. The model returns None, which the routes would turn into an error response.
