# borough_complaints in Dafny

`borough_complaints.py` counts complaints per `(complaint type, borough)`
for every CSV row whose `creation_date` lies in an inclusive date range, and
prints a header line followed by one `type, borough, count` line per key in
the order the keys were first seen.  This project models the logical core of
that script and proves what it promises:

- the date parse `datetime.strptime(s, '%Y-%m-%d')` (module `Dates`),
  including calendar validity (month 1..12, the days of each month,
  Gregorian leap years, years 1..9999) and the order of the parsed dates;
- `is_within_date_range`, the row classification and the counting loop of
  `process_complaints` (module `Complaints`).  The `Counter` is a value
  holding a map from key to count plus the keys in first-insertion order.
  The loop is an imperative method over that map and that sequence.  It is
  proved equal to a fold that stops at the first error;
- the standard-output branch of `output_results` (module `Report`), which
  yields the printed lines;
- `main`: parse the start date, then the end date, count, then render
  (module `Pipeline`);
- worked examples on concrete inputs (module `Scenarios`).

Python exceptions become `Failure` values (module `Outcomes`):

- `BadDate(text)` stands for the `ValueError` strptime raises;
- `MissingField(name)` stands for the `KeyError` raised by `row[name]`.

A run therefore either returns a result or reports the first exception it
would raise.

**Date format.**  The help strings (`borough_complaints.py:37-38`) ask for
`YYYY-MM-DD`; the code calls `strptime`, and this model follows the code.
strptime's `%m` is `1[0-2]|0[1-9]|[1-9]` and its `%d` is
`3[01]|[12]\d|0[1-9]|[1-9]| [1-9]`, so it also accepts these spellings:

- `2023-1-5`: a one-digit month and day;
- `2023-01- 5`: a day padded with a space.

`Dates.ParseIso` states the zero-padded contract, and `Dates.ParseSpelling`
together with `Dates.ParsedIsSpelling` states exactly which spellings are
accepted.

## Model

| member | source | states |
|---|---|---|
| Digits.Decimal | borough_complaints.py:76 | `str(count)`: a non-empty run of digits with no leading zero that reads back as the count |
| Dates.DaysInMonth | borough_complaints.py:46 | every month has 28 to 31 days; it has 29 exactly when it is February of a leap year |
| Dates.MonthStep | borough_complaints.py:47 | the day-number table of months advances by exactly the length of each month |
| Dates.DecemberEndsYear | borough_complaints.py:47 | the days before December plus December's days are the days of the year |
| Dates.OrdinalOrder | borough_complaints.py:47 | comparing two parsed dates (all at midnight) field by field agrees, in both directions, with comparing their day numbers (`toordinal`); two valid dates are equal exactly when their day numbers are |
| Dates.MonthField | borough_complaints.py:46 | the `%m` field is one or two digits denoting 1..12, followed by `-` |
| Dates.DayField | borough_complaints.py:46 | the `%d` field ends the text; it is one or two digits, or a space and a digit, and the day it yields (1..31) is the number those digits denote |
| Dates.ParseDate | borough_complaints.py:46 | a successful parse yields a valid calendar date; a failed one is a `ValueError` naming the text |
| Dates.ParseIso | borough_complaints.py:46 | a zero-padded `YYYY-MM-DD` text parses exactly when it names an existing date, and then to that date |
| Dates.ParseSpelling | borough_complaints.py:46 | every spelling strptime accepts (zero-padded, one-digit month or day, space-padded day) of every valid date parses back to that date |
| Dates.ParsedIsSpelling | borough_complaints.py:46 | conversely, every text that parses is one of those spellings of the date it yields, so nothing else parses |
| Complaints.IsWithinDateRange | borough_complaints.py:44-47 | fails exactly when the date does not parse, with a `ValueError` naming it |
| Complaints.WithinRangeByOrdinal | borough_complaints.py:47 | with valid bounds, a parsed date is in range exactly when its day number lies between those of start and end, both ends included |
| Complaints.RangeEndsAdmitted | borough_complaints.py:47 | a date equal to the start or to the end of a non-empty range is admitted |
| Complaints.InvertedRangeAdmitsNothing | borough_complaints.py:47 | when start is after end, no date is admitted |
| Complaints.Classify | borough_complaints.py:56-59 | the fields are read in the order creation_date, borough, complaint_type, and the first missing one is the `KeyError`; then a bad date is the `ValueError` naming the row's creation date; otherwise the row is counted exactly when its date is in range, under the key (complaint_type, borough) |
| Complaints.RowEffect | borough_complaints.py:55-60 | one loop iteration: a missing field or a bad date is an error; a row out of range leaves the counter unchanged; a row in range adds exactly 1 to its own key and changes no other key |
| Complaints.Record | borough_complaints.py:60 | `counter[key] += 1`: the key's count goes up by one and every other count is unchanged; a new key is appended to the order; a well-formed counter stays well formed |
| Complaints.RecordTotal | borough_complaints.py:60 | each increment adds exactly one to the sum of the counts |
| Complaints.ProcessComplaints | borough_complaints.py:50-62 | the loop over the rows returns exactly what the fold returns: the first row's exception, or the counter |
| Complaints.FirstOccurrences | borough_complaints.py:60 | the distinct keys, each once, with the same members as the input, listed in the order of their first occurrences in the input |
| Complaints.FoldOutcome | borough_complaints.py:55-60 | the fold completes exactly when every row's verdict is a success; otherwise it ends with the error of the first row that fails |
| Complaints.FoldWellFormed | borough_complaints.py:54-62 | a completed fold keeps every key listed once and every stored count at least 1 |
| Complaints.FoldCounts | borough_complaints.py:54-62 | a completed fold adds to each key's count the number of counted rows carrying that key |
| Complaints.FoldTotal | borough_complaints.py:54-62 | a completed fold adds the number of counted rows to the sum of the counts |
| Complaints.FoldOrder | borough_complaints.py:54-62 | a completed fold extends the key order by the first occurrences of the newly counted keys |
| Complaints.TalliedCounts | borough_complaints.py:54-62 | in a completed run, each key's count is the number of rows in range carrying it; every stored count is at least 1 and no key is listed twice |
| Complaints.TalliedTotal | borough_complaints.py:54-62 | count conservation: the counts sum to the number of rows in range |
| Complaints.TalliedOrder | borough_complaints.py:54-62 | the keys are ordered by the first row in range that carries each of them |
| Complaints.TalliedFailsFast | borough_complaints.py:55-60 | the run completes exactly when every row has its three fields and a parsable date; otherwise it fails with the error of the first row that does not, and every earlier row was fine |
| Complaints.AdmittedKeysPermutation | borough_complaints.py:55-60 | reordering the rows reorders the counted keys and nothing more |
| Complaints.TalliedPermutation | borough_complaints.py:55-62 | reordering the rows changes neither whether the run completes nor any count |
| Complaints.InvertedRangeCountsNothing | borough_complaints.py:47 | with start after end, no row is counted |
| Complaints.NothingCounted | borough_complaints.py:54-62 | with no rows, or with start after end, a completed run returns the empty counter |
| Report.LineCountReadsBack | borough_complaints.py:76 | the last field of a data line, after `, `, is a run of digits that reads back as the count |
| Report.OutputResults | borough_complaints.py:74-76 | the output is the header `complaint type, borough, count`, then one `type, borough, count` line per key in counter order, and nothing else |
| Pipeline.Run | borough_complaints.py:79-85 | a bad start date fails first, then a bad end date; otherwise the run fails exactly when counting fails, with its error; on success the lines are the header plus one line per distinct key in range, in first-seen order, with its number of rows; with no rows or an inverted range they are the header alone |
| Scenarios.MonthThirteenRejected | borough_complaints.py:46 | `2023-13-01` does not parse |
| Scenarios.FebruaryThirtiethRejected | borough_complaints.py:46 | `2023-02-30` does not parse |
| Scenarios.LeapDayIn2023Rejected | borough_complaints.py:46 | `2023-02-29` does not parse |
| Scenarios.LeapDayIn2024Accepted | borough_complaints.py:46 | `2024-02-29` parses |
| Scenarios.OneDigitFieldsAccepted | borough_complaints.py:46 | `2023-1-5` parses to 5 January 2023 |
| Scenarios.SpacePaddedDayAccepted | borough_complaints.py:46 | `2023-01- 5` parses to 5 January 2023 |
| Scenarios.JanuaryCounter | borough_complaints.py:50-62 | three rows (Queens on 5 January, Bronx on 10 January, Queens on 1 February) over January 2023 give Queens 1 and then Bronx 1 |
| Scenarios.JanuaryReport | borough_complaints.py:74-76 | for those rows the printed lines are the header, `derelict vehicles, Queens, 1` and `derelict vehicles, Bronx, 1` |

## Left out

- Argument parsing and help text (`parse_arguments`, borough_complaints.py:30-41): the start and end texts and the rows are parameters of `Pipeline.Run`.
- Opening the input file, UTF-8 decoding, `csv.DictReader` and `FileNotFoundError` (borough_complaints.py:52-53): the input is a sequence of rows, each a map from field name to text.
- A short CSV row gives `None` for its missing trailing fields (borough_complaints.py:53). If `creation_date` is `None`, strptime raises `TypeError`. If only `borough` or `complaint_type` is `None`, the row is counted under `(ct, None)` or `(None, b)` and printed with `None` in that place (borough_complaints.py:57-60, 76). The model's rows hold only texts, so neither case is represented.
- The output-file branch of `output_results` (`csv.writer` and its quoting, borough_complaints.py:67-72): foreign library behaviour; only the standard-output branch is modelled.
- `print` itself (borough_complaints.py:74-76): the model yields the printed lines instead of printing them.
- Dates.ParseDate: `\d` in strptime's patterns also matches non-ASCII Unicode digits; the model accepts ASCII digits only.
- Dates.ParseDate: the different `ValueError` messages (no match, unconverted data remains, day out of range) are one failure, `BadDate(text)`.
- A `Counter` keeps the keys and counts in one dictionary; the model stores the counts as a map and the key order as a separate sequence, so the dictionary's hashing and resizing are not modelled.
