# themis data transformation, modelled in Dafny

themis adapts the SIDARTHE epidemic model to the scenario of Pernambuco,
Brazil. It turns a table of the state's daily COVID-19 case counts into input
for the SIDARTHE simulation, which is written in Matlab. The simulation's
column names are Italian. One
run of `themis.data.transform.execute` goes through these stages:

1. Load the table of daily counts.
2. Parse the date column with the format `%Y-%m-%d`.
3. Drop the rows dated before the first confirmed case, 26 February 2020.
4. Sort the rows by date.
5. Rename the columns to the simulation's names.
6. Add the derived column `Positivi`, which is Isolamento_domiciliare + Ricoverati_sintomi + Terapia_intensiva.
7. Optionally keep only the rows inside an inclusive date window.
8. Write a CSV file and a text file. The text file holds one Matlab assignment per column, `Name=[v1 v2 ... vn]/popolazione;`.

This project models stages 2, 3, 4, 6 and 7, and the contents of the text file. It also models the
constants those stages read from `themis/constants.py`: the date format, the
threshold date, the output path and the order of the simulation's columns.

Modules, one concept each:

- `Results` holds `Option` and `Result`. A date that does not parse is a
  `Failure(ParseError(text, position))`. It is not excluded by a precondition.
- `Seqs` holds the subsequence relation and `Filter`, the model of the boolean
  mask `dataframe.loc[mask]`.
- `Decimal` renders numbers the way Python's `str(int)` does. It also handles the zero-padded fields of `%Y`, `%m` and `%d`.
- `Strings` holds Python's `str.split` and `str.join` on a one-character separator.
- `Dates` holds calendar dates, the strict `%Y-%m-%d` parser and formatter, and chronological order.
- `Constants` holds the values of `themis/constants.py`.
- `Records` holds the loaded row (`RawRecord`, date still text), the parsed row
  (`Record`, with `positivi` absent until derived) and the seven simulation metrics.
- `SidartheFormat` holds the Matlab arrays and the simulation text, with readers that invert them.
- `Transform` holds each pipeline stage and `Execute`, the whole run.
- `Scenarios` states what the pipeline yields on small concrete tables. One of them uses the window of `main.py`.

What is proved, in short:

- Each stage keeps exactly the rows it should, each as often as in its input. Filters keep the input order.
- The sort yields a sorted permutation. Any two sorted arrangements of the same rows have the same date column.
- Deriving Positivi sets the D+R+T identity on every row and touches nothing else. Doing it twice is the same as doing it once.
- Date parsing is exactly the inverse of formatting.
- The source builds each Matlab array by a string trick: `"".join(str(list).split(","))`. It yields exactly the direct formatting `[v1 v2 ... vn]`.
- The whole simulation text reads back to the seven named columns, in the `SIDARTHE_COLUMNS` order.

## Model

| member | source | states |
|---|---|---|
| `Dates.DaysInMonth` | themis/constants.py:7 | a month has 28 to 31 days: 29 exactly for February of a Gregorian leap year, 28 exactly for February of any other year, 30 exactly for April, June, September and November, and 31 otherwise |
| `Dates.YearLength` | themis/constants.py:7 | the twelve months add up to 366 days in a leap year and 365 in any other year |
| `Dates.LessEqTotal` | themis/data/transform.py:75-78 | any two dates are comparable, so sorting by date is well defined |
| `Dates.LessEqTransitive` | themis/data/transform.py:75-78 | chronological order is transitive |
| `Dates.LessEqAntisymmetric` | themis/data/transform.py:75-78 | two dates each on or before the other are the same date |
| `Dates.Format` | themis/constants.py:7 | `%Y-%m-%d` output is ten characters: four, two and two digits separated by `-` |
| `Dates.Parse` | themis/data/transform.py:56-60 | a text parses only when it has the `%Y-%m-%d` shape, and then only to a real calendar date |
| `Dates.ParseFormat` | themis/constants.py:7 | formatting a valid date and parsing the text gives the date back |
| `Dates.FormatParse` | themis/constants.py:7 | a text that parses is the formatting of its date, so no other spelling is accepted |
| `Dates.ParseIffFormat` | themis/constants.py:7 | `Parse(s) == Some(d)` if and only if `d` is valid and `s` is its formatting |
| `Decimal.PadDigitsValue` | themis/constants.py:7 | a zero-padded field reads back as the number it renders |
| `Decimal.PadDigitsOfValue` | themis/constants.py:7 | a field of digits is the zero-padded rendering of the number it denotes |
| `Decimal.NatToString` | themis/data/transform.py:121 | `str(n)` is a non-empty digit string with no leading zero |
| `Decimal.ParseNat` | themis/data/transform.py:121 | a text reads as a number exactly when it is a non-empty digit string |
| `Decimal.NatToStringRoundTrip` | themis/data/transform.py:121 | reading `str(n)` gives `n` back |
| `Decimal.NatToStringInjective` | themis/data/transform.py:121 | distinct counts have distinct renderings |
| `Strings.Split` | themis/data/transform.py:121 | `split` yields at least one part, and no part holds the separator |
| `Strings.RemoveChar` | themis/data/transform.py:121 | deleting a character leaves exactly the other characters of the text |
| `Strings.JoinSplitRemoves` | themis/data/transform.py:121 | `"".join(s.split(c))` deletes every `c` from `s` and changes nothing else |
| `Strings.SplitJoin` | themis/data/transform.py:121 | splitting a join on its separator gives the parts back when no part holds the separator |
| `Strings.RemoveCharJoin` | themis/data/transform.py:121 | deleting the commas of a `", "`-joined list leaves the parts joined by single spaces |
| `Seqs.Filter` | themis/data/transform.py:67-70 | a mask keeps a subsequence in input order, with each passing row exactly as often as in the input and no failing row |
| `Seqs.FilterIdempotent` | themis/data/transform.py:67-70 | applying the same mask twice is applying it once |
| `Constants.FirstCaseDateParses` | themis/constants.py:10 | the threshold text `2020-02-26` parses to 26 February 2020, a valid date |
| `Constants.SidartheColumnsShape` | themis/constants.py:41-49 | seven distinct column names with Positivi last, and the Date column not among them |
| `Constants.DatasetPathSplits` | themis/constants.py:17 | `dir/name.ext` splits back into its directory, name and extension at the last `/` and the last `.` |
| `Constants.SidartheOutPathValue` | themis/constants.py:22-24 | the simulation text is written to `data/out/sidarthe.txt`, in directory `data/out`, named `sidarthe`, extension `txt` |
| `Records.SidartheMetricsNamed` | themis/constants.py:27-49 | the seven metrics carry the names of `SIDARTHE_COLUMNS`, position by position |
| `Records.MetricNamePlain` | themis/constants.py:27-39 | no column name holds `=` or a newline, the delimiters of the simulation text |
| `SidartheFormat.MatlabArray` | themis/data/transform.py:121 | an array is bracketed, holds only digits and spaces, is `[]` exactly for an empty column, and has no space beside a bracket |
| `SidartheFormat.SeriesToMatlabArrayIsMatlabArray` | themis/data/transform.py:121 | the source's split-and-join of `str(list)` is exactly the Matlab array of the values |
| `SidartheFormat.ParseAllRenderings` | themis/data/transform.py:121 | reading the renderings of a column gives the column back |
| `SidartheFormat.MatlabArrayRoundTrip` | themis/data/transform.py:121 | reading a Matlab array gives its values back, in order |
| `SidartheFormat.LineRoundTrip` | themis/data/transform.py:139-145 | `Name=<array>/popolazione;` reads back to the name and the values |
| `SidartheFormat.SourceLineIsLine` | themis/data/transform.py:139-145 | each f-string line of the output is the column's line followed by a newline |
| `SidartheFormat.ColumnsFor` | themis/data/transform.py:124-136 | the named columns pair each metric's name with that column's values, in the order given |
| `SidartheFormat.SidartheTextFollowsColumns` | themis/data/transform.py:124-146 | the hand-written seven-line output is the lines of the metrics in `SIDARTHE_COLUMNS` order |
| `SidartheFormat.SplitTextFor` | themis/data/transform.py:138-146 | splitting the output on newlines gives the seven lines and one empty tail |
| `SidartheFormat.SidartheTextRoundTrip` | themis/data/transform.py:120-146 | the output text reads back to the seven column names with their values, in `SIDARTHE_COLUMNS` order |
| `Transform.DateColumnAsDate` | themis/data/transform.py:56-63 | parsing succeeds exactly when every row's date parses as strict `%Y-%m-%d` (the texts pandas maps to `NaT` are listed under "## Left out"), and then maps each row to its parsed row. On failure it names the first bad row, its position and its text |
| `Transform.RemoveInvalidDates` | themis/data/transform.py:66-72 | keeps in order exactly the rows dated on or after 2020-02-26, each as often as in the input |
| `Transform.InsertByDate` | themis/data/transform.py:75-78 | inserting a row into a sorted table keeps it sorted and adds exactly that row |
| `Transform.OrderByDate` | themis/data/transform.py:75-78 | the sorted table is non-decreasing by date and holds the same rows, as often |
| `Transform.PermutationKeepsDates` | themis/data/transform.py:75-78 | tables holding the same rows hold the same dates, as often |
| `Transform.SortedDatesUnique` | themis/data/transform.py:75-78 | two sorted date sequences with the same dates are equal |
| `Transform.SortedPermutationsShareDates` | themis/data/transform.py:75-78 | however ties are broken, two sorted arrangements of the same rows have the same date column |
| `Transform.OrderByDateSettled` | themis/data/transform.py:75-78 | re-sorting the sorted table leaves its date column as it was |
| `Transform.AddSidarthePositivi` | themis/data/transform.py:87-94 | every row gets Positivi = Isolamento_domiciliare + Ricoverati_sintomi + Terapia_intensiva. The row count, the order, the dates and the six loaded counts are unchanged |
| `Transform.AddSidarthePositiviFixesDerived` | themis/data/transform.py:87-94 | on a table whose Positivi already holds the identity, recomputing changes nothing |
| `Transform.AddSidarthePositiviIdempotent` | themis/data/transform.py:87-94 | deriving Positivi twice is deriving it once |
| `Transform.FilterByDate` | themis/data/transform.py:97-110 | with either bound missing the table is returned unchanged. Otherwise it keeps in order exactly the rows inside [initial, final], both ends included, each as often as before |
| `Transform.FilterByDateIdempotent` | themis/data/transform.py:97-110 | filtering twice by the same bounds is filtering once |
| `Transform.FilterByDateEmptyWindow` | themis/data/transform.py:105-108 | a window that ends before it starts keeps no row |
| `Transform.SubseqOfSortedIsSorted` | themis/data/transform.py:105-108 | dropping rows from a sorted table leaves it sorted |
| `Transform.Execute` | themis/data/transform.py:11-43 | the run fails exactly when some date does not parse as strict `%Y-%m-%d`, naming the first bad row. Otherwise every final row is on or after the threshold, carries Positivi, and lies in the window when both bounds are given. The table is sorted. A row is in it exactly when it is derived from a loaded row the stages keep. The text is the seven-column output, written to `SIDARTHE_OUT_PATH` |
| `Transform.DerivedCounts` | themis/data/transform.py:87-94 | on rows that carry no Positivi yet, each derived row occurs exactly as often as the row it was derived from |
| `Transform.TableCounts` | themis/data/transform.py:35-39 | each parsed row on or after the threshold and inside the window gives its derived row in the final table exactly as often as it was parsed. Any other parsed row gives none |
| `Transform.TableFacts` | themis/data/transform.py:35-39 | the final table is sorted, past the threshold, carries Positivi, lies in the window when both bounds are given, and holds exactly the derived rows of the kept loaded rows |
| `Transform.ExecuteCounts` | themis/data/transform.py:33-41 | after a successful parse, each loaded row on or after the threshold and inside the window appears in the final table with Positivi added, exactly as often as it was loaded. Any other loaded row's derived row appears zero times |
| `Transform.TableInvariants` | themis/data/transform.py:35-39 | after the stages every row is on or after the threshold and carries Positivi, and the table is sorted |
| `Transform.TableFromRaw` | themis/data/transform.py:33-39 | a row is in the final table exactly when it is derived from a loaded row whose date parses and passes the threshold and the window |
| `Scenarios.PreEpidemicRowsDropped` | themis/data/transform.py:33-43 | rows of 20 and 25 February 2020 are dropped. The row of 1 March survives with Positivi 2 + 1 + 1 = 4, and its line reads `Positivi=[4]/popolazione;` |
| `Scenarios.ThirtiethOfFebruaryRejected` | themis/constants.py:7 | `2020-02-30` is not a date |
| `Scenarios.ThirtyFirstOfAprilRejected` | themis/constants.py:7 | `2021-04-31` is not a date |
| `Scenarios.BadDateReported` | themis/data/transform.py:56-60 | a run whose second row is dated `2020-02-30` fails and reports that text at position 1 |
| `Scenarios.SimulationWindowKeepsInside` | main.py:8-9 | the window from 3 April to 19 May 2020 keeps 10 April and drops 2 April and 20 May |

## Left out

- Loading (`_load`, `themis/data/transform.py:46-53`) is left out: reading the CSV file, choosing columns and inferring dtypes is I/O. The model starts from the loaded rows, with the date as text and the six counts as integers.
- Renaming (`_rename_columns`, `themis/data/transform.py:81-84`) is left out because its rename map lives in `themis/data/constants.py`, which is not part of this model. `Record` already carries the canonical names.
- Writing the CSV file (`_dataframe_to_csv`) and writing the text file with its UTF-8 encoding are I/O. The model produces the text and the path, not the files.
- Counts are unbounded natural numbers. pandas' nullable `Int64` and its missing values (`<NA>`), negative counts and 64-bit overflow in the Positivi sum are not modelled.
- Dates carry no time of day. The window bounds are `datetime` values in the source and dates here, and a missing bound is `None`. The source tests a bound with `not initial_date`, which is true only for `None`.
- `Dates.Parse`: follows the strict reading of `%Y-%m-%d` (four, two and two digits, years 1 to 9999). pandas' `to_datetime` also accepts one-digit months and days. Its `Timestamp` covers only the years 1677 to 2262. Neither leniency nor that range is modelled.
- `Transform.OrderByDate`: promises a sorted permutation and no particular order among rows that share a date. The source calls `sort_values` with its default quicksort, which is not stable either. `Transform.SortedPermutationsShareDates` shows that the date column is the same however ties fall.
- `Transform.Execute`: states which rows the final table holds but not how often each occurs. `Transform.ExecuteCounts` states the counts.
- `Transform.DateColumnAsDate`: a loaded date is always text here, and every text is parsed strictly as `%Y-%m-%d`. The source has three cases where pandas yields a date or `NaT` without raising, and the model fails the run on all three. (1) A blank or `NA`/`null`/`nan`/`NaN` date cell loads as a missing value, which `pd.to_datetime` turns into `NaT`. (2) The texts `NaT`, `nat`, `NAT` and `NAN` pass `read_csv` as text, but `pd.to_datetime` maps them to `NaT` before applying the format. (3) Under pandas 2, `now` and `today` parse to the current timestamp. In cases (1) and (2), `_remove_invalid_dates` then drops the row silently, because `NaT >= "2020-02-26"` is false. In case (3), the row's date depends on the clock, which the model has no notion of. So "the run fails exactly when some date does not parse" holds of the model's strict parse, not of pandas on these texts.
- `Transform.DateColumnAsDate`: reports the first row that fails, with its position and text. pandas raises a `ValueError` whose message wording is not modelled.
- The CSV output path (`DATASET_OUT_PATH`) and the input path live in `themis/data/constants.py`, which is not part of this model. Only `SIDARTHE_OUT_PATH` is modelled.
- `main.py` is context. Only its date window appears, in one concrete scenario.
