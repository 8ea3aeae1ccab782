# Bronze / silver / gold project-finance pipeline, modelled in Dafny

The pipeline turns per-project financial data into a small star schema in
three batch steps:

- **bronze** (`scripts/bronze_layer.py`) reads the `project` and
  `expenses` tables of one SQLite database per project code and one budget
  CSV per project code, tags every row with its project code and
  concatenates the frames in catalog order;
- **silver** (`scripts/silver_layer.py`) casts `year` and `month` to
  integers, derives `date` as the first day of that month, and cleans
  `department` and `category` with `strip()` then `title()`, identically for
  expenses and budgets;
- **gold** (`scripts/gold_layer.py`) builds an EUR rate table by asking an
  exchange-rate provider about every distinct expense currency (EUR is
  always 1.0 and never asked), left-merges expenses with it and computes
  `amount_eur`, outer-joins budgets and expenses on (date, project_code,
  department, category), fills missing measures with 0, left-joins the
  de-duplicated project dimension, and builds the monthly calendar
  `dim_date` for 2023–2025;
- `scripts/api_test.py` is a stand-alone copy of the rate loop.

The Dafny modules follow those scripts:

| file | module | what it holds |
|---|---|---|
| `wrappers.dfy` | `Wrappers` | `Option`, `Result` |
| `seqs.dfy` | `Seqs` | `unique()` / `drop_duplicates()` (keep first), `pd.concat` |
| `pystr.dfy` | `PyStr` | the Python string operations used: `strip`, `title`, `str(int)`, `zfill`, `int(text)` |
| `calendar.dfy` | `Calendar` | dates, `pd.to_datetime` on `YYYY-MM-DD` text, the Timestamp range, month names |
| `bronze_layer.dfy` | `BronzeLayer` | catalogs, missing-file report, tagging, the loading loops |
| `silver_layer.dfy` | `SilverLayer` | `astype(int)`, the date column, text cleaning, both tables |
| `fx_rates.dfy` | `FxRates` | the rate loop, the rate table, the left merge and `amount_eur` |
| `gold_fact.dfy` | `GoldFact` | the fact projection, outer join, zero fill, project dimension and join, the gold run |
| `dim_date.dfy` | `DimDate` | the calendar spine |
| `api_test.dfy` | `ApiTest` | the stand-alone rate script |

External things are parameters: a database read is `db: Path -> Option<DbExtract>`
(`None` when the queries raise), a CSV read is `csv: Path -> Option<seq<BronzeBudget>>`,
file existence is `onDisk: Path -> bool`, and the exchange-rate provider is
`provider: Currency -> Response`, where a response is a reply with a status
and a body (`ConversionRates(eur)` or `Unreadable`) or `Raised`. The loops
that work step by step (the missing-file checks, the two bronze loading
loops, the rate loop) are methods with loop invariants, each proved equal to
a specification function about which the properties below are proved.

Three behaviours of the scripts are easy to misread, and the model keeps
them as written:

- every missing measure of the joined fact table, including the EUR amount
  of an expense whose currency got no rate, becomes 0 through `fillna(0)`
  (`scripts/gold_layer.py:62-63`); `GoldFact.FilledMeasures` states it;
- the existence check of `scripts/bronze_layer.py:27-32` only prints; the
  loops that follow still read every catalogued file, and the read of a
  missing one raises (`scripts/bronze_layer.py:50-53`, `:61-64`), so the
  model aborts (`BronzeLayer.UnreadableSourceAborts`);
- the CSV catalog maps KE02 to `KEO2_budget.csv`, with the letter O
  (`scripts/bronze_layer.py:21`), and the model keeps that entry.

## Model

| member | source | states |
|---|---|---|
| BronzeLayer.CatalogsCoverProjects | scripts/bronze_layer.py:11-24 | both catalogs are keyed by exactly the eight project codes, in `projects` order, with no code twice; every DB path is `<code>.db`; every CSV path is `<code>_budget.csv` except KE02's, which is `KEO2_budget.csv` |
| BronzeLayer.MissingPathsSpec | scripts/bronze_layer.py:27-32 | a path is reported missing exactly when a catalog entry names it and it is not on disk |
| BronzeLayer.ReportMissing | scripts/bronze_layer.py:26-32 | the two loops report exactly the missing DB paths and the missing CSV paths, in catalog order, and change nothing else |
| BronzeLayer.TagProjects | scripts/bronze_layer.py:42 | every project row gets the code as `project_code`; row count and all other columns are unchanged |
| BronzeLayer.TagExpenses | scripts/bronze_layer.py:43 | the tagging of `TagProjects`, on the expense table's row type: every expense row gets the code as `project_code`; row count and all other columns are unchanged |
| BronzeLayer.TagBudgets | scripts/bronze_layer.py:62-63 | the tagging of `TagProjects`, on the budget CSV's row type: every budget row gets the catalog key as `project_code`; row count and all other columns are unchanged |
| BronzeLayer.DbFramesFailurePersists | scripts/bronze_layer.py:50-53 | once a database read raises, the later codes do not change the outcome: the run has stopped |
| BronzeLayer.CsvFramesFailurePersists | scripts/bronze_layer.py:61-64 | once a CSV read raises, the later entries do not change the outcome |
| BronzeLayer.DbFramesSucceed | scripts/bronze_layer.py:35-53 | the database loop succeeds exactly when every project's database can be read |
| BronzeLayer.DbFramesContents | scripts/bronze_layer.py:35-53 | the k-th project and expense frames are the k-th database's tables tagged with the k-th code |
| BronzeLayer.DbFramesRowCounts | scripts/bronze_layer.py:50-53 | the project and expense frames together hold as many rows as the databases |
| BronzeLayer.CsvFramesSucceed | scripts/bronze_layer.py:61-64 | the budget loop succeeds exactly when every CSV can be read |
| BronzeLayer.CsvFramesContents | scripts/bronze_layer.py:61-64 | the k-th budget frame is the k-th CSV tagged with its catalog key |
| BronzeLayer.CsvFramesRowCount | scripts/bronze_layer.py:61-64 | the budget frames together hold as many rows as the files |
| BronzeLayer.RunBronze | scripts/bronze_layer.py:26-66 | the script as a program (check loops, database loop, CSV loop, concatenations) returns the missing-file report and exactly the tables of the specification `Bronze`, or the first read that raises |
| BronzeLayer.BronzeRowCounts | scripts/bronze_layer.py:50-66 | each bronze table has exactly the sum of its sources' row counts: nothing dropped, nothing de-duplicated |
| BronzeLayer.BronzeRowCodes | scripts/bronze_layer.py:41-66 | every row of the three bronze tables carries one of the eight project codes |
| BronzeLayer.UnreadableSourceAborts | scripts/bronze_layer.py:27-38 | a database or CSV that cannot be read makes the run fail: the missing-file report does not skip it |
| PyStr.StripSpec | scripts/silver_layer.py:25-26 | `strip()` returns the slice between the first and last non-whitespace characters; everything cut is whitespace; the result neither starts nor ends with whitespace |
| PyStr.StripNoOuterSpace | scripts/silver_layer.py:25-26 | `strip()` leaves a string without outer whitespace unchanged |
| PyStr.TitleSpec | scripts/silver_layer.py:25-26 | `title()` keeps the length; a letter at the start or after a non-letter is upper-cased, any other letter lower-cased, a non-letter kept |
| PyStr.TitleKeepsClasses | scripts/silver_layer.py:25-26 | `title()` maps letters to letters and whitespace to whitespace, position by position |
| PyStr.TitleIdempotent | scripts/silver_layer.py:25-26 | `title()` of a title-cased string changes nothing |
| PyStr.NatToStrDigits | scripts/silver_layer.py:21 | `str(n)` is a non-empty digit string whose value is `n`, without a leading zero; one digit below 10, two below 100 |
| PyStr.ParseIntSpec | scripts/silver_layer.py:16-17 | `int(text)` succeeds exactly when the stripped text is an optional sign and one or more ASCII digits, and gives the digits' value, negated after a minus |
| PyStr.ParseIntPadded | scripts/silver_layer.py:16-17 | whitespace before and after the text of an integer does not change what `int()` reads |
| PyStr.ParseIntExamples | scripts/silver_layer.py:16-17 | `" 7 "` reads 7 and `"-3"` reads -3; `"12a"`, `"2024.0"`, `""` and `" + "` raise |
| PyStr.ParseIntRoundTrip | scripts/silver_layer.py:16-17 | `int(str(i)) == i` for every integer, so integer text casts back to the same value |
| Calendar.ToDatetimeSpec | scripts/silver_layer.py:20-22 | `to_datetime` on a cell succeeds exactly when the text is digits, a dash, two digits, a dash and two digits naming an existing day inside the Timestamp range, and then gives that day; a real day outside the range raises out-of-bounds, anything else is unparsable |
| SilverLayer.TruncateTowardZero | scripts/silver_layer.py:16-17 | the integer cast of a float is the integer next to it on the zero side |
| SilverLayer.AsInt | scripts/silver_layer.py:16-17 | `astype(int)` keeps integers, truncates floats toward zero (the result is within 1 of the value, on its zero side), casts text exactly when it is an integer literal once stripped, and then to the integer `int()` reads from it, and fails on a missing value |
| SilverLayer.MonthTextSpec | scripts/silver_layer.py:21 | `str(month).zfill(2)` is two digits exactly when the month is 0..99, and those digits denote the month |
| SilverLayer.FirstOfMonthSpec | scripts/silver_layer.py:20-22 | the date built from `str(year) + "-" + str(month).zfill(2) + "-01"` exists exactly when the month is 1..12 and that first day lies in the Timestamp range, and it is the first day of that month |
| SilverLayer.CleanTextIdempotent | scripts/silver_layer.py:25-26 | cleaning a cleaned department or category changes nothing |
| SilverLayer.CleanTextSpec | scripts/silver_layer.py:25-26 | a cleaned value is the title-cased text between the first and last non-whitespace characters and has no outer whitespace |
| SilverLayer.CleanTextOps | scripts/silver_layer.py:25 | `" ops "` is cleaned to `"Ops"` |
| SilverLayer.CleanTextTravel | scripts/silver_layer.py:26 | `"travel"` is cleaned to `"Travel"` |
| SilverLayer.CastColumn | scripts/silver_layer.py:16-17 | casting a column succeeds exactly when every cell casts, and then holds each cell's value in order |
| SilverLayer.ParseColumn | scripts/silver_layer.py:20-22 | parsing the date text column succeeds exactly when every cell parses, and then holds each cell's date in order |
| SilverLayer.DateColumnSpec | scripts/silver_layer.py:20-22 | the date column exists exactly when every (year, month) names a month inside the Timestamp range, and then holds the first days of those months |
| SilverLayer.PeriodColumnsSpec | scripts/silver_layer.py:16-22 | the cast and date steps succeed exactly when every row's period is valid; then each row holds its cast year and month and the first day of that month |
| SilverLayer.CleanExpenses | scripts/silver_layer.py:13-26 | silver expenses exist exactly when every row has a valid period; then each row keeps its position, gets integer year and month and the first day of that month, cleaned department and category, and unchanged project code, currency and local amount |
| SilverLayer.CleanBudgets | scripts/silver_layer.py:29-42 | the same for budgets, with the EUR budget unchanged |
| SilverLayer.CleaningIsSymmetric | scripts/silver_layer.py:13-42 | an expense row and a budget row with the same raw code, period and text keys get the same join key |
| SilverLayer.ValidIntPeriod | scripts/silver_layer.py:16-22 | integer cells naming a month inside the Timestamp range form a valid period |
| SilverLayer.SilverExpensePeriodValid | scripts/silver_layer.py:16-22 | every silver expense row's integer period is itself valid input for the silver step |
| SilverLayer.SilverBudgetPeriodValid | scripts/silver_layer.py:32-38 | every silver budget row's integer period is itself valid input for the silver step |
| SilverLayer.CleanExpensesIdempotent | scripts/silver_layer.py:13-26 | running the expense cleaning on its own output gives that output back |
| SilverLayer.CleanBudgetsIdempotent | scripts/silver_layer.py:29-42 | running the budget cleaning on its own output gives that output back |
| FxRates.Resolve | scripts/gold_layer.py:25-41 | EUR resolves to 1.0; a resolved rate is never 0; any other currency resolves only from a status-200 reply whose body's EUR rate is that rate |
| FxRates.FetchRates | scripts/gold_layer.py:22-47 | the rate loop builds exactly the table `RateTable` and issues requests for exactly the currencies `Requests` |
| FxRates.RateTableAppend | scripts/gold_layer.py:24-47 | currencies are handled independently: the table and the requests for a concatenation are the concatenations, so one failure neither stops the loop nor changes another currency's entry |
| FxRates.RateTableEntries | scripts/gold_layer.py:24-41 | an entry (c, r) is recorded exactly when c is an input currency that resolves to r |
| FxRates.RequestsSpec | scripts/gold_layer.py:25-32 | EUR is never requested; every other input currency is |
| FxRates.RequestsCount | scripts/gold_layer.py:24-32 | a currency other than EUR is requested once per occurrence in the input, EUR never |
| FxRates.RequestsDistinct | scripts/gold_layer.py:20-32 | over distinct currencies, no currency is requested twice |
| FxRates.EurIsIdentity | scripts/gold_layer.py:25-28 | EUR gets rate 1.0, only 1.0, and no request |
| FxRates.RecordedExactlyOnTruthyRate | scripts/gold_layer.py:34-41 | a non-EUR currency is recorded exactly when its reply has status 200 and a present, non-zero EUR rate, and then with that rate |
| FxRates.FailedLookupRecordsNothing | scripts/gold_layer.py:42-45 | a non-200 status, an unreadable body or a raised request records nothing for that currency |
| FxRates.ResolvedCurrencies | scripts/gold_layer.py:24-41 | the resolved currencies are input currencies that resolve |
| FxRates.RateTableCurrencies | scripts/gold_layer.py:22-47 | the table's currencies are exactly the resolved input currencies, in input order |
| FxRates.ResolvedDistinct | scripts/gold_layer.py:20-47 | distinct input currencies give a table with at most one entry per currency |
| FxRates.ResolvedKeepsOrder | scripts/gold_layer.py:20-47 | the table keeps the input's order of first appearance |
| FxRates.LeftMergeFx | scripts/gold_layer.py:50-51 | the merge raises exactly when the rate frame is empty; otherwise it has at least as many rows as expense rows and every expense row appears in at least one of them, every row is an expense row with a table rate for its currency, and the rate is missing exactly when the table has none for that currency |
| FxRates.WithAmountEur | scripts/gold_layer.py:52 | `amount_eur` is present exactly when the row has a rate |
| FxRates.RatesForDistinct | scripts/gold_layer.py:51 | with one entry per currency, a currency matches one rate (its entry's) or none |
| FxRates.LeftMergeKeepsRows | scripts/gold_layer.py:50-51 | with one entry per currency the left merge keeps every expense row exactly once and in order, with its currency's rate or a missing rate |
| FxRates.RateTableEmpty | scripts/gold_layer.py:20-50 | the rate table is empty exactly when no expense currency resolves |
| FxRates.MergedRates | scripts/gold_layer.py:20-51 | on the table built from `unique()`, the merge keeps every expense row once, in order, with its currency's resolved rate |
| FxRates.ConversionSpec | scripts/gold_layer.py:20-52 | the merge raises only when no currency resolved (the empty rate frame has no `currency` column); otherwise every expense row is kept once and in order and its `amount_eur` is `amount_local` times its rate, missing when the currency did not resolve |
| GoldFact.Fill | scripts/gold_layer.py:62-63 | the fill keeps rows and keys; a present measure is kept, a missing one becomes 0 |
| GoldFact.ExpensesWithKeySpec | scripts/gold_layer.py:58-60 | the expense rows matching a key are exactly the rows with that key, as many as there are |
| GoldFact.BudgetRowMatchesCount | scripts/gold_layer.py:58-60 | one budget row yields max(1, n) rows of its key, n being the expense rows with that key |
| GoldFact.BudgetSideCount | scripts/gold_layer.py:58-60 | each of the m budget rows of a key yields max(1, n) joined rows of that key (n expense rows of the key), m copies in all |
| GoldFact.ExpenseOnlyCount | scripts/gold_layer.py:58-60 | expense rows yield rows of their own only for keys without budget rows |
| GoldFact.OuterJoinCounts | scripts/gold_layer.py:58-60 | a key with m budget rows and n expense rows has m · n joined rows when both are positive, otherwise m + n |
| GoldFact.BudgetRowMatchesContents | scripts/gold_layer.py:58-60 | one budget row becomes one row per expense row of its key, or itself with a missing amount when there is none |
| GoldFact.BudgetSideContents | scripts/gold_layer.py:58-60 | the budget side holds each same-key (budget row, expense row) pair once and each budget row without an expense key once |
| GoldFact.ExpenseOnlyContents | scripts/gold_layer.py:58-60 | the expense-only rows are the expense rows whose key no budget row has, each once, with a missing budget |
| GoldFact.OuterJoinContents | scripts/gold_layer.py:58-60 | the outer merge as a multiset: a row occurs once per same-key (budget row, expense row) pair yielding it, once per budget row whose key has no expense, once per expense row whose key has no budget, and nothing else occurs |
| GoldFact.OuterJoinPairsExample | scripts/gold_layer.py:58-60 | budgets 10 and 20 and expenses 1 and 2 of one key join into (10, 1), (10, 2), (20, 1), (20, 2), each once |
| GoldFact.OuterJoinKeys | scripts/gold_layer.py:58-60 | a key is in the joined table exactly when it is in budgets or in expenses |
| GoldFact.BudgetSideRows | scripts/gold_layer.py:58-60 | rows from the budget side carry a budget row's key and budget, and any amount they carry is an expense row's with that key |
| GoldFact.ExpenseOnlyRows | scripts/gold_layer.py:58-60 | expense-only rows have a missing budget, a key no budget row has, and an expense row's amount |
| GoldFact.OuterJoinMeasures | scripts/gold_layer.py:58-60 | a joined row has a budget exactly when budgets have its key, and then a budget row's; a present amount is an expense row's with its key |
| GoldFact.FilledMeasures | scripts/gold_layer.py:58-63 | after the fill, a key without budget rows has budget 0, a budget is that of a budget row with the key, a non-zero amount is that of an expense row with the key, and a key whose expenses all lack a rate (or that has none) has amount 0 |
| GoldFact.DimProject | scripts/gold_layer.py:68-69 | `dim_project` holds every (project_code, country, name) triple of the bronze projects, each once, in order of first appearance |
| GoldFact.MetadataForSpec | scripts/gold_layer.py:72 | the dimension rows for a code are those with that code; none exactly when no row has it; at most one when codes are distinct |
| GoldFact.MetadataForCount | scripts/gold_layer.py:72 | a project code has as many metadata rows as the dimension has rows with that code |
| GoldFact.JoinProjectSpec | scripts/gold_layer.py:72 | a fact row yields at least one row, all carrying it; country and name are missing exactly when no dimension row has its code, and otherwise come from such a row |
| GoldFact.LeftJoinProjects | scripts/gold_layer.py:72 | the project join has one row for each pair of a fact row and a dimension row with its project code, plus one for each fact row whose code has none, so a code with k > 1 dimension rows repeats its fact rows k times |
| GoldFact.LeftJoinContents | scripts/gold_layer.py:72 | each row of the project join occurs (occurrences of its fact row) × (dimension rows with the fact's project code and the row's country and name) times; a row with missing country and name occurs once per occurrence of its fact row exactly when no dimension row has that code; no other row occurs |
| GoldFact.LeftJoinExample | scripts/gold_layer.py:72 | a fact row whose project code has two dimension rows with different countries becomes exactly those two rows, one per country |
| GoldFact.LeftJoinKeepsRows | scripts/gold_layer.py:72 | the project join keeps every fact row, and every output row carries an input fact row; country and name are missing exactly when the project code has no metadata, and otherwise come from a dimension row with that code |
| GoldFact.LeftJoinOneToOne | scripts/gold_layer.py:72 | with at most one dimension row per code the join keeps every fact row exactly once, in order |
| GoldFact.RunGold | scripts/gold_layer.py:20-82 | the gold script as a program (rate loop, conversion, fact, dimensions) returns exactly the tables of the specification `Gold` and requests exactly the non-EUR distinct currencies |
| GoldFact.GoldOutcome | scripts/gold_layer.py:20-82 | the gold run fails exactly when no expense currency gets a rate; otherwise it publishes the project dimension and the calendar |
| GoldFact.BudgetSource | scripts/gold_layer.py:55-63 | a non-zero budget in the fact table is the budget of a silver budget row with the same key |
| GoldFact.AmountSource | scripts/gold_layer.py:50-63 | a non-zero amount in the fact table is `amount_local * fx_to_eur` of a silver expense row with the same key whose currency resolved |
| GoldFact.GoldFactSources | scripts/gold_layer.py:50-72 | every non-zero measure of a published gold row traces back to a silver budget or a converted silver expense with the row's key |
| DimDate.MonthStartRangeSpec | scripts/gold_layer.py:75 | the range holds exactly the first days of months between start and end, in strictly increasing order, each the month after the previous |
| DimDate.DimDateSpec | scripts/gold_layer.py:75-82 | `dim_date` has 36 rows; row i is the first day of month i % 12 + 1 of year 2023 + i / 12; year, month, month name and "Mon YYYY" label are those of its date |
| DimDate.DimDateBounds | scripts/gold_layer.py:75 | `dim_date` runs from 2023-01-01 to 2025-12-01, strictly increasing and contiguous |
| DimDate.DimDateLabels | scripts/gold_layer.py:78-81 | the first row is labelled "Jan 2023" / "January" and the last "Dec 2025" / "December" |
| ApiTest.RunApiTest | scripts/api_test.py:14-41 | the script builds exactly the rate table of the distinct expense currencies and requests exactly the non-EUR ones |
| ApiTest.ApiTestTable | scripts/api_test.py:14-39 | the table has at most one entry per distinct currency, only currencies of the expenses, in order of first appearance; no currency is requested twice |

## Left out

- HTTP: URL building, the API key, `requests.get`, JSON decoding and the `conversion_rates` lookup are folded into the provider parameter; what a reply's body says is its `ConversionRates(eur)` or `Unreadable` value.
- `time.sleep(1)` between requests: timing only.
- Parquet, SQLite and CSV reads and writes, `mkdir`, `Path.exists` and the `config` module: reads and existence checks are parameters; writes are not modelled.
- All `print` output; the missing-file loops are modelled by the list of paths they would name.
- Floating point: amounts and rates are `real`; the rounding of `amount_local * fx_to_eur` is not modelled.
- Columns other than the ones the scripts touch; the bronze project row holds only `project_code`, `country` and `name`.
- A missing (`NaN`) currency, department or category cell: these columns are modelled as always present.
- A missing (NULL) `country` or `name` in a project database: the dimension columns are modelled as always present. In the scripts such a row, matched on its code, gives a gold row whose country or name is missing, so the claims of `GoldFact.JoinProjectSpec`, `GoldFact.LeftJoinKeepsRows` and `GoldFact.LeftJoinContents` that a missing country and name mean an unmatched code hold only for project rows with both columns filled.
- A missing (`NaN`) `amount_local` or `budget_eur` cell: amounts and budgets are `real`. In the scripts a missing local amount gives a missing `amount_eur` (`scripts/gold_layer.py:52`), which the fill then turns into 0 (`scripts/gold_layer.py:62-63`), the same outcome the model gives a row whose currency has no rate.
- GoldFact.OuterJoin: the row order of `how="outer"` (pandas sorts the join keys) is not modelled; the properties are stated per key (counts, presence, measures).
- GoldFact.OuterJoinMeasures: states where each measure comes from, not how often a row occurs; which rows pair up, and how many times each joined row occurs, is stated by `GoldFact.OuterJoinContents`.
- GoldFact.GoldOutcome: the contents of the published fact table are stated by `GoldFactSources`, `FilledMeasures`, `OuterJoinContents`, `OuterJoinCounts`, `LeftJoinProjects`, `LeftJoinContents` and `LeftJoinKeepsRows` rather than in one contract.
- SilverLayer.AsInt: `int(text)` is modelled on ASCII: an optional sign and digits with surrounding ASCII whitespace; digit-group underscores (`"1_000"`) and non-ASCII digits are not modelled.
- SilverLayer.AsInt: the 64-bit width of `astype(int)` (`scripts/silver_layer.py:16-17`, `32-33`) is not modelled: integers are unbounded, so text beyond the int64 range, on which pandas raises an overflow error, casts here, and a float beyond that range, which pandas converts without a range check to some unrelated int64 value, truncates here to its exact integer part. No such year or month names a valid period, so the silver tables and the failure of the run are the same; only the step that fails differs.
- PyStr.StripSpec: whitespace is the ASCII whitespace `str.strip()` removes (space, `\t`..`\r`, `\x1c`..`\x1f`); other Unicode whitespace is not modelled.
- PyStr.TitleSpec: casing is ASCII only; Unicode case mapping and title-case letters are not modelled.
- Calendar.ToDatetimeSpec: `pd.to_datetime` is modelled only on text of the shape `<digits>-<2 digits>-<2 digits>`, the shape the silver step builds; the other formats pandas accepts are not modelled.
- Calendar.ToDatetimeSpec: a year written with one or two digits (`"99-03-01"`, from a year cell below 100) is rejected as out of bounds, because it names year 99; pandas infers a format from the column's first cell or hands the text to dateutil, and either can read such a year as 1999 or 2099. Which of these pandas does is not modelled.
- SilverLayer.FirstOfMonthSpec: a year below 100 (written with one or two digits) gives no date here, where pandas may give a date in 19xx or 20xx.
- SilverLayer.DateColumnSpec: a column holding a year below 100 gives no date column here, where pandas may read that year as 19xx or 20xx.
- DimDate.DimDateSpec: `strftime("%b %Y")` and `strftime("%B")` are the English (C locale) names; other locales are not modelled.
