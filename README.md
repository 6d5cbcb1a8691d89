# Verified model of two data-import cores

This Dafny project models the core logic of two import scripts that produce
CSV files for a statistical knowledge graph.

- **BLS CPI series transform** (`BlsCpi`, `bls_cpi.dfy`). It takes the rows of a
  raw BLS time-series file, keeps the rows of one series that are not annual
  averages (`period == "M13"`), and builds a date from the year and the last two
  characters of the period. It then parses that date as a year-month, keeps the
  rows whose year is after a start year (default 1946), and emits `date,cpi`
  rows with the date rendered as `YYYY-MM` and the value string untouched. A
  date that does not parse aborts the whole series. The two configuration
  tables (series name to URL, series name to series id) are included as
  constants.
- **NHM birth-control column normalizer** (`NhmBirthControl`,
  `nhm_birth_control.dfy`). These are two constant tables, `ColsToNodes` (raw
  column header to StatVar id) and `CleanNames` (raw header to clean label),
  with an exact-match lookup and a header-row rename. The rename keeps only the
  mapped headers and replaces each one by its id.

`wrappers.dfy` holds the `Option` and `Result` datatypes both modules use.

The pandas DataFrame steps in `process` are whole-column filters and maps. They
are modelled as a chain of recursive sequence functions: `SelectSeries`,
`BuildDates`, `ParseDates`, `AfterYear` and `RenderDates`, composed by
`Process`. Beside them is a single-pass reference definition, `Reference`. The
lemmas prove three things about them. First, the pipeline succeeds exactly when
every kept row's date parses. Second, on success its output equals the
reference. Third, the reference output is an order-preserving subsequence of
the input rows, each output row coming from a kept, recent input row.

The header table has 17 raw headers and 12 distinct StatVar ids
(`RawHeaderCount`, `StatVarCount`).

## Model

| member | source | states |
|---|---|---|
| `BlsCpi.SeriesIdOf` | scripts/us_bls/cpi/generate_csv.py:131-132 | the series-id lookup succeeds exactly for names in the series-id table, and returns that entry |
| `BlsCpi.SeriesTablesAgree` | scripts/us_bls/cpi/generate_csv.py:44-66 | the URL table and the series-id table have the same series names, so the lookup in the main loop never fails |
| `BlsCpi.LastTwo` | scripts/us_bls/cpi/generate_csv.py:110 | `period[-2:]` is the suffix of length two, or the whole string when it is shorter |
| `BlsCpi.BuildDateOfMonthlyPeriod` | scripts/us_bls/cpi/generate_csv.py:110 | for a period `M` followed by two characters `dd`, the built date is exactly `year + "-" + dd` |
| `BlsCpi.Kept` | scripts/us_bls/cpi/generate_csv.py:107-108 | definition of the row filter: the target series, and a period other than `M13` |
| `BlsCpi.BuildDate` | scripts/us_bls/cpi/generate_csv.py:110 | definition of the date text built from a row: year, a dash, the last two characters of the period |
| `BlsCpi.SelectSeries` | scripts/us_bls/cpi/generate_csv.py:107-108 | the kept rows are exactly the input rows that pass `Kept`, in their input order (a subsequence of the input), each kept as often as it occurs in the input |
| `BlsCpi.BuildDates` | scripts/us_bls/cpi/generate_csv.py:110-112 | row by row, the date column is the built date and the cpi column is the original value string |
| `BlsCpi.ParseYearMonth` | scripts/us_bls/cpi/generate_csv.py:116 | parsing succeeds exactly on text `YYYY-MM` with month 01..12, giving a year 0..9999 and a month 1..12 |
| `BlsCpi.FormatYearMonth` | scripts/us_bls/cpi/generate_csv.py:118 | rendering gives seven characters with a dash after the year |
| `BlsCpi.ParseThenFormat` | scripts/us_bls/cpi/generate_csv.py:116-118 | re-rendering a parsed date gives back exactly the text that was parsed |
| `BlsCpi.FormatThenParse` | scripts/us_bls/cpi/generate_csv.py:116-118 | every valid year-month renders to `YYYY-MM` text that parses back to the same year-month |
| `BlsCpi.ParseDates` | scripts/us_bls/cpi/generate_csv.py:116-122 | the parse of the date column succeeds iff every date parses, keeps every row's cpi, and otherwise reports an unparsable date of the column |
| `BlsCpi.AfterYear` | scripts/us_bls/cpi/generate_csv.py:117 | the kept rows are exactly those whose year is strictly greater than the start year, in their order (a subsequence), each kept as often as it occurs |
| `BlsCpi.RenderDates` | scripts/us_bls/cpi/generate_csv.py:118 | every rendered date parses back to the row's year-month and the cpi is unchanged |
| `BlsCpi.Process` | scripts/us_bls/cpi/generate_csv.py:92-122 | the whole transform of one series: on success at most one output row per input row, each with a `YYYY-MM` date whose year is after the start year; on failure the error names the built date of a kept input row that does not parse (`ProcessFailsIff`, `ProcessIsReference` and `ProcessOutput` state the rest) |
| `BlsCpi.ProcessFailsIff` | scripts/us_bls/cpi/generate_csv.py:107-122 | the series fails exactly when some row of the target series that is not `M13` has an unparsable date, whatever its year |
| `BlsCpi.ProcessIsReference` | scripts/us_bls/cpi/generate_csv.py:107-118 | on success, the pipeline output equals the single-pass reference: each kept row with a parsable date after the start year contributes its built date and its value |
| `BlsCpi.ReferenceKeepsOrder` | scripts/us_bls/cpi/generate_csv.py:107-118 | the output is a subsequence of the input rows (with their built dates), so the relative order of rows is kept |
| `BlsCpi.ReferenceProvenance` | scripts/us_bls/cpi/generate_csv.py:107-118 | each output row is the built date and the value of an input row of the target series, not `M13`, whose year is after the start year |
| `BlsCpi.ProcessOutput` | scripts/us_bls/cpi/generate_csv.py:107-118 | each output row has a `YYYY-MM` date whose year is after the start year, equal to the date built from its source row, and the source row's value as cpi; order is kept |
| `BlsCpi.NoAnnualAverageOutput` | scripts/us_bls/cpi/generate_csv.py:106-108 | input made only of `M13` rows yields an empty, successful output |
| `BlsCpi.AnnualAverageDateUnparsable` | scripts/us_bls/cpi/generate_csv.py:107-116 | the date built from an `M13` row has month `13` and never parses |
| `BlsCpi.AnnualAverageNeverOutput` | scripts/us_bls/cpi/generate_csv.py:106-118 | for every input, no output row carries the built date of an `M13` input row |
| `BlsCpi.MonthlyRowScenario` | scripts/us_bls/cpi/generate_csv.py:106-118 | the row `CUSR0000SA0 2020 M05 257.8` with the default start year 1946 gives exactly the row `2020-05,257.8` |
| `BlsCpi.UnparsableOldRowFailsSeries` | scripts/us_bls/cpi/generate_csv.py:116-122 | a row with a malformed year fails the whole series, though the year filter would have dropped it |
| `NhmBirthControl.Lookup` | scripts/india_nhm/states/nhm_birth_control/preprocess.py:19-56 | exact-match lookup: Some(entry) iff the header is a key, None for an unmapped header |
| `NhmBirthControl.StatVarOf` | scripts/india_nhm/states/nhm_birth_control/preprocess.py:21-56 | a header has an id exactly when it is a key of `cols_to_nodes`, and the id is one of the table's values |
| `NhmBirthControl.CleanNameOf` | scripts/india_nhm/states/nhm_birth_control/preprocess.py:21-93 | a header has a clean label exactly when it has an id, and the label is the one of that id |
| `NhmBirthControl.Rename` | scripts/india_nhm/states/nhm_birth_control/preprocess.py:19-56 | renaming a header row never makes it longer |
| `NhmBirthControl.RenameMembers` | scripts/india_nhm/states/nhm_birth_control/preprocess.py:19-56 | a name is in the renamed row iff some mapped header of the row maps to it, so only table values appear |
| `NhmBirthControl.RenameLength` | scripts/india_nhm/states/nhm_birth_control/preprocess.py:19-56 | nothing is dropped iff every header is mapped, and everything is dropped iff no header is mapped |
| `NhmBirthControl.RenameAppend` | scripts/india_nhm/states/nhm_birth_control/preprocess.py:19-56 | renaming two header rows one after the other is renaming their concatenation |
| `NhmBirthControl.RenameScenario` | scripts/india_nhm/states/nhm_birth_control/preprocess.py:50-53 | `State`, an unknown header and both oral-pill spellings rename to `State` and the oral-pill id twice; the unknown header is dropped |
| `NhmBirthControl.SameRawHeaders` | scripts/india_nhm/states/nhm_birth_control/preprocess.py:21-93 | the id table and the label table have exactly the same raw headers |
| `NhmBirthControl.CleanNameFollowsStatVar` | scripts/india_nhm/states/nhm_birth_control/preprocess.py:21-93 | every header's clean label is determined by its StatVar id alone |
| `NhmBirthControl.SynonymsShareLabel` | scripts/india_nhm/states/nhm_birth_control/preprocess.py:21-93 | two headers with the same StatVar id have the same clean label |
| `NhmBirthControl.IdentityColumns` | scripts/india_nhm/states/nhm_birth_control/preprocess.py:22-64 | `State`, `isoCode` and `Date` map to themselves in both tables |
| `NhmBirthControl.IucdSynonyms` | scripts/india_nhm/states/nhm_birth_control/preprocess.py:42-82 | both IUCD insertion spellings give `Count_BirthControlEvent_IUCDInsertion` and the label `Total IUCD Insertions done` |
| `NhmBirthControl.OralPillSynonyms` | scripts/india_nhm/states/nhm_birth_control/preprocess.py:50-90 | `Oral Pills distributed` and `Combined Oral Pills distributed` give `Count_ContraceptiveDistribution_OralPill` and the label `Number of distributed contraceptives (oral pills)` |
| `NhmBirthControl.SterilisationSynonyms` | scripts/india_nhm/states/nhm_birth_control/preprocess.py:28-35 | vasectomy and tubectomy headers with and without `(Public + Pvt.)` collapse to one id each, and the two ids differ |
| `NhmBirthControl.RawHeadersSize` | scripts/india_nhm/states/nhm_birth_control/preprocess.py:21-56 | the 17 raw header spellings are pairwise distinct |
| `NhmBirthControl.RawHeaderCount` | scripts/india_nhm/states/nhm_birth_control/preprocess.py:21-56 | the table's keys are exactly those raw headers, 17 of them |
| `NhmBirthControl.EveryStatVarUsed` | scripts/india_nhm/states/nhm_birth_control/preprocess.py:21-56 | each of the 12 StatVars is the id of some raw header |
| `NhmBirthControl.OnlyStatVars` | scripts/india_nhm/states/nhm_birth_control/preprocess.py:21-56 | every raw header's id is one of the 12 StatVars |
| `NhmBirthControl.StatVarsSize` | scripts/india_nhm/states/nhm_birth_control/preprocess.py:21-56 | there are 12 distinct StatVar ids |
| `NhmBirthControl.TableStatVars` | scripts/india_nhm/states/nhm_birth_control/preprocess.py:21-56 | the table's ids are exactly the 12 StatVars |
| `NhmBirthControl.StatVarCount` | scripts/india_nhm/states/nhm_birth_control/preprocess.py:21-56 | the table produces 12 distinct ids |
| `NhmBirthControl.ManyToOne` | scripts/india_nhm/states/nhm_birth_control/preprocess.py:19-56 | the table is many-to-one: fewer ids than headers, and two distinct headers share an id |

## Left out

- HTTP retrieval (`retry_method` with its retry and backoff, `requests.get`, `raise_for_status`) and `downloadUrl`, which writes the response to a file: network and file I/O.
- The command-line flags, the `main` loop's path building, `mkdir` and its loop over the series, `to_csv` and logging: I/O. `start_date` is a plain integer parameter. `DefaultStartDate` holds its default of 1946.
- Process: the rows are already split into fields. The whitespace tokenisation of `pd.read_csv(sep=r"\s+")` and its NaN filling of blank footnote codes are pandas behaviour. A missing column, which would raise in pandas, cannot occur in the record type.
- Process: the abort on error is an `Err` result. absl's `logging.fatal` ends the whole program, so CSVs already written for earlier series remain and later series are not processed. That is part of the unmodelled `main` loop.
- ParseYearMonth: accepts only a four-digit year, a dash and a two-digit month 01..12. Two pandas behaviours are not modelled. pandas' ISO parser may also accept a one-digit month, which the built date has only when the period is one character long. pandas also refuses dates outside its nanosecond timestamp range (years 1677 to 2262).
- FormatYearMonth: renders the year with four digits. A platform `%Y` does not pad years below 1000, but such years are outside pandas' timestamp range anyway.
- `NHMDataLoaderBase` and `ReadMeGen`, which read the data files, apply the tables, concatenate, and write the CSV, TMCF and README, are not part of this model. Only the table-driven rename of one header row (`Rename`) is modelled. How that loader resolves two synonyms appearing in one file is not modelled.
- `LabelOfStatVar`, `RawHeaders` and `StatVars` are not tables in the source. They are proof devices that state the clean label of each id, the set of raw headers and the set of ids.
