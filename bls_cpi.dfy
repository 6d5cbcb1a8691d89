/** The BLS consumer-price-index series transform: from the rows of one raw
    BLS time-series file to the two-column `date,cpi` table of one series. */
module BlsCpi {
  import opened Wrappers

  // ---------------------------------------------------------------------------
  // Configuration tables
  // ---------------------------------------------------------------------------

  /** Series name -> download URL. */
  const CsvUrls: map<string, string> := map[
    "cpi_u_1913_2024" := "https://download.bls.gov/pub/time.series/cu/cu.data.1.AllItems",
    "cpi_w_1913_2024" := "https://download.bls.gov/pub/time.series/cw/cw.data.1.AllItems",
    "c_cpi_u_1999_2024" := "https://download.bls.gov/pub/time.series/su/su.data.1.AllItems"
  ]

  /** Series name -> BLS series identifier kept from that file. */
  const SeriesIds: map<string, string> := map[
    "cpi_u_1913_2024" := "CUSR0000SA0",
    "cpi_w_1913_2024" := "CWSR0000SA0",
    "c_cpi_u_1999_2024" := "SUUR0000SA0E"
  ]

  /** Default of the `start_date` flag: only years after it are emitted. */
  const DefaultStartDate: int := 1946

  /** The period code of annual-average rows, which are not a calendar month. */
  const AnnualAverage: string := "M13"

  /** The series identifier the main loop uses for `name`, if the table has one. */
  function SeriesIdOf(name: string): (r: Option<string>)
    ensures r.Some? <==> name in SeriesIds
    ensures r.Some? ==> r.value == SeriesIds[name]
  {
    if name in SeriesIds then Some(SeriesIds[name]) else None
  }

  /** Every series the main loop iterates over has a series identifier. */
  lemma SeriesTablesAgree()
    ensures CsvUrls.Keys == SeriesIds.Keys
    ensures forall name :: name in CsvUrls ==> SeriesIdOf(name).Some?
  {
  }

  // ---------------------------------------------------------------------------
  // Rows
  // ---------------------------------------------------------------------------

  /** One line of a raw BLS file, already split at whitespace; every field is text. */
  datatype RawRow = RawRow(seriesId: string, year: string, period: string, value: string, footnoteCodes: string)

  /** A calendar month, as the year-month date parser produces it. */
  datatype YearMonth = YearMonth(year: int, month: int)

  /** A row after parsing: the parsed date and the untouched CPI text. */
  datatype DatedRow = DatedRow(date: YearMonth, cpi: string)

  /** A row of the two-column output table (also the shape before the parse). */
  datatype OutRow = OutRow(date: string, cpi: string)

  /** Why a series fails as a whole: a built date that does not parse. */
  datatype ProcessError = UnparsableDate(date: string)

  // ---------------------------------------------------------------------------
  // Digits and the year-month text format
  // ---------------------------------------------------------------------------

  predicate IsDigit(c: char) {
    '0' <= c <= '9'
  }

  function DigitValue(c: char): (d: int)
    requires IsDigit(c)
    ensures 0 <= d <= 9
  {
    c as int - '0' as int
  }

  function DigitChar(d: int): (c: char)
    requires 0 <= d <= 9
    ensures IsDigit(c) && DigitValue(c) == d
  {
    (d + '0' as int) as char
  }

  /** A year-month that `%Y-%m` can render with a four-digit year. */
  predicate ValidYearMonth(ym: YearMonth) {
    0 <= ym.year <= 9999 && 1 <= ym.month <= 12
  }

  /** Text of the shape `YYYY-MM` whose month is 01..12. */
  predicate IsYearMonthText(s: string) {
    && |s| == 7
    && IsDigit(s[0]) && IsDigit(s[1]) && IsDigit(s[2]) && IsDigit(s[3])
    && s[4] == '-'
    && IsDigit(s[5]) && IsDigit(s[6])
    && 1 <= 10 * DigitValue(s[5]) + DigitValue(s[6]) <= 12
  }

  /** Parsing a date with the format `%Y-%m`: None when the text does not match. */
  function ParseYearMonth(s: string): (r: Option<YearMonth>)
    ensures r.Some? <==> IsYearMonthText(s)
    ensures r.Some? ==> ValidYearMonth(r.value)
  {
    if |s| == 7 && IsDigit(s[0]) && IsDigit(s[1]) && IsDigit(s[2]) && IsDigit(s[3])
       && s[4] == '-' && IsDigit(s[5]) && IsDigit(s[6])
    then
      var year := 1000 * DigitValue(s[0]) + 100 * DigitValue(s[1]) + 10 * DigitValue(s[2]) + DigitValue(s[3]);
      var month := 10 * DigitValue(s[5]) + DigitValue(s[6]);
      if 1 <= month <= 12 then Some(YearMonth(year, month)) else None
    else
      None
  }

  /** Rendering a year-month with the format `%Y-%m`: four year digits, a dash, two month digits. */
  function FormatYearMonth(ym: YearMonth): (s: string)
    requires ValidYearMonth(ym)
    ensures |s| == 7 && s[4] == '-'
  {
    var y := ym.year;
    [ DigitChar(y / 10 / 10 / 10), DigitChar(y / 10 / 10 % 10), DigitChar(y / 10 % 10), DigitChar(y % 10),
      '-',
      DigitChar(ym.month / 10), DigitChar(ym.month % 10) ]
  }

  /** Dividing `10 * q + r` by ten splits off the last digit `r`. */
  lemma DivTen(q: int, r: int)
    requires 0 <= r <= 9
    ensures (10 * q + r) / 10 == q && (10 * q + r) % 10 == r
  {
  }

  /** Re-rendering a parsed date gives back exactly the text that was parsed. */
  lemma ParseThenFormat(s: string)
    requires ParseYearMonth(s).Some?
    ensures FormatYearMonth(ParseYearMonth(s).value) == s
  {
    var a, b, c, d := DigitValue(s[0]), DigitValue(s[1]), DigitValue(s[2]), DigitValue(s[3]);
    // The year is 1000a + 100b + 10c + d; peel off one digit per division.
    DivTen(100 * a + 10 * b + c, d);
    DivTen(10 * a + b, c);
    DivTen(a, b);
    DivTen(0, a);
    DivTen(DigitValue(s[5]), DigitValue(s[6]));
  }

  /** Every valid year-month renders to `YYYY-MM` text that parses back to it. */
  lemma FormatThenParse(ym: YearMonth)
    requires ValidYearMonth(ym)
    ensures IsYearMonthText(FormatYearMonth(ym))
    ensures ParseYearMonth(FormatYearMonth(ym)) == Some(ym)
  {
  }

  // ---------------------------------------------------------------------------
  // The pipeline stages
  // ---------------------------------------------------------------------------

  /** Python's `s[-2:]`: the last two characters, or all of `s` when it is shorter. */
  function LastTwo(s: string): (r: string)
    ensures |r| == if |s| < 2 then |s| else 2
    ensures s == s[..|s| - |r|] + r
  {
    if |s| < 2 then s else s[|s| - 2..]
  }

  /** The date text built before parsing: year, a dash, the last two characters of the period. */
  function BuildDate(row: RawRow): string {
    row.year + "-" + LastTwo(row.period)
  }

  /** A monthly BLS period `Mdd` contributes exactly its two digits `dd` as the month. */
  lemma BuildDateOfMonthlyPeriod(sid: string, year: string, dd: string, value: string, notes: string)
    requires |dd| == 2
    ensures BuildDate(RawRow(sid, year, "M" + dd, value, notes)) == year + "-" + dd
  {
    assert ("M" + dd)[1..] == dd;
  }

  /** The row-selection condition: the target series, and not an annual average. */
  predicate Kept(row: RawRow, seriesId: string) {
    row.seriesId == seriesId && row.period != AnnualAverage
  }

  /** Step 1: keep only the target series' monthly rows, in their order. */
  function SelectSeries(rows: seq<RawRow>, seriesId: string): (kept: seq<RawRow>)
    ensures |kept| <= |rows|
    ensures forall row :: row in kept ==> row in rows && Kept(row, seriesId)
    ensures forall row :: row in rows && Kept(row, seriesId) ==> row in kept
    ensures IsSubsequence(kept, rows)
    ensures forall row :: multiset(kept)[row] == if Kept(row, seriesId) then multiset(rows)[row] else 0
  {
    if rows == [] then []
    else
      assert rows == [rows[0]] + rows[1..];
      if Kept(rows[0], seriesId) then [rows[0]] + SelectSeries(rows[1..], seriesId)
      else SelectSeries(rows[1..], seriesId)
  }

  /** Step 2: the `date` column is built and only `date` and `value` (renamed `cpi`) are kept. */
  function BuildDates(rows: seq<RawRow>): (dated: seq<OutRow>)
    ensures |dated| == |rows|
    ensures forall i :: 0 <= i < |rows| ==> dated[i].date == BuildDate(rows[i]) && dated[i].cpi == rows[i].value
  {
    if rows == [] then []
    else
      var rest := BuildDates(rows[1..]);
      assert forall i :: 1 <= i < |rows| ==> rows[i] == rows[1..][i - 1];
      [OutRow(BuildDate(rows[0]), rows[0].value)] + rest
  }

  /** Step 3: parse every date; the first unparsable one fails the whole series. */
  function ParseDates(dated: seq<OutRow>): (r: Result<seq<DatedRow>, ProcessError>)
    ensures r.Ok? <==> forall i :: 0 <= i < |dated| ==> ParseYearMonth(dated[i].date).Some?
    ensures r.Ok? ==> |r.value| == |dated|
    ensures r.Ok? ==> forall i :: 0 <= i < |dated| ==>
      Some(r.value[i].date) == ParseYearMonth(dated[i].date) && r.value[i].cpi == dated[i].cpi
    ensures r.Err? ==> exists i :: (0 <= i < |dated| && ParseYearMonth(dated[i].date).None? &&
      r.error == UnparsableDate(dated[i].date))
  {
    if dated == [] then Ok([])
    else
      match ParseYearMonth(dated[0].date)
      case None => Err(UnparsableDate(dated[0].date))
      case Some(ym) =>
        match ParseDates(dated[1..])
        case Err(e) => Err(e)
        case Ok(rest) => Ok([DatedRow(ym, dated[0].cpi)] + rest)
  }

  /** Step 4: keep rows whose year is strictly greater than `startDate`, in their order. */
  function AfterYear(parsed: seq<DatedRow>, startDate: int): (recent: seq<DatedRow>)
    ensures |recent| <= |parsed|
    ensures forall row :: row in recent ==> row in parsed && row.date.year > startDate
    ensures forall row :: row in parsed && row.date.year > startDate ==> row in recent
    ensures IsSubsequence(recent, parsed)
    ensures forall row :: multiset(recent)[row] == if row.date.year > startDate then multiset(parsed)[row] else 0
  {
    if parsed == [] then []
    else
      assert parsed == [parsed[0]] + parsed[1..];
      if parsed[0].date.year > startDate then [parsed[0]] + AfterYear(parsed[1..], startDate)
      else AfterYear(parsed[1..], startDate)
  }

  /** Step 5: render each date back as `%Y-%m`. */
  function RenderDates(recent: seq<DatedRow>): (out: seq<OutRow>)
    requires forall i :: 0 <= i < |recent| ==> ValidYearMonth(recent[i].date)
    ensures |out| == |recent|
    ensures forall i :: 0 <= i < |recent| ==>
      ParseYearMonth(out[i].date) == Some(recent[i].date) && out[i].cpi == recent[i].cpi
  {
    if recent == [] then []
    else
      FormatThenParse(recent[0].date);
      [OutRow(FormatYearMonth(recent[0].date), recent[0].cpi)] + RenderDates(recent[1..])
  }

  /** Filtering parsed rows by year and rendering them gives `YYYY-MM` dates later than `startDate`. */
  lemma RenderedRecent(parsed: seq<DatedRow>, startDate: int)
    requires forall i :: 0 <= i < |parsed| ==> ValidYearMonth(parsed[i].date)
    ensures forall i :: 0 <= i < |AfterYear(parsed, startDate)| ==> ValidYearMonth(AfterYear(parsed, startDate)[i].date)
    ensures |RenderDates(AfterYear(parsed, startDate))| <= |parsed|
    ensures forall i :: 0 <= i < |RenderDates(AfterYear(parsed, startDate))| ==>
      IsYearMonthText(RenderDates(AfterYear(parsed, startDate))[i].date) &&
      ParseYearMonth(RenderDates(AfterYear(parsed, startDate))[i].date).value.year > startDate
  {
    var recent := AfterYear(parsed, startDate);
    forall i | 0 <= i < |recent|
      ensures ValidYearMonth(recent[i].date) && recent[i].date.year > startDate
    {
      assert recent[i] in recent;
      var j :| 0 <= j < |parsed| && parsed[j] == recent[i];
    }
  }

  /** Every parsed date is a valid year-month. */
  lemma ParsedValid(dated: seq<OutRow>)
    requires ParseDates(dated).Ok?
    ensures |ParseDates(dated).value| == |dated|
    ensures forall i :: 0 <= i < |ParseDates(dated).value| ==> ValidYearMonth(ParseDates(dated).value[i].date)
  {
    var parsed := ParseDates(dated).value;
    forall i | 0 <= i < |parsed|
      ensures ValidYearMonth(parsed[i].date)
    {
      assert Some(parsed[i].date) == ParseYearMonth(dated[i].date);
    }
  }

  /** A failed parse of the selected rows names the built date of a kept input row. */
  lemma SelectedDateError(rows: seq<RawRow>, seriesId: string)
    requires ParseDates(BuildDates(SelectSeries(rows, seriesId))).Err?
    ensures exists row :: (row in rows && Kept(row, seriesId) && ParseYearMonth(BuildDate(row)).None? &&
      ParseDates(BuildDates(SelectSeries(rows, seriesId))).error == UnparsableDate(BuildDate(row)))
  {
    var kept := SelectSeries(rows, seriesId);
    var dated := BuildDates(kept);
    var i :| 0 <= i < |dated| && ParseYearMonth(dated[i].date).None? &&
      ParseDates(dated).error == UnparsableDate(dated[i].date);
    assert kept[i] in kept;
  }

  /** The whole transform of one series: Err when a kept row's date does not parse
      (no CSV is written), otherwise the rows of the `date,cpi` table, each a
      `YYYY-MM` date after `startDate`. */
  function Process(rows: seq<RawRow>, seriesId: string, startDate: int): (r: Result<seq<OutRow>, ProcessError>)
    ensures r.Ok? ==> |r.value| <= |rows|
    ensures r.Ok? ==> forall i :: 0 <= i < |r.value| ==>
      IsYearMonthText(r.value[i].date) && ParseYearMonth(r.value[i].date).value.year > startDate
    ensures r.Err? ==> exists row :: (row in rows && Kept(row, seriesId) && ParseYearMonth(BuildDate(row)).None? &&
      r.error == UnparsableDate(BuildDate(row)))
  {
    var kept := SelectSeries(rows, seriesId);
    var dated := BuildDates(kept);
    match ParseDates(dated)
    case Err(e) =>
      SelectedDateError(rows, seriesId);
      Err(e)
    case Ok(parsed) =>
      ParsedValid(dated);
      RenderedRecent(parsed, startDate);
      Ok(RenderDates(AfterYear(parsed, startDate)))
  }

  // ---------------------------------------------------------------------------
  // A single-pass reference definition and what it says about Process
  // ---------------------------------------------------------------------------

  /** The date of `row` parses, and its year is later than `startDate`. */
  predicate Recent(row: RawRow, startDate: int) {
    ParseYearMonth(BuildDate(row)).Some? && ParseYearMonth(BuildDate(row)).value.year > startDate
  }

  /** Every kept row of the series carries a parsable date. */
  predicate AllKeptDatesParse(rows: seq<RawRow>, seriesId: string) {
    forall i :: 0 <= i < |rows| && Kept(rows[i], seriesId) ==> ParseYearMonth(BuildDate(rows[i])).Some?
  }

  /** What the transform means row by row: each kept, recent row contributes its built date and its value. */
  function Reference(rows: seq<RawRow>, seriesId: string, startDate: int): seq<OutRow> {
    if rows == [] then []
    else if Kept(rows[0], seriesId) && Recent(rows[0], startDate)
    then [OutRow(BuildDate(rows[0]), rows[0].value)] + Reference(rows[1..], seriesId, startDate)
    else Reference(rows[1..], seriesId, startDate)
  }

  /** Every row with its built date and value, before any row is dropped. */
  function Candidates(rows: seq<RawRow>): seq<OutRow> {
    if rows == [] then [] else [OutRow(BuildDate(rows[0]), rows[0].value)] + Candidates(rows[1..])
  }

  /** `a` is `b` with some elements removed, the rest in their order. */
  predicate IsSubsequence<T(==)>(a: seq<T>, b: seq<T>)
    decreases |b|
  {
    if a == [] then true
    else if b == [] then false
    else (a[0] == b[0] && IsSubsequence(a[1..], b[1..])) || IsSubsequence(a, b[1..])
  }

  /** The series fails exactly when some kept row's date does not parse, even a row
      the year filter would drop, because the parse precedes that filter. */
  lemma ProcessFailsIff(rows: seq<RawRow>, seriesId: string, startDate: int)
    ensures Process(rows, seriesId, startDate).Ok? <==> AllKeptDatesParse(rows, seriesId)
  {
    SelectedDatesParse(rows, seriesId);
  }

  /** The parse of the selected rows succeeds exactly when every kept row's built date parses. */
  lemma SelectedDatesParse(rows: seq<RawRow>, seriesId: string)
    ensures ParseDates(BuildDates(SelectSeries(rows, seriesId))).Ok? <==> AllKeptDatesParse(rows, seriesId)
  {
    if AllKeptDatesParse(rows, seriesId) {
      AllSelectedDatesParse(rows, seriesId);
    } else {
      var j :| 0 <= j < |rows| && Kept(rows[j], seriesId) && ParseYearMonth(BuildDate(rows[j])).None?;
      SelectedDateFails(rows, seriesId, j);
    }
  }

  /** When every kept row's date parses, so does every date of the selected rows. */
  lemma AllSelectedDatesParse(rows: seq<RawRow>, seriesId: string)
    requires AllKeptDatesParse(rows, seriesId)
    ensures ParseDates(BuildDates(SelectSeries(rows, seriesId))).Ok?
  {
    var kept := SelectSeries(rows, seriesId);
    var dated := BuildDates(kept);
    forall i | 0 <= i < |dated|
      ensures ParseYearMonth(dated[i].date).Some?
    {
      assert kept[i] in kept;
      var j :| 0 <= j < |rows| && rows[j] == kept[i];
    }
  }

  /** One kept row whose date does not parse fails the parse of the selected rows. */
  lemma SelectedDateFails(rows: seq<RawRow>, seriesId: string, j: int)
    requires 0 <= j < |rows| && Kept(rows[j], seriesId) && ParseYearMonth(BuildDate(rows[j])).None?
    ensures ParseDates(BuildDates(SelectSeries(rows, seriesId))).Err?
  {
    var kept := SelectSeries(rows, seriesId);
    var dated := BuildDates(kept);
    assert rows[j] in rows;
    var i :| 0 <= i < |kept| && kept[i] == rows[j];
    assert ParseYearMonth(dated[i].date).None?;
  }

  /** Unfolding Process by one row. */
  lemma {:induction false} ProcessCons(rows: seq<RawRow>, seriesId: string, startDate: int)
    requires rows != []
    requires Process(rows, seriesId, startDate).Ok?
    ensures Process(rows[1..], seriesId, startDate).Ok?
    ensures Process(rows, seriesId, startDate).value ==
      (if Kept(rows[0], seriesId) && Recent(rows[0], startDate)
       then [OutRow(BuildDate(rows[0]), rows[0].value)] + Process(rows[1..], seriesId, startDate).value
       else Process(rows[1..], seriesId, startDate).value)
  {
    var row, tail := rows[0], rows[1..];
    var selected, selectedTail := SelectSeries(rows, seriesId), SelectSeries(tail, seriesId);
    if Kept(row, seriesId) {
      assert selected == [row] + selectedTail;
      assert BuildDates(selected) == [OutRow(BuildDate(row), row.value)] + BuildDates(selectedTail);
      assert BuildDates(selected)[1..] == BuildDates(selectedTail);
      var ym := ParseYearMonth(BuildDate(row));
      assert ym.Some?;
      var parsedTail := ParseDates(BuildDates(selectedTail));
      assert parsedTail.Ok?;
      var parsed := [DatedRow(ym.value, row.value)] + parsedTail.value;
      assert ParseDates(BuildDates(selected)) == Ok(parsed);
      assert parsed[1..] == parsedTail.value;
      var recentTail := AfterYear(parsedTail.value, startDate);
      if ym.value.year > startDate {
        assert AfterYear(parsed, startDate) == [parsed[0]] + recentTail;
        assert (([parsed[0]] + recentTail)[1..]) == recentTail;
        ParseThenFormat(BuildDate(row));
      } else {
        assert AfterYear(parsed, startDate) == recentTail;
      }
    } else {
      assert selected == selectedTail;
    }
  }

  /** On success the pipeline produces exactly the reference rows. */
  lemma {:induction false} ProcessIsReference(rows: seq<RawRow>, seriesId: string, startDate: int)
    requires Process(rows, seriesId, startDate).Ok?
    ensures Process(rows, seriesId, startDate).value == Reference(rows, seriesId, startDate)
  {
    if rows != [] {
      ProcessCons(rows, seriesId, startDate);
      ProcessIsReference(rows[1..], seriesId, startDate);
    }
  }

  /** The transform only drops and maps rows: its output keeps the input's relative order. */
  lemma {:induction false} ReferenceKeepsOrder(rows: seq<RawRow>, seriesId: string, startDate: int)
    ensures IsSubsequence(Reference(rows, seriesId, startDate), Candidates(rows))
  {
    if rows != [] {
      ReferenceKeepsOrder(rows[1..], seriesId, startDate);
      var a, b := Reference(rows, seriesId, startDate), Candidates(rows);
      assert b[1..] == Candidates(rows[1..]);
      if Kept(rows[0], seriesId) && Recent(rows[0], startDate) {
        assert a[0] == b[0] && a[1..] == Reference(rows[1..], seriesId, startDate);
      } else {
        assert a == Reference(rows[1..], seriesId, startDate);
      }
    }
  }

  /** Every reference row comes from a kept, recent input row, with its built date and its value unchanged. */
  lemma {:induction false} ReferenceProvenance(rows: seq<RawRow>, seriesId: string, startDate: int)
    ensures forall out :: out in Reference(rows, seriesId, startDate) ==>
      exists row :: (row in rows && Kept(row, seriesId) && Recent(row, startDate) &&
        out == OutRow(BuildDate(row), row.value))
  {
    if rows != [] {
      ReferenceProvenance(rows[1..], seriesId, startDate);
      forall out | out in Reference(rows, seriesId, startDate)
        ensures exists row :: (row in rows && Kept(row, seriesId) && Recent(row, startDate) &&
          out == OutRow(BuildDate(row), row.value))
      {
        if out in Reference(rows[1..], seriesId, startDate) {
          var row :| row in rows[1..] && Kept(row, seriesId) && Recent(row, startDate) &&
            out == OutRow(BuildDate(row), row.value);
          assert row in rows;
        } else {
          assert rows[0] in rows;
        }
      }
    }
  }

  /** What a successful run emits: rows in input order, each from a row of the target
      series that is not an annual average, with its built date (of shape `YYYY-MM`
      and a year after `startDate`) and its original value string. */
  lemma ProcessOutput(rows: seq<RawRow>, seriesId: string, startDate: int)
    requires Process(rows, seriesId, startDate).Ok?
    ensures IsSubsequence(Process(rows, seriesId, startDate).value, Candidates(rows))
    ensures forall out :: out in Process(rows, seriesId, startDate).value ==>
      && IsYearMonthText(out.date)
      && ParseYearMonth(out.date).value.year > startDate
      && exists row :: (row in rows && row.seriesId == seriesId && row.period != AnnualAverage &&
           out.date == BuildDate(row) && out.cpi == row.value)
  {
    ProcessIsReference(rows, seriesId, startDate);
    ReferenceKeepsOrder(rows, seriesId, startDate);
    ReferenceProvenance(rows, seriesId, startDate);
  }

  /** An annual-average row never reaches the output. */
  lemma {:induction false} NoAnnualAverageOutput(rows: seq<RawRow>, seriesId: string, startDate: int)
    requires forall i :: 0 <= i < |rows| ==> rows[i].period == AnnualAverage
    ensures SelectSeries(rows, seriesId) == []
    ensures Process(rows, seriesId, startDate) == Ok([])
  {
    if rows != [] {
      NoAnnualAverageOutput(rows[1..], seriesId, startDate);
    }
  }

  /** The built date of an annual-average row ends in month `13`, so it never parses. */
  lemma AnnualAverageDateUnparsable(row: RawRow)
    requires row.period == AnnualAverage
    ensures ParseYearMonth(BuildDate(row)).None?
  {
    var d := BuildDate(row);
    if |d| == 7 {
      assert d[5..] == "13";
      assert d[5] == '1' && d[6] == '3';
    }
  }

  /** Whatever the input, no output row carries the built date of an annual-average row. */
  lemma AnnualAverageNeverOutput(rows: seq<RawRow>, seriesId: string, startDate: int)
    requires Process(rows, seriesId, startDate).Ok?
    ensures forall i, row ::
      (0 <= i < |Process(rows, seriesId, startDate).value| && row in rows && row.period == AnnualAverage) ==>
      Process(rows, seriesId, startDate).value[i].date != BuildDate(row)
  {
    var out := Process(rows, seriesId, startDate).value;
    forall i, row | 0 <= i < |out| && row in rows && row.period == AnnualAverage
      ensures out[i].date != BuildDate(row)
    {
      AnnualAverageDateUnparsable(row);
    }
  }

  // ---------------------------------------------------------------------------
  // Scenarios
  // ---------------------------------------------------------------------------

  /** `CUSR0000SA0 2020 M05 257.8` with the default threshold gives `2020-05,257.8`. */
  lemma MonthlyRowScenario()
    ensures Process([RawRow("CUSR0000SA0", "2020", "M05", "257.8", "")], "CUSR0000SA0", DefaultStartDate)
      == Ok([OutRow("2020-05", "257.8")])
  {
    var row := RawRow("CUSR0000SA0", "2020", "M05", "257.8", "");
    assert BuildDate(row) == "2020-05";
    assert Kept(row, "CUSR0000SA0");
    assert SelectSeries([row], "CUSR0000SA0") == [row];
    assert BuildDates([row]) == [OutRow("2020-05", "257.8")];
    assert ParseYearMonth("2020-05") == Some(YearMonth(2020, 5));
    var parsed := [DatedRow(YearMonth(2020, 5), "257.8")];
    var dated := [OutRow("2020-05", "257.8")];
    assert dated[1..] == [] && ParseDates(dated[1..]) == Ok([]);
    assert parsed == [DatedRow(YearMonth(2020, 5), "257.8")] + [];
    assert ParseDates(dated) == Ok(parsed);
    assert AfterYear(parsed, DefaultStartDate) == parsed;
    ParseThenFormat("2020-05");
    assert RenderDates(parsed) == [OutRow("2020-05", "257.8")];
  }

  /** A malformed year in an old row fails the series, though the year filter would have dropped that row. */
  lemma UnparsableOldRowFailsSeries()
    ensures Process([ RawRow("CUSR0000SA0", "19x5", "M01", "9.8", ""),
                      RawRow("CUSR0000SA0", "2020", "M05", "257.8", "") ], "CUSR0000SA0", DefaultStartDate)
      == Err(UnparsableDate("19x5-01"))
  {
    var early := RawRow("CUSR0000SA0", "19x5", "M01", "9.8", "");
    var now := RawRow("CUSR0000SA0", "2020", "M05", "257.8", "");
    assert Kept(early, "CUSR0000SA0") && Kept(now, "CUSR0000SA0");
    assert SelectSeries([early, now], "CUSR0000SA0") == [early, now];
    assert BuildDate(early) == "19x5-01";
    assert !IsDigit(BuildDate(early)[2]);
  }
}
