/** The study-date filter of the retriever: the DICOM DA value ("YYYYMMDD")
    and date range ("YYYYMMDD-YYYYMMDD", range matching of section C.2.2.2.5
    of DICOM PS3.4) built from the command line, and the default window of the
    last 30 days that is used when no filter is given. The clock is a
    parameter: `today` is the date `datetime.now()` returns. */
module DicomDate {
  import opened Wrappers
  import opened Text

  // ---------------------------------------------------------------------
  // The proleptic Gregorian calendar of Python's `datetime`

  datatype Date = Date(year: int, month: int, day: int)

  predicate IsLeap(y: int)
  {
    y % 4 == 0 && (y % 100 != 0 || y % 400 == 0)
  }

  function DaysInMonth(y: int, m: int): int
    requires 1 <= m <= 12
  {
    if m == 2 then (if IsLeap(y) then 29 else 28)
    else if m == 4 || m == 6 || m == 9 || m == 11 then 30
    else 31
  }

  /** A date `datetime` can represent (years 1 to 9999). */
  predicate Valid(d: Date)
  {
    1 <= d.year <= 9999 && 1 <= d.month <= 12 && 1 <= d.day <= DaysInMonth(d.year, d.month)
  }

  function DaysBeforeYear(y: int): int
    requires y >= 1
  {
    var p := y - 1;
    365 * p + p / 4 - p / 100 + p / 400
  }

  function DaysBeforeMonth(y: int, m: int): int
    requires 1 <= m <= 12
  {
    [0, 31, 59, 90, 120, 151, 181, 212, 243, 273, 304, 334][m - 1]
    + (if m > 2 && IsLeap(y) then 1 else 0)
  }

  /** Python's `date.toordinal()`: day 1 is 0001-01-01. */
  function Ordinal(d: Date): int
    requires Valid(d)
  {
    DaysBeforeYear(d.year) + DaysBeforeMonth(d.year, d.month) + d.day
  }

  lemma DivStep4(q: int)
    requires q >= 0
    ensures (q + 1) / 4 == q / 4 + (if (q + 1) % 4 == 0 then 1 else 0)
  {
  }

  lemma DivStep100(q: int)
    requires q >= 0
    ensures (q + 1) / 100 == q / 100 + (if (q + 1) % 100 == 0 then 1 else 0)
  {
  }

  lemma DivStep400(q: int)
    requires q >= 0
    ensures (q + 1) / 400 == q / 400 + (if (q + 1) % 400 == 0 then 1 else 0)
  {
  }

  lemma LeapDivides(p: int)
    ensures p % 400 == 0 ==> p % 100 == 0
    ensures p % 100 == 0 ==> p % 4 == 0
  {
  }

  /** A year has 365 days plus one in a leap year. */
  lemma YearStep(y: int)
    requires y >= 2
    ensures DaysBeforeYear(y) == DaysBeforeYear(y - 1) + DaysBeforeMonth(y - 1, 12) + 31
  {
    var q := y - 2;
    DivStep4(q);
    DivStep100(q);
    DivStep400(q);
    LeapDivides(q + 1);
  }

  /** The day before `d`. */
  function PrevDay(d: Date): (r: Date)
    requires Valid(d) && Ordinal(d) > 1
    ensures Valid(r) && Ordinal(r) == Ordinal(d) - 1
  {
    if d.day > 1 then Date(d.year, d.month, d.day - 1)
    else if d.month > 1 then Date(d.year, d.month - 1, DaysInMonth(d.year, d.month - 1))
    else
      YearStep(d.year);
      Date(d.year - 1, 12, 31)
  }

  /** `d - timedelta(days=n)`. */
  function DaysBefore(d: Date, n: nat): (r: Date)
    requires Valid(d) && Ordinal(d) > n
    ensures Valid(r) && Ordinal(r) == Ordinal(d) - n
  {
    if n == 0 then d else PrevDay(DaysBefore(d, n - 1))
  }

  // ---------------------------------------------------------------------
  // Formatting, `strftime('%Y%m%d')`

  /** Two decimal digits, zero padded. */
  function TwoDigits(n: int): (s: string)
    requires 0 <= n < 100
    ensures |s| == 2 && AllDigits(s) && NatValue(s) == n
  {
    var s := [DigitChar(n / 10), DigitChar(n % 10)];
    assert s[..1] == [DigitChar(n / 10)] && s[..1][..0] == [];
    assert NatValue(s[..1]) == n / 10;
    s
  }

  /** `d.strftime('%Y%m%d')`; the year is written as glibc writes it,
      without padding. */
  function FormatDA(d: Date): string
    requires Valid(d)
  {
    ShowNat(d.year) + TwoDigits(d.month) + TwoDigits(d.day)
  }

  lemma ShowNatLength(n: nat)
    requires 1000 <= n <= 9999
    ensures |ShowNat(n)| == 4
  {
    assert ShowNat(n) == ShowNat(n / 10) + [DigitChar(n % 10)];
    assert ShowNat(n / 10) == ShowNat(n / 100) + [DigitChar(n / 10 % 10)];
    assert ShowNat(n / 100) == ShowNat(n / 1000) + [DigitChar(n / 100 % 10)];
  }

  /** For a four-digit year the formatted date is a DA value: exactly eight
      digits, year, month and day in that order. */
  lemma FormatIsDA(d: Date)
    requires Valid(d) && d.year >= 1000
    ensures var s := FormatDA(d);
      && |s| == 8 && AllDigits(s)
      && NatValue(s[..4]) == d.year && NatValue(s[4..6]) == d.month && NatValue(s[6..]) == d.day
  {
    ShowNatLength(d.year);
    ShowNatDigits(d.year);
    var s := FormatDA(d);
    assert s[..4] == ShowNat(d.year);
    assert s[4..6] == TwoDigits(d.month);
    assert s[6..] == TwoDigits(d.day);
  }

  // ---------------------------------------------------------------------
  // The filter built by `main` and the default of `find_nm_studies`

  /** Python truthiness of an optional command-line string. */
  predicate Given(o: Option<string>)
  {
    o.Some? && o.value != ""
  }

  /** Open lower and upper bounds of a range. */
  const EarliestDate: string := "19700101"
  const LatestDate: string := "29991231"

  /** The `study_date` that `main` stores on the retriever: a range when
      `--from-date` or `--to-date` is given, otherwise `--study-date`
      verbatim (None when that is absent or empty too). */
  function StudyDateFilter(fromDate: Option<string>, toDate: Option<string>, studyDate: Option<string>): Option<string>
  {
    if Given(fromDate) || Given(toDate) then
      var lo := if Given(fromDate) then fromDate.value else EarliestDate;
      var hi := if Given(toDate) then toDate.value else LatestDate;
      Some(lo + "-" + hi)
    else if Given(studyDate) then studyDate
    else None
  }

  /** The lower and upper bound of the range, each replaced by its open
      sentinel when absent; the range string splits at '-' into exactly
      these two bounds when neither bound contains '-'. Without either
      bound a non-empty single date is passed through unchanged. */
  lemma StudyDateFilterBounds(fromDate: Option<string>, toDate: Option<string>, studyDate: Option<string>)
    ensures var r := StudyDateFilter(fromDate, toDate, studyDate);
      var lo := if Given(fromDate) then fromDate.value else EarliestDate;
      var hi := if Given(toDate) then toDate.value else LatestDate;
      && ((Given(fromDate) || Given(toDate)) ==>
            (r.Some? && r.value == lo + "-" + hi
             && ('-' !in lo && '-' !in hi ==> Split(r.value, '-') == [lo, hi])))
      && (!Given(fromDate) && !Given(toDate) ==> (r == if Given(studyDate) then studyDate else None))
  {
    if Given(fromDate) || Given(toDate) {
      var lo := if Given(fromDate) then fromDate.value else EarliestDate;
      var hi := if Given(toDate) then toDate.value else LatestDate;
      if '-' !in lo && '-' !in hi {
        assert Join([lo, hi], ['-']) == lo + "-" + hi;
        SplitJoin([lo, hi], '-');
      }
    }
  }

  /** The range `find_nm_studies` queries when no filter is set: from 30
      days before `today` up to `today`. */
  function DefaultWindow(today: Date): string
    requires Valid(today) && Ordinal(today) > 30
  {
    FormatDA(DaysBefore(today, 30)) + "-" + FormatDA(today)
  }

  /** The StudyDate of the C-FIND query: the filter when it is a non-empty
      string, the default window otherwise. */
  function QueryDate(filter: Option<string>, today: Date): (r: string)
    requires Valid(today) && Ordinal(today) > 30
    ensures Given(filter) ==> r == filter.value
    ensures !Given(filter) ==> r == DefaultWindow(today)
  {
    if Given(filter) then filter.value else DefaultWindow(today)
  }

  /** The default window ends at `today` and starts exactly 30 days before. */
  lemma DefaultWindowSpan(today: Date)
    requires Valid(today) && Ordinal(today) > 30
    ensures var start := DaysBefore(today, 30);
      && Valid(start) && Ordinal(start) + 30 == Ordinal(today)
      && Split(DefaultWindow(today), '-') == [FormatDA(start), FormatDA(today)]
  {
    var start := DaysBefore(today, 30);
    FormatHasNoDash(start);
    FormatHasNoDash(today);
    assert Join([FormatDA(start), FormatDA(today)], ['-']) == DefaultWindow(today);
    SplitJoin([FormatDA(start), FormatDA(today)], '-');
  }

  lemma FormatHasNoDash(d: Date)
    requires Valid(d)
    ensures '-' !in FormatDA(d)
  {
    ShowNatDigits(d.year);
    var s := FormatDA(d);
    forall k | 0 <= k < |s| ensures s[k] != '-' {
      if k < |ShowNat(d.year)| {
        assert s[k] == ShowNat(d.year)[k];
      }
    }
  }
}
