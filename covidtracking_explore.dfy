/** The testing-versus-S&P 500 notebook (sandbox/explore_covidtracking_data.py):
    each loader reads a table, sorts it by its date column and replaces every
    date by a `%b-%d` label (month abbreviation, hyphen, two-digit day). The
    covidtracking.com dates are YYYYMMDD integers, the S&P 500 dates
    YYYY-MM-DD strings. */
module CovidTrackingExplore {
  import opened Frames
  import opened Text
  import opened Sorting
  import opened Calendar
  import opened Fetching
  import DataSources

  const TestsDateColumn: string := "date"
  const PricesFile: string := "GSPC.csv"
  const PricesDateColumn: string := "Date"

  /** How one cell becomes a label, or the exception it raises. */
  type CellLabel = Value -> Result<string>

  /** `datetime.datetime.strptime(text, fmt).strftime("%b-%d")`. */
  function Relabel(text: string, sep: string): (r: Result<string>)
    ensures r.Err? ==> r.error == ValueError
    ensures r.Ok? <==> Strptime(text, sep).Ok?
    ensures r.Ok? ==> |r.value| == 6 && r.value[3] == '-'
  {
    var d :- Strptime(text, sep);
    Ok(MonthDayLabel(d))
  }

  /** A test-data cell: `strptime(str(d), '%Y%m%d')`. */
  function TestsLabel(v: Value): (r: Result<string>)
    ensures r.Ok? <==> Strptime(CellText(v), "").Ok?
    ensures r.Ok? ==> r.value == MonthDayLabel(Strptime(CellText(v), "").value)
    ensures r.Err? ==> r.error == ValueError
  {
    Relabel(CellText(v), "")
  }

  /** An S&P 500 cell: `strptime(d, '%Y-%m-%d')`, which only accepts a
      string. */
  function PricesLabel(v: Value): (r: Result<string>)
    ensures !v.Str? ==> r == Err(TypeError)
    ensures v.Str? ==> (r.Ok? <==> Strptime(v.s, "-").Ok?)
    ensures r.Ok? ==> r.value == MonthDayLabel(Strptime(v.s, "-").value)
    ensures v.Str? && r.Err? ==> r.error == ValueError
  {
    if v.Str? then Relabel(v.s, "-") else Err(TypeError)
  }

  /** The list comprehension over a column: every cell's label, or the
      exception of the first cell that raises. */
  function Labels(vs: seq<Value>, labeller: CellLabel): (r: Result<seq<Value>>)
    ensures r.Ok? <==> forall i :: 0 <= i < |vs| ==> labeller(vs[i]).Ok?
    ensures r.Ok? ==> |r.value| == |vs| && forall i :: 0 <= i < |vs| ==> r.value[i] == Str(labeller(vs[i]).value)
    ensures r.Err? ==> exists k :: 0 <= k < |vs| && labeller(vs[k]).Err? && r.error == labeller(vs[k]).error
                                  && forall j :: 0 <= j < k ==> labeller(vs[j]).Ok?
    decreases |vs|
  {
    if vs == [] then Ok([])
    else if labeller(vs[0]).Err? then Err(labeller(vs[0]).error)
    else
      var rest := Labels(vs[1..], labeller);
      if rest.Err? then
        var k :| 0 <= k < |vs[1..]| && labeller(vs[1..][k]).Err? && rest.error == labeller(vs[1..][k]).error
                 && forall j :: 0 <= j < k ==> labeller(vs[1..][j]).Ok?;
        assert vs[k + 1] == vs[1..][k];
        assert forall j :: 1 <= j < k + 1 ==> vs[j] == vs[1..][j - 1];
        Err(rest.error)
      else
        assert forall i :: 1 <= i < |vs| ==> vs[i] == vs[1..][i - 1];
        Ok([Str(labeller(vs[0]).value)] + rest.value)
  }

  /** `r` is `s` with every cell of `col` replaced by its label. */
  predicate LabelledFrom(r: Table, s: Table, col: string, labeller: CellLabel)
    requires HasColumn(s, col)
  {
    |r| == |s|
    && forall i :: 0 <= i < |s| ==> labeller(s[i][col]).Ok? && r[i] == s[i][col := Str(labeller(s[i][col]).value)]
  }

  /** Reordering rows does not change whether every cell has a label. */
  lemma PermutedCells(s: Table, t: Table, col: string, labeller: CellLabel)
    requires HasColumn(s, col) && HasColumn(t, col) && multiset(s) == multiset(t)
    ensures (forall i :: 0 <= i < |s| ==> labeller(s[i][col]).Ok?) <==> (forall i :: 0 <= i < |t| ==> labeller(t[i][col]).Ok?)
  {
    if forall i :: 0 <= i < |s| ==> labeller(s[i][col]).Ok? {
      forall i | 0 <= i < |t| ensures labeller(t[i][col]).Ok? {
        assert t[i] in multiset(s);
      }
    }
    if forall i :: 0 <= i < |t| ==> labeller(t[i][col]).Ok? {
      forall i | 0 <= i < |s| ensures labeller(s[i][col]).Ok? {
        assert s[i] in multiset(t);
      }
    }
  }

  /** Sort by `col`, then relabel `col`: `df = df.sort_values(by=col)`
      followed by `df.col = [... for d in df.col]`. The result is a sorted
      permutation of the rows with only that column changed. */
  function SortAndRelabel(t: Table, col: string, labeller: CellLabel): (r: Result<Table>)
    ensures r.Ok? <==> HasColumn(t, col) && SameKind(t, col) && forall i :: 0 <= i < |t| ==> labeller(t[i][col]).Ok?
    ensures !HasColumn(t, col) ==> r == Err(KeyError)
    ensures HasColumn(t, col) && !SameKind(t, col) ==> r == Err(TypeError)
    ensures r.Ok? ==> |r.value| == |t|
    ensures r.Ok? ==> exists s :: SortedOn(s, col) && multiset(s) == multiset(t) && LabelledFrom(r.value, s, col, labeller)
  {
    var sorted :- SortValues(t, col);
    PermutedCells(sorted, t, col, labeller);
    var labels :- Labels(ColumnValues(sorted, col), labeller);
    var r := SetColumn(sorted, col, labels);
    assert LabelledFrom(r, sorted, col, labeller);
    Ok(r)
  }

  /** `load_tests_data()` as a value. */
  function TestsData(net: Net): (r: Result<Table>)
    ensures !net(DataSources.CovidTrackingUrl).Fetched? ==> r == ReadCsv(net(DataSources.CovidTrackingUrl))
    ensures net(DataSources.CovidTrackingUrl).Fetched? ==>
      r == SortAndRelabel(net(DataSources.CovidTrackingUrl).table, TestsDateColumn, TestsLabel)
  {
    var t :- ReadCsv(net(DataSources.CovidTrackingUrl));
    SortAndRelabel(t, TestsDateColumn, TestsLabel)
  }

  /** `load_tests_data()`: read (failures propagate), sort by `date`, then
      assign the labels over the column. */
  method LoadTestsData(net: Net) returns (r: Result<Table>)
    ensures r == TestsData(net)
    ensures r.Ok? ==> net(DataSources.CovidTrackingUrl).Fetched? && |r.value| == |net(DataSources.CovidTrackingUrl).table|
  {
    var df :- ReadCsv(net(DataSources.CovidTrackingUrl));
    df :- SortValues(df, TestsDateColumn);
    var labels :- Labels(ColumnValues(df, TestsDateColumn), TestsLabel);
    df := SetColumn(df, TestsDateColumn, labels);
    assert LabelledFrom(df, SortValues(net(DataSources.CovidTrackingUrl).table, TestsDateColumn).value, TestsDateColumn, TestsLabel);
    return Ok(df);
  }

  /** `os.path.join(directory, name)` for a relative `name`. */
  function JoinPath(directory: string, name: string): (p: string)
    ensures |p| >= |name| && p[|p| - |name|..] == name
    ensures |p| >= |directory|
    ensures directory != [] ==> p[..|directory|] == directory
  {
    if directory == [] || directory[|directory| - 1] == '/' then directory + name
    else directory + "/" + name
  }

  /** `load_sp500_data()` as a value, for the directory the notebook runs in. */
  function PricesData(currentDir: string, net: Net): (r: Result<Table>)
    ensures var f := net(JoinPath(currentDir, PricesFile));
      (!f.Fetched? ==> r == ReadCsv(f))
      && (f.Fetched? ==> r == SortAndRelabel(f.table, PricesDateColumn, PricesLabel))
  {
    var t :- ReadCsv(net(JoinPath(currentDir, PricesFile)));
    SortAndRelabel(t, PricesDateColumn, PricesLabel)
  }

  /** `load_sp500_data()`: read GSPC.csv next to the notebook, sort by
      `Date`, then assign the labels over the column. */
  method LoadSp500Data(currentDir: string, net: Net) returns (r: Result<Table>)
    ensures r == PricesData(currentDir, net)
  {
    var path := JoinPath(currentDir, PricesFile);
    var df :- ReadCsv(net(path));
    df :- SortValues(df, PricesDateColumn);
    var labels :- Labels(ColumnValues(df, PricesDateColumn), PricesLabel);
    df := SetColumn(df, PricesDateColumn, labels);
    assert LabelledFrom(df, SortValues(net(path).table, PricesDateColumn).value, PricesDateColumn, PricesLabel);
    return Ok(df);
  }

  /** An eight-digit integer gets the label of the date its digit groups
      spell, or raises ValueError when they spell no real date. */
  lemma TestsLabelOfInt(n: nat)
    requires Pow10(7) <= n < Pow10(8)
    ensures var d := Date(n / 10000, n / 100 % 100, n % 100);
            TestsLabel(Int(n)) == if ValidDate(d) then Ok(MonthDayLabel(d)) else Err(ValueError)
  {
    StrptimeOfEightDigitInt(n);
  }

  /** The integer 20200315, given by its digit groups 2020, 03 and 15, is
      labelled "Mar-15". The number is pinned by its digit groups rather
      than written as a literal, on which the verifier would evaluate the
      digit functions step by step. */
  lemma TestsLabelMarch15(n: nat)
    requires Pow10(7) <= n < Pow10(8) && n / 10000 == 2020 && n / 100 % 100 == 3 && n % 100 == 15
    ensures TestsLabel(Int(n)) == Ok("Mar-15")
  {
    TestsLabelOfInt(n);
    assert TestsLabel(Int(n)) == Ok(MonthDayLabel(Date(2020, 3, 15)));
    March15Label();
  }

  lemma March15Label()
    ensures MonthDayLabel(Date(2020, 3, 15)) == "Mar-15"
  {
    assert PadDigits(15, 2) == "15";
  }

  /** The integer 20200230, February 30th, raises ValueError. It is pinned
      by its digit groups for the same reason as above. */
  lemma TestsLabelFebruary30(n: nat)
    requires Pow10(7) <= n < Pow10(8) && n / 10000 == 2020 && n / 100 % 100 == 2 && n % 100 == 30
    ensures TestsLabel(Int(n)) == Err(ValueError)
  {
    TestsLabelOfInt(n);
    assert DaysInMonth(2020, 2) == 29;
  }

  /** The label drops the year: two dates share a label exactly when they
      share month and day. */
  lemma TestsLabelDropsYear(a: Date, b: Date)
    requires ValidDate(a) && ValidDate(b) && a.year >= 1000 && b.year >= 1000
    ensures TestsLabel(Int(DateNumber(a))) == Ok(MonthDayLabel(a))
    ensures TestsLabel(Int(DateNumber(a))) == TestsLabel(Int(DateNumber(b))) <==> a.month == b.month && a.day == b.day
  {
    CellTextOfDateNumber(a);
    CellTextOfDateNumber(b);
    CompactRoundTrip(a);
    CompactRoundTrip(b);
    MonthDayLabelInjective(a, b);
  }

  /** Sorted YYYYMMDD integers are in calendar order. */
  lemma SortedTestsChronological(s: Table, dates: seq<Date>)
    requires SortedOn(s, TestsDateColumn) && |dates| == |s|
    requires forall i :: 0 <= i < |s| ==> ValidDate(dates[i]) && s[i][TestsDateColumn] == Int(DateNumber(dates[i]))
    ensures forall i, j :: 0 <= i < j < |s| ==> DateLe(dates[i], dates[j])
  {
    forall i, j | 0 <= i < j < |s| ensures DateLe(dates[i], dates[j]) {
      DateNumberChronological(dates[i], dates[j]);
    }
  }

  /** An ISO date string gets its date's label. */
  lemma PricesLabelOfIso(d: Date)
    requires ValidDate(d)
    ensures PricesLabel(Str(IsoText(d))) == Ok(MonthDayLabel(d))
  {
    IsoRoundTrip(d);
  }

  /** Sorted ISO date strings are in calendar order. */
  lemma SortedPricesChronological(s: Table, dates: seq<Date>)
    requires SortedOn(s, PricesDateColumn) && |dates| == |s|
    requires forall i :: 0 <= i < |s| ==> ValidDate(dates[i]) && s[i][PricesDateColumn] == Str(IsoText(dates[i]))
    ensures forall i, j :: 0 <= i < j < |s| ==> DateLe(dates[i], dates[j])
  {
    forall i, j | 0 <= i < j < |s| ensures DateLe(dates[i], dates[j]) {
      IsoTextChronological(dates[i], dates[j]);
    }
  }
}
