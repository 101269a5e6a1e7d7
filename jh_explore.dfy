/** The Johns Hopkins notebook (sandbox/explore_johns_hopkins_covid19_data.py):
    load the newest daily report unless a location is given, keep the
    United States rows and break the confirmed cases down into unknown,
    recovered and deaths for a pie chart. */
module JohnsHopkinsExplore {
  import opened Frames
  import opened Fetching
  import DataSources

  /** `load_data(url=None)`: the newest report when no location is given
      (an empty listing raises IndexError); only an HTTP error is caught,
      and it leaves `df` unbound, so `return df` raises UnboundLocalError. */
  function LoadData(url: Option<string>, listing: seq<string>, net: Net): (r: Result<Table>)
    ensures url.None? && listing == [] ==> r == Err(IndexError)
    ensures var location := if url.Some? then Ok(url.value) else LatestReport(listing);
      location.Ok? ==>
        (net(location.value).Fetched? ==> r == Ok(net(location.value).table))
        && (net(location.value).HttpFailure? ==> r == Err(UnboundLocal))
        && (net(location.value).ReadFailure? ==> r == Err(OtherReadError))
  {
    var location :- if url.Some? then Ok(url.value) else LatestReport(listing);
    match net(location)
    case Fetched(t) => Ok(t)
    case HttpFailure => Err(UnboundLocal)
    case ReadFailure => Err(OtherReadError)
  }

  function Sum(xs: seq<int>): int
    decreases |xs|
  {
    if xs == [] then 0 else xs[0] + Sum(xs[1..])
  }

  lemma {:induction false} SumAppend(a: seq<int>, b: seq<int>)
    ensures Sum(a + b) == Sum(a) + Sum(b)
    decreases |a|
  {
    if a == [] {
      assert a + b == b;
    } else {
      assert (a + b)[1..] == a[1..] + b;
      SumAppend(a[1..], b);
    }
  }

  predicate IntColumn(t: Table, col: string) {
    HasColumn(t, col) && forall i :: 0 <= i < |t| ==> t[i][col].Int?
  }

  /** The integer cells of a column, top to bottom. */
  function IntCells(t: Table, col: string): (xs: seq<int>)
    requires IntColumn(t, col)
    ensures |xs| == |t| && forall i :: 0 <= i < |t| ==> xs[i] == t[i][col].n
  {
    seq(|t|, i requires 0 <= i < |t| => t[i][col].n)
  }

  /** `data[col].sum()` on an integer column: KeyError when it is missing,
      TypeError when a cell is not an integer. */
  function ColumnTotal(t: Table, col: string): (r: Result<int>)
    ensures r.Ok? <==> IntColumn(t, col)
    ensures !HasColumn(t, col) ==> r == Err(KeyError)
    ensures HasColumn(t, col) && !IntColumn(t, col) ==> r == Err(TypeError)
    ensures r.Ok? ==> r.value == Sum(IntCells(t, col))
  {
    if !HasColumn(t, col) then Err(KeyError)
    else if !IntColumn(t, col) then Err(TypeError)
    else Ok(Sum(IntCells(t, col)))
  }

  /** Totals add up over a table split in two: the total of a column is the
      sum of its rows' cells, however the rows are grouped. */
  lemma ColumnTotalAppend(a: Table, b: Table, col: string)
    requires IntColumn(a, col) && IntColumn(b, col)
    ensures ColumnTotal(a + b, col) == Ok(ColumnTotal(a, col).value + ColumnTotal(b, col).value)
  {
    assert IntCells(a + b, col) == IntCells(a, col) + IntCells(b, col);
    SumAppend(IntCells(a, col), IntCells(b, col));
  }

  /** `labels_map`, a dict whose insertion order the pie chart relies on. */
  const LabelColors: seq<(string, string)> :=
    [("Unknown", "lightgrey"), ("Recovered", "green"), ("Deaths", "darkred")]

  /** `list(d.keys())`: the keys in insertion order. */
  function Keys(d: seq<(string, string)>): (ks: seq<string>)
    ensures |ks| == |d| && forall i :: 0 <= i < |d| ==> ks[i] == d[i].0
  {
    seq(|d|, i requires 0 <= i < |d| => d[i].0)
  }

  datatype PieData = PieData(labels: seq<string>, values: seq<int>)

  /** The pie of lines 74-87 from the loaded table: the US rows, the three
      column totals (Confirmed, Deaths, Recovered, raising in that order),
      `total_unknown` as the rest, and the values listed in the order of the
      labels. Each labelled slice is that column's total, and the slices add
      up to the confirmed cases. */
  function USPie(t: Table): (r: Result<PieData>)
    ensures r.Ok? ==> DataSources.USRows(DataSources.JohnHopkins, t).Ok?
    ensures r.Ok? ==>
      var data := DataSources.USRows(DataSources.JohnHopkins, t).value;
      r.value.labels == Keys(LabelColors) && |r.value.values| == |r.value.labels| == 3
      && ColumnTotal(data, r.value.labels[1]) == Ok(r.value.values[1])
      && ColumnTotal(data, r.value.labels[2]) == Ok(r.value.values[2])
      && ColumnTotal(data, "Confirmed") == Ok(r.value.values[0] + r.value.values[1] + r.value.values[2])
    ensures r.Ok? <==>
      var data := DataSources.USRows(DataSources.JohnHopkins, t);
      data.Ok? && IntColumn(data.value, "Confirmed") && IntColumn(data.value, "Deaths")
      && IntColumn(data.value, "Recovered")
    ensures r.Err? ==>
      var data := DataSources.USRows(DataSources.JohnHopkins, t);
      r.error == if data.Err? then data.error
                 else if ColumnTotal(data.value, "Confirmed").Err? then ColumnTotal(data.value, "Confirmed").error
                 else if ColumnTotal(data.value, "Deaths").Err? then ColumnTotal(data.value, "Deaths").error
                 else ColumnTotal(data.value, "Recovered").error
    ensures r.Err? ==> r.error == KeyError || r.error == TypeError
  {
    var data :- DataSources.USRows(DataSources.JohnHopkins, t);
    var totalConfirmed :- ColumnTotal(data, "Confirmed");
    var totalDeaths :- ColumnTotal(data, "Deaths");
    var totalRecovered :- ColumnTotal(data, "Recovered");
    var totalUnknown := totalConfirmed - (totalDeaths + totalRecovered);
    LabelKeys();
    Ok(PieData(Keys(LabelColors), [totalUnknown, totalRecovered, totalDeaths]))
  }

  lemma LabelKeys()
    ensures Keys(LabelColors) == ["Unknown", "Recovered", "Deaths"]
  {
  }

  /** The notebook as a whole: `df = load_data()` on the newest report, then
      the pie. */
  function Notebook(listing: seq<string>, net: Net): (r: Result<PieData>)
    ensures listing == [] ==> r == Err(IndexError)
    ensures listing != [] && net(LatestReport(listing).value).HttpFailure? ==> r == Err(UnboundLocal)
    ensures r.Ok? ==> LoadData(None, listing, net).Ok? && USPie(LoadData(None, listing, net).value) == r
    ensures LoadData(None, listing, net).Ok? ==> r == USPie(LoadData(None, listing, net).value)
    ensures LoadData(None, listing, net).Err? ==> r == Err(LoadData(None, listing, net).error)
  {
    var t :- LoadData(None, listing, net);
    USPie(t)
  }
}
