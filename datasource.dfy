/** The provider classes of DataSource.py. Every provider is built the same
    way: store the location, read it into a table, let the provider reformat
    the table, then try to turn the `date` column into time stamps. The
    three providers differ in where their data lives, in the reformat step
    and in which rows are the United States'.

    Python raises exceptions where this model returns `Err`; an attribute
    that was never assigned (`self.df` after an HTTP error) is `None`. */
module DataSources {
  import opened Frames
  import opened Text
  import opened Sorting
  import opened Calendar
  import opened Fetching

  /** The concrete subclasses of the abstract `DataSource`. */
  datatype Provider = JohnHopkins | CovidTracking | OurWorldInData

  const CovidTrackingUrl: string := "https://covidtracking.com/api/v1/us/daily.csv"
  const OurWorldInDataUrl: string := "https://covid.ourworldindata.org/data/ecdc/full_data.csv"
  const DateColumn: string := "date"

  /** `pd.to_datetime` applied to a whole column: the stamps, or `None` when
      it raises. How it parses is not modelled. */
  type ToDatetime = seq<Value> -> Option<seq<Date>>

  /** `_read_data`: the new value of `df`, or the exception. An HTTP error is
      reported and swallowed, leaving `df` as it was; every other read
      failure propagates. */
  function ReadStep(df: Option<Table>, f: Fetch): (r: Result<Option<Table>>)
    ensures r.Ok? <==> !f.ReadFailure?
    ensures f.HttpFailure? ==> r == Ok(df)
    ensures f.Fetched? ==> r == Ok(Some(f.table))
    ensures r.Err? ==> r.error == OtherReadError && ReadCsv(f) == Err(OtherReadError)
  {
    if f.HttpFailure? then Ok(df)
    else
      var t :- ReadCsv(f);
      Ok(Some(t))
  }

  /** `df['date'].astype(str)` written back over the column: each date cell
      becomes its `str()` text, every other cell is kept. */
  function DateAsText(t: Table): (r: Table)
    requires HasColumn(t, DateColumn)
    ensures RelabelledFrom(r, t)
  {
    SetColumn(t, DateColumn, seq(|t|, i requires 0 <= i < |t| => Str(CellText(t[i][DateColumn]))))
  }

  /** `r` is `s` with every date cell replaced by its text. */
  predicate RelabelledFrom(r: Table, s: Table)
    requires HasColumn(s, DateColumn)
  {
    |r| == |s|
    && forall i :: 0 <= i < |s| ==> r[i] == s[i][DateColumn := Str(CellText(s[i][DateColumn]))]
  }

  /** `_reformat_data`: a no-op in the base class, which JohnHopkins and
      OurWorldInData inherit. CovidTracking sorts by `date` (the assignment
      reads `self.df`, so an unassigned `df` raises AttributeError) and then
      turns the integer dates into strings. */
  function ReformatStep(p: Provider, df: Option<Table>): (r: Result<Option<Table>>)
    ensures p != CovidTracking ==> r == Ok(df)
    ensures p == CovidTracking && df.None? ==> r == Err(AttributeError)
    ensures p == CovidTracking && df.Some? ==> (r.Ok? <==> HasColumn(df.value, DateColumn) && SameKind(df.value, DateColumn))
    ensures p == CovidTracking && df.Some? && !HasColumn(df.value, DateColumn) ==> r == Err(KeyError)
    ensures p == CovidTracking && df.Some? && HasColumn(df.value, DateColumn) && !SameKind(df.value, DateColumn) ==> r == Err(TypeError)
    ensures p == CovidTracking && r.Ok? ==>
      r.value.Some? && |r.value.value| == |df.value|
      && exists s :: SortedOn(s, DateColumn) && multiset(s) == multiset(df.value) && RelabelledFrom(r.value.value, s)
  {
    if p != CovidTracking then Ok(df)
    else if df.None? then Err(AttributeError)
    else
      var sorted :- SortValues(df.value, DateColumn);
      Ok(Some(DateAsText(sorted)))
  }

  /** Every date cell as a time stamp. */
  function Stamps(ds: seq<Date>): (vs: seq<Value>)
    ensures |vs| == |ds| && forall i :: 0 <= i < |ds| ==> vs[i] == Stamp(ds[i])
  {
    seq(|ds|, i requires 0 <= i < |ds| => Stamp(ds[i]))
  }

  /** `_unify_date`: `df['date'] = pd.to_datetime(df['date'])` under a bare
      `except: pass`. A missing `df`, a missing column or a failed
      conversion raises before the assignment, and the exception is
      swallowed, so `df` is either fully converted or exactly as it was. */
  function UnifyStep(df: Option<Table>, toDate: ToDatetime): (r: Option<Table>)
    ensures r.None? <==> df.None?
    ensures r.Some? ==> |r.value| == |df.value|
  {
    if df.None? || !HasColumn(df.value, DateColumn) then df
    else
      var converted := toDate(ColumnValues(df.value, DateColumn));
      if converted.None? || |converted.value| != |df.value| then df
      else Some(SetColumn(df.value, DateColumn, Stamps(converted.value)))
  }

  /** All or nothing: when the conversion succeeds every date cell is its
      stamp and nothing else changes; otherwise the table is untouched. */
  lemma UnifyAllOrNothing(t: Table, toDate: ToDatetime)
    ensures var r := UnifyStep(Some(t), toDate);
      r.Some? && |r.value| == |t|
      && (r == Some(t)
          || (HasColumn(t, DateColumn)
              && forall i :: 0 <= i < |t| ==> r.value[i][DateColumn].Stamp? && r.value[i] - {DateColumn} == t[i] - {DateColumn}))
    ensures HasColumn(t, DateColumn) && toDate(ColumnValues(t, DateColumn)).Some?
            && |toDate(ColumnValues(t, DateColumn)).value| == |t| ==>
      var ds := toDate(ColumnValues(t, DateColumn)).value;
      forall i :: 0 <= i < |t| ==> UnifyStep(Some(t), toDate).value[i][DateColumn] == Stamp(ds[i])
    ensures !HasColumn(t, DateColumn) || toDate(ColumnValues(t, DateColumn)).None? ==> UnifyStep(Some(t), toDate) == Some(t)
  {
    var r := UnifyStep(Some(t), toDate);
    if HasColumn(t, DateColumn) {
      var converted := toDate(ColumnValues(t, DateColumn));
      if converted.Some? && |converted.value| == |t| {
        forall i | 0 <= i < |t|
          ensures r.value[i][DateColumn].Stamp? && r.value[i] - {DateColumn} == t[i] - {DateColumn}
        {
          assert r.value[i] == t[i][DateColumn := Stamp(converted.value[i])];
        }
      }
    }
  }

  /** Construction as a whole: the table `df` ends up holding, or the
      exception `__init__` raises. `df` starts unassigned. */
  function Construction(p: Provider, url: string, net: Net, toDate: ToDatetime): (r: Result<Option<Table>>)
    ensures r.Ok? && r.value.Some? ==> net(url).Fetched?
    ensures r.Err? ==> r.error in {OtherReadError, AttributeError, KeyError, TypeError}
    ensures r.Err? && r.error != OtherReadError ==> p == CovidTracking
  {
    var read :- ReadStep(None, net(url));
    var reformatted :- ReformatStep(p, read);
    Ok(UnifyStep(reformatted, toDate))
  }

  /** An HTTP error does not stop JohnHopkins or OurWorldInData: they are
      built without a table. CovidTracking's reformat then reads the missing
      `df` and construction raises AttributeError. */
  lemma ConstructionAfterHttpError(p: Provider, url: string, net: Net, toDate: ToDatetime)
    requires net(url).HttpFailure?
    ensures p == CovidTracking ==> Construction(p, url, net, toDate) == Err(AttributeError)
    ensures p != CovidTracking ==> Construction(p, url, net, toDate) == Ok(None)
  {
    assert ReadStep(None, net(url)) == Ok(None);
  }

  /** Any other read failure propagates out of the constructor. */
  lemma ConstructionAfterReadFailure(p: Provider, url: string, net: Net, toDate: ToDatetime)
    requires net(url).ReadFailure?
    ensures Construction(p, url, net, toDate) == Err(OtherReadError)
  {
    assert ReadStep(None, net(url)) == Err(OtherReadError);
  }

  /** A JohnHopkins or OurWorldInData table that was read keeps its rows:
      only its date column may become stamps. */
  lemma ConstructionKeepsRows(p: Provider, url: string, net: Net, toDate: ToDatetime)
    requires p != CovidTracking && net(url).Fetched?
    ensures var t := net(url).table;
      var r := Construction(p, url, net, toDate);
      r.Ok? && r.value.Some? && |r.value.value| == |t|
      && forall i :: 0 <= i < |t| ==> r.value.value[i] - {DateColumn} == t[i] - {DateColumn}
  {
    var t := net(url).table;
    assert ReadStep(None, net(url)) == Ok(Some(t));
    assert ReformatStep(p, Some(t)) == Ok(Some(t));
    UnifyAllOrNothing(t, toDate);
  }

  /** A CovidTracking table that was read and sorted keeps its row count,
      and its dates are text. */
  lemma CovidTrackingConstruction(url: string, net: Net, toDate: ToDatetime)
    requires net(url).Fetched?
    ensures var t := net(url).table;
      var r := Construction(CovidTracking, url, net, toDate);
      (r.Ok? <==> HasColumn(t, DateColumn) && SameKind(t, DateColumn))
      && (r.Ok? ==> r.value.Some? && |r.value.value| == |t|)
  {
    var t := net(url).table;
    assert ReadStep(None, net(url)) == Ok(Some(t));
    var re := ReformatStep(CovidTracking, Some(t));
    if re.Ok? {
      UnifyAllOrNothing(re.value.value, toDate);
    }
  }

  /** Every date is an eight-digit integer, as covidtracking.com's
      YYYYMMDD dates are. */
  predicate EightDigitDates(t: Table)
    requires HasColumn(t, DateColumn)
  {
    forall i :: 0 <= i < |t| ==> t[i][DateColumn].Int? && Pow10(7) <= t[i][DateColumn].n < Pow10(8)
  }

  lemma EightDigitDatesPermuted(s: Table, t: Table)
    requires HasColumn(s, DateColumn) && HasColumn(t, DateColumn)
    requires multiset(s) == multiset(t) && EightDigitDates(t)
    ensures EightDigitDates(s)
  {
    forall i | 0 <= i < |s| ensures s[i][DateColumn].Int? && Pow10(7) <= s[i][DateColumn].n < Pow10(8) {
      assert s[i] in multiset(t);
    }
  }

  /** Eight-digit integers print as texts in the same order. */
  lemma EightDigitTextOrder(x: int, y: int)
    requires Pow10(7) <= x <= y < Pow10(8)
    ensures LexLe(CellText(Int(x)), CellText(Int(y)))
  {
    NatTextIsPadded(x, 8);
    NatTextIsPadded(y, 8);
    PadDigitsOrder(x, y, 8);
  }

  /** Sorting before relabelling: once every date is an eight-digit
      YYYYMMDD integer, the date strings of the reformatted table are in
      string order as well. */
  lemma CovidTrackingTextOrder(t: Table)
    requires HasColumn(t, DateColumn) && EightDigitDates(t)
    ensures var r := ReformatStep(CovidTracking, Some(t));
      r.Ok? && r.value.Some?
      && forall i, j :: 0 <= i < j < |r.value.value| ==>
           r.value.value[i][DateColumn].Str? && r.value.value[j][DateColumn].Str?
           && LexLe(r.value.value[i][DateColumn].s, r.value.value[j][DateColumn].s)
  {
    assert SameKind(t, DateColumn);
    var s := SortRows(t, DateColumn);
    var r: Table := DateAsText(s);
    assert ReformatStep(CovidTracking, Some(t)) == Ok(Some(r));
    EightDigitDatesPermuted(s, t);
    forall i, j | 0 <= i < j < |r|
      ensures r[i][DateColumn].Str? && r[j][DateColumn].Str? && LexLe(r[i][DateColumn].s, r[j][DateColumn].s)
    {
      assert r[i][DateColumn] == Str(CellText(s[i][DateColumn]));
      assert r[j][DateColumn] == Str(CellText(s[j][DateColumn]));
      EightDigitTextOrder(s[i][DateColumn].n, s[j][DateColumn].n);
    }
  }

  /** The column and value naming a provider's United States rows;
      CovidTracking's data is national already. */
  function RegionKey(p: Provider): Option<(string, Value)> {
    match p
    case JohnHopkins => Some(("Country_Region", Str("US")))
    case OurWorldInData => Some(("location", Str("United States")))
    case CovidTracking => None
  }

  /** `get_US_data` on a table: exactly the rows whose region column holds
      the provider's value, in their original order (possibly none), or
      KeyError when the column is missing; CovidTracking returns the whole
      table. */
  function USRows(p: Provider, t: Table): (r: Result<Table>)
    ensures p == CovidTracking ==> r == Ok(t)
    ensures p != CovidTracking ==>
      var (col, v) := RegionKey(p).value;
      (r.Err? <==> !HasColumn(t, col))
      && (r.Err? ==> r.error == KeyError)
      && (r.Ok? ==> SelectsExactly(r.value, t, col, v))
  {
    match RegionKey(p)
    case None => Ok(t)
    case Some((col, v)) =>
      MaskExact(t, col, v);
      Mask(t, col, v)
  }

  /** A provider object: `url` is where it read from, `df` its table, `None`
      while unassigned. */
  class DataSource {
    const provider: Provider
    var url: string
    var df: Option<Table>

    /** The first line of `__init__`: `self.url = url`. */
    constructor (provider: Provider, url: string)
      ensures this.provider == provider && this.url == url && df == None
    {
      this.provider := provider;
      this.url := url;
      df := None;
    }

    /** `_read_data`: reads `url`; `raised` is the exception that escapes. */
    method ReadData(net: Net) returns (raised: Option<Error>)
      modifies this`df
      ensures var r := ReadStep(old(df), net(url));
        (raised.None? <==> r.Ok?)
        && (r.Ok? ==> df == r.value)
        && (r.Err? ==> raised == Some(r.error) && df == old(df))
    {
      match net(url)
      case Fetched(t) =>
        df := Some(t);
        raised := None;
      case HttpFailure =>
        raised := None;
      case ReadFailure =>
        raised := Some(OtherReadError);
    }

    /** `_reformat_data` of the object's provider. */
    method ReformatData() returns (raised: Option<Error>)
      modifies this`df
      ensures var r := ReformatStep(provider, old(df));
        (raised.None? <==> r.Ok?)
        && (r.Ok? ==> df == r.value)
        && (r.Err? ==> raised == Some(r.error) && df == old(df))
    {
      raised := None;
      if provider == CovidTracking {
        if df.None? {
          raised := Some(AttributeError);
        } else {
          var sorted := SortValues(df.value, DateColumn);
          if sorted.Err? {
            raised := Some(sorted.error);
          } else {
            df := Some(sorted.value);
            df := Some(DateAsText(df.value));
          }
        }
      }
    }

    /** `_unify_date`: never raises. */
    method UnifyDate(toDate: ToDatetime)
      modifies this`df
      ensures df == UnifyStep(old(df), toDate)
    {
      if df.Some? && HasColumn(df.value, DateColumn) {
        var converted := toDate(ColumnValues(df.value, DateColumn));
        if converted.Some? && |converted.value| == |df.value| {
          df := Some(SetColumn(df.value, DateColumn, Stamps(converted.value)));
        }
      }
    }

    /** `get_full_data`: the table itself; an unassigned `df` raises
      AttributeError. */
    function GetFullData(): (r: Result<Table>)
      reads this
      ensures r.Ok? <==> df.Some?
      ensures r.Ok? ==> r.value == df.value
      ensures r.Err? ==> r.error == AttributeError
    {
      if df.None? then Err(AttributeError) else Ok(df.value)
    }

    /** `get_US_data` of the object's provider. */
    function GetUSData(): (r: Result<Table>)
      reads this
      ensures df.None? ==> r == Err(AttributeError)
      ensures df.Some? ==> r == USRows(provider, df.value)
    {
      if df.None? then Err(AttributeError) else USRows(provider, df.value)
    }
  }

  /** `DataSource.__init__`: store the location, then read, reformat and
      unify, in that order; the first exception ends construction. */
  method Build(p: Provider, url: string, net: Net, toDate: ToDatetime) returns (r: Result<DataSource>)
    ensures r.Err? <==> Construction(p, url, net, toDate).Err?
    ensures r.Err? ==> r.error == Construction(p, url, net, toDate).error
    ensures r.Ok? ==> fresh(r.value) && r.value.provider == p && r.value.url == url
                      && r.value.df == Construction(p, url, net, toDate).value
  {
    var source := new DataSource(p, url);
    var raised := source.ReadData(net);
    if raised.Some? {
      return Err(raised.value);
    }
    raised := source.ReformatData();
    if raised.Some? {
      return Err(raised.value);
    }
    source.UnifyDate(toDate);
    return Ok(source);
  }

  /** `JohnHopkins(url)`: the argument is ignored; the location is the
      newest daily report of the listing, and an empty listing raises
      IndexError before anything is read. */
  method NewJohnHopkins(url: Option<string>, listing: seq<string>, net: Net, toDate: ToDatetime)
    returns (r: Result<DataSource>)
    ensures listing == [] ==> r == Err(IndexError)
    ensures listing != [] ==>
      var latest := LatestReport(listing).value;
      (r.Err? <==> Construction(JohnHopkins, latest, net, toDate).Err?)
      && (r.Err? ==> r.error == Construction(JohnHopkins, latest, net, toDate).error)
      && (r.Ok? ==> fresh(r.value) && r.value.provider == JohnHopkins && r.value.url == latest
                    && r.value.df == Construction(JohnHopkins, latest, net, toDate).value)
  {
    var latest := LatestReport(listing);
    if latest.Err? {
      return Err(latest.error);
    }
    r := Build(JohnHopkins, latest.value, net, toDate);
  }

  /** `CovidTracking()`: the fixed covidtracking.com URL. */
  method NewCovidTracking(net: Net, toDate: ToDatetime) returns (r: Result<DataSource>)
    ensures r.Err? <==> Construction(CovidTracking, CovidTrackingUrl, net, toDate).Err?
    ensures r.Err? ==> r.error == Construction(CovidTracking, CovidTrackingUrl, net, toDate).error
    ensures r.Ok? ==> fresh(r.value) && r.value.provider == CovidTracking && r.value.url == CovidTrackingUrl
                      && r.value.df == Construction(CovidTracking, CovidTrackingUrl, net, toDate).value
  {
    r := Build(CovidTracking, CovidTrackingUrl, net, toDate);
  }

  /** `OurWorldInData()`: the fixed ourworldindata.org URL. */
  method NewOurWorldInData(net: Net, toDate: ToDatetime) returns (r: Result<DataSource>)
    ensures r.Err? <==> Construction(OurWorldInData, OurWorldInDataUrl, net, toDate).Err?
    ensures r.Err? ==> r.error == Construction(OurWorldInData, OurWorldInDataUrl, net, toDate).error
    ensures r.Ok? ==> fresh(r.value) && r.value.provider == OurWorldInData && r.value.url == OurWorldInDataUrl
                      && r.value.df == Construction(OurWorldInData, OurWorldInDataUrl, net, toDate).value
  {
    r := Build(OurWorldInData, OurWorldInDataUrl, net, toDate);
  }
}
