/** The Our World in Data notebook (explore_who_covid19_data.py): load the
    full data set, falling back to a named archive file when the download
    fails with an HTTP error, then offer the distinct locations and select
    one location's rows. The selection and the options are shared with the
    sandbox copy of the notebook. */
module WhoExplore {
  import opened Frames
  import opened Fetching

  const FullDataUrl: string := "https://covid.ourworldindata.org/data/ecdc/full_data.csv"
  const LocationColumn: string := "location"
  /** The archive the notebook names when it loads, and its default location. */
  const NotebookArchive: string := "who_covid19_data_20200317.csv"
  const NotebookLocation: string := "World"

  /** `load_data(url, archived_csv=None)`. Only an HTTP error is caught; the
      handler reads the archive when one was named (a failure reading it
      propagates) and otherwise leaves `df` unbound, so `return df` raises
      UnboundLocalError. Nothing is written. */
  function LoadData(url: string, archivedCsv: Option<string>, net: Net): (r: Result<Table>)
    ensures net(url).Fetched? ==> r == Ok(net(url).table)
    ensures net(url).ReadFailure? ==> r == Err(OtherReadError)
    ensures net(url).HttpFailure? && archivedCsv.None? ==> r == Err(UnboundLocal)
    ensures net(url).HttpFailure? && archivedCsv.Some? ==> r == ReadCsv(net(archivedCsv.value))
  {
    match net(url)
    case Fetched(t) => Ok(t)
    case ReadFailure => Err(OtherReadError)
    case HttpFailure =>
      if archivedCsv.None? then Err(UnboundLocal) else ReadCsv(net(archivedCsv.value))
  }

  /** `df[df['location'] == selected_location]` in `plot_data`: exactly that
      location's rows in their original order, possibly none; KeyError when
      the column is missing. */
  function LocationRows(t: Table, selected: string): (r: Result<Table>)
    ensures r.Err? <==> !HasColumn(t, LocationColumn)
    ensures r.Err? ==> r.error == KeyError
    ensures r.Ok? ==> SelectsExactly(r.value, t, LocationColumn, Str(selected))
    ensures r.Ok? ==> (r.value == [] <==> forall i :: 0 <= i < |t| ==> !Matches(t[i], LocationColumn, Str(selected)))
  {
    MaskExact(t, LocationColumn, Str(selected));
    WhereEmptyIff(t, LocationColumn, Str(selected));
    Mask(t, LocationColumn, Str(selected))
  }

  /** `df.location.unique()`, the dropdown options: every location once, in
      order of first appearance. A frame without the column has no such
      attribute. */
  function LocationOptions(t: Table): (r: Result<seq<Value>>)
    ensures r.Err? <==> !HasColumn(t, LocationColumn)
    ensures r.Err? ==> r.error == AttributeError
    ensures r.Ok? ==> NoDuplicates(r.value)
    ensures r.Ok? ==> forall x :: x in r.value <==> x in ColumnValues(t, LocationColumn)
    ensures r.Ok? ==> forall i, j :: 0 <= i < j < |r.value| ==>
      IndexOf(ColumnValues(t, LocationColumn), r.value[i]) < IndexOf(ColumnValues(t, LocationColumn), r.value[j])
  {
    if !HasColumn(t, LocationColumn) then Err(AttributeError)
    else
      Ok(Unique(ColumnValues(t, LocationColumn)))
  }

  /** A location is offered exactly when selecting it finds rows. */
  lemma OfferedIffSelectable(t: Table, selected: string)
    requires HasColumn(t, LocationColumn)
    ensures Str(selected) in LocationOptions(t).value <==> LocationRows(t, selected).value != []
  {
    var column := ColumnValues(t, LocationColumn);
    if Str(selected) in column {
      var i :| 0 <= i < |column| && column[i] == Str(selected);
      assert Matches(t[i], LocationColumn, Str(selected));
    } else {
      forall i | 0 <= i < |t| ensures !Matches(t[i], LocationColumn, Str(selected)) {
        assert column[i] == t[i][LocationColumn];
      }
    }
  }

  /** The notebook's opening cells: load with the named archive, list the
      options, and select the default location for the first plot. */
  function Notebook(net: Net): (r: Result<(seq<Value>, Table)>)
    ensures r.Ok? ==> LoadData(FullDataUrl, Some(NotebookArchive), net).Ok?
    ensures r.Ok? ==> (Str(NotebookLocation) in r.value.0 <==> r.value.1 != [])
    ensures net(FullDataUrl).Fetched? && HasColumn(net(FullDataUrl).table, LocationColumn) ==> r.Ok?
    ensures var loaded := LoadData(FullDataUrl, Some(NotebookArchive), net);
      (r.Ok? <==> loaded.Ok? && HasColumn(loaded.value, LocationColumn))
      && (r.Err? ==> r.error == if loaded.Err? then loaded.error else AttributeError)
      && (r.Ok? ==> LocationOptions(loaded.value) == Ok(r.value.0)
                    && LocationRows(loaded.value, NotebookLocation) == Ok(r.value.1))
  {
    var t :- LoadData(FullDataUrl, Some(NotebookArchive), net);
    var options :- LocationOptions(t);
    OfferedIffSelectable(t, NotebookLocation);
    Ok((options, LocationRows(t, NotebookLocation).value))
  }
}
