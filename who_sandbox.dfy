/** The sandbox copy of the Our World in Data notebook
    (sandbox/explore_who_covid19_data.py): `load_data` archives every
    successful download to a local CSV file and, when a later download fails
    with an HTTP error, reads that file instead if it exists. The local disk
    is an object whose map from path to table the write updates. */
module WhoSandbox {
  import opened Frames
  import opened Fetching
  import WhoExplore

  const DefaultArchive: string := "latest_fulldata_archived.csv"
  const NotebookLocation: string := "United States"

  /** `to_csv` writes the row index as a first, unnamed column, which
      `read_csv` reads back under this name. */
  const IndexColumn: string := "Unnamed: 0"

  /** What reading back an archive written by `to_csv` gives: each row with
      its position under the index column, every other cell kept. */
  function WithIndexColumn(t: Table): (r: Table)
    ensures |r| == |t| && HasColumn(r, IndexColumn)
    ensures forall i :: 0 <= i < |t| ==> r[i][IndexColumn] == Int(i)
    ensures forall i :: 0 <= i < |t| ==> r[i] - {IndexColumn} == t[i] - {IndexColumn}
  {
    seq(|t|, i requires 0 <= i < |t| => t[i][IndexColumn := Int(i)])
  }

  /** The local files: what `read_csv` of each existing path yields. */
  class FileSystem {
    var files: map<string, Table>

    constructor (files: map<string, Table>)
      ensures this.files == files
    {
      this.files := files;
    }
  }

  /** `load_data(url, archived_csv)` on the files before the call: what it
      returns and the files after it. A download is returned as read and
      written to the archive; an HTTP error falls back to the archive when
      it exists, writing nothing, and otherwise leaves `df` unbound; any
      other read failure propagates before the write. */
  function SandboxLoad(url: string, archivedCsv: string, net: Net, files: map<string, Table>)
    : (o: (Result<Table>, map<string, Table>))
    ensures net(url).Fetched? ==>
      o.0 == Ok(net(url).table) && o.1 == files[archivedCsv := WithIndexColumn(net(url).table)]
    ensures !net(url).Fetched? ==> o.1 == files
    ensures net(url).ReadFailure? ==> o.0 == Err(OtherReadError)
    ensures net(url).HttpFailure? && archivedCsv in files ==> o.0 == Ok(files[archivedCsv])
    ensures net(url).HttpFailure? && archivedCsv !in files ==> o.0 == Err(UnboundLocal)
  {
    match net(url)
    case Fetched(t) => (Ok(t), files[archivedCsv := WithIndexColumn(t)])
    case ReadFailure => (Err(OtherReadError), files)
    case HttpFailure =>
      if archivedCsv in files then (Ok(files[archivedCsv]), files) else (Err(UnboundLocal), files)
  }

  /** `load_data`, updating the disk. */
  method LoadData(url: string, archivedCsv: string, net: Net, disk: FileSystem) returns (r: Result<Table>)
    modifies disk
    ensures (r, disk.files) == SandboxLoad(url, archivedCsv, net, old(disk.files))
  {
    match net(url)
    case Fetched(t) =>
      r := Ok(t);
      disk.files := disk.files[archivedCsv := WithIndexColumn(t)];
    case HttpFailure =>
      if archivedCsv in disk.files {
        r := Ok(disk.files[archivedCsv]);
      } else {
        r := Err(UnboundLocal);
      }
    case ReadFailure =>
      r := Err(OtherReadError);
  }

  /** A download followed by an outage: the second call returns the archive
      of the first download, which carries the extra index column. */
  lemma OutageAfterDownload(url: string, archivedCsv: string, online: Net, offline: Net, files: map<string, Table>)
    requires online(url).Fetched? && offline(url).HttpFailure?
    ensures var first := SandboxLoad(url, archivedCsv, online, files);
      var second := SandboxLoad(url, archivedCsv, offline, first.1);
      second.0 == Ok(WithIndexColumn(online(url).table)) && second.1 == first.1
  {
    var first := SandboxLoad(url, archivedCsv, online, files);
    assert archivedCsv in first.1 && first.1[archivedCsv] == WithIndexColumn(online(url).table);
  }

  /** The two notebooks return the same thing whenever the sandbox's archive
      holds what the other notebook would read from the same path; only the
      sandbox writes. */
  lemma SandboxAgreesWithExplore(url: string, archivedCsv: string, net: Net, files: map<string, Table>)
    requires archivedCsv in files && net(archivedCsv) == Fetched(files[archivedCsv])
    ensures SandboxLoad(url, archivedCsv, net, files).0 == WhoExplore.LoadData(url, Some(archivedCsv), net)
  {
  }

  /** Without an archive file the sandbox raises where the other notebook,
      given no archive, raises too. */
  lemma SandboxWithoutArchive(url: string, archivedCsv: string, net: Net, files: map<string, Table>)
    requires archivedCsv !in files
    ensures SandboxLoad(url, archivedCsv, net, files).0 == WhoExplore.LoadData(url, None, net)
  {
  }

  /** The notebook's opening cells: `load_data(url=...)` with the default
      archive, then the options and the rows of the default location. */
  method Notebook(net: Net, disk: FileSystem) returns (r: Result<(seq<Value>, Table)>)
    modifies disk
    ensures disk.files == SandboxLoad(WhoExplore.FullDataUrl, DefaultArchive, net, old(disk.files)).1
    ensures r.Ok? ==> (Str(NotebookLocation) in r.value.0 <==> r.value.1 != [])
    ensures r.Ok? ==>
      var loaded := SandboxLoad(WhoExplore.FullDataUrl, DefaultArchive, net, old(disk.files)).0;
      loaded.Ok? && WhoExplore.LocationOptions(loaded.value) == Ok(r.value.0)
      && WhoExplore.LocationRows(loaded.value, NotebookLocation) == Ok(r.value.1)
    ensures var loaded := SandboxLoad(WhoExplore.FullDataUrl, DefaultArchive, net, old(disk.files)).0;
      (r.Ok? <==> loaded.Ok? && HasColumn(loaded.value, WhoExplore.LocationColumn))
      && (r.Err? ==> r.error == if loaded.Err? then loaded.error else AttributeError)
  {
    var loaded := LoadData(WhoExplore.FullDataUrl, DefaultArchive, net, disk);
    if loaded.Err? {
      return Err(loaded.error);
    }
    var options := WhoExplore.LocationOptions(loaded.value);
    if options.Err? {
      return Err(options.error);
    }
    WhoExplore.OfferedIffSelectable(loaded.value, NotebookLocation);
    r := Ok((options.value, WhoExplore.LocationRows(loaded.value, NotebookLocation).value));
  }
}
