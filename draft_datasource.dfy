/** The earlier draft of the provider classes (src/python/DataSource.py):
    `__init__` stores the location and assigns `df` the value `read_data`
    returns; `read_data` reads and reformats inside one `try` that catches
    HTTP errors only. Here `df`'s `None` is Python's `None`: in the draft the
    field is always assigned once construction succeeds. */
module DraftDataSources {
  import opened Frames
  import opened Fetching
  import DataSources

  /** The draft's classes: the abstract base, whose `_reformat_data` has no
      implementation, and the one concrete subclass. */
  datatype DraftClass = AbstractBase | DraftJohnHopkins

  const ScriptUrl: string := "file://05-15-2020.csv"

  /** `_reformat_data(df)`: JohnHopkins' body is `pass`, so it returns None
      whatever it is given. */
  function DraftReformat(kind: DraftClass, t: Table): (r: Option<Table>)
    requires kind == DraftJohnHopkins
    ensures r == None
  {
    None
  }

  /** `read_data()` on a fetch outcome. When `pd.read_csv` raises an HTTP
      error the local `df` is never bound, the handler only prints, and
      `return df` raises UnboundLocalError; other read failures propagate. */
  function DraftRead(kind: DraftClass, f: Fetch): (r: Result<Option<Table>>)
    requires kind == DraftJohnHopkins
    ensures r.Ok? <==> f.Fetched?
    ensures r.Ok? ==> r.value == DraftReformat(kind, f.table)
    ensures f.HttpFailure? ==> r == Err(UnboundLocal)
    ensures f.ReadFailure? ==> r == Err(OtherReadError)
  {
    match f
    case Fetched(t) => Ok(DraftReformat(kind, t))
    case HttpFailure => Err(UnboundLocal)
    case ReadFailure => Err(OtherReadError)
  }

  /** Construction as a whole: what `df` is assigned, or the exception.
      Instantiating the abstract base raises TypeError before `__init__`. */
  function DraftConstruction(kind: DraftClass, url: string, net: Net): (r: Result<Option<Table>>)
    ensures kind == AbstractBase ==> r == Err(TypeError)
    ensures r.Ok? ==> r.value == None
    ensures kind == DraftJohnHopkins ==> (r.Ok? <==> net(url).Fetched?)
  {
    if kind == AbstractBase then Err(TypeError) else DraftRead(kind, net(url))
  }

  class DraftSource {
    const kind: DraftClass
    var url: string
    var df: Option<Table>

    /** `self.url = url`; `df` is assigned next. */
    constructor (kind: DraftClass, url: string)
      ensures this.kind == kind && this.url == url && df == None
    {
      this.kind := kind;
      this.url := url;
      df := None;
    }

    /** `read_data` reads `url` and changes nothing. */
    function ReadData(net: Net): (r: Result<Option<Table>>)
      reads this
      requires kind == DraftJohnHopkins
      ensures r.Ok? ==> r.value == None
      ensures net(url).HttpFailure? ==> r == Err(UnboundLocal)
    {
      DraftRead(kind, net(url))
    }
  }

  /** `__init__`: `self.url = url`, then `self.df = self.read_data()`. */
  method NewDraft(kind: DraftClass, url: string, net: Net) returns (r: Result<DraftSource>)
    ensures r.Err? <==> DraftConstruction(kind, url, net).Err?
    ensures r.Err? ==> r.error == DraftConstruction(kind, url, net).error
    ensures r.Ok? ==> fresh(r.value) && r.value.kind == kind && r.value.url == url
                      && r.value.df == DraftConstruction(kind, url, net).value
  {
    if kind == AbstractBase {
      return Err(TypeError);
    }
    var source := new DraftSource(kind, url);
    var read := source.ReadData(net);
    assert read == DraftRead(kind, net(url));
    if read.Err? {
      return Err(read.error);
    }
    source.df := read.value;
    return Ok(source);
  }

  /** The draft against the final class, on the same location: where the
      final JohnHopkins keeps what it read, the draft keeps None; where the
      final one survives an HTTP error without a table, the draft raises. */
  lemma DraftVersusFinal(url: string, net: Net, toDate: DataSources.ToDatetime)
    ensures net(url).Fetched? ==>
      DraftConstruction(DraftJohnHopkins, url, net) == Ok(None)
      && DataSources.Construction(DataSources.JohnHopkins, url, net, toDate).Ok?
      && DataSources.Construction(DataSources.JohnHopkins, url, net, toDate).value.Some?
    ensures net(url).HttpFailure? ==>
      DraftConstruction(DraftJohnHopkins, url, net) == Err(UnboundLocal)
      && DataSources.Construction(DataSources.JohnHopkins, url, net, toDate) == Ok(None)
    ensures net(url).ReadFailure? ==>
      DraftConstruction(DraftJohnHopkins, url, net) == Err(OtherReadError)
      && DataSources.Construction(DataSources.JohnHopkins, url, net, toDate) == Err(OtherReadError)
  {
    if net(url).Fetched? {
      DataSources.ConstructionKeepsRows(DataSources.JohnHopkins, url, net, toDate);
    } else if net(url).HttpFailure? {
      DataSources.ConstructionAfterHttpError(DataSources.JohnHopkins, url, net, toDate);
    } else {
      DataSources.ConstructionAfterReadFailure(DataSources.JohnHopkins, url, net, toDate);
    }
  }

  /** The module-level lines: `JohnHopkins('file://05-15-2020.csv')`. The
      object, when there is one, holds no table. */
  method DraftScript(net: Net) returns (x: Result<DraftSource>)
    ensures x.Ok? <==> net(ScriptUrl).Fetched?
    ensures net(ScriptUrl).HttpFailure? ==> x == Err(UnboundLocal)
    ensures net(ScriptUrl).ReadFailure? ==> x == Err(OtherReadError)
    ensures x.Ok? ==> x.value.url == ScriptUrl && x.value.df == None
  {
    x := NewDraft(DraftJohnHopkins, ScriptUrl, net);
  }
}
