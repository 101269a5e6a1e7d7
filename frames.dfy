/** The abstract data frame shared by every loader: a table is a sequence of
    rows, a row maps column names to cell values. Library calls the scripts
    make on frames (boolean-mask selection, `unique()`, column sums, column
    assignment) are modelled here as functions on that value. */
module Frames {

  /** A calendar day; what `pd.to_datetime` and `strptime` produce. */
  datatype Date = Date(year: int, month: int, day: int)

  /** A cell: the CSV reader yields strings and integers; date unification
      turns cells into time stamps. */
  datatype Value = Str(s: string) | Int(n: int) | Stamp(d: Date)

  type Row = map<string, Value>
  type Table = seq<Row>

  /** The Python exceptions the modelled code can raise, and the read
      failures of `pd.read_csv`. */
  datatype Error =
    | HttpError        // urllib.error.HTTPError
    | OtherReadError   // any other failure of pd.read_csv (missing file, URLError, parse error)
    | IndexError       // indexing an empty list
    | ValueError       // strptime on text that is not a date in the format
    | TypeError        // comparing or parsing values of the wrong kind
    | KeyError         // selecting a column the frame does not have
    | AttributeError   // reading an attribute that was never assigned
    | UnboundLocal     // UnboundLocalError: returning a local no branch bound

  datatype Result<+T> = Ok(value: T) | Err(error: Error) {
    predicate IsFailure() { Err? }

    function PropagateFailure<U>(): Result<U>
      requires Err?
    {
      Err(error)
    }

    function Extract(): T
      requires Ok?
    {
      value
    }
  }

  datatype Option<+T> = None | Some(value: T)

  /** What one `pd.read_csv` call yields: the parsed table, an HTTP error, or
      any other failure. */
  datatype Fetch = Fetched(table: Table) | HttpFailure | ReadFailure

  /** `pd.read_csv` outside any `try`: every failure propagates. */
  function ReadCsv(f: Fetch): (r: Result<Table>)
    ensures r.Ok? <==> f.Fetched?
    ensures r.Ok? ==> r.value == f.table
    ensures f.HttpFailure? ==> r == Err(HttpError)
    ensures f.ReadFailure? ==> r == Err(OtherReadError)
  {
    match f
    case Fetched(t) => Ok(t)
    case HttpFailure => Err(HttpError)
    case ReadFailure => Err(OtherReadError)
  }

  /** A column exists when every row carries it (the header of an empty
      table is not modelled). */
  predicate HasColumn(t: Table, col: string) {
    forall i :: 0 <= i < |t| ==> col in t[i]
  }

  predicate Matches(row: Row, col: string, v: Value) {
    col in row && row[col] == v
  }

  /** `a` is a subsequence of `b`: its elements occur in `b` in the same order
      (decided greedily, which is exact for subsequences). */
  predicate IsSubsequence<T(==)>(a: seq<T>, b: seq<T>)
    decreases |b|
  {
    if a == [] then true
    else if b == [] then false
    else if a[0] == b[0] then IsSubsequence(a[1..], b[1..])
    else IsSubsequence(a, b[1..])
  }

  /** The rows of `t` whose `col` equals `v`, in their original order: the
      value of `df[df[col] == v]` once the column is known to exist. */
  function Where(t: Table, col: string, v: Value): Table
  {
    if t == [] then []
    else (if Matches(t[0], col, v) then [t[0]] else []) + Where(t[1..], col, v)
  }

  lemma WhereCons(x: Row, t: Table, col: string, v: Value)
    ensures Where([x] + t, col, v) == (if Matches(x, col, v) then [x] else []) + Where(t, col, v)
  {
    assert ([x] + t)[1..] == t;
  }

  /** Selection keeps the original order: the result is a subsequence. */
  lemma {:induction false} WhereOrdered(t: Table, col: string, v: Value)
    ensures IsSubsequence(Where(t, col, v), t)
    decreases |t|
  {
    if t != [] {
      WhereOrdered(t[1..], col, v);
      WhereOnlyMatches(t[1..], col, v);
      var rest := Where(t[1..], col, v);
      if Matches(t[0], col, v) {
        assert Where(t, col, v) == [t[0]] + rest;
        assert ([t[0]] + rest)[1..] == rest;
      } else {
        assert Where(t, col, v) == rest;
        assert rest != [] ==> Matches(rest[0], col, v);
      }
    }
  }

  /** Every selected row matches. */
  lemma {:induction false} WhereOnlyMatches(t: Table, col: string, v: Value)
    ensures forall i :: 0 <= i < |Where(t, col, v)| ==> Matches(Where(t, col, v)[i], col, v)
    decreases |t|
  {
    if t != [] {
      WhereOnlyMatches(t[1..], col, v);
    }
  }

  /** Every matching row is selected, as often as it occurs, and no other. */
  lemma {:induction false} WhereCounts(t: Table, col: string, v: Value)
    ensures forall x :: multiset(Where(t, col, v))[x] == if Matches(x, col, v) then multiset(t)[x] else 0
    decreases |t|
  {
    if t != [] {
      WhereCounts(t[1..], col, v);
      assert t == [t[0]] + t[1..];
      assert multiset(t) == multiset{t[0]} + multiset(t[1..]);
    }
  }

  /** `df[df[col] == v]`: a missing column raises KeyError; no match is an
      empty table, not an error. */
  function Mask(t: Table, col: string, v: Value): (r: Result<Table>)
    ensures r.Err? <==> !HasColumn(t, col)
    ensures r.Err? ==> r.error == KeyError
    ensures r.Ok? ==> r.value == Where(t, col, v)
  {
    if HasColumn(t, col) then Ok(Where(t, col, v)) else Err(KeyError)
  }

  /** `r` holds exactly the rows of `t` whose `col` equals `v`: in their
      original order, each as often as in `t`, and nothing else. */
  ghost predicate SelectsExactly(r: Table, t: Table, col: string, v: Value) {
    IsSubsequence(r, t)
    && (forall i :: 0 <= i < |r| ==> Matches(r[i], col, v))
    && (forall x :: multiset(r)[x] == if Matches(x, col, v) then multiset(t)[x] else 0)
  }

  /** What boolean-mask selection returns, as a property of its result. */
  lemma MaskExact(t: Table, col: string, v: Value)
    ensures Mask(t, col, v).Ok? ==> SelectsExactly(Mask(t, col, v).value, t, col, v)
  {
    WhereOrdered(t, col, v);
    WhereOnlyMatches(t, col, v);
    WhereCounts(t, col, v);
  }

  /** Selection finds nothing exactly when no row matches. */
  lemma WhereEmptyIff(t: Table, col: string, v: Value)
    ensures Where(t, col, v) == [] <==> forall i :: 0 <= i < |t| ==> !Matches(t[i], col, v)
  {
    if forall i :: 0 <= i < |t| ==> !Matches(t[i], col, v) {
      WhereNoMatch(t, col, v);
    } else {
      var i :| 0 <= i < |t| && Matches(t[i], col, v);
      WhereCounts(t, col, v);
      assert t[i] in multiset(t);
      assert t[i] in multiset(Where(t, col, v));
    }
  }

  lemma {:induction false} WhereAppend(a: Table, b: Table, col: string, v: Value)
    ensures Where(a + b, col, v) == Where(a, col, v) + Where(b, col, v)
    decreases |a|
  {
    if a == [] {
      assert a + b == b;
    } else {
      assert a + b == [a[0]] + (a[1..] + b);
      WhereCons(a[0], a[1..] + b, col, v);
      WhereCons(a[0], a[1..], col, v);
      assert a == [a[0]] + a[1..];
      WhereAppend(a[1..], b, col, v);
    }
  }

  /** Selecting twice with the same key selects nothing more. */
  lemma {:induction false} WhereIdempotent(t: Table, col: string, v: Value)
    ensures Where(Where(t, col, v), col, v) == Where(t, col, v)
    decreases |t|
  {
    if t != [] {
      WhereIdempotent(t[1..], col, v);
      var rest := Where(t[1..], col, v);
      if Matches(t[0], col, v) {
        assert Where(t, col, v) == [t[0]] + rest;
        WhereCons(t[0], rest, col, v);
      } else {
        assert Where(t, col, v) == rest;
      }
    }
  }

  /** When no row matches, selection gives the empty table. */
  lemma {:induction false} WhereNoMatch(t: Table, col: string, v: Value)
    requires forall i :: 0 <= i < |t| ==> !Matches(t[i], col, v)
    ensures Where(t, col, v) == []
    decreases |t|
  {
    if t != [] {
      assert !Matches(t[0], col, v);
      WhereNoMatch(t[1..], col, v);
    }
  }

  /** The cells of one column, top to bottom (`df[col]`, `df.col`). */
  function ColumnValues(t: Table, col: string): (vs: seq<Value>)
    requires HasColumn(t, col)
    ensures |vs| == |t|
    ensures forall i :: 0 <= i < |t| ==> vs[i] == t[i][col]
  {
    seq(|t|, i requires 0 <= i < |t| => t[i][col])
  }

  /** Assigning a whole column: row `i` gets `vs[i]` under `col`, every other
      cell is kept. */
  function SetColumn(t: Table, col: string, vs: seq<Value>): (r: Table)
    requires |vs| == |t|
    ensures |r| == |t| && HasColumn(r, col)
    ensures forall i :: 0 <= i < |t| ==> r[i] == t[i][col := vs[i]]
  {
    seq(|t|, i requires 0 <= i < |t| => t[i][col := vs[i]])
  }

  predicate NoDuplicates<T(==)>(s: seq<T>) {
    forall i, j :: 0 <= i < j < |s| ==> s[i] != s[j]
  }

  /** Position of the first occurrence of `x` in `s`. */
  function IndexOf<T(==)>(s: seq<T>, x: T): (k: nat)
    requires x in s
    ensures k < |s| && s[k] == x
    ensures forall j :: 0 <= j < k ==> s[j] != x
  {
    if s[0] == x then 0 else 1 + IndexOf(s[1..], x)
  }

  lemma IndexOfPrefix<T>(s: seq<T>, x: T, n: nat)
    requires n <= |s| && x in s[..n]
    ensures IndexOf(s, x) == IndexOf(s[..n], x)
  {
    var k := IndexOf(s[..n], x);
    var m := IndexOf(s, x);
    assert s[k] == x;
    assert m <= k;
    assert s[..n][m] == s[m];
  }

  /** `Series.unique()`: the distinct values in order of first appearance. */
  function Unique(s: seq<Value>): (r: seq<Value>)
    ensures NoDuplicates(r)
    ensures forall x :: x in r <==> x in s
    ensures forall i, j :: 0 <= i < j < |r| ==> IndexOf(s, r[i]) < IndexOf(s, r[j])
    decreases |s|
  {
    if s == [] then []
    else
      var n := |s| - 1;
      var init := s[..n];
      var u := Unique(init);
      assert s == init + [s[n]];
      forall x | x in u ensures IndexOf(s, x) == IndexOf(init, x) {
        IndexOfPrefix(s, x, n);
      }
      if s[n] in u then u
      else
        assert IndexOf(s, s[n]) == n;
        u + [s[n]]
  }
}
