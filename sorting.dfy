/** `DataFrame.sort_values(by=col, ascending=True)`: a permutation of the
    rows whose `col` cells are non-decreasing. Stability is not promised by
    the library and is not modelled. */
module Sorting {
  import opened Frames
  import opened Text

  predicate DateLe(a: Date, b: Date) {
    a.year < b.year
    || (a.year == b.year && (a.month < b.month || (a.month == b.month && a.day <= b.day)))
  }

  function KindRank(v: Value): nat {
    match v
    case Int(_) => 0
    case Str(_) => 1
    case Stamp(_) => 2
  }

  /** The order used to sort one column: numbers by value, strings as Python
      compares them, time stamps chronologically. Cells of different kinds
      never meet in a sort (see `SortValues`); ranking the kinds makes the
      order total. */
  predicate ValueLe(a: Value, b: Value) {
    if KindRank(a) != KindRank(b) then KindRank(a) < KindRank(b)
    else match a
      case Int(x) => x <= b.n
      case Str(x) => LexLe(x, b.s)
      case Stamp(x) => DateLe(x, b.d)
  }

  lemma ValueLeTotal(a: Value, b: Value)
    ensures ValueLe(a, b) || ValueLe(b, a)
  {
    if a.Str? && b.Str? { LexLeTotal(a.s, b.s); }
  }

  lemma ValueLeTransitive(a: Value, b: Value, c: Value)
    requires ValueLe(a, b) && ValueLe(b, c)
    ensures ValueLe(a, c)
  {
    if a.Str? && b.Str? && c.Str? { LexLeTransitive(a.s, b.s, c.s); }
  }

  /** Rows ordered by `col`, any two of them, not just neighbours. */
  predicate SortedOn(t: Table, col: string) {
    HasColumn(t, col)
    && forall i, j :: 0 <= i < j < |t| ==> ValueLe(t[i][col], t[j][col])
  }

  /** All cells of the column are of one kind, so pandas can compare them. */
  predicate SameKind(t: Table, col: string)
    requires HasColumn(t, col)
  {
    forall i, j :: 0 <= i < |t| && 0 <= j < |t| ==> KindRank(t[i][col]) == KindRank(t[j][col])
  }

  function Insert(x: Row, t: Table, col: string): (r: Table)
    requires col in x && HasColumn(t, col)
    ensures |r| == |t| + 1 && HasColumn(r, col)
    decreases |t|
  {
    if t == [] then [x]
    else if ValueLe(x[col], t[0][col]) then [x] + t
    else [t[0]] + Insert(x, t[1..], col)
  }

  lemma {:induction false} InsertCounts(x: Row, t: Table, col: string)
    requires col in x && HasColumn(t, col)
    ensures multiset(Insert(x, t, col)) == multiset(t) + multiset{x}
    decreases |t|
  {
    if t != [] && !ValueLe(x[col], t[0][col]) {
      InsertCounts(x, t[1..], col);
      assert t == [t[0]] + t[1..];
    }
  }

  /** `v` is at most every cell of the column. */
  predicate LowerBound(v: Value, t: Table, col: string)
    requires HasColumn(t, col)
  {
    forall k :: 0 <= k < |t| ==> ValueLe(v, t[k][col])
  }

  /** A row at most every row of a sorted table can go in front of it. */
  lemma SortedCons(x: Row, t: Table, col: string)
    requires col in x && SortedOn(t, col) && LowerBound(x[col], t, col)
    ensures SortedOn([x] + t, col)
  {
    var r := [x] + t;
    forall i, j | 0 <= i < j < |r| ensures ValueLe(r[i][col], r[j][col]) {
      assert r[j] == t[j - 1];
      if i > 0 { assert r[i] == t[i - 1]; }
    }
  }

  /** Inserting a row above a bound keeps the bound. */
  lemma {:induction false} InsertLowerBound(v: Value, x: Row, t: Table, col: string)
    requires col in x && HasColumn(t, col) && ValueLe(v, x[col]) && LowerBound(v, t, col)
    ensures LowerBound(v, Insert(x, t, col), col)
    decreases |t|
  {
    if t == [] {
    } else if ValueLe(x[col], t[0][col]) {
      var r := [x] + t;
      forall k | 0 <= k < |r| ensures ValueLe(v, r[k][col]) {
        if k > 0 { assert r[k] == t[k - 1]; }
      }
    } else {
      InsertLowerBound(v, x, t[1..], col);
      var rest := Insert(x, t[1..], col);
      var r := [t[0]] + rest;
      forall k | 0 <= k < |r| ensures ValueLe(v, r[k][col]) {
        if k > 0 { assert r[k] == rest[k - 1]; }
      }
    }
  }

  lemma {:induction false} InsertSorted(x: Row, t: Table, col: string)
    requires col in x && SortedOn(t, col)
    ensures SortedOn(Insert(x, t, col), col)
    decreases |t|
  {
    if t == [] {
    } else if ValueLe(x[col], t[0][col]) {
      forall k | 0 <= k < |t| ensures ValueLe(x[col], t[k][col]) {
        if k > 0 { ValueLeTransitive(x[col], t[0][col], t[k][col]); }
      }
      SortedCons(x, t, col);
    } else {
      var tail := t[1..];
      assert SortedOn(tail, col) by {
        forall i, j | 0 <= i < j < |tail| ensures ValueLe(tail[i][col], tail[j][col]) {
          assert tail[i] == t[i + 1] && tail[j] == t[j + 1];
        }
      }
      assert LowerBound(t[0][col], tail, col) by {
        forall k | 0 <= k < |tail| ensures ValueLe(t[0][col], tail[k][col]) {
          assert tail[k] == t[k + 1];
        }
      }
      InsertSorted(x, tail, col);
      ValueLeTotal(x[col], t[0][col]);
      InsertLowerBound(t[0][col], x, tail, col);
      SortedCons(t[0], Insert(x, tail, col), col);
    }
  }

  /** Insertion sort on `col`: a non-decreasing permutation of `t`. */
  function SortRows(t: Table, col: string): (r: Table)
    requires HasColumn(t, col)
    ensures SortedOn(r, col)
    ensures multiset(r) == multiset(t)
    decreases |t|
  {
    if t == [] then []
    else
      assert t == [t[0]] + t[1..];
      var rest := SortRows(t[1..], col);
      InsertCounts(t[0], rest, col);
      InsertSorted(t[0], rest, col);
      Insert(t[0], rest, col)
  }

  lemma SortRowsLength(t: Table, col: string)
    requires HasColumn(t, col)
    ensures |SortRows(t, col)| == |t|
  {
    assert |multiset(SortRows(t, col))| == |multiset(t)|;
  }

  /** `sort_values(by=col)`: KeyError when the column is missing, TypeError
      when its cells cannot be compared with each other. */
  function SortValues(t: Table, col: string): (r: Result<Table>)
    ensures r.Ok? <==> HasColumn(t, col) && SameKind(t, col)
    ensures !HasColumn(t, col) ==> r == Err(KeyError)
    ensures HasColumn(t, col) && !SameKind(t, col) ==> r == Err(TypeError)
    ensures r.Ok? ==> SortedOn(r.value, col) && multiset(r.value) == multiset(t) && |r.value| == |t|
  {
    if !HasColumn(t, col) then Err(KeyError)
    else if !SameKind(t, col) then Err(TypeError)
    else
      SortRowsLength(t, col);
      Ok(SortRows(t, col))
  }
}
