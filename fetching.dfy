/** Where tables come from: the outcome of `pd.read_csv` on a location, and
    the choice of the newest Johns Hopkins daily report from a directory
    listing. */
module Fetching {
  import opened Frames
  import opened Text

  /** The world `pd.read_csv` reads from: what reading each URL or path
      yields. Network, files and CSV parsing are behind it. */
  type Net = string -> Fetch

  const FileScheme := "file://"

  /** `'file://%s' % sorted(csv_files, reverse=True)[0]`: the URL of the
      lexicographically greatest path of the listing (the paths `glob`
      returned for `*.csv`); an empty listing raises IndexError. */
  function LatestReport(csvFiles: seq<string>): (r: Result<string>)
    ensures r.Err? <==> csvFiles == []
    ensures r.Err? ==> r.error == IndexError
    ensures r.Ok? ==> exists i :: 0 <= i < |csvFiles| && r.value == FileScheme + csvFiles[i]
    ensures r.Ok? ==> forall i :: 0 <= i < |csvFiles| ==> LexLe(FileScheme + csvFiles[i], r.value)
  {
    if csvFiles == [] then Err(IndexError)
    else
      var latest := Greatest(csvFiles);
      forall i | 0 <= i < |csvFiles| ensures LexLe(FileScheme + csvFiles[i], FileScheme + latest) {
        LexLePrefix(FileScheme, csvFiles[i], latest);
      }
      Ok(FileScheme + latest)
  }

  /** The choice depends only on which paths are listed, not on the order
      `glob` lists them in. */
  lemma LatestReportOrderFree(xs: seq<string>, ys: seq<string>)
    requires forall p :: p in xs <==> p in ys
    ensures LatestReport(xs) == LatestReport(ys)
  {
    if xs != [] {
      assert xs[0] in ys;
      var g := Greatest(xs);
      assert g in ys;
      forall i | 0 <= i < |ys| ensures LexLe(ys[i], g) {
        assert ys[i] in ys;
        var j :| 0 <= j < |xs| && xs[j] == ys[i];
      }
      GreatestUnique(ys, g);
    }
  }

  /** Of two listed paths the later in string order is read, whatever the
      listing order. */
  lemma LatestReportOfTwo(a: string, b: string)
    requires LexLe(a, b)
    ensures LatestReport([a, b]) == Ok(FileScheme + b)
    ensures LatestReport([b, a]) == Ok(FileScheme + b)
  {
    var xs := [a, b];
    assert xs[1..] == [b];
    assert Greatest(xs) == b;
    LatestReportOrderFree(xs, [b, a]);
  }

  /** Daily reports are named MM-DD-YYYY.csv, so the lexicographic choice is
      not the newest report once the listing spans a new year: with the last
      report of 2020 and the first of 2021, the 2020 one is read. The names
      are fixed by the requires rather than written as literals in the
      ensures, on which the verifier would evaluate the order step by step. */
  lemma LatestReportAcrossNewYear(older: string, newer: string)
    requires older == "12-31-2020.csv" && newer == "01-01-2021.csv"
    ensures LatestReport([newer, older]) == Ok("file://" + older)
  {
    assert newer[0] == '0' && older[0] == '1';
    assert LexLe(newer, older);
    LatestReportOfTwo(newer, older);
  }
}
