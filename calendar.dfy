/** Python's `datetime.strptime` for the two formats the scripts use,
    `'%Y%m%d'` and `'%Y-%m-%d'`, and `strftime('%b-%d')` in the C locale.

    `_strptime` turns a format into a regular expression with
      %Y = \d\d\d\d
      %m = 1[0-2]|0[1-9]|[1-9]
      %d = 3[01]|[12]\d|0[1-9]|[1-9]| [1-9]
    takes the FIRST match `re.match` finds (alternatives are tried in order,
    backtracking only when what follows fails), raises ValueError when there
    is no match or when text is left over after it ("unconverted data
    remains"), and then raises ValueError again when the fields do not form a
    real calendar date. Digits are ASCII digits. */
module Calendar {
  import opened Frames
  import opened Text
  import opened Sorting

  predicate IsLeapYear(y: int) {
    y % 4 == 0 && (y % 100 != 0 || y % 400 == 0)
  }

  function DaysInMonth(y: int, m: int): (n: int)
    requires 1 <= m <= 12
    ensures 28 <= n <= 31
  {
    if m == 2 then (if IsLeapYear(y) then 29 else 28)
    else if m == 4 || m == 6 || m == 9 || m == 11 then 30
    else 31
  }

  /** What `datetime.date(year, month, day)` accepts. */
  predicate ValidDate(d: Date) {
    1 <= d.year <= 9999 && 1 <= d.month <= 12 && 1 <= d.day <= DaysInMonth(d.year, d.month)
  }

  /** `l` digits start at `i`. */
  predicate DigitsAt(s: string, i: nat, l: nat) {
    i + l <= |s| && forall p :: i <= p < i + l ==> IsDigit(s[p])
  }

  /** What `%d` can match at `i`: one digit, two digits, or a blank and a
      digit. */
  predicate DayTextAt(s: string, i: nat, l: nat) {
    1 <= l <= 2 && i + l <= |s| && IsDigit(s[i + l - 1]) && (l == 2 ==> IsDigit(s[i]) || s[i] == ' ')
  }

  /** The lengths with which `%m` matches `s` at `i`, in the order the
      alternatives are tried. */
  function MonthCandidates(s: string, i: nat): (ls: seq<nat>)
    ensures MonthLengthsAt(s, i, ls)
  {
    (if i + 1 < |s| && s[i] == '1' && '0' <= s[i + 1] <= '2' then [2] else [])
    + (if i + 1 < |s| && s[i] == '0' && '1' <= s[i + 1] <= '9' then [2] else [])
    + (if i < |s| && '1' <= s[i] <= '9' then [1] else [])
  }

  /** The length of the text `%d` matches at `i`: the first alternative that
      fits. Nothing follows `%d` in either format, so the regular expression
      never comes back to try a later one. */
  function DayLength(s: string, i: nat): (r: Option<nat>)
    ensures r.Some? ==> DayTextAt(s, i, r.value)
  {
    if i + 1 < |s| && s[i] == '3' && '0' <= s[i + 1] <= '1' then Some(2)
    else if i + 1 < |s| && '1' <= s[i] <= '2' && IsDigit(s[i + 1]) then Some(2)
    else if i + 1 < |s| && s[i] == '0' && '1' <= s[i + 1] <= '9' then Some(2)
    else if i < |s| && '1' <= s[i] <= '9' then Some(1)
    else if i + 1 < |s| && s[i] == ' ' && '1' <= s[i + 1] <= '9' then Some(2)
    else None
  }

  /** Each length in `ls` is one or two, with that many digits at `i`. */
  predicate MonthLengthsAt(s: string, i: nat, ls: seq<nat>) {
    forall k :: 0 <= k < |ls| ==> 1 <= ls[k] <= 2 && DigitsAt(s, i, ls[k])
  }

  /** How `<sep>%d` then matches after a month text of length `ml`: the
      length of the day text the first alternative that fits takes. */
  function DayAfter(s: string, sep: string, ml: nat): (r: Option<nat>)
    ensures r.Some? ==> DayTextAt(s, 4 + 2 * |sep| + ml, r.value)
  {
    var mEnd := 4 + |sep| + ml;
    var dStart := mEnd + |sep|;
    if dStart <= |s| && s[mEnd..dStart] == sep then DayLength(s, dStart) else None
  }

  /** The first way `%m<sep>%d` matches `s` after the year and `sep`, trying
      the month lengths `ms` in order: the lengths of the month and the day
      text. */
  function FirstMatch(s: string, sep: string, ms: seq<nat>): (r: Option<(nat, nat)>)
    requires MonthLengthsAt(s, 4 + |sep|, ms)
    ensures r.Some? ==> 1 <= r.value.0 <= 2 && DigitsAt(s, 4 + |sep|, r.value.0)
    ensures r.Some? ==> DayTextAt(s, 4 + 2 * |sep| + r.value.0, r.value.1)
    decreases |ms|
  {
    if ms == [] then None
    else
      MonthLengthsSplit(s, 4 + |sep|, ms);
      match DayAfter(s, sep, ms[0])
      case Some(dl) => Some((ms[0], dl))
      case None => FirstMatch(s, sep, ms[1..])
  }

  lemma MonthLengthsSplit(s: string, i: nat, ms: seq<nat>)
    requires MonthLengthsAt(s, i, ms) && ms != []
    ensures 1 <= ms[0] <= 2 && DigitsAt(s, i, ms[0])
    ensures MonthLengthsAt(s, i, ms[1..])
  {
    forall k | 0 <= k < |ms| - 1
      ensures 1 <= ms[1..][k] <= 2 && DigitsAt(s, i, ms[1..][k])
    {
      assert ms[1..][k] == ms[k + 1];
    }
  }

  /** `int()` of the text `%d` matched: a leading blank is allowed. */
  function DayValue(s: string, i: nat, l: nat): nat
    requires DayTextAt(s, i, l)
  {
    if l == 1 then DigitValue(s[i])
    else if s[i] == ' ' then DigitValue(s[i + 1])
    else 10 * DigitValue(s[i]) + DigitValue(s[i + 1])
  }

  /** The value of the `l` digits at `i`. */
  function DigitsValueAt(s: string, i: nat, l: nat): nat
    requires DigitsAt(s, i, l)
  {
    DigitsValue(s[i..i + l])
  }

  predicate YearPrefix(s: string, sep: string) {
    DigitsAt(s, 0, 4) && 4 + |sep| <= |s| && s[4..4 + |sep|] == sep
  }

  /** `datetime.strptime(s, '%Y' + sep + '%m' + sep + '%d')` for `sep` in
      {"", "-"}. */
  function Strptime(s: string, sep: string): (r: Result<Date>)
    ensures r.Err? ==> r.error == ValueError
    ensures r.Ok? ==> ValidDate(r.value)
  {
    if !YearPrefix(s, sep) then Err(ValueError)
    else
      var mStart := 4 + |sep|;
      match FirstMatch(s, sep, MonthCandidates(s, mStart))
      case None => Err(ValueError)
      case Some((ml, dl)) =>
        var dStart := mStart + ml + |sep|;
        if dStart + dl != |s| then Err(ValueError)
        else
          var date := Date(DigitsValueAt(s, 0, 4), DigitsValueAt(s, mStart, ml), DayValue(s, dStart, dl));
          if ValidDate(date) then Ok(date) else Err(ValueError)
  }

  const MonthAbbreviations: seq<string> :=
    ["Jan", "Feb", "Mar", "Apr", "May", "Jun", "Jul", "Aug", "Sep", "Oct", "Nov", "Dec"]

  /** `date.strftime('%b-%d')` in the C locale: month abbreviation, a hyphen
      and the zero-padded day. The year is not part of the label. */
  function MonthDayLabel(d: Date): (tag: string)
    requires ValidDate(d)
    ensures |tag| == 6 && tag[3] == '-'
    ensures tag[..3] == MonthAbbreviations[d.month - 1]
    ensures tag[4..] == PadDigits(d.day, 2)
  {
    MonthAbbreviations[d.month - 1] + "-" + PadDigits(d.day, 2)
  }

  /** Two valid dates get the same label exactly when month and day agree. */
  lemma MonthDayLabelInjective(a: Date, b: Date)
    requires ValidDate(a) && ValidDate(b)
    ensures MonthDayLabel(a) == MonthDayLabel(b) <==> a.month == b.month && a.day == b.day
  {
    if MonthDayLabel(a) == MonthDayLabel(b) {
      assert MonthAbbreviations[a.month - 1] == MonthAbbreviations[b.month - 1];
      PadDigitsValue(a.day, 2);
      PadDigitsValue(b.day, 2);
    }
  }

  lemma DigitsValueTwo(s: string, i: nat)
    requires DigitsAt(s, i, 2)
    ensures DigitsValueAt(s, i, 2) == 10 * DigitValue(s[i]) + DigitValue(s[i + 1])
  {
    var t := s[i..i + 2];
    assert t[..|t| - 1] == [s[i]] && t[|t| - 1] == s[i + 1];
    assert [s[i]][..0] == [];
    assert DigitsValue([s[i]]) == DigitValue(s[i]);
  }

  /** A month number 1..12 written as two digits matches `%m` with its first,
      two-character alternative. */
  lemma MonthMatchesTwo(s: string, i: nat)
    requires DigitsAt(s, i, 2) && 1 <= DigitsValueAt(s, i, 2) <= 12
    ensures MonthCandidates(s, i) != [] && MonthCandidates(s, i)[0] == 2
  {
    DigitsValueTwo(s, i);
  }

  /** A day number 1..31 written as two digits matches `%d` with a
      two-character alternative. */
  lemma DayMatchesTwo(s: string, i: nat)
    requires DigitsAt(s, i, 2) && 1 <= DigitsValueAt(s, i, 2) <= 31
    ensures DayLength(s, i) == Some(2)
  {
    DigitsValueTwo(s, i);
  }

  /** The fixed-width shape `YYYY<sep>MM<sep>DD`, digits in every field. */
  predicate FixedWidth(s: string, sep: string) {
    |s| == 8 + 2 * |sep| && YearPrefix(s, sep) && DigitsAt(s, 4 + |sep|, 2)
    && s[6 + |sep|..6 + 2 * |sep|] == sep && DigitsAt(s, 6 + 2 * |sep|, 2)
  }

  /** The date the fields of a fixed-width text spell. */
  function FieldsDate(s: string, sep: string): Date
    requires FixedWidth(s, sep)
  {
    Date(DigitsValueAt(s, 0, 4), DigitsValueAt(s, 4 + |sep|, 2), DigitsValueAt(s, 6 + 2 * |sep|, 2))
  }

  /** A month 1..12 and a day 1..31 in two digits each: the regular
      expression takes both two-character alternatives first. */
  lemma FixedWidthMatch(s: string, sep: string)
    requires FixedWidth(s, sep)
    requires 1 <= DigitsValueAt(s, 4 + |sep|, 2) <= 12 && 1 <= DigitsValueAt(s, 6 + 2 * |sep|, 2) <= 31
    ensures FirstMatch(s, sep, MonthCandidates(s, 4 + |sep|)) == Some((2, 2))
  {
    MonthMatchesTwo(s, 4 + |sep|);
    DayMatchesTwo(s, 6 + 2 * |sep|);
  }

  /** Any match that uses up the whole fixed-width text is the two-digit
      month followed by the two-digit day. */
  lemma FixedWidthOnlyMatch(s: string, sep: string)
    requires FixedWidth(s, sep)
    ensures Strptime(s, sep).Ok? ==> Strptime(s, sep).value == FieldsDate(s, sep)
  {
    var m := FirstMatch(s, sep, MonthCandidates(s, 4 + |sep|));
    if m.Some? && 4 + |sep| + m.value.0 + |sep| + m.value.1 == |s| {
      assert m.value == (2, 2);
      DigitsValueTwo(s, 6 + 2 * |sep|);
    }
  }

  /** A fixed-width text whose fields spell a real date parses as it. */
  lemma FixedWidthParses(s: string, sep: string)
    requires FixedWidth(s, sep) && ValidDate(FieldsDate(s, sep))
    ensures Strptime(s, sep) == Ok(FieldsDate(s, sep))
  {
    var dStart := 6 + 2 * |sep|;
    FixedWidthMatch(s, sep);
    DigitsValueTwo(s, dStart);
    assert DayValue(s, dStart, 2) == DigitsValueAt(s, dStart, 2);
  }

  /** `'%Y<sep>%m<sep>%d'` on a fixed-width text: the date its fields spell
      when it is a real date, ValueError otherwise. */
  lemma StrptimeFixedWidth(s: string, sep: string)
    requires FixedWidth(s, sep)
    ensures Strptime(s, sep) == if ValidDate(FieldsDate(s, sep)) then Ok(FieldsDate(s, sep)) else Err(ValueError)
  {
    if ValidDate(FieldsDate(s, sep)) {
      FixedWidthParses(s, sep);
    } else {
      FixedWidthOnlyMatch(s, sep);
    }
  }

  /** Eight digits have the fixed-width shape without separators. */
  lemma EightDigitsShape(s: string)
    requires |s| == 8 && DigitsAt(s, 0, 8)
    ensures FixedWidth(s, "")
    ensures FieldsDate(s, "") == Date(DigitsValueAt(s, 0, 4), DigitsValueAt(s, 4, 2), DigitsValueAt(s, 6, 2))
  {
    assert s[4..4] == "" && s[6..6] == "";
  }

  /** Parsing `'%Y%m%d'` on eight digits: the date the digits spell when it is
      a real date, ValueError otherwise. */
  lemma StrptimeEightDigits(s: string)
    requires |s| == 8 && DigitsAt(s, 0, 8)
    ensures var d := Date(DigitsValueAt(s, 0, 4), DigitsValueAt(s, 4, 2), DigitsValueAt(s, 6, 2));
            Strptime(s, "") == if ValidDate(d) then Ok(d) else Err(ValueError)
  {
    EightDigitsShape(s);
    StrptimeFixedWidth(s, "");
  }

  /** Digits and hyphens in ISO positions have the fixed-width shape. */
  lemma IsoShape(s: string)
    requires |s| == 10 && DigitsAt(s, 0, 4) && s[4] == '-' && DigitsAt(s, 5, 2) && s[7] == '-' && DigitsAt(s, 8, 2)
    ensures FixedWidth(s, "-")
    ensures FieldsDate(s, "-") == Date(DigitsValueAt(s, 0, 4), DigitsValueAt(s, 5, 2), DigitsValueAt(s, 8, 2))
  {
    assert s[4..5] == "-" && s[7..8] == "-";
  }

  /** Parsing `'%Y-%m-%d'` on digits and hyphens in ISO positions: the date the
      fields spell when it is a real date, ValueError otherwise. */
  lemma StrptimeIsoShape(s: string)
    requires |s| == 10 && DigitsAt(s, 0, 4) && s[4] == '-' && DigitsAt(s, 5, 2) && s[7] == '-' && DigitsAt(s, 8, 2)
    ensures var d := Date(DigitsValueAt(s, 0, 4), DigitsValueAt(s, 5, 2), DigitsValueAt(s, 8, 2));
            Strptime(s, "-") == if ValidDate(d) then Ok(d) else Err(ValueError)
  {
    IsoShape(s);
    StrptimeFixedWidth(s, "-");
  }

  /** The eight-digit text `YYYYMMDD` of a date. */
  function CompactText(d: Date): (s: string)
    requires ValidDate(d)
    ensures |s| == 8
  {
    PadDigits(d.year, 4) + PadDigits(d.month, 2) + PadDigits(d.day, 2)
  }

  /** The ISO text `YYYY-MM-DD` of a date. */
  function IsoText(d: Date): (s: string)
    requires ValidDate(d)
    ensures |s| == 10
  {
    PadDigits(d.year, 4) + "-" + PadDigits(d.month, 2) + "-" + PadDigits(d.day, 2)
  }

  lemma ValidDateBounds(d: Date)
    requires ValidDate(d)
    ensures d.year < Pow10(4) && d.month < Pow10(2) && d.day < Pow10(2)
  {
    assert Pow10(2) == 100 && Pow10(4) == 10000;
  }

  /** A date written `YYYY<sep>MM<sep>DD`. */
  function FieldsText(d: Date, sep: string): (s: string)
    requires ValidDate(d)
    ensures |s| == 8 + 2 * |sep|
  {
    PadDigits(d.year, 4) + sep + PadDigits(d.month, 2) + sep + PadDigits(d.day, 2)
  }

  /** A slice of digits. */
  lemma DigitsAtPiece(s: string, i: nat, x: string)
    requires i + |x| <= |s| && s[i..i + |x|] == x && AllDigits(x)
    ensures DigitsAt(s, i, |x|)
  {
    forall p | i <= p < i + |x| ensures IsDigit(s[p]) {
      assert s[p] == s[i..i + |x|][p - i];
    }
  }

  /** A slice of digits has the value of those digits. */
  lemma ValueAtPiece(s: string, i: nat, x: string)
    requires i + |x| <= |s| && s[i..i + |x|] == x && AllDigits(x)
    ensures DigitsAt(s, i, |x|) && DigitsValueAt(s, i, |x|) == DigitsValue(x)
  {
    DigitsAtPiece(s, i, x);
  }

  predicate AllDigits(x: string) {
    forall p :: 0 <= p < |x| ==> IsDigit(x[p])
  }

  /** Where the fields and separators of `y + sep + m + sep + dd` lie. */
  lemma FieldSlices(y: string, m: string, dd: string, sep: string)
    requires |y| == 4 && |m| == 2 && |dd| == 2
    ensures var s := y + sep + m + sep + dd;
      s[0..4] == y && s[4..4 + |sep|] == sep && s[4 + |sep|..6 + |sep|] == m
      && s[6 + |sep|..6 + 2 * |sep|] == sep && s[6 + 2 * |sep|..8 + 2 * |sep|] == dd
  {
  }

  /** Four, two and two digits joined by `sep` have the fixed-width shape,
      and each field reads back as its digits. */
  lemma FixedWidthOf(y: string, m: string, dd: string, sep: string)
    requires |y| == 4 && |m| == 2 && |dd| == 2 && AllDigits(y) && AllDigits(m) && AllDigits(dd)
    ensures var s := y + sep + m + sep + dd;
      FixedWidth(s, sep) && DigitsValueAt(s, 0, 4) == DigitsValue(y)
      && DigitsValueAt(s, 4 + |sep|, 2) == DigitsValue(m) && DigitsValueAt(s, 6 + 2 * |sep|, 2) == DigitsValue(dd)
  {
    var s := y + sep + m + sep + dd;
    var k := |sep|;
    FieldSlices(y, m, dd, sep);
    ValueAtPiece(s, 0, y);
    ValueAtPiece(s, 4 + k, m);
    ValueAtPiece(s, 6 + 2 * k, dd);
  }

  /** Numbers padded to four, two and two digits and joined by `sep` parse
      as the date they spell when it is a real date, else ValueError. */
  lemma StrptimeOfPadded(y: nat, m: nat, dd: nat, sep: string)
    requires y < 10000 && m < 100 && dd < 100
    ensures Strptime(PadDigits(y, 4) + sep + PadDigits(m, 2) + sep + PadDigits(dd, 2), sep)
            == if ValidDate(Date(y, m, dd)) then Ok(Date(y, m, dd)) else Err(ValueError)
  {
    assert Pow10(2) == 100 && Pow10(4) == 10000;
    FixedWidthOf(PadDigits(y, 4), PadDigits(m, 2), PadDigits(dd, 2), sep);
    PadDigitsValue(y, 4);
    PadDigitsValue(m, 2);
    PadDigitsValue(dd, 2);
    StrptimeFixedWidth(PadDigits(y, 4) + sep + PadDigits(m, 2) + sep + PadDigits(dd, 2), sep);
  }

  /** Parsing reads back every valid date written with the same separator. */
  lemma FieldsRoundTrip(d: Date, sep: string)
    requires ValidDate(d)
    ensures Strptime(FieldsText(d, sep), sep) == Ok(d)
  {
    StrptimeOfPadded(d.year, d.month, d.day, sep);
  }

  /** `'%Y%m%d'` reads back every valid date written as YYYYMMDD. */
  lemma CompactRoundTrip(d: Date)
    requires ValidDate(d)
    ensures Strptime(CompactText(d), "") == Ok(d)
  {
    assert CompactText(d) == FieldsText(d, "");
    FieldsRoundTrip(d, "");
  }

  /** `'%Y-%m-%d'` reads back every valid date written as YYYY-MM-DD. */
  lemma IsoRoundTrip(d: Date)
    requires ValidDate(d)
    ensures Strptime(IsoText(d), "-") == Ok(d)
  {
    assert IsoText(d) == FieldsText(d, "-");
    FieldsRoundTrip(d, "-");
  }

  /** Sorting ISO date strings as strings sorts them chronologically. */
  lemma IsoTextChronological(a: Date, b: Date)
    requires ValidDate(a) && ValidDate(b)
    ensures LexLe(IsoText(a), IsoText(b)) <==> DateLe(a, b)
  {
    ValidDateBounds(a);
    ValidDateBounds(b);
    var ya, yb := PadDigits(a.year, 4), PadDigits(b.year, 4);
    var ma, mb := PadDigits(a.month, 2), PadDigits(b.month, 2);
    var da, db := PadDigits(a.day, 2), PadDigits(b.day, 2);
    assert IsoText(a) == ya + ("-" + (ma + ("-" + da)));
    assert IsoText(b) == yb + ("-" + (mb + ("-" + db)));
    LexLeConcat(ya, "-" + (ma + ("-" + da)), yb, "-" + (mb + ("-" + db)));
    PadDigitsOrder(a.year, b.year, 4);
    PadDigitsInjective(a.year, b.year, 4);
    LexLePrefix("-", ma + ("-" + da), mb + ("-" + db));
    LexLeConcat(ma, "-" + da, mb, "-" + db);
    PadDigitsOrder(a.month, b.month, 2);
    PadDigitsInjective(a.month, b.month, 2);
    LexLePrefix("-", da, db);
    PadDigitsOrder(a.day, b.day, 2);
  }

  /** The integer YYYYMMDD of a date. */
  function DateNumber(d: Date): int {
    d.year * 10000 + d.month * 100 + d.day
  }

  /** Sorting YYYYMMDD integers numerically sorts them chronologically. */
  lemma DateNumberChronological(a: Date, b: Date)
    requires ValidDate(a) && ValidDate(b)
    ensures DateNumber(a) <= DateNumber(b) <==> DateLe(a, b)
  {
    var ra, rb := a.month * 100 + a.day, b.month * 100 + b.day;
    assert 101 <= ra <= 1231 && 101 <= rb <= 1231;
    if a.year < b.year {
      assert b.year * 10000 - a.year * 10000 == (b.year - a.year) * 10000 >= 10000;
    } else if a.year > b.year {
      assert a.year * 10000 - b.year * 10000 == (a.year - b.year) * 10000 >= 10000;
    } else if a.month < b.month {
      assert b.month * 100 - a.month * 100 == (b.month - a.month) * 100 >= 100;
    } else if a.month > b.month {
      assert a.month * 100 - b.month * 100 == (a.month - b.month) * 100 >= 100;
    }
  }

  /** `str(v)` of a cell: the decimal text of an integer, a string as it is,
      a time stamp as `YYYY-MM-DD 00:00:00` (stamps here have day
      resolution; one outside the calendar prints as pandas' `NaT`). */
  function CellText(v: Value): (s: string)
    ensures v.Str? ==> s == v.s
    ensures v.Int? ==> |s| > 0
  {
    match v
    case Int(n) => IntText(n)
    case Str(x) => x
    case Stamp(d) => if ValidDate(d) then IsoText(d) + " 00:00:00" else "NaT"
  }

  /** From year 1000 on, `str()` of a date's YYYYMMDD integer is its
      eight-digit text. */
  lemma CellTextOfDateNumber(d: Date)
    requires ValidDate(d) && d.year >= 1000
    ensures CellText(Int(DateNumber(d))) == CompactText(d)
  {
    DateNumberGroups(d);
    NatTextIsPadded(DateNumber(d), 8);
    PadEightSplit(DateNumber(d), d.year, d.month * 100 + d.day, d.month, d.day);
  }

  lemma DateNumberGroups(d: Date)
    requires ValidDate(d) && d.year >= 1000
    ensures Pow10(7) <= DateNumber(d) < Pow10(8)
    ensures DateNumber(d) == d.year * Pow10(4) + (d.month * 100 + d.day)
    ensures d.month * 100 + d.day == d.month * Pow10(2) + d.day
    ensures d.month * 100 + d.day < Pow10(4) && d.day < Pow10(2)
  {
    assert Pow10(2) == 100 && Pow10(4) == 10000;
    assert Pow10(7) == 10000000 && Pow10(8) == 100000000;
  }

  /** `str()` of an eight-digit integer, cut into its YYYY, MM and DD parts. */
  lemma EightDigitText(n: nat)
    requires Pow10(7) <= n < Pow10(8)
    ensures CellText(Int(n)) == PadDigits(n / 10000, 4) + PadDigits(n / 100 % 100, 2) + PadDigits(n % 100, 2)
  {
    DigitGroups(n, n / 10000, n % 10000, n % 10000 / 100, n % 10000 % 100);
    NatTextIsPadded(n, 8);
    PadEightSplit(n, n / 10000, n % 10000, n % 10000 / 100, n % 10000 % 100);
  }

  lemma DigitGroups(n: nat, y: nat, rest: nat, m: nat, dd: nat)
    requires y == n / 10000 && rest == n % 10000 && m == rest / 100 && dd == rest % 100
    ensures n == y * Pow10(4) + rest && rest == m * Pow10(2) + dd
    ensures rest < Pow10(4) && dd < Pow10(2)
    ensures n / 100 % 100 == m && n % 100 == dd
  {
    assert Pow10(2) == 100 && Pow10(4) == 10000;
    assert n == y * 10000 + rest;
    assert rest == m * 100 + dd;
    assert n == (y * 100 + m) * 100 + dd;
    assert n / 100 == y * 100 + m;
  }

  /** Eight padded digits are four for the high part, then two and two for
      the parts of the rest. */
  lemma PadEightSplit(n: nat, y: nat, rest: nat, m: nat, dd: nat)
    requires n == y * Pow10(4) + rest && rest == m * Pow10(2) + dd
    requires rest < Pow10(4) && dd < Pow10(2)
    ensures PadDigits(n, 8) == PadDigits(y, 4) + PadDigits(m, 2) + PadDigits(dd, 2)
  {
    PadDigitsSplit(y, rest, 4, 4);
    PadDigitsSplit(m, dd, 2, 2);
  }

  /** `strptime(str(n), '%Y%m%d')` on an eight-digit integer: the date its
      digit groups spell when that is a real date, ValueError otherwise. */
  lemma StrptimeOfEightDigitInt(n: nat)
    requires Pow10(7) <= n < Pow10(8)
    ensures var d := Date(n / 10000, n / 100 % 100, n % 100);
            Strptime(CellText(Int(n)), "") == if ValidDate(d) then Ok(d) else Err(ValueError)
  {
    var y, m, dd := n / 10000, n / 100 % 100, n % 100;
    EightDigitText(n);
    assert Pow10(8) == 100000000;
    assert CellText(Int(n)) == PadDigits(y, 4) + "" + PadDigits(m, 2) + "" + PadDigits(dd, 2);
    StrptimeOfPadded(y, m, dd, "");
  }
}
