/** Strings as Python compares and prints them: code-point lexicographic
    order, the greatest element of a list, and decimal digits. */
module Text {

  /** Python's `a <= b` on `str`: compare code points left to right; a proper
      prefix is smaller. */
  predicate LexLe(a: string, b: string)
    decreases |a|
  {
    a == [] || (b != [] && (a[0] < b[0] || (a[0] == b[0] && LexLe(a[1..], b[1..]))))
  }

  lemma {:induction false} LexLeReflexive(a: string)
    ensures LexLe(a, a)
    decreases |a|
  {
    if a != [] { LexLeReflexive(a[1..]); }
  }

  lemma {:induction false} LexLeTotal(a: string, b: string)
    ensures LexLe(a, b) || LexLe(b, a)
    decreases |a|
  {
    if a != [] && b != [] && a[0] == b[0] { LexLeTotal(a[1..], b[1..]); }
  }

  lemma {:induction false} LexLeTransitive(a: string, b: string, c: string)
    requires LexLe(a, b) && LexLe(b, c)
    ensures LexLe(a, c)
    decreases |a|
  {
    if a != [] && a[0] == b[0] && b[0] == c[0] { LexLeTransitive(a[1..], b[1..], c[1..]); }
  }

  lemma {:induction false} LexLeAntisymmetric(a: string, b: string)
    requires LexLe(a, b) && LexLe(b, a)
    ensures a == b
    decreases |a|
  {
    if a != [] {
      LexLeAntisymmetric(a[1..], b[1..]);
      assert a == [a[0]] + a[1..] && b == [b[0]] + b[1..];
    }
  }

  /** After a common prefix, the order is decided by what follows. */
  lemma {:induction false} LexLePrefix(p: string, a: string, b: string)
    ensures LexLe(p + a, p + b) <==> LexLe(a, b)
    decreases |p|
  {
    if p != [] {
      assert (p + a)[1..] == p[1..] + a && (p + b)[1..] == p[1..] + b;
      LexLePrefix(p[1..], a, b);
    } else {
      assert p + a == a && p + b == b;
    }
  }

  /** The lexicographically greatest string of a non-empty list. */
  function Greatest(xs: seq<string>): (r: string)
    requires |xs| > 0
    ensures r in xs
    ensures forall i :: 0 <= i < |xs| ==> LexLe(xs[i], r)
    decreases |xs|
  {
    if |xs| == 1 then
      LexLeReflexive(xs[0]);
      xs[0]
    else
      var m := Greatest(xs[1..]);
      LexLeTotal(xs[0], m);
      if LexLe(xs[0], m) then
        assert forall i :: 1 <= i < |xs| ==> xs[i] == xs[1..][i - 1];
        m
      else
        LexLeReflexive(xs[0]);
        forall i | 1 <= i < |xs| ensures LexLe(xs[i], xs[0]) {
          assert xs[i] == xs[1..][i - 1];
          LexLeTransitive(xs[i], m, xs[0]);
        }
        xs[0]
  }

  /** Every greatest element is the same string: the choice does not depend on
      how ties are broken. */
  lemma GreatestUnique(xs: seq<string>, g: string)
    requires g in xs && forall i :: 0 <= i < |xs| ==> LexLe(xs[i], g)
    ensures g == Greatest(xs)
  {
    var m := Greatest(xs);
    var k :| 0 <= k < |xs| && xs[k] == g;
    var j :| 0 <= j < |xs| && xs[j] == m;
    LexLeAntisymmetric(g, m);
  }

  function DigitChar(d: nat): (c: char)
    requires d < 10
    ensures '0' <= c <= '9'
  {
    ('0' as int + d) as char
  }

  predicate IsDigit(c: char) { '0' <= c <= '9' }

  function DigitValue(c: char): (d: nat)
    requires IsDigit(c)
    ensures d < 10 && DigitChar(d) == c
  {
    (c as int - '0' as int)
  }

  /** The value of a string of decimal digits. */
  function DigitsValue(s: string): nat
    requires forall i :: 0 <= i < |s| ==> IsDigit(s[i])
    decreases |s|
  {
    if s == [] then 0 else 10 * DigitsValue(s[..|s| - 1]) + DigitValue(s[|s| - 1])
  }

  function Pow10(k: nat): (p: nat)
    ensures p >= 1
  {
    if k == 0 then 1 else 10 * Pow10(k - 1)
  }

  /** `n` written in exactly `w` digits, with leading zeros (`'%0wd'`); the
      high digits are dropped when `n` needs more than `w`. */
  function PadDigits(n: nat, w: nat): (s: string)
    ensures |s| == w
    ensures forall i :: 0 <= i < |s| ==> IsDigit(s[i])
  {
    if w == 0 then [] else PadDigits(n / 10, w - 1) + [DigitChar(n % 10)]
  }

  /** `str(n)` for a natural number: no leading zeros, "0" for zero. */
  function NatText(n: nat): (s: string)
    ensures |s| > 0
    ensures forall i :: 0 <= i < |s| ==> IsDigit(s[i])
    decreases n
  {
    if n < 10 then [DigitChar(n)] else NatText(n / 10) + [DigitChar(n % 10)]
  }

  /** `str(n)` for any Python int. */
  function IntText(n: int): (s: string)
    ensures |s| > 0
  {
    if n < 0 then "-" + NatText(-n) else NatText(n)
  }

  /** Reading the digits back gives the number: `int(str(n)) == n`. */
  lemma {:induction false} NatTextValue(n: nat)
    ensures DigitsValue(NatText(n)) == n
    decreases n
  {
    var s := NatText(n);
    if n >= 10 {
      NatTextValue(n / 10);
      assert s[..|s| - 1] == NatText(n / 10);
    }
  }

  lemma {:induction false} PadDigitsValue(n: nat, w: nat)
    requires n < Pow10(w)
    ensures DigitsValue(PadDigits(n, w)) == n
    decreases w
  {
    if w > 0 {
      var s := PadDigits(n, w);
      assert s[..|s| - 1] == PadDigits(n / 10, w - 1);
      PadDigitsValue(n / 10, w - 1);
    }
  }

  /** A number of exactly `w` digits prints as its `w`-digit padding. */
  lemma {:induction false} NatTextIsPadded(n: nat, w: nat)
    requires w >= 1 && Pow10(w - 1) <= n < Pow10(w)
    ensures NatText(n) == PadDigits(n, w)
    decreases w
  {
    if w > 1 {
      NatTextIsPadded(n / 10, w - 1);
    }
  }

  /** Padding splits at a power of ten: the high part, then the low part. */
  lemma PadDigitsSplit(a: nat, b: nat, w: nat, k: nat)
    requires b < Pow10(k)
    ensures PadDigits(a * Pow10(k) + b, w + k) == PadDigits(a, w) + PadDigits(b, k)
  {
    ShiftedIsProduct(a, k);
    PadShiftedSplit(a, b, w, k);
  }

  /** `a` followed by `k` zero digits. */
  function Shifted(a: nat, k: nat): nat
  {
    if k == 0 then a else 10 * Shifted(a, k - 1)
  }

  lemma {:induction false} ShiftedIsProduct(a: nat, k: nat)
    ensures Shifted(a, k) == a * Pow10(k)
  {
    if k > 0 {
      ShiftedIsProduct(a, k - 1);
      TimesTen(a, Pow10(k - 1));
    }
  }

  lemma {:induction false} PadShiftedSplit(a: nat, b: nat, w: nat, k: nat)
    requires b < Pow10(k)
    ensures PadDigits(Shifted(a, k) + b, w + k) == PadDigits(a, w) + PadDigits(b, k)
    decreases k
  {
    if k > 0 {
      var q := Shifted(a, k - 1);
      PadShiftedSplit(a, b / 10, w, k - 1);
      PadDigitsStep(10 * q + b, q + b / 10, b % 10, w + k);
      PadDigitsStep(b, b / 10, b % 10, k);
    }
  }

  /** One digit of padding: the last digit, after the padding of the rest. */
  lemma PadDigitsStep(n: nat, m: nat, d: nat, w: nat)
    requires w > 0 && n / 10 == m && n % 10 == d
    ensures PadDigits(n, w) == PadDigits(m, w - 1) + [DigitChar(d)]
  {
  }

  lemma TimesTen(a: nat, p: nat)
    ensures a * (10 * p) == (a * p) * 10
  {
  }

  /** Between two strings whose first parts have the same length, the first
      parts decide unless they are equal. */
  lemma {:induction false} LexLeConcat(a1: string, b1: string, a2: string, b2: string)
    requires |a1| == |a2|
    ensures LexLe(a1 + b1, a2 + b2) <==> (a1 != a2 && LexLe(a1, a2)) || (a1 == a2 && LexLe(b1, b2))
    decreases |a1|
  {
    if a1 == [] {
      assert a1 + b1 == b1 && a2 + b2 == b2;
    } else {
      var x, y := a1 + b1, a2 + b2;
      assert x[0] == a1[0] && y[0] == a2[0];
      assert x[1..] == a1[1..] + b1 && y[1..] == a2[1..] + b2;
      LexLeConcat(a1[1..], b1, a2[1..], b2);
      assert a1 == [a1[0]] + a1[1..] && a2 == [a2[0]] + a2[1..];
    }
  }

  /** Padding the value of a digit string to its own width gives the string
      back: `'%0wd' % int(x) == x`. */
  lemma {:induction false} PadDigitsOfValue(x: string)
    requires forall i :: 0 <= i < |x| ==> IsDigit(x[i])
    ensures PadDigits(DigitsValue(x), |x|) == x
    decreases |x|
  {
    if x != [] {
      var init, c := x[..|x| - 1], x[|x| - 1];
      var v, d := DigitsValue(init), DigitValue(c);
      LastDigit(v, d);
      assert PadDigits(DigitsValue(x), |x|) == PadDigits(v, |init|) + [DigitChar(d)];
      PadDigitsOfValue(init);
      assert x == init + [c];
    }
  }

  /** The last decimal digit of `10 * v + d` is `d`, the rest is `v`. */
  lemma LastDigit(v: nat, d: nat)
    requires d < 10
    ensures (10 * v + d) / 10 == v && (10 * v + d) % 10 == d
  {
  }

  lemma PadDigitsInjective(x: nat, y: nat, w: nat)
    requires x < Pow10(w) && y < Pow10(w)
    ensures PadDigits(x, w) == PadDigits(y, w) <==> x == y
  {
    PadDigitsValue(x, w);
    PadDigitsValue(y, w);
  }

  /** Zero-padded numbers of one width sort as strings the way they sort as
      numbers. */
  lemma {:induction false} PadDigitsOrder(x: nat, y: nat, w: nat)
    requires x < Pow10(w) && y < Pow10(w)
    ensures LexLe(PadDigits(x, w), PadDigits(y, w)) <==> x <= y
    decreases w
  {
    if w > 0 {
      var px, py := PadDigits(x / 10, w - 1), PadDigits(y / 10, w - 1);
      var cx, cy := DigitChar(x % 10), DigitChar(y % 10);
      PadDigitsOrder(x / 10, y / 10, w - 1);
      PadDigitsInjective(x / 10, y / 10, w - 1);
      LexLeConcat(px, [cx], py, [cy]);
      assert LexLe([cx], [cy]) <==> cx <= cy;
      assert x == 10 * (x / 10) + x % 10 && y == 10 * (y / 10) + y % 10;
    }
  }
}
