/** Calendar arithmetic and the "YYYY-MM-DD" date keys (ISO 8601 calendar
    dates, section 4.1.2.2 of ISO 8601:2004) that the history is indexed by:
    the Gregorian month lengths used by components/CommitHeatmap.tsx, its
    `formatDate`, and the ordering of keys used when scripts/update-stats.js
    sorts the history. */
module Calendar {
  import opened Types

  // ---------------------------------------------------------------------
  // Gregorian month lengths

  /** The Gregorian leap-year rule. */
  predicate IsLeapYear(year: int)
  {
    year % 4 == 0 && (year % 100 != 0 || year % 400 == 0)
  }

  /** `new Date(year, month0 + 1, 0).getDate()`: the number of days of the
      month `month0` (0 = January) of `year`. */
  function DaysInMonth(year: int, month0: int): (n: nat)
    requires 0 <= month0 < 12
    ensures 28 <= n <= 31
    ensures n == 28 <==> month0 == 1 && !IsLeapYear(year)
    ensures n == 29 <==> month0 == 1 && IsLeapYear(year)
    ensures n == 30 <==> month0 in {3, 5, 8, 10}
  {
    if month0 == 1 then (if IsLeapYear(year) then 29 else 28)
    else if month0 in {3, 5, 8, 10} then 30
    else 31
  }

  // ---------------------------------------------------------------------
  // Decimal text

  function DigitChar(d: nat): char
    requires d < 10
  {
    "0123456789"[d]
  }

  predicate IsDigit(c: char)
  {
    '0' <= c <= '9'
  }

  function DigitValue(c: char): nat
    requires IsDigit(c)
  {
    c as int - '0' as int
  }

  /** `String(n)` for a non-negative integer: its decimal digits, no leading zeros. */
  function NatToDecimal(n: nat): (s: string)
    ensures |s| > 0
    ensures forall i :: 0 <= i < |s| ==> IsDigit(s[i])
  {
    if n < 10 then [DigitChar(n)] else NatToDecimal(n / 10) + [DigitChar(n % 10)]
  }

  /** The number a digit string denotes. */
  function DecimalValue(s: string): nat
    requires forall i :: 0 <= i < |s| ==> IsDigit(s[i])
  {
    if |s| == 0 then 0 else DecimalValue(s[..|s| - 1]) * 10 + DigitValue(s[|s| - 1])
  }

  /** Reading back a number's decimal text gives the number. */
  lemma {:induction false} DecimalRoundTrip(n: nat)
    ensures DecimalValue(NatToDecimal(n)) == n
    decreases n
  {
    var s := NatToDecimal(n);
    if n >= 10 {
      DecimalRoundTrip(n / 10);
      assert s[..|s| - 1] == NatToDecimal(n / 10);
    }
  }

  /** `padStart(2, '0')`: left-pad with '0' to two characters; longer text
      is left as it is. */
  function PadStart2(s: string): (r: string)
    ensures |s| >= 2 ==> r == s
    ensures |s| < 2 ==> |r| == 2 && r[2 - |s|..] == s && forall i :: 0 <= i < 2 - |s| ==> r[i] == '0'
  {
    if |s| >= 2 then s else if |s| == 1 then "0" + s else "00"
  }

  function Pow10(w: nat): (p: nat)
    ensures p >= 1
  {
    if w == 0 then 1 else 10 * Pow10(w - 1)
  }

  /** The `w` lowest decimal digits of x, most significant first. */
  function Digits(x: nat, w: nat): (s: string)
    ensures |s| == w
    ensures forall i :: 0 <= i < |s| ==> IsDigit(s[i])
  {
    if w == 0 then [] else Digits(x / 10, w - 1) + [DigitChar(x % 10)]
  }

  /** A number below 10^w reads back from its w digits. */
  lemma {:induction false} DigitsRoundTrip(x: nat, w: nat)
    requires x < Pow10(w)
    ensures DecimalValue(Digits(x, w)) == x
    decreases w
  {
    if w > 0 {
      var s := Digits(x, w);
      assert s[..|s| - 1] == Digits(x / 10, w - 1);
      DigitsRoundTrip(x / 10, w - 1);
    }
  }

  /** A number with exactly w digits prints as those w digits. */
  lemma {:induction false} DecimalIsDigits(n: nat, w: nat)
    requires w >= 1 && Pow10(w - 1) <= n < Pow10(w)
    ensures NatToDecimal(n) == Digits(n, w)
    decreases w
  {
    if w > 1 {
      assert Pow10(w - 1) == 10 * Pow10(w - 2);
      DecimalIsDigits(n / 10, w - 1);
    }
  }

  /** The text of a month or day below 100 after `padStart(2, '0')`. */
  lemma TwoDigits(n: nat)
    requires 1 <= n < 100
    ensures PadStart2(NatToDecimal(n)) == Digits(n, 2)
  {
    if n >= 10 {
      assert Pow10(1) == 10 && Pow10(2) == 100;
      DecimalIsDigits(n, 2);
    } else {
      assert n / 10 == 0 && n % 10 == n;
      assert Digits(0, 1) == "0";
      assert Digits(n, 2) == "0" + [DigitChar(n)];
    }
  }

  /** The text of a year from 1000 to 9999. */
  lemma FourDigits(n: nat)
    requires 1000 <= n <= 9999
    ensures NatToDecimal(n) == Digits(n, 4)
  {
    assert Pow10(3) == 1000 && Pow10(4) == 10000;
    DecimalIsDigits(n, 4);
  }

  // ---------------------------------------------------------------------
  // Date keys

  /** `formatDate(day)` for the month `month0` (0-based) of `year`:
      `${year}-${pad(month0 + 1)}-${pad(day)}`. */
  function FormatDate(year: nat, month0: nat, day: nat): string
  {
    NatToDecimal(year) + "-" + PadStart2(NatToDecimal(month0 + 1)) + "-" + PadStart2(NatToDecimal(day))
  }

  /** A calendar date with a four-digit year, in the range `formatDate` emits. */
  predicate IsCalendarDate(year: nat, month: nat, day: nat)
  {
    1000 <= year <= 9999 && 1 <= month <= 12 && 1 <= day <= 31
  }

  /** The text "YYYY-MM-DD" of a date: ten characters, digits except the two dashes. */
  predicate IsDateKey(s: string)
  {
    |s| == 10 && s[4] == '-' && s[7] == '-' &&
    forall i :: 0 <= i < 10 && i != 4 && i != 7 ==> IsDigit(s[i])
  }

  /** Reads a "YYYY-MM-DD" key back into (year, month, day); the key is
      exactly the digits of the three parts (see `KeySplit`). */
  function ParseDate(s: string): (r: Option<(nat, nat, nat)>)
    ensures r.Some? <==> IsDateKey(s)
    ensures r.Some? ==> r.value.0 < 10000 && r.value.1 < 100 && r.value.2 < 100
  {
    if IsDateKey(s) then
      KeyParts(s);
      DecimalValueBound(s[..4]);
      DecimalValueBound(s[5..7]);
      DecimalValueBound(s[8..]);
      assert Pow10(4) == 10000 && Pow10(2) == 100;
      Some((DecimalValue(s[..4]), DecimalValue(s[5..7]), DecimalValue(s[8..])))
    else None
  }

  /** The three parts of a key are digit text. */
  lemma KeyParts(s: string)
    requires IsDateKey(s)
    ensures forall i :: 0 <= i < 4 ==> IsDigit(s[..4][i])
    ensures forall i :: 0 <= i < 2 ==> IsDigit(s[5..7][i]) && IsDigit(s[8..][i])
  {
    forall i | 0 <= i < 2 ensures IsDigit(s[5..7][i]) && IsDigit(s[8..][i]) {
      assert s[5..7][i] == s[i + 5] && s[8..][i] == s[i + 8];
    }
  }

  /** Digit text of width w denotes a number below 10^w. */
  lemma {:induction false} DecimalValueBound(t: string)
    requires forall i :: 0 <= i < |t| ==> IsDigit(t[i])
    ensures DecimalValue(t) < Pow10(|t|)
    decreases |t|
  {
    if |t| > 0 {
      DecimalValueBound(t[..|t| - 1]);
    }
  }

  /** Digit text that does not start with '0' denotes at least 10^(w-1). */
  lemma {:induction false} LeadingDigit(t: string)
    requires |t| >= 1 && t[0] != '0'
    requires forall i :: 0 <= i < |t| ==> IsDigit(t[i])
    ensures DecimalValue(t) >= Pow10(|t| - 1)
    decreases |t|
  {
    if |t| > 1 {
      assert t[..|t| - 1][0] == t[0];
      LeadingDigit(t[..|t| - 1]);
    }
  }

  lemma DigitCharValue(c: char)
    requires IsDigit(c)
    ensures DigitChar(DigitValue(c)) == c
  {
  }

  /** Digit text is the w digits of the number it denotes. */
  lemma {:induction false} DigitsOfDecimal(t: string)
    requires forall i :: 0 <= i < |t| ==> IsDigit(t[i])
    ensures Digits(DecimalValue(t), |t|) == t
    decreases |t|
  {
    if |t| > 0 {
      var n := |t| - 1;
      var v := DecimalValue(t[..n]);
      DigitsOfDecimal(t[..n]);
      var x := DecimalValue(t);
      assert x == v * 10 + DigitValue(t[n]);
      assert x / 10 == v && x % 10 == DigitValue(t[n]);
      DigitCharValue(t[n]);
      assert t == t[..n] + [t[n]];
    }
  }

  lemma FormatDateShape(year: nat, month0: nat, day: nat)
    requires IsCalendarDate(year, month0 + 1, day)
    ensures FormatDate(year, month0, day) == Digits(year, 4) + "-" + Digits(month0 + 1, 2) + "-" + Digits(day, 2)
  {
    FourDigits(year);
    TwoDigits(month0 + 1);
    TwoDigits(day);
  }

  /** Four, two and two digits joined by dashes form a key that reads back
      as their values. */
  lemma ParseJoined(a: string, b: string, c: string)
    requires |a| == 4 && |b| == 2 && |c| == 2
    requires forall i :: 0 <= i < 4 ==> IsDigit(a[i])
    requires forall i :: 0 <= i < 2 ==> IsDigit(b[i]) && IsDigit(c[i])
    ensures IsDateKey(a + "-" + b + "-" + c)
    ensures ParseDate(a + "-" + b + "-" + c) == Some((DecimalValue(a), DecimalValue(b), DecimalValue(c)))
  {
    var s := a + "-" + b + "-" + c;
    forall i | 0 <= i < 10 && i != 4 && i != 7 ensures IsDigit(s[i]) {
      if i < 4 {
        assert s[i] == a[i];
      } else if i < 7 {
        assert s[i] == b[i - 5];
      } else {
        assert s[i] == c[i - 8];
      }
    }
    assert s[..4] == a && s[5..7] == b && s[8..] == c;
  }

  /** `formatDate` always produces a well-formed key, and the key reads back
      as the date it was built from (month 1-based). */
  lemma FormatDateRoundTrip(year: nat, month0: nat, day: nat)
    requires IsCalendarDate(year, month0 + 1, day)
    ensures IsDateKey(FormatDate(year, month0, day))
    ensures ParseDate(FormatDate(year, month0, day)) == Some((year, month0 + 1, day))
  {
    FormatDateShape(year, month0, day);
    ParseJoined(Digits(year, 4), Digits(month0 + 1, 2), Digits(day, 2));
    DigitsRoundTrip(year, 4);
    DigitsRoundTrip(month0 + 1, 2);
    DigitsRoundTrip(day, 2);
  }

  /** Two dates share a key only if they are the same date. */
  lemma FormatDateInjective(y1: nat, m1: nat, d1: nat, y2: nat, m2: nat, d2: nat)
    requires IsCalendarDate(y1, m1 + 1, d1) && IsCalendarDate(y2, m2 + 1, d2)
    requires FormatDate(y1, m1, d1) == FormatDate(y2, m2, d2)
    ensures y1 == y2 && m1 == m2 && d1 == d2
  {
    FormatDateRoundTrip(y1, m1, d1);
    FormatDateRoundTrip(y2, m2, d2);
  }

  /** Every key is the digits of its parsed year, month and day. */
  lemma KeySplit(s: string)
    requires IsDateKey(s)
    ensures var p := ParseDate(s).value;
      s == Digits(p.0, 4) + (DashDigits(p.1, 2) + DashDigits(p.2, 2))
  {
    KeyParts(s);
    DigitsOfDecimal(s[..4]);
    DigitsOfDecimal(s[5..7]);
    DigitsOfDecimal(s[8..]);
    assert s == s[..4] + ("-" + s[5..7] + ("-" + s[8..]));
  }

  /** The converse round trip: a key with a four-digit year and a month and
      day of at least 1 is what `formatDate` prints for the date it parses to. */
  lemma ParseDateRoundTrip(s: string)
    requires IsDateKey(s) && s[0] != '0'
    requires ParseDate(s).value.1 >= 1 && ParseDate(s).value.2 >= 1
    ensures var p := ParseDate(s).value;
      FormatDate(p.0, p.1 - 1, p.2) == s
  {
    var p := ParseDate(s).value;
    KeySplit(s);
    KeyParts(s);
    assert s[..4][0] == s[0];
    LeadingDigit(s[..4]);
    assert Pow10(3) == 1000;
    FourDigits(p.0);
    TwoDigits(p.1);
    TwoDigits(p.2);
  }

  // ---------------------------------------------------------------------
  // Ordering of keys

  /** Lexicographic (code-unit) order on text, a proper prefix coming first. */
  predicate TextLess(a: string, b: string)
  {
    if |a| == 0 then |b| > 0
    else if |b| == 0 then false
    else a[0] < b[0] || (a[0] == b[0] && TextLess(a[1..], b[1..]))
  }

  lemma {:induction false} TextLessIrreflexive(a: string)
    ensures !TextLess(a, a)
  {
    if |a| > 0 {
      TextLessIrreflexive(a[1..]);
    }
  }

  lemma {:induction false} TextLessTransitive(a: string, b: string, c: string)
    requires TextLess(a, b) && TextLess(b, c)
    ensures TextLess(a, c)
  {
    if |a| > 0 && a[0] == b[0] && b[0] == c[0] {
      TextLessTransitive(a[1..], b[1..], c[1..]);
    }
  }

  lemma {:induction false} TextLessTotal(a: string, b: string)
    requires a != b
    ensures TextLess(a, b) || TextLess(b, a)
  {
    if |a| > 0 && |b| > 0 && a[0] == b[0] {
      assert a == [a[0]] + a[1..] && b == [b[0]] + b[1..];
      TextLessTotal(a[1..], b[1..]);
    }
  }

  /** Comparing text that starts with parts of equal length compares those
      parts first and the rest only when they agree. */
  lemma {:induction false} TextLessConcat(a1: string, a2: string, b1: string, b2: string)
    requires |a1| == |b1|
    ensures TextLess(a1 + a2, b1 + b2) <==> TextLess(a1, b1) || (a1 == b1 && TextLess(a2, b2))
  {
    if |a1| == 0 {
      assert a1 + a2 == a2 && b1 + b2 == b2;
    } else {
      assert (a1 + a2)[1..] == a1[1..] + a2;
      assert (b1 + b2)[1..] == b1[1..] + b2;
      TextLessConcat(a1[1..], a2, b1[1..], b2);
      assert a1 == b1 <==> a1[0] == b1[0] && a1[1..] == b1[1..] by {
        if a1[0] == b1[0] && a1[1..] == b1[1..] {
          assert a1 == [a1[0]] + a1[1..] && b1 == [b1[0]] + b1[1..];
        }
      }
    }
  }

  /** For digit text of one width, text order is numeric order. */
  lemma {:induction false} DigitsOrder(x: nat, y: nat, w: nat)
    requires x < Pow10(w) && y < Pow10(w)
    ensures TextLess(Digits(x, w), Digits(y, w)) <==> x < y
    ensures Digits(x, w) == Digits(y, w) <==> x == y
    decreases w
  {
    if w > 0 {
      DigitsOrder(x / 10, y / 10, w - 1);
      var cx, cy := [DigitChar(x % 10)], [DigitChar(y % 10)];
      TextLessConcat(Digits(x / 10, w - 1), cx, Digits(y / 10, w - 1), cy);
      assert cx[1..] == [] && cy[1..] == [];
      assert Digits(x, w) == Digits(y, w) <==> Digits(x / 10, w - 1) == Digits(y / 10, w - 1) && cx == cy by {
        var dx, dy := Digits(x, w), Digits(y, w);
        if dx == dy {
          assert dx[..w - 1] == dy[..w - 1] && dx[w - 1] == dy[w - 1];
        }
      }
      assert "0123456789"[x % 10] == "0123456789"[y % 10] <==> x % 10 == y % 10;
      assert x == 10 * (x / 10) + x % 10 && y == 10 * (y / 10) + y % 10;
    } else {
      assert Digits(x, w) == [] == Digits(y, w);
    }
  }

  /** "-" followed by the w digits of x. */
  function DashDigits(x: nat, w: nat): string
  {
    "-" + Digits(x, w)
  }

  lemma DashDigitsOrder(x: nat, y: nat, w: nat)
    requires x < Pow10(w) && y < Pow10(w)
    ensures TextLess(DashDigits(x, w), DashDigits(y, w)) <==> x < y
    ensures DashDigits(x, w) == DashDigits(y, w) <==> x == y
  {
    DigitsOrder(x, y, w);
    TextLessConcat("-", Digits(x, w), "-", Digits(y, w));
    TextLessIrreflexive("-");
    if DashDigits(x, w) == DashDigits(y, w) {
      assert DashDigits(x, w)[1..] == DashDigits(y, w)[1..];
    }
  }

  /** The "-MM-DD" part of a key orders by month, then by day. */
  lemma MonthDayOrder(m1: nat, d1: nat, m2: nat, d2: nat)
    requires m1 < 100 && d1 < 100 && m2 < 100 && d2 < 100
    ensures TextLess(DashDigits(m1, 2) + DashDigits(d1, 2), DashDigits(m2, 2) + DashDigits(d2, 2)) <==>
      m1 < m2 || (m1 == m2 && d1 < d2)
  {
    assert Pow10(2) == 100;
    DashDigitsOrder(m1, m2, 2);
    DashDigitsOrder(d1, d2, 2);
    TextLessConcat(DashDigits(m1, 2), DashDigits(d1, 2), DashDigits(m2, 2), DashDigits(d2, 2));
  }

  lemma FormatDateSplit(year: nat, month0: nat, day: nat)
    requires IsCalendarDate(year, month0 + 1, day)
    ensures FormatDate(year, month0, day) == Digits(year, 4) + (DashDigits(month0 + 1, 2) + DashDigits(day, 2))
  {
    FormatDateShape(year, month0, day);
  }

  /** For canonical keys, text order is chronological order: the key of an
      earlier date sorts first. */
  lemma DateKeyOrder(y1: nat, m1: nat, d1: nat, y2: nat, m2: nat, d2: nat)
    requires IsCalendarDate(y1, m1 + 1, d1) && IsCalendarDate(y2, m2 + 1, d2)
    ensures TextLess(FormatDate(y1, m1, d1), FormatDate(y2, m2, d2)) <==>
      y1 < y2 || (y1 == y2 && (m1 < m2 || (m1 == m2 && d1 < d2)))
  {
    FormatDateSplit(y1, m1, d1);
    FormatDateSplit(y2, m2, d2);
    var t1 := DashDigits(m1 + 1, 2) + DashDigits(d1, 2);
    var t2 := DashDigits(m2 + 1, 2) + DashDigits(d2, 2);
    assert Pow10(4) == 10000;
    DigitsOrder(y1, y2, 4);
    MonthDayOrder(m1 + 1, d1, m2 + 1, d2);
    TextLessConcat(Digits(y1, 4), t1, Digits(y2, 4), t2);
  }

  /** For every pair of keys, text order is the order of their parsed
      (year, month, day): the comparison the history sort relies on. */
  lemma KeyOrder(a: string, b: string)
    requires IsDateKey(a) && IsDateKey(b)
    ensures var p, q := ParseDate(a).value, ParseDate(b).value;
      TextLess(a, b) <==> p.0 < q.0 || (p.0 == q.0 && (p.1 < q.1 || (p.1 == q.1 && p.2 < q.2)))
  {
    var p, q := ParseDate(a).value, ParseDate(b).value;
    KeySplit(a);
    KeySplit(b);
    var t1 := DashDigits(p.1, 2) + DashDigits(p.2, 2);
    var t2 := DashDigits(q.1, 2) + DashDigits(q.2, 2);
    assert Pow10(4) == 10000;
    DigitsOrder(p.0, q.0, 4);
    MonthDayOrder(p.1, p.2, q.1, q.2);
    TextLessConcat(Digits(p.0, 4), t1, Digits(q.0, 4), t2);
  }
}
