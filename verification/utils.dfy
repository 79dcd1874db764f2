/** The helpers the routers call. Their source (`src/utils.ts`,
    `src/v2/utils.ts`) is not part of this model: method and date matching
    follow the rules `find` and `init` are written against, stated here as
    chosen rules, and the pathname helpers are parameters of the model. */
module Utils {
  import opened Wrappers

  /** The concrete HTTP methods, in the order the OpenAPI generator lists them. */
  const Methods: seq<string> := ["GET", "PUT", "POST", "DELETE", "OPTIONS", "HEAD", "PATCH", "TRACE", "CONNECT"]

  /** The method that matches every request method. */
  const All: string := "ALL"

  /** `isValidMethod` (modelled rule): one of the concrete methods or ALL. */
  predicate IsValidMethod(m: string) {
    m == All || m in Methods
  }

  /** `compareMethods(request, route)` (modelled rule): equal, or the route accepts ALL. */
  predicate MethodsMatch(request: string, route: string) {
    request == route || route == All
  }

  predicate IsDigit(c: char) {
    '0' <= c <= '9'
  }

  function DigitValue(c: char): (r: Option<nat>)
    ensures r.Some? <==> IsDigit(c)
    ensures r.Some? ==> r.value < 10
  {
    if IsDigit(c) then Some(c as int - '0' as int) else None
  }

  /** Every character of `s[lo..hi]` is a decimal digit. */
  predicate DigitsIn(s: string, lo: nat, hi: nat)
    requires lo <= hi <= |s|
  {
    forall k | lo <= k < hi :: IsDigit(s[k])
  }

  /** The number written by the decimal digits `s[lo..hi]`, if they all are digits. */
  function Number(s: string, lo: nat, hi: nat): (r: Option<nat>)
    requires lo <= hi <= |s|
    ensures r.Some? <==> DigitsIn(s, lo, hi)
    decreases hi - lo
  {
    if lo == hi then Some(0)
    else match (Number(s, lo, hi - 1), DigitValue(s[hi - 1]))
      case (Some(n), Some(d)) => Some(n * 10 + d)
      case _ => None
  }

  /** A `YYYY-MM-DD` text: ten characters, dashes at 4 and 7, digits elsewhere. */
  predicate DateText(s: string) {
    && |s| == 10 && s[4] == '-' && s[7] == '-'
    && DigitsIn(s, 0, 4) && DigitsIn(s, 5, 7) && DigitsIn(s, 8, 10)
  }

  /** A `YYYY-MM-DD` date text as the key `Y * 10000 + M * 100 + D`, which
      orders date texts as they are written (`DateOrder`); `None` for any
      other text. The day a `Date` of it stands for is `DayOf`. */
  function ParseDate(s: string): (r: Option<nat>)
    ensures r.Some? ==> DateText(s)
    ensures r.Some? <==>
      && DateText(s)
      && 1 <= Number(s, 5, 7).value <= 12 && 1 <= Number(s, 8, 10).value <= 31
    ensures r.Some? ==>
      r.value == Number(s, 0, 4).value * 10000 + Number(s, 5, 7).value * 100 + Number(s, 8, 10).value
  {
    if |s| != 10 || s[4] != '-' || s[7] != '-' then None
    else match (Number(s, 0, 4), Number(s, 5, 7), Number(s, 8, 10))
      case (Some(y), Some(m), Some(d)) =>
        if 1 <= m <= 12 && 1 <= d <= 31 then Some(y * 10000 + m * 100 + d) else None
      case _ => None
  }

  /** Lexicographic three-way comparison of `a[lo..hi]` with `b[lo..hi]`:
      the prefixes decide, and on equal prefixes the last characters. */
  function LexCompare(a: string, b: string, lo: nat, hi: nat): (c: int)
    requires lo <= hi <= |a| && hi <= |b|
    ensures -1 <= c <= 1
    decreases hi - lo
  {
    if lo == hi then 0
    else
      var c := LexCompare(a, b, lo, hi - 1);
      if c != 0 then c
      else if a[hi - 1] < b[hi - 1] then -1
      else if a[hi - 1] > b[hi - 1] then 1
      else 0
  }

  /** The comparison is zero exactly on equal ranges. */
  lemma {:induction false} LexCompareZero(a: string, b: string, lo: nat, hi: nat)
    requires lo <= hi <= |a| && hi <= |b|
    ensures LexCompare(a, b, lo, hi) == 0 <==> a[lo..hi] == b[lo..hi]
    decreases hi - lo
  {
    if lo < hi {
      LexCompareZero(a, b, lo, hi - 1);
      assert a[lo..hi] == a[lo..hi - 1] + [a[hi - 1]] && b[lo..hi] == b[lo..hi - 1] + [b[hi - 1]];
      assert a[lo..hi - 1] == a[lo..hi][..hi - 1 - lo] && b[lo..hi - 1] == b[lo..hi][..hi - 1 - lo];
    }
  }

  /** `a` is lexicographically at most `b`, for texts of equal length. */
  predicate LexAtMost(a: string, b: string)
    requires |a| == |b|
  {
    LexCompare(a, b, 0, |a|) <= 0
  }

  /** Comparing a range is comparing its two parts, the first deciding. */
  lemma {:induction false} LexCompareSplit(a: string, b: string, lo: nat, mid: nat, hi: nat)
    requires lo <= mid <= hi <= |a| && hi <= |b|
    ensures LexCompare(a, b, lo, hi) ==
      if LexCompare(a, b, lo, mid) != 0 then LexCompare(a, b, lo, mid) else LexCompare(a, b, mid, hi)
    decreases hi - mid
  {
    if mid < hi {
      LexCompareSplit(a, b, lo, mid, hi - 1);
    }
  }

  /** On equally long digit ranges the lexicographic order is the numeric order. */
  lemma {:induction false} LexCompareNumbers(a: string, b: string, lo: nat, hi: nat)
    requires lo <= hi <= |a| && hi <= |b|
    requires DigitsIn(a, lo, hi) && DigitsIn(b, lo, hi)
    ensures LexCompare(a, b, lo, hi) == Sign(Number(a, lo, hi).value, Number(b, lo, hi).value)
    decreases hi - lo
  {
    if lo < hi {
      LexCompareNumbers(a, b, lo, hi - 1);
      var x, y := Number(a, lo, hi - 1).value, Number(b, lo, hi - 1).value;
      var da, db := DigitValue(a[hi - 1]).value, DigitValue(b[hi - 1]).value;
      assert Number(a, lo, hi).value == x * 10 + da && Number(b, lo, hi).value == y * 10 + db;
      assert a[hi - 1] < b[hi - 1] <==> da < db;
    }
  }

  /** Day numbers order by year, then month, then day. */
  lemma DayNumberOrder(ya: nat, ma: nat, da: nat, yb: nat, mb: nat, db: nat)
    requires ma <= 12 && da <= 31 && mb <= 12 && db <= 31
    ensures ya * 10000 + ma * 100 + da <= yb * 10000 + mb * 100 + db <==>
      ya < yb || (ya == yb && (ma < mb || (ma == mb && da <= db)))
    ensures ya * 10000 + ma * 100 + da == yb * 10000 + mb * 100 + db <==>
      ya == yb && ma == mb && da == db
  {
    var ra, rb := ma * 100 + da, mb * 100 + db;
    assert ra < 10000 && rb < 10000;
    if ya < yb {
      assert ya * 10000 + 10000 <= yb * 10000;
    } else if ya > yb {
      assert yb * 10000 + 10000 <= ya * 10000;
    } else if ma < mb {
      assert ma * 100 + 100 <= mb * 100;
    } else if ma > mb {
      assert mb * 100 + 100 <= ma * 100;
    }
  }

  /** Two date texts compare by their year digits, then month digits, then day digits. */
  lemma DateTextCompare(a: string, b: string)
    requires DateText(a) && DateText(b)
    ensures LexCompare(a, b, 0, 10) ==
      var y, m, d := LexCompare(a, b, 0, 4), LexCompare(a, b, 5, 7), LexCompare(a, b, 8, 10);
      if y != 0 then y else if m != 0 then m else d
  {
    assert a[4..5] == b[4..5] && a[7..8] == b[7..8];
    LexCompareZero(a, b, 4, 5);
    LexCompareZero(a, b, 7, 8);
    LexCompareSplit(a, b, 7, 8, 10);
    LexCompareSplit(a, b, 5, 7, 10);
    LexCompareSplit(a, b, 4, 5, 10);
    LexCompareSplit(a, b, 0, 4, 10);
  }

  /** The three-way comparison of `x` with `y`. */
  function Sign(x: int, y: int): int {
    if x < y then -1 else if x > y then 1 else 0
  }

  /** Comparing three parts in turn orders by the first part, then the second, then the third. */
  lemma ThreeParts(x1: int, y1: int, x2: int, y2: int, x3: int, y3: int)
    ensures var c1, c2, c3 := Sign(x1, y1), Sign(x2, y2), Sign(x3, y3);
      var c := if c1 != 0 then c1 else if c2 != 0 then c2 else c3;
      && (c <= 0 <==> x1 < y1 || (x1 == y1 && (x2 < y2 || (x2 == y2 && x3 <= y3))))
      && (c == 0 <==> x1 == y1 && x2 == y2 && x3 == y3)
  {
  }

  /** Two date texts are lexicographically ordered by year, then month, then day. */
  lemma DateTextOrder(a: string, b: string)
    requires DateText(a) && DateText(b)
    ensures var ya, ma, da := Number(a, 0, 4).value, Number(a, 5, 7).value, Number(a, 8, 10).value;
      var yb, mb, db := Number(b, 0, 4).value, Number(b, 5, 7).value, Number(b, 8, 10).value;
      && (LexAtMost(a, b) <==> ya < yb || (ya == yb && (ma < mb || (ma == mb && da <= db))))
      && (a == b <==> ya == yb && ma == mb && da == db)
  {
    var ya, ma, da := Number(a, 0, 4).value, Number(a, 5, 7).value, Number(a, 8, 10).value;
    var yb, mb, db := Number(b, 0, 4).value, Number(b, 5, 7).value, Number(b, 8, 10).value;
    LexCompareNumbers(a, b, 0, 4);
    LexCompareNumbers(a, b, 5, 7);
    LexCompareNumbers(a, b, 8, 10);
    DateTextCompare(a, b);
    ThreeParts(ya, yb, ma, mb, da, db);
    LexCompareZero(a, b, 0, 10);
    assert a[0..10] == a && b[0..10] == b;
  }

  /** The keys of two date texts are ordered as the texts are,
      character by character; equal keys mean equal texts. */
  lemma DateOrder(a: string, b: string)
    requires ParseDate(a).Some? && ParseDate(b).Some?
    ensures |a| == |b|
    ensures ParseDate(a).value <= ParseDate(b).value <==> LexAtMost(a, b)
    ensures ParseDate(a).value == ParseDate(b).value <==> a == b
  {
    var ya, ma, da := Number(a, 0, 4).value, Number(a, 5, 7).value, Number(a, 8, 10).value;
    var yb, mb, db := Number(b, 0, 4).value, Number(b, 5, 7).value, Number(b, 8, 10).value;
    DayNumberOrder(ya, ma, da, yb, mb, db);
    DateTextOrder(a, b);
  }

  // ---------- the day a `Date` stands for ----------

  /** A leap year of the proleptic Gregorian calendar. */
  predicate IsLeapYear(y: nat) {
    y % 4 == 0 && (y % 100 != 0 || y % 400 == 0)
  }

  function MonthLength(y: nat, m: nat): (n: nat)
    requires 1 <= m <= 12
    ensures 28 <= n <= 31
  {
    if m == 2 then (if IsLeapYear(y) then 29 else 28)
    else if m == 4 || m == 6 || m == 9 || m == 11 then 30
    else 31
  }

  /** The days of the months before month `m` of year `y`. */
  function DaysBeforeMonth(y: nat, m: nat): nat
    requires 1 <= m <= 13
  {
    if m == 1 then 0 else DaysBeforeMonth(y, m - 1) + MonthLength(y, m - 1)
  }

  function YearLength(y: nat): nat {
    if IsLeapYear(y) then 366 else 365
  }

  /** The day `Date` makes of year `y`, month `m` and day `d`, as an index:
      days past the end of the month run on into the next month, and each
      year takes 366 indices, so every day of a later year comes later. A
      day of at most 31 never runs past December, so the index orders and
      equates dates as the calendar does. */
  function CivilDay(y: nat, m: nat, d: nat): nat
    requires 1 <= m <= 12
  {
    366 * y + DaysBeforeMonth(y, m) + d
  }

  /** `new Date(s)` of a date text as a day; `None` for an invalid date. */
  function DayOf(s: string): (r: Option<nat>)
    ensures r.Some? <==> ParseDate(s).Some?
  {
    if ParseDate(s).None? then None
    else Some(CivilDay(Number(s, 0, 4).value, Number(s, 5, 7).value, Number(s, 8, 10).value))
  }

  /** The months of a year add up to its length. */
  lemma MonthsFillYear(y: nat)
    ensures DaysBeforeMonth(y, 13) == YearLength(y)
  {
    assert DaysBeforeMonth(y, 1) == 0;
    assert DaysBeforeMonth(y, 2) == DaysBeforeMonth(y, 1) + MonthLength(y, 1);
    assert DaysBeforeMonth(y, 3) == DaysBeforeMonth(y, 2) + MonthLength(y, 2);
    assert DaysBeforeMonth(y, 4) == DaysBeforeMonth(y, 3) + MonthLength(y, 3);
    assert DaysBeforeMonth(y, 5) == DaysBeforeMonth(y, 4) + MonthLength(y, 4);
    assert DaysBeforeMonth(y, 6) == DaysBeforeMonth(y, 5) + MonthLength(y, 5);
    assert DaysBeforeMonth(y, 7) == DaysBeforeMonth(y, 6) + MonthLength(y, 6);
    assert DaysBeforeMonth(y, 8) == DaysBeforeMonth(y, 7) + MonthLength(y, 7);
    assert DaysBeforeMonth(y, 9) == DaysBeforeMonth(y, 8) + MonthLength(y, 8);
    assert DaysBeforeMonth(y, 10) == DaysBeforeMonth(y, 9) + MonthLength(y, 9);
    assert DaysBeforeMonth(y, 11) == DaysBeforeMonth(y, 10) + MonthLength(y, 10);
    assert DaysBeforeMonth(y, 12) == DaysBeforeMonth(y, 11) + MonthLength(y, 11);
    assert DaysBeforeMonth(y, 13) == DaysBeforeMonth(y, 12) + MonthLength(y, 12);
  }

  /** A later month starts no earlier than the end of an earlier one. */
  lemma {:induction false} MonthsOrdered(y: nat, a: nat, b: nat)
    requires 1 <= a < b <= 13
    ensures DaysBeforeMonth(y, a) + MonthLength(y, a) <= DaysBeforeMonth(y, b)
    decreases b - a
  {
    if a + 1 < b {
      MonthsOrdered(y, a + 1, b);
    }
  }

  /** A day past the end of a month is the matching day of the next month. */
  lemma RollOver(y: nat, m: nat, d: nat)
    requires 1 <= m < 12 && MonthLength(y, m) < d
    ensures CivilDay(y, m, d) == CivilDay(y, m + 1, d - MonthLength(y, m))
  {
  }

  /** On days within their months, the day order is year, then month, then day. */
  lemma CivilDayOrder(ya: nat, ma: nat, da: nat, yb: nat, mb: nat, db: nat)
    requires 1 <= ma <= 12 && 1 <= da <= MonthLength(ya, ma)
    requires 1 <= mb <= 12 && 1 <= db <= MonthLength(yb, mb)
    ensures CivilDay(ya, ma, da) <= CivilDay(yb, mb, db) <==>
      ya < yb || (ya == yb && (ma < mb || (ma == mb && da <= db)))
  {
    MonthsOrdered(ya, ma, 13);
    MonthsOrdered(yb, mb, 13);
    MonthsFillYear(ya);
    MonthsFillYear(yb);
    if ya < yb {
      assert 366 * ya + 366 <= 366 * yb;
    } else if yb < ya {
      assert 366 * yb + 366 <= 366 * ya;
    } else if ma < mb {
      MonthsOrdered(ya, ma, mb);
    } else if mb < ma {
      MonthsOrdered(ya, mb, ma);
    }
  }

  /** A date text whose day lies within its month. */
  predicate WithinMonth(s: string) {
    && ParseDate(s).Some?
    && Number(s, 8, 10).value <= MonthLength(Number(s, 0, 4).value, Number(s, 5, 7).value)
  }

  /** For dates within their months, the days are ordered as the texts are,
      character by character. */
  lemma DayOrder(a: string, b: string)
    requires WithinMonth(a) && WithinMonth(b)
    ensures DayOf(a).value <= DayOf(b).value <==> LexAtMost(a, b)
  {
    DateOrder(a, b);
    DayNumberOrder(Number(a, 0, 4).value, Number(a, 5, 7).value, Number(a, 8, 10).value,
                   Number(b, 0, 4).value, Number(b, 5, 7).value, Number(b, 8, 10).value);
    CivilDayOrder(Number(a, 0, 4).value, Number(a, 5, 7).value, Number(a, 8, 10).value,
                  Number(b, 0, 4).value, Number(b, 5, 7).value, Number(b, 8, 10).value);
  }

  /** `isValidCompatibilityDate` (modelled rule): a well-formed `YYYY-MM-DD` date. */
  predicate IsValidCompatibilityDate(s: string) {
    ParseDate(s).Some?
  }

  /** An optional date that is absent or valid. */
  predicate ValidOptionalDate(d: Option<string>) {
    d.None? || IsValidCompatibilityDate(d.value)
  }

  /** `compareCompatibilityDates(request, route)` (modelled rule): the route has no
      date, or the request has a date and the route's is not later. */
  predicate DatesMatch(request: Option<string>, route: Option<string>) {
    || route.None?
    || (&& request.Some? && route.Some?
        && DayOf(request.value).Some? && DayOf(route.value).Some?
        && DayOf(route.value).value <= DayOf(request.value).value)
  }

  /** Date matching is a total preorder on absent-or-valid dates: reflexive, transitive and total. */
  lemma DatesMatchPreorder(a: Option<string>, b: Option<string>, c: Option<string>)
    requires ValidOptionalDate(a) && ValidOptionalDate(b)
    ensures DatesMatch(a, a)
    ensures DatesMatch(a, b) || DatesMatch(b, a)
    ensures DatesMatch(a, b) && DatesMatch(b, c) ==> DatesMatch(a, c)
  {
  }

  /** The pathname helpers, whose rules the model does not fix:
      `comparePathnames(requested, pattern)`, `isValidPathname(pathname)` and
      `getPathnameParameters(requested, pattern, prefix)`. */
  datatype PathRules = PathRules(
    pathnamesMatch: (string, string) -> bool,
    isValidPathname: string -> bool,
    parameters: (string, string, Option<string>) -> map<string, string>)
}
