/** tm_diff of system/time.cpp: the distance of two broken-down times in seconds. Integers are
    unbounded here. */
module TmDiff {

  datatype Tm = Tm(year: int, yday: int, hour: int, min: int, sec: int)

  /** C division by a positive constant truncates toward zero. */
  function Quot(x: int, d: int): int
    requires d > 0
  {
    if x >= 0 then x / d else 0 - (0 - x) / d
  }

  function Leaps(y: int): int { Quot(y, 4) - Quot(y, 100) + Quot(y, 400) }

  /** tm_diff, term by term; years count from 1900. */
  function Diff(a: Tm, b: Tm): int {
    var ya, yb := a.year + 1899, b.year + 1899;
    var leapDays := (Quot(ya, 4) - Quot(yb, 4)) - (Quot(ya, 100) - Quot(yb, 100))
                    + (Quot(ya, 400) - Quot(yb, 400));
    var days := 365 * (ya - yb) + leapDays + (a.yday - b.yday);
    var hours := 24 * days + (a.hour - b.hour);
    var minutes := 60 * hours + (a.min - b.min);
    60 * minutes + (a.sec - b.sec)
  }

  // ---- the calendar ----

  predicate IsLeap(y: int) { y % 4 == 0 && (y % 100 != 0 || y % 400 == 0) }

  function YearLength(y: int): int { if IsLeap(y) then 366 else 365 }

  /** Days from January 1 of year 1 to January 1 of year y, year by year. */
  function YearStart(y: int): int
    decreases if y >= 1 then y - 1 else 1 - y
  {
    if y == 1 then 0
    else if y > 1 then YearStart(y - 1) + YearLength(y - 1)
    else YearStart(y + 1) - YearLength(y)
  }

  function Seconds(t: Tm): int {
    86400 * (YearStart(t.year + 1900) + t.yday) + 3600 * t.hour + 60 * t.min + t.sec
  }

  /** Leap years up to and including y, counted with division that rounds down. */
  function LeapsBefore(y: int): int { y / 4 - y / 100 + y / 400 }

  lemma QuotientIs(x: int, d: int, q: int, r: int)
    requires d > 0 && x == q * d + r && 0 <= r < d
    ensures x / d == q && x % d == r
  {
    var k := x / d - q;
    assert k * d == r - x % d;
    assert k == 0;
  }

  lemma FloorStep(y: int, d: int)
    requires d > 1
    ensures y / d == (y - 1) / d + if y % d == 0 then 1 else 0
  {
    if y % d == 0 {
      QuotientIs(y - 1, d, y / d - 1, d - 1);
    } else {
      QuotientIs(y - 1, d, y / d, y % d - 1);
    }
  }

  lemma Nested(y: int)
    ensures y % 400 == 0 ==> y % 100 == 0
    ensures y % 100 == 0 ==> y % 4 == 0
  {
    if y % 400 == 0 { QuotientIs(y, 100, y / 400 * 4, 0); }
    if y % 100 == 0 { QuotientIs(y, 4, y / 100 * 25, 0); }
  }

  lemma LeapStep(y: int)
    ensures LeapsBefore(y) == LeapsBefore(y - 1) + if IsLeap(y) then 1 else 0
  {
    FloorStep(y, 4);
    FloorStep(y, 100);
    FloorStep(y, 400);
    Nested(y);
  }

  lemma {:induction false} YearStartClosed(y: int)
    ensures YearStart(y) == 365 * (y - 1) + LeapsBefore(y - 1)
    decreases if y >= 1 then y - 1 else 1 - y
  {
    if y > 1 {
      YearStartClosed(y - 1);
      LeapStep(y - 1);
    } else if y < 1 {
      YearStartClosed(y + 1);
      LeapStep(y);
    }
  }

  lemma QuotFloor(y: int, d: int)
    requires d > 0
    ensures Quot(y, d) == y / d + if y < 0 && y % d != 0 then 1 else 0
  {
    if y < 0 {
      var q, r := (0 - y) / d, (0 - y) % d;
      if r == 0 {
        QuotientIs(y, d, 0 - q, 0);
      } else {
        QuotientIs(y, d, 0 - q - 1, d - r);
      }
    }
  }

  /** Truncation counts one leap day too many for the years before year 1 that are no leap
      years themselves. */
  lemma TruncationError(y: int)
    ensures Leaps(y) == LeapsBefore(y) + if y < 0 && !IsLeap(y) then 1 else 0
  {
    QuotFloor(y, 4);
    QuotFloor(y, 100);
    QuotFloor(y, 400);
    Nested(y);
  }

  /** tm_diff is the calendar distance exactly when both times, or neither, fall in a year whose
      predecessor is negative and no leap year; in particular for all years from year 1 on. */
  lemma DiffIsDistance(a: Tm, b: Tm)
    ensures var ya, yb := a.year + 1899, b.year + 1899;
            Diff(a, b) == Seconds(a) - Seconds(b)
            <==> (ya < 0 && !IsLeap(ya)) == (yb < 0 && !IsLeap(yb))
  {
    YearStartClosed(a.year + 1900);
    YearStartClosed(b.year + 1900);
    TruncationError(a.year + 1899);
    TruncationError(b.year + 1899);
  }
}
