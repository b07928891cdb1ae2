/**
 * The calendar and text helpers of the expense manager
 * (app/utils/helpers.py). The dates these functions receive are passed in
 * explicitly: the `date.today()` defaults of the Python code are evaluated once
 * at import time and are not part of this model.
 */
module Helpers {
  import opened Wrappers
  import opened Text
  import opened Calendar

  // ---------------------------------------------------------------- months

  /** `get_first_day_of_month`: `d.replace(day=1)`. */
  function FirstDayOfMonth(d: Date): (r: Date)
    requires d.Valid()
    ensures r.Valid() && r.year == d.year && r.month == d.month && r.day == 1
    ensures r.AtMost(d)
  {
    d.(day := 1)
  }

  /** `get_last_day_of_month`: `d.replace(day=monthrange(d.year, d.month)[1])`. */
  function LastDayOfMonth(d: Date): (r: Date)
    requires d.Valid()
    ensures r.Valid() && r.year == d.year && r.month == d.month
    ensures r.day == DaysInMonth(d.year, d.month)
    ensures d.AtMost(r) && FirstDayOfMonth(d).AtMost(r)
  {
    d.(day := DaysInMonth(d.year, d.month))
  }

  /** The month lengths `monthrange` reports: 31 for January, March, May,
    * July, August, October and December, 30 for April, June, September and
    * November, and for February 29 in a Gregorian leap year, 28 otherwise. */
  lemma MonthLengths(y: int, m: int)
    requires 1 <= m <= 12
    ensures m in {1, 3, 5, 7, 8, 10, 12} ==> DaysInMonth(y, m) == 31
    ensures m in {4, 6, 9, 11} ==> DaysInMonth(y, m) == 30
    ensures m == 2 ==> (DaysInMonth(y, m) == 29 <==> (y % 4 == 0 && !(y % 100 == 0 && y % 400 != 0)))
    ensures m == 2 ==> (DaysInMonth(y, m) == 28 || DaysInMonth(y, m) == 29)
  {
  }

  /** The last day of the month is followed by the first day of the next
    * month, and the month spans `DaysInMonth - 1` days from its first day. */
  lemma LastDayEndsMonth(d: Date)
    requires d.Valid()
    ensures Next(LastDayOfMonth(d)).day == 1
    ensures Next(LastDayOfMonth(d)).month == (if d.month == 12 then 1 else d.month + 1)
    ensures DaysBetween(FirstDayOfMonth(d), LastDayOfMonth(d)) == DaysInMonth(d.year, d.month) - 1
  {
  }

  // ---------------------------------------------------------------- weeks

  /** A well-formed date is one Python can represent exactly when its ordinal
    * does not pass that of 9999-12-31. */
  lemma ValidIffWithinMaxOrdinal(e: Date)
    requires e.WellFormed()
    ensures e.Valid() <==> Ordinal(e) <= MaxOrdinal
  {
    MaxOrdinalIsLastDay();
    OrdinalOrder(e, Date(MaxYear, 12, 31));
  }

  /** `get_week_range`: the Monday on or before `d` and the Sunday six days
    * later. `None` stands for the `OverflowError` that `start + timedelta(6)`
    * raises when that Sunday would come after 9999-12-31; `start` itself is
    * always representable, because 0001-01-01 is a Monday. */
  function WeekRange(d: Date): (r: Option<(Date, Date)>)
    requires d.Valid()
    ensures r.None? <==> Ordinal(d) - Weekday(d) + 6 > MaxOrdinal
    ensures r.Some? ==>
      var (s, e) := r.value;
      && s.Valid() && e.Valid()
      && Weekday(s) == 0 && Weekday(e) == 6
      && s.AtMost(d) && d.AtMost(e)
      && Ordinal(e) == Ordinal(s) + 6
  {
    var start := WeekStart(d);
    if Ordinal(start) + 6 > MaxOrdinal then None
    else
      var end := WeekEnd(start);
      OrdinalOrder(d, end);
      Some((start, end))
  }

  /** `d - timedelta(days=d.weekday())`: the Monday on or before `d`. */
  function WeekStart(d: Date): (s: Date)
    requires d.Valid()
    ensures s.Valid() && Weekday(s) == 0 && s.AtMost(d)
    ensures Ordinal(s) == Ordinal(d) - Weekday(d)
  {
    var o, w := Ordinal(d), Weekday(d);
    MondayArithmetic(o, w);
    var s := AddDays(d, -w);
    ValidIffWithinMaxOrdinal(s);
    OrdinalOrder(s, d);
    WeekdayAddDays(d, -w);
    s
  }

  /** `start + timedelta(days=6)` for a Monday whose Sunday is representable. */
  function WeekEnd(monday: Date): (e: Date)
    requires monday.Valid() && Weekday(monday) == 0 && Ordinal(monday) + 6 <= MaxOrdinal
    ensures e.Valid() && Weekday(e) == 6 && Ordinal(e) == Ordinal(monday) + 6
  {
    SundayAfter(monday);
    AddDays(monday, 6)
  }

  /** Six days after a Monday is a Sunday, representable when its ordinal is. */
  lemma SundayAfter(monday: Date)
    requires monday.Valid() && Weekday(monday) == 0 && Ordinal(monday) + 6 <= MaxOrdinal
    ensures AddDays(monday, 6).Valid() && Weekday(AddDays(monday, 6)) == 6
  {
    var e := AddDays(monday, 6);
    ValidIffWithinMaxOrdinal(e);
    WeekdayAddDays(monday, 6);
  }

  /** Stepping back `weekday()` days from day `o` does not pass day 1. */
  lemma MondayArithmetic(o: int, w: int)
    requires o >= 1 && w == WeekdayOfOrdinal(o)
    ensures 1 <= o - w <= o
  {
  }

  /** The only dates whose week cannot be represented are 9999-12-27 (a
    * Monday) through 9999-12-31. */
  lemma WeekRangeOverflowsOnlyAtTheEnd(d: Date)
    requires d.Valid()
    ensures WeekRange(d).None? <==> (d.year == MaxYear && d.month == 12 && d.day >= 27)
  {
    var monday := Date(MaxYear, 12, 27);
    MaxOrdinalIsLastDay();
    assert Ordinal(monday) == Ordinal(Date(MaxYear, 12, 31)) - 4;
    OrdinalOrder(d, monday);
    ValidIffWithinMaxOrdinal(d);
    LastWeekArithmetic(Ordinal(d), Weekday(d));
  }

  lemma LastWeekArithmetic(o: int, w: int)
    requires 1 <= o <= MaxOrdinal && w == WeekdayOfOrdinal(o)
    ensures o - w + 6 > MaxOrdinal <==> o >= MaxOrdinal - 4
  {
    assert (MaxOrdinal - 4 + 6) % 7 == 0;
  }

  // ---------------------------------------------------------------- weekends

  /** `is_weekend`: `d.weekday() >= 5`. */
  predicate IsWeekend(d: Date)
    requires d.Valid()
  {
    Weekday(d) >= 5
  }

  /** Counting the days of a week from its Monday as 0, the weekend days are
    * exactly the last two, Saturday (5) and Sunday (6). */
  lemma WeekendIsSaturdayAndSunday(d: Date)
    requires d.Valid()
    ensures 0 <= DaysBetween(WeekStart(d), d) <= 6
    ensures IsWeekend(d) <==> DaysBetween(WeekStart(d), d) >= 5
  {
  }

  // ---------------------------------------------------------------- day counts

  /** `calculate_days_between` on two already-parsed dates:
    * `(end - start).days`. */
  function DaysBetween(start: Date, end: Date): (n: int)
    requires start.WellFormed() && end.WellFormed()
  {
    Ordinal(end) - Ordinal(start)
  }

  /** The day difference is zero exactly for the same date, positive exactly
    * when `start` is earlier, antisymmetric, additive over three dates and
    * it inverts adding days. */
  lemma DaysBetweenProperties(a: Date, b: Date, c: Date, k: int)
    requires a.WellFormed() && b.WellFormed() && c.WellFormed()
    ensures DaysBetween(a, b) == 0 <==> a == b
    ensures DaysBetween(a, b) > 0 <==> a.Before(b)
    ensures DaysBetween(b, a) == -DaysBetween(a, b)
    ensures DaysBetween(a, c) == DaysBetween(a, b) + DaysBetween(b, c)
    ensures Ordinal(a) + k >= 1 ==> DaysBetween(a, AddDays(a, k)) == k
  {
    OrdinalOrder(a, b);
  }

  // ---------------------------------------------------------------- text

  /** Each maximal run of whitespace replaced by one space: `re.sub(r"\s+", " ", s)`. */
  function CollapseSpaces(s: string): (r: string)
    decreases |s|
  {
    if s == [] then []
    else if IsSpace(s[0]) then
      var rest := TrimLeft(s);
      assert |rest| < |s|;
      [' '] + CollapseSpaces(rest)
    else [s[0]] + CollapseSpaces(s[1..])
  }

  /** `normalize_text`: `re.sub(r"\s+", " ", text.strip()).lower()`. */
  function NormalizeText(t: string): string
  {
    Lower(CollapseSpaces(Strip(t)))
  }

  predicate NoUpper(s: string) {
    forall i :: 0 <= i < |s| ==> !IsUpper(s[i])
  }

  /** Every whitespace character is a plain space and no two spaces are adjacent. */
  predicate SingleSpaced(s: string) {
    && (forall i :: 0 <= i < |s| ==> IsSpace(s[i]) ==> s[i] == ' ')
    && (forall i :: 0 <= i < |s| - 1 ==> !(s[i] == ' ' && s[i + 1] == ' '))
  }

  predicate Trimmed(s: string) {
    s == [] || (!IsSpace(s[0]) && !IsSpace(s[|s| - 1]))
  }

  /** The shape of a normalised text. */
  predicate Normalized(s: string) {
    Trimmed(s) && SingleSpaced(s) && NoUpper(s)
  }

  lemma CollapseFacts(s: string)
    ensures SingleSpaced(CollapseSpaces(s))
    ensures s != [] && !IsSpace(s[0]) ==> CollapseSpaces(s) != [] && CollapseSpaces(s)[0] == s[0]
    ensures s != [] && !IsSpace(s[|s| - 1]) ==>
              CollapseSpaces(s) != [] && !IsSpace(CollapseSpaces(s)[|CollapseSpaces(s)| - 1])
  {
    CollapseIsSingleSpaced(s);
    if s != [] && !IsSpace(s[0]) {
      CollapseKeepsFirst(s);
    }
    if s != [] && !IsSpace(s[|s| - 1]) {
      CollapseKeepsLast(s);
    }
  }

  lemma {:induction false} CollapseIsSingleSpaced(s: string)
    ensures SingleSpaced(CollapseSpaces(s))
    decreases |s|
  {
    if s == [] {
    } else if IsSpace(s[0]) {
      var rest := TrimLeft(s);
      CollapseIsSingleSpaced(rest);
      if rest != [] {
        CollapseKeepsFirst(rest);
      }
      ConsSingleSpaced(' ', CollapseSpaces(rest));
    } else {
      CollapseIsSingleSpaced(s[1..]);
      ConsSingleSpaced(s[0], CollapseSpaces(s[1..]));
    }
  }

  lemma CollapseKeepsFirst(s: string)
    requires s != [] && !IsSpace(s[0])
    ensures CollapseSpaces(s) != [] && CollapseSpaces(s)[0] == s[0]
  {
  }

  lemma {:induction false} CollapseKeepsLast(s: string)
    requires s != [] && !IsSpace(s[|s| - 1])
    ensures CollapseSpaces(s) != [] && !IsSpace(CollapseSpaces(s)[|CollapseSpaces(s)| - 1])
    decreases |s|
  {
    if IsSpace(s[0]) {
      var rest := TrimLeft(s);
      assert rest != [] && rest[|rest| - 1] == s[|s| - 1];
      CollapseKeepsLast(rest);
      var c := CollapseSpaces(rest);
      assert CollapseSpaces(s) == [' '] + c;
      assert CollapseSpaces(s)[|CollapseSpaces(s)| - 1] == c[|c| - 1];
    } else if |s| > 1 {
      CollapseKeepsLast(s[1..]);
      var c := CollapseSpaces(s[1..]);
      assert CollapseSpaces(s) == [s[0]] + c;
      assert CollapseSpaces(s)[|CollapseSpaces(s)| - 1] == c[|c| - 1];
    }
  }

  /** A character in front of a single-spaced text keeps it single-spaced,
    * unless a space would meet a space. */
  lemma ConsSingleSpaced(c: char, r: string)
    requires SingleSpaced(r) && (IsSpace(c) ==> c == ' ')
    requires c == ' ' && r != [] ==> r[0] != ' '
    ensures SingleSpaced([c] + r)
  {
    var t := [c] + r;
    forall i | 0 <= i < |t| ensures IsSpace(t[i]) ==> t[i] == ' ' {
      if i > 0 {
        assert t[i] == r[i - 1];
      }
    }
    forall i | 0 <= i < |t| - 1 ensures !(t[i] == ' ' && t[i + 1] == ' ') {
      if i > 0 {
        assert t[i] == r[i - 1] && t[i + 1] == r[i];
      }
    }
  }

  lemma {:induction false} CollapseOfSingleSpaced(s: string)
    requires SingleSpaced(s)
    ensures CollapseSpaces(s) == s
    decreases |s|
  {
    if s == [] {
    } else if IsSpace(s[0]) {
      assert s[1..] == [] || !IsSpace(s[1]);
      assert TrimLeft(s[1..]) == s[1..];
      CollapseOfSingleSpaced(s[1..]);
    } else {
      CollapseOfSingleSpaced(s[1..]);
    }
  }

  lemma LowerKeepsShape(s: string)
    ensures Trimmed(s) ==> Trimmed(Lower(s))
    ensures SingleSpaced(s) ==> SingleSpaced(Lower(s))
    ensures NoUpper(Lower(s))
    ensures NoUpper(s) ==> Lower(s) == s
  {
    forall c: char ensures !IsUpper(LowerChar(c)) && (IsSpace(LowerChar(c)) <==> IsSpace(c))
                         && (!IsUpper(c) ==> LowerChar(c) == c) {
      LowerCharFacts(c);
    }
  }

  /** A normalised text has no leading or trailing whitespace, no whitespace
    * other than single spaces and no upper-case letters; normalising it
    * again changes nothing. */
  lemma NormalizeTextProperties(t: string)
    ensures Normalized(NormalizeText(t))
    ensures NormalizeText(NormalizeText(t)) == NormalizeText(t)
  {
    NormalizeTextIsNormalized(t);
    NormalizedIsFixed(NormalizeText(t));
  }

  lemma NormalizeTextIsNormalized(t: string)
    ensures Normalized(NormalizeText(t))
  {
    CollapsedStripShape(t);
    LowerNormalizes(CollapseSpaces(Strip(t)));
  }

  /** Collapsing the whitespace of a stripped text leaves it trimmed and single-spaced. */
  lemma CollapsedStripShape(t: string)
    ensures Trimmed(CollapseSpaces(Strip(t))) && SingleSpaced(CollapseSpaces(Strip(t)))
  {
    CollapseFacts(Strip(t));
  }

  /** Lowering a trimmed, single-spaced text gives a normalised one. */
  lemma LowerNormalizes(c: string)
    requires Trimmed(c) && SingleSpaced(c)
    ensures Normalized(Lower(c))
  {
    LowerKeepsShape(c);
  }

  lemma NormalizedIsFixed(s: string)
    requires Normalized(s)
    ensures NormalizeText(s) == s
  {
    assert TrimLeft(s) == s;
    assert TrimRight(s) == s;
    CollapseOfSingleSpaced(s);
    LowerKeepsShape(s);
  }

  // ---------------------------------------------------------------- e-mail

  /** `\w` of a `re` pattern, restricted to ASCII. */
  predicate IsWordChar(c: char) {
    'a' <= c <= 'z' || 'A' <= c <= 'Z' || '0' <= c <= '9' || c == '_'
  }

  /** The class `[\w\.-]`. */
  predicate IsAddressChar(c: char) {
    IsWordChar(c) || c == '.' || c == '-'
  }

  predicate AllWord(s: string) {
    forall i :: 0 <= i < |s| ==> IsWordChar(s[i])
  }

  predicate AllAddress(s: string) {
    forall i :: 0 <= i < |s| ==> IsAddressChar(s[i])
  }

  /** `s` is `local@domain.tld` with the `@` at `i` and the final dot at `j`. */
  predicate EmailShapeAt(s: string, i: int, j: int) {
    && 0 < i && i + 1 < j && j + 1 < |s|
    && s[i] == '@' && s[j] == '.'
    && AllAddress(s[..i]) && AllAddress(s[i + 1..j]) && AllWord(s[j + 1..])
  }

  ghost predicate EmailShape(s: string) {
    exists i, j :: EmailShapeAt(s, i, j)
  }

  /** The whole of `s` matches `[\w\.-]+@[\w\.-]+\.\w+`: the only possible
    * split puts the `@` at its first occurrence and the dot at the last. */
  predicate MatchesEmailPattern(s: string) {
    EmailShapeAt(s, Find(s, '@'), RFind(s, '.'))
  }

  lemma MatchesEmailPatternIffShape(s: string)
    ensures MatchesEmailPattern(s) <==> EmailShape(s)
  {
    if EmailShape(s) {
      var i, j :| EmailShapeAt(s, i, j);
      assert forall m :: 0 <= m < i ==> s[m] == s[..i][m];
      assert forall m :: j < m < |s| ==> s[m] == s[j + 1..][m - j - 1];
      assert Find(s, '@') == i;
      assert RFind(s, '.') == j;
    }
  }

  /** `is_valid_email`: `re.match(r"^[\w\.-]+@[\w\.-]+\.\w+$", s)`. The `$`
    * of Python's `re` also matches just before a final newline, so one
    * trailing `"\n"` is accepted. */
  predicate IsValidEmail(s: string) {
    MatchesEmailPattern(s)
    || (|s| > 0 && s[|s| - 1] == '\n' && MatchesEmailPattern(s[..|s| - 1]))
  }

  /** A valid address is `local@domain.tld` (optionally followed by one
    * newline), and then holds exactly one `@` and ends its domain with a dot
    * followed by word characters only. */
  lemma IsValidEmailCharacterization(s: string)
    ensures IsValidEmail(s) <==>
              EmailShape(s) || (|s| > 0 && s[|s| - 1] == '\n' && EmailShape(s[..|s| - 1]))
    ensures IsValidEmail(s) ==> exists i :: 0 <= i < |s| && s[i] == '@'
                                  && forall m :: 0 <= m < |s| && m != i ==> s[m] != '@'
  {
    MatchesEmailPatternIffShape(s);
    if |s| > 0 {
      MatchesEmailPatternIffShape(s[..|s| - 1]);
    }
    if IsValidEmail(s) {
      ValidEmailHasOneAt(s);
    }
  }

  lemma ValidEmailHasOneAt(s: string)
    requires IsValidEmail(s)
    ensures exists i :: 0 <= i < |s| && s[i] == '@' && forall m :: 0 <= m < |s| && m != i ==> s[m] != '@'
  {
    var t := if MatchesEmailPattern(s) then s else s[..|s| - 1];
    var i := Find(t, '@');
    ShapeHasOneAt(t, i, RFind(t, '.'));
    forall m | 0 <= m < |s| && m != i ensures s[m] != '@' {
      if m < |t| {
        assert s[m] == t[m];
      }
    }
    assert s[i] == t[i];
  }

  /** In `local@domain.tld` the `@` between the parts is the only one. */
  lemma ShapeHasOneAt(t: string, i: int, j: int)
    requires EmailShapeAt(t, i, j)
    ensures forall m :: 0 <= m < |t| && m != i ==> t[m] != '@'
  {
    forall m | 0 <= m < |t| && m != i ensures t[m] != '@' {
      if m < i {
        assert t[m] == t[..i][m];
      } else if m < j {
        assert t[m] == t[i + 1..j][m - i - 1];
      } else if m > j {
        assert t[m] == t[j + 1..][m - j - 1];
      }
    }
  }
}
