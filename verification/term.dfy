/**
 The target term of a search: its default (the current fiscal year to date,
 fiscal years starting on April 1) and the list of days it is turned into.
 */
module Term {

  /** A calendar date as the (year, month, day) triple the fiscal rule looks at. */
  datatype Date = Date(year: int, month: int, day: int)

  /** A search term: first and last day. Not required to be ordered. */
  datatype Term = Term(start: Date, end: Date)

  const FiscalStartMonth: int := 4

  /** Month and day lie in their calendar ranges (month lengths are not modelled). */
  predicate ValidDate(d: Date) {
    1 <= d.month <= 12 && 1 <= d.day <= 31
  }

  /** Strict chronological order on dates. */
  predicate Before(a: Date, b: Date) {
    a.year < b.year
    || (a.year == b.year && a.month < b.month)
    || (a.year == b.year && a.month == b.month && a.day < b.day)
  }

  predicate NotAfter(a: Date, b: Date) {
    a == b || Before(a, b)
  }

  /** April 1 of the given year. */
  function FiscalStart(year: int): Date {
    Date(year, FiscalStartMonth, 1)
  }

  /**
   The term a freshly constructed client searches: from the start of the
   fiscal year containing `today` up to `today`. The start is the most
   recent April 1 that is not after `today`.
   */
  function DefaultTerm(today: Date): (t: Term)
    requires ValidDate(today)
    ensures t.end == today
    ensures t.start.month == 4 && t.start.day == 1
    ensures NotAfter(t.start, today)
    ensures Before(today, FiscalStart(t.start.year + 1))
    ensures today.month < 4 ==> t.start.year == today.year - 1
    ensures today.month >= 4 ==> t.start.year == today.year
  {
    var startYear := if today.month < FiscalStartMonth then today.year - 1 else today.year;
    Term(FiscalStart(startYear), today)
  }

  /**
   The term the constructor actually computes. It reads the clock twice: once
   for `today`, and once more for the month that chooses the start year, so
   `checkedMonth` is the month of that second reading. When both readings fall
   on the same day this is the default term.
   */
  function ConstructedTerm(today: Date, checkedMonth: int): (t: Term)
    ensures t.end == today
    ensures t.start.month == 4 && t.start.day == 1
    ensures t.start.year == today.year - 1 || t.start.year == today.year
    ensures ValidDate(today) && checkedMonth == today.month ==> t == DefaultTerm(today)
  {
    var startYear := if checkedMonth < FiscalStartMonth then today.year - 1 else today.year;
    Term(FiscalStart(startYear), today)
  }

  /**
   A construction whose two clock readings straddle midnight at the end of
   March gets a start after its end, so only the end day is searched; one that
   straddles the new year gets a term of 21 months.
   */
  lemma ConstructedTermAcrossMidnight()
    ensures ConstructedTerm(Date(2022, 3, 31), 4) == Term(Date(2022, 4, 1), Date(2022, 3, 31))
    ensures Before(Date(2022, 3, 31), ConstructedTerm(Date(2022, 3, 31), 4).start)
    ensures ConstructedTerm(Date(2022, 12, 31), 1).start == Date(2021, 4, 1)
    ensures !Before(Date(2022, 12, 31), FiscalStart(ConstructedTerm(Date(2022, 12, 31), 1).start.year + 1))
  {
  }

  /** Only one April 1 can be the start of the fiscal year containing a date. */
  lemma FiscalYearUnique(today: Date, y: int)
    requires ValidDate(today)
    requires NotAfter(FiscalStart(y), today)
    requires Before(today, FiscalStart(y + 1))
    ensures y == DefaultTerm(today).start.year
  {
  }

  /** The override of both bounds; it does not check them against each other. */
  function SetTargetTerm(start: Date, end: Date): Term {
    Term(start, end)
  }

  /**
   The days searched for a term given as day ordinals: `start + k` for every
   `k` in `0 .. end - start - 1`, then `end` itself once. The last day is not
   repeated; when `end <= start` only `end` is searched.
   */
  function DayList(start: int, end: int): (days: seq<int>)
    ensures |days| == if start < end then end - start + 1 else 1
    ensures days[|days| - 1] == end
    ensures start < end ==> forall k :: 0 <= k < |days| ==> days[k] == start + k
    ensures end <= start ==> days == [end]
    ensures forall i, j :: 0 <= i < j < |days| ==> days[i] < days[j]
  {
    var period := if start < end then end - start else 0;
    seq(period, k => start + k) + [end]
  }

  /**
   A day is searched exactly when it is the end day or lies from the start
   day up to, but not including, the end day.
   */
  lemma DayListMembers(start: int, end: int, d: int)
    ensures d in DayList(start, end) <==> d == end || start <= d < end
  {
    var days := DayList(start, end);
    if start <= d < end {
      assert days[d - start] == d;
    }
  }

  /** The two cases of the client's construction test: in and after January to March. */
  lemma DefaultTermExamples()
    ensures DefaultTerm(Date(2022, 3, 31)) == Term(Date(2021, 4, 1), Date(2022, 3, 31))
    ensures DefaultTerm(Date(2022, 11, 22)) == Term(Date(2022, 4, 1), Date(2022, 11, 22))
  {
  }

  /** A three-day term searches each day once; a reversed term searches only its end. */
  lemma DayListExamples()
    ensures DayList(0, 2) == [0, 1, 2]
    ensures DayList(5, 3) == [3]
    ensures DayList(4, 4) == [4]
  {
    assert DayList(0, 2)[1] == 1;
  }

}
