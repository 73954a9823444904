/** The month calendar of components/CommitHeatmap.tsx: a constant 42-cell
    grid (six weeks of seven days) holding one cell per day of the current
    month, each with its activity count and a 0-4 intensity tier, plus the
    month's total and the "online" signal.

    The clock is not modelled: the year, the 0-based month and the weekday of
    the first of the month are inputs; the month's length follows the
    Gregorian rule. */
module Heatmap {
  import opened Types
  import opened Ledger
  import opened Calendar

  /** Six rows of seven days. */
  const TOTAL_CELLS: nat := 42

  /** A day of the month as the calendar shows it. */
  datatype DayCell = DayCell(day: nat, date: string, count: int, intensity: nat)

  /** `getCountForDate`: the count of the first history entry with this date,
      0 when there is none. */
  function CountForDate(history: seq<ContributionDay>, key: string): (c: int)
    ensures (forall j :: 0 <= j < |history| ==> history[j].date != key) ==> c == 0
    ensures forall i :: 0 <= i < |history| && history[i].date == key && FirstWithDate(history, key, i) ==>
      c == history[i].count
  {
    match FindDay(history, key)
    case None => 0
    case Some(i) => history[i].count
  }

  /** No entry before position i has date `key`. */
  ghost predicate FirstWithDate(history: seq<ContributionDay>, key: string, i: nat)
  {
    forall j :: 0 <= j < i && j < |history| ==> history[j].date != key
  }

  /** With unique dates, the count found is that of the one entry with the date. */
  lemma CountForUniqueDate(history: seq<ContributionDay>, i: nat)
    requires UniqueDates(history) && i < |history|
    ensures CountForDate(history, history[i].date) == history[i].count
  {
  }

  /** `getIntensity`: 0 for no activity, then tiers 1 (one), 2 (two or
      three), 3 (four or five) and 4 (six or more). A negative count, which
      the history never holds, falls in tier 1 as in the source. */
  function Intensity(count: int): (t: nat)
    ensures t <= 4
    ensures t == 0 <==> count == 0
  {
    if count == 0 then 0
    else if count <= 1 then 1
    else if count <= 3 then 2
    else if count <= 5 then 3
    else 4
  }

  /** The tier of a non-negative count is the number of the thresholds
      1, 2, 4 and 6 that it reaches. */
  lemma IntensityCountsThresholds(count: int)
    requires count >= 0
    ensures Intensity(count) ==
      (if count >= 1 then 1 else 0) + (if count >= 2 then 1 else 0) +
      (if count >= 4 then 1 else 0) + (if count >= 6 then 1 else 0)
  {
  }

  /** More activity never shows a lighter tier. */
  lemma IntensityMonotone(a: int, b: int)
    requires 0 <= a <= b
    ensures Intensity(a) <= Intensity(b)
  {
  }

  lemma IntensityExamples()
    ensures Intensity(0) == 0 && Intensity(1) == 1 && Intensity(2) == 2 && Intensity(3) == 2
    ensures Intensity(4) == 3 && Intensity(5) == 3 && Intensity(6) == 4 && Intensity(1000) == 4
  {
  }

  /** The cell for day `day` of the month. */
  function DayCellFor(history: seq<ContributionDay>, year: nat, month0: nat, day: nat): DayCell
  {
    var key := FormatDate(year, month0, day);
    var count := CountForDate(history, key);
    DayCell(day, key, count, Intensity(count))
  }

  /** The cells of the month's days, as a function of the day. */
  function DayCells(history: seq<ContributionDay>, year: nat, month0: nat): nat -> DayCell
  {
    (d: nat) => DayCellFor(history, year, month0, d)
  }

  /** What position `i` of a grid holds: padding before the first of the
      month, then the cells of days 1 to `daysInMonth` in order, then
      padding. */
  function SlotAt(cellFor: nat -> DayCell, firstDayOfMonth: nat, daysInMonth: nat, i: nat): Option<DayCell>
  {
    if firstDayOfMonth <= i < firstDayOfMonth + daysInMonth
    then Some(cellFor(i - firstDayOfMonth + 1))
    else None
  }

  function GridLength(firstDayOfMonth: nat, daysInMonth: nat): nat
  {
    if firstDayOfMonth + daysInMonth < TOTAL_CELLS then TOTAL_CELLS else firstDayOfMonth + daysInMonth
  }

  /** `days` lays out the cells `cellFor(1)` to `cellFor(daysInMonth)`
      from position `firstDayOfMonth` on, padded to at least 42 cells. */
  ghost predicate IsGrid(days: seq<Option<DayCell>>, cellFor: nat -> DayCell, firstDayOfMonth: nat, daysInMonth: nat)
  {
    |days| == GridLength(firstDayOfMonth, daysInMonth) &&
    forall i :: 0 <= i < |days| ==> days[i] == SlotAt(cellFor, firstDayOfMonth, daysInMonth, i)
  }

  /** `days` is the calendar layout of the month. */
  ghost predicate IsMonthGrid(days: seq<Option<DayCell>>, history: seq<ContributionDay>, year: nat, month0: nat,
                              firstDayOfMonth: nat, daysInMonth: nat)
  {
    IsGrid(days, DayCells(history, year, month0), firstDayOfMonth, daysInMonth)
  }

  /** The grid construction: `firstDayOfMonth` empty slots, the cell of
      each day of the month, then empty slots until there are 42 cells. The
      cell of a day (its date key, count and tier) is `cellFor`. */
  method BuildMonthGrid(cellFor: nat -> DayCell, firstDayOfMonth: nat, daysInMonth: nat)
    returns (days: seq<Option<DayCell>>)
    ensures IsGrid(days, cellFor, firstDayOfMonth, daysInMonth)
    ensures firstDayOfMonth <= 6 && daysInMonth <= 31 ==> |days| == TOTAL_CELLS
  {
    days := [];
    for i := 0 to firstDayOfMonth
      invariant |days| == i
      invariant forall k :: 0 <= k < i ==> days[k] == SlotAt(cellFor, firstDayOfMonth, daysInMonth, k)
    {
      days := days + [None];
    }
    for d := 1 to daysInMonth + 1
      invariant |days| == firstDayOfMonth + d - 1
      invariant forall k :: 0 <= k < |days| ==> days[k] == SlotAt(cellFor, firstDayOfMonth, daysInMonth, k)
    {
      days := days + [Some(cellFor(d))];
    }
    while |days| < TOTAL_CELLS
      invariant firstDayOfMonth + daysInMonth <= |days| <= GridLength(firstDayOfMonth, daysInMonth)
      invariant forall k :: 0 <= k < |days| ==> days[k] == SlotAt(cellFor, firstDayOfMonth, daysInMonth, k)
      decreases TOTAL_CELLS - |days|
    {
      days := days + [None];
    }
  }

  /** The number of day cells (non-padding) of a grid. */
  function DayCellCount(days: seq<Option<DayCell>>): nat
  {
    if |days| == 0 then 0
    else DayCellCount(days[..|days| - 1]) + (if days[|days| - 1].Some? then 1 else 0)
  }

  /** `totalMonthCommits`: the sum of the counts of the day cells. */
  function MonthTotal(days: seq<Option<DayCell>>): int
  {
    if |days| == 0 then 0
    else MonthTotal(days[..|days| - 1]) + CellCount(days[|days| - 1])
  }

  /** How many day cells lie among the first `k` cells of a month grid:
      `min(k - first, daysInMonth)`, and none before the first. */
  function DaysShown(firstDayOfMonth: nat, daysInMonth: nat, k: nat): nat
  {
    if k <= firstDayOfMonth then 0
    else if k - firstDayOfMonth <= daysInMonth then k - firstDayOfMonth
    else daysInMonth
  }

  /** Over the first k cells of a grid, the day cells are days 1 to
      `DaysShown(k)`. */
  lemma {:induction false} GridPrefixCount(days: seq<Option<DayCell>>, cellFor: nat -> DayCell,
                                          firstDayOfMonth: nat, daysInMonth: nat, k: nat)
    requires IsGrid(days, cellFor, firstDayOfMonth, daysInMonth)
    requires k <= |days|
    ensures DayCellCount(days[..k]) == DaysShown(firstDayOfMonth, daysInMonth, k)
    decreases k
  {
    if k > 0 {
      GridPrefixCount(days, cellFor, firstDayOfMonth, daysInMonth, k - 1);
      var last := days[..k][k - 1];
      assert days[..k][..k - 1] == days[..k - 1];
      assert last == SlotAt(cellFor, firstDayOfMonth, daysInMonth, k - 1);
      assert DayCellCount(days[..k]) == DayCellCount(days[..k - 1]) + (if last.Some? then 1 else 0);
    }
  }

  /** The count a grid cell contributes to the month total. */
  function CellCount(cell: Option<DayCell>): int
  {
    match cell
    case Some(c) => c.count
    case None => 0
  }

  /** `count(1) + ... + count(n)`. */
  function SumDays(count: nat -> int, n: nat): int
  {
    if n == 0 then 0 else SumDays(count, n - 1) + count(n)
  }

  /** Some day among days 1 to n has a positive count. */
  ghost predicate SomeDayActive(count: nat -> int, n: nat)
  {
    exists d :: 1 <= d <= n && count(d) > 0
  }

  /** With non-negative daily counts, the sum is positive exactly when some
      day is. */
  lemma {:induction false} SumDaysPositive(count: nat -> int, n: nat)
    requires forall d :: 1 <= d <= n ==> count(d) >= 0
    ensures SumDays(count, n) >= 0
    ensures SumDays(count, n) > 0 <==> SomeDayActive(count, n)
    decreases n
  {
    if n > 0 {
      SumDaysPositive(count, n - 1);
      if SomeDayActive(count, n) {
        var d :| 1 <= d <= n && count(d) > 0;
        if d < n {
          assert SomeDayActive(count, n - 1);
        }
      }
    }
  }

  /** Over the first k cells of a grid that holds days 1 to `daysInMonth`
      from position `firstDayOfMonth` on, the total is the sum of the first
      `DaysShown(k)` daily counts. */
  lemma {:induction false} GridPrefixTotal(days: seq<Option<DayCell>>, count: nat -> int,
                                          firstDayOfMonth: nat, daysInMonth: nat, k: nat)
    requires forall i :: 0 <= i < |days| ==>
      CellCount(days[i]) == (if firstDayOfMonth <= i < firstDayOfMonth + daysInMonth then count(i - firstDayOfMonth + 1) else 0)
    requires k <= |days|
    ensures MonthTotal(days[..k]) == SumDays(count, DaysShown(firstDayOfMonth, daysInMonth, k))
    decreases k
  {
    if k > 0 {
      GridPrefixTotal(days, count, firstDayOfMonth, daysInMonth, k - 1);
      assert days[..k][..k - 1] == days[..k - 1];
      assert MonthTotal(days[..k]) == MonthTotal(days[..k - 1]) + CellCount(days[k - 1]);
    }
  }

  /** The count the history holds for day `day` of the month. */
  function DayCount(history: seq<ContributionDay>, year: nat, month0: nat, day: nat): int
  {
    CountForDate(history, FormatDate(year, month0, day))
  }

  /** The counts of the month's days, as a function of the day. */
  function DailyCounts(history: seq<ContributionDay>, year: nat, month0: nat): nat -> int
  {
    (d: nat) => DayCount(history, year, month0, d)
  }

  /** The counts of days 1 to n of the month, summed. */
  function DaySum(history: seq<ContributionDay>, year: nat, month0: nat, n: nat): int
  {
    SumDays(DailyCounts(history, year, month0), n)
  }

  /** Some day among days 1 to n of the month has activity. */
  ghost predicate ActiveDay(history: seq<ContributionDay>, year: nat, month0: nat, n: nat)
  {
    SomeDayActive(DailyCounts(history, year, month0), n)
  }

  /** A grid cell of the month counts its day, and padding counts nothing. */
  lemma GridCellCount(days: seq<Option<DayCell>>, history: seq<ContributionDay>, year: nat,
                      month0: nat, firstDayOfMonth: nat, daysInMonth: nat, i: nat)
    requires IsMonthGrid(days, history, year, month0, firstDayOfMonth, daysInMonth)
    requires i < |days|
    ensures CellCount(days[i]) ==
      (if firstDayOfMonth <= i < firstDayOfMonth + daysInMonth
       then DailyCounts(history, year, month0)(i - firstDayOfMonth + 1) else 0)
  {
    assert days[i] == SlotAt(DayCells(history, year, month0), firstDayOfMonth, daysInMonth, i);
  }

  /** A month grid has exactly one cell per day of the month, and its total
      is the sum of the month's daily counts. */
  lemma MonthGridTotals(days: seq<Option<DayCell>>, history: seq<ContributionDay>, year: nat,
                        month0: nat, firstDayOfMonth: nat, daysInMonth: nat)
    requires IsMonthGrid(days, history, year, month0, firstDayOfMonth, daysInMonth)
    ensures DayCellCount(days) == daysInMonth
    ensures MonthTotal(days) == DaySum(history, year, month0, daysInMonth)
  {
    var count := DailyCounts(history, year, month0);
    forall i | 0 <= i < |days| ensures CellCount(days[i]) ==
      (if firstDayOfMonth <= i < firstDayOfMonth + daysInMonth then count(i - firstDayOfMonth + 1) else 0)
    {
      GridCellCount(days, history, year, month0, firstDayOfMonth, daysInMonth, i);
    }
    GridPrefixCount(days, DayCells(history, year, month0), firstDayOfMonth, daysInMonth, |days|);
    GridPrefixTotal(days, count, firstDayOfMonth, daysInMonth, |days|);
    assert days[..|days|] == days;
  }

  /** `isOnline`. */
  function IsOnline(totalMonthCommits: int, streak: bool): bool
  {
    totalMonthCommits > 0 || streak
  }

  /** With non-negative counts, the month total is positive exactly when
      some day of the month has activity. */
  lemma DaySumPositive(history: seq<ContributionDay>, year: nat, month0: nat, n: nat)
    requires NonNegative(history)
    ensures DaySum(history, year, month0, n) >= 0
    ensures DaySum(history, year, month0, n) > 0 <==> ActiveDay(history, year, month0, n)
  {
    var count := DailyCounts(history, year, month0);
    forall d | 1 <= d <= n ensures count(d) >= 0 {
      CountNonNegative(history, FormatDate(year, month0, d));
    }
    SumDaysPositive(count, n);
  }

  lemma CountNonNegative(history: seq<ContributionDay>, key: string)
    requires NonNegative(history)
    ensures CountForDate(history, key) >= 0
  {
  }

  /** What the calendar component derives for the current month. */
  datatype MonthView = MonthView(days: seq<Option<DayCell>>, totalMonthCommits: int, isOnline: bool, year: nat)

  /** The `useMemo` body: month length from the Gregorian rule, the grid, its
      total and the online signal. */
  method BuildMonthView(history: seq<ContributionDay>, streak: bool, year: nat, month0: nat, firstDayOfMonth: nat)
    returns (view: MonthView)
    requires month0 < 12 && firstDayOfMonth < 7
    ensures IsMonthGrid(view.days, history, year, month0, firstDayOfMonth, DaysInMonth(year, month0))
    ensures |view.days| == TOTAL_CELLS
    ensures DayCellCount(view.days) == DaysInMonth(year, month0)
    ensures view.totalMonthCommits == DaySum(history, year, month0, DaysInMonth(year, month0))
    ensures view.isOnline == (view.totalMonthCommits > 0 || streak)
    ensures NonNegative(history) ==>
      (view.isOnline <==> streak || ActiveDay(history, year, month0, DaysInMonth(year, month0)))
    ensures view.year == year
  {
    var daysInMonth := DaysInMonth(year, month0);
    var days := BuildMonthGrid(DayCells(history, year, month0), firstDayOfMonth, daysInMonth);
    MonthGridTotals(days, history, year, month0, firstDayOfMonth, daysInMonth);
    if NonNegative(history) {
      DaySumPositive(history, year, month0, daysInMonth);
    }
    var total := MonthTotal(days);
    view := MonthView(days, total, IsOnline(total, streak), year);
  }
}
