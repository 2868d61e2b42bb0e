/** The month view: the six-week grid, the per-cell lookups, hover adjacency, the cell
    indicators and month navigation. A day is a day number; the local calendar and UTC
    are taken to agree, so `formatDate(day)` is `KeyOf(day)`. */
module Calendar {
  import opened Wrappers
  import opened Seqs
  import opened Gregorian
  import opened DateKeys
  import opened Entities

  // ---------------------------------------------------------------------------
  // Months

  /** The first day of month `m` of year `y`. */
  function MonthStart(y: int, m: int): int
    requires 1 <= m <= 12
  {
    DayNumber(Civil(y, m, 1))
  }

  /** Every day number from the first of a month up to its length lies in that month, at the
      day of the month it counts to. */
  lemma MonthOfDay(y: int, m: int, n: int)
    requires 1 <= m <= 12
    requires MonthStart(y, m) <= n < MonthStart(y, m) + DaysInMonth(y, m)
    ensures CivilOf(n) == Civil(y, m, n - MonthStart(y, m) + 1)
  {
    var c := Civil(y, m, n - MonthStart(y, m) + 1);
    assert Valid(c);
    assert DayNumber(c) == n;
    CivilOfDayNumber(c);
  }

  /** The first day of the month `anchor` lies in. */
  function FirstOfMonth(anchor: int): int
  {
    MonthStart(CivilOf(anchor).year, CivilOf(anchor).month)
  }

  function MonthLength(anchor: int): int
  {
    DaysInMonth(CivilOf(anchor).year, CivilOf(anchor).month)
  }

  lemma AnchorInMonth(anchor: int)
    ensures FirstOfMonth(anchor) <= anchor < FirstOfMonth(anchor) + MonthLength(anchor)
    ensures anchor - FirstOfMonth(anchor) == CivilOf(anchor).day - 1
  {
    DayNumberOfCivilOf(anchor);
  }

  // ---------------------------------------------------------------------------
  // The grid

  /** The Sunday on or before the first of the anchor's month: `firstDay` moved back by its
      weekday. */
  function GridStart(anchor: int): (r: int)
    ensures Weekday(r) == 0
    ensures r <= FirstOfMonth(anchor) <= r + 6
  {
    GridStartIsSunday(FirstOfMonth(anchor));
    FirstOfMonth(anchor) - Weekday(FirstOfMonth(anchor))
  }

  lemma GridStartIsSunday(n: int)
    ensures Weekday(n - Weekday(n)) == 0
  {
    var w := (n + 6) % 7;
    assert n + 6 == 7 * ((n + 6) / 7) + w;
    assert n - w + 6 == 7 * ((n + 6) / 7);
  }

  /** `getDaysInMonth`: forty-two consecutive days, pushed one by one from the grid start. */
  method MonthGrid(anchor: int) returns (days: seq<int>)
    ensures |days| == 42
    ensures forall i :: 0 <= i < 42 ==> days[i] == GridStart(anchor) + i
    ensures Weekday(days[0]) == 0
    ensures days[0] <= FirstOfMonth(anchor) <= days[0] + 6
    ensures FirstOfMonth(anchor) + MonthLength(anchor) - 1 <= days[0] + 36
  {
    var start := GridStart(anchor);
    days := [];
    for i := 0 to 42
      invariant |days| == i
      invariant forall k :: 0 <= k < i ==> days[k] == start + k
    {
      days := days + [start + i];
    }
    assert days[0] == start;
  }

  /** Every day of the anchor's month is a cell of the grid. */
  lemma GridCoversMonth(anchor: int, n: int)
    requires FirstOfMonth(anchor) <= n < FirstOfMonth(anchor) + MonthLength(anchor)
    ensures 0 <= n - GridStart(anchor) < 42
  {
  }

  /** `isCurrentMonth`: the month numbers agree, whatever the years. Though it ignores the
      year, on the grid it flags exactly the days of the anchor's month. */
  function IsCurrentMonth(day: int, anchor: int): (b: bool)
    ensures b <==> CivilOf(day).month == CivilOf(anchor).month
    ensures GridStart(anchor) <= day < GridStart(anchor) + 42 ==>
              (b <==> FirstOfMonth(anchor) <= day < FirstOfMonth(anchor) + MonthLength(anchor))
    ensures GridStart(anchor) <= day < GridStart(anchor) + 42 && b ==>
              CivilOf(day).year == CivilOf(anchor).year
  {
    var y, m := CivilOf(anchor).year, CivilOf(anchor).month;
    var first, len := FirstOfMonth(anchor), MonthLength(anchor);
    if GridStart(anchor) <= day < GridStart(anchor) + 42 then
      if day < first then
        var py, pm := if m == 1 then y - 1 else y, if m == 1 then 12 else m - 1;
        NextMonthStart(py, pm);
        MonthOfDay(py, pm, day);
        CivilOf(day).month == m
      else if day >= first + len then
        var ny, nm := if m == 12 then y + 1 else y, if m == 12 then 1 else m + 1;
        NextMonthStart(y, m);
        MonthOfDay(ny, nm, day);
        CivilOf(day).month == m
      else
        MonthOfDay(y, m, day);
        CivilOf(day).month == m
    else
      CivilOf(day).month == m
  }

  // ---------------------------------------------------------------------------
  // Per-cell lookups

  /** `getMoodForDate`: the first entry for the key, in list order. */
  function MoodForDate(moods: seq<MoodEntry>, key: string): (r: Option<MoodEntry>)
    ensures r.None? <==> forall i :: 0 <= i < |moods| ==> moods[i].date != key
    ensures r.Some? ==> exists k :: 0 <= k < |moods| && moods[k] == r.value && r.value.date == key &&
                                   forall j :: 0 <= j < k ==> moods[j].date != key
  {
    Find(moods, (m: MoodEntry) => m.date == key)
  }

  /** `getHabitsForDate`: the habits completed on the key, in their order. */
  function HabitsForDate(habits: seq<Habit>, key: string): (r: seq<Habit>)
    ensures forall h {:trigger h in r} :: h in r <==> h in habits && key in h.completedDates
    ensures forall h {:trigger multiset(r)[h]} ::
              multiset(r)[h] == if key in h.completedDates then multiset(habits)[h] else 0
    ensures IsSubsequence(r, habits)
  {
    Filter(habits, (h: Habit) => key in h.completedDates)
  }

  // ---------------------------------------------------------------------------
  // Hover adjacency

  /** `getAdjacentDates`: the keys of the day before and the day after. `None` when the key
      does not read as a day: `toISOString` then throws. */
  function AdjacentDates(key: string): (r: Option<seq<string>>)
    ensures r.Some? <==> IsKey(key)
    ensures r.Some? ==> |r.value| == 2
  {
    if IsKey(key) then Some([KeyOf(KeyDay(key) - 1), KeyOf(KeyDay(key) + 1)]) else None
  }

  /** For a day with a four-digit year, a string is its key exactly when it reads as it. */
  lemma KeyNamesDay(key: string, n: int)
    requires FourDigitYear(n)
    ensures key == KeyOf(n) <==> IsKey(key) && KeyDay(key) == n
  {
    ParseKeyOf(n);
    if IsKey(key) {
      KeyOfParseKey(key);
    }
  }

  /** `isAdjacentToHovered`: false with no hovered cell, `None` when the hovered key makes
      `getAdjacentDates` throw. */
  function IsAdjacentToHovered(hovered: Option<string>, key: string): (r: Option<bool>)
    ensures !Truthy(hovered) ==> r == Some(false)
    ensures Truthy(hovered) ==> (r.Some? <==> IsKey(hovered.value))
  {
    if !Truthy(hovered) then Some(false)
    else
      match AdjacentDates(hovered.value)
      case None => None
      case Some(adjacent) => Some(key in adjacent)
  }

  /** On a hovered cell whose neighbours have four-digit years, a key is flagged exactly when
      it names the day before or the day after, so never the hovered day itself. */
  lemma AdjacentMeansNeighbour(hovered: string, key: string)
    requires IsKey(hovered)
    requires FourDigitYear(KeyDay(hovered) - 1) && FourDigitYear(KeyDay(hovered) + 1)
    ensures IsAdjacentToHovered(Some(hovered), key) == Some(true) <==>
            IsKey(key) && (KeyDay(key) == KeyDay(hovered) - 1 || KeyDay(key) == KeyDay(hovered) + 1)
  {
    KeyInAdjacent(hovered, key);
  }

  /** The hovered cell itself is never flagged. */
  lemma HoveredNotAdjacent(hovered: string)
    requires IsKey(hovered)
    requires FourDigitYear(KeyDay(hovered) - 1) && FourDigitYear(KeyDay(hovered) + 1)
    ensures IsAdjacentToHovered(Some(hovered), hovered) == Some(false)
  {
    KeyInAdjacent(hovered, hovered);
  }

  lemma KeyInAdjacent(hovered: string, key: string)
    requires IsKey(hovered)
    requires FourDigitYear(KeyDay(hovered) - 1) && FourDigitYear(KeyDay(hovered) + 1)
    ensures key in AdjacentDates(hovered).value <==>
            IsKey(key) && (KeyDay(key) == KeyDay(hovered) - 1 || KeyDay(key) == KeyDay(hovered) + 1)
    ensures hovered != ""
  {
    var d := KeyDay(hovered);
    KeyNamesDay(key, d - 1);
    KeyNamesDay(key, d + 1);
  }

  // ---------------------------------------------------------------------------
  // Cell indicators

  /** The priority badge: some event of the day is high priority (`some`). */
  function ShowsPriorityBadge(dayEvents: seq<Event>): (b: bool)
    ensures b <==> exists i :: 0 <= i < |dayEvents| && dayEvents[i].data.priority == High
  {
    FirstIndex(dayEvents, (e: Event) => e.data.priority == High).Some?
  }

  /** What a cell lists of a day's items: the first `limit` and the "+n" count of the rest. */
  datatype Truncation<T> = Truncation(shown: seq<T>, more: Option<nat>)

  /** `items.slice(0, limit)` and, when there are more, `+(length - limit)`. */
  function Truncate<T>(items: seq<T>, limit: nat): (r: Truncation<T>)
    ensures |r.shown| == if |items| < limit then |items| else limit
    ensures r.shown == items[..|r.shown|]
    ensures r.more.Some? <==> |items| > limit
    ensures r.more.Some? ==> |r.shown| + r.more.value == |items|
  {
    Truncation(Take(items, limit), if |items| > limit then Some(|items| - limit) else None)
  }

  /** The event chips of a cell: two titles and "+n more". */
  function EventChips(dayEvents: seq<Event>): (r: Truncation<Event>)
    ensures |r.shown| == if |dayEvents| < 2 then |dayEvents| else 2
    ensures r.shown == dayEvents[..|r.shown|]
    ensures r.more.Some? <==> |dayEvents| > 2
    ensures r.more.Some? ==> r.more.value == |dayEvents| - 2
  {
    Truncate(dayEvents, 2)
  }

  /** The habit dots of a cell: three dots and "+n". */
  function HabitDots(dayHabits: seq<Habit>): (r: Truncation<Habit>)
    ensures |r.shown| == if |dayHabits| < 3 then |dayHabits| else 3
    ensures r.shown == dayHabits[..|r.shown|]
    ensures r.more.Some? <==> |dayHabits| > 3
    ensures r.more.Some? ==> r.more.value == |dayHabits| - 3
  {
    Truncate(dayHabits, 3)
  }

  // ---------------------------------------------------------------------------
  // Month navigation

  datatype Direction = Prev | Next

  datatype YearMonth = YearMonth(year: int, month: int)

  /** One month on or back, with the December/January carry into the year. */
  function StepMonth(y: int, m: int, dir: Direction): (r: YearMonth)
    requires 1 <= m <= 12
    ensures 1 <= r.month <= 12
    ensures dir == Next ==> r.year * 12 + r.month == y * 12 + m + 1
    ensures dir == Prev ==> r.year * 12 + r.month == y * 12 + m - 1
  {
    match dir
    case Next => if m == 12 then YearMonth(y + 1, 1) else YearMonth(y, m + 1)
    case Prev => if m == 1 then YearMonth(y - 1, 12) else YearMonth(y, m - 1)
  }

  /** `setMonth(getMonth() +/- 1)`: the same day of the month in the new month, counted on
      from its first day as `Date` does when the day is past the month's end. */
  function ShiftMonth(anchor: int, dir: Direction): (r: int)
    ensures var c := CivilOf(anchor);
            var t := StepMonth(c.year, c.month, dir);
            if c.day <= DaysInMonth(t.year, t.month) then CivilOf(r) == Civil(t.year, t.month, c.day)
            else
              var u := StepMonth(t.year, t.month, Next);
              CivilOf(r) == Civil(u.year, u.month, c.day - DaysInMonth(t.year, t.month))
  {
    var c := CivilOf(anchor);
    var t := StepMonth(c.year, c.month, dir);
    var r := MonthStart(t.year, t.month) + c.day - 1;
    if c.day <= DaysInMonth(t.year, t.month) then
      MonthOfDay(t.year, t.month, r);
      r
    else
      var u := StepMonth(t.year, t.month, Next);
      NextMonthStart(t.year, t.month);
      MonthOfDay(u.year, u.month, r);
      r
  }

  /** With the day of the month at most 28 the navigation moves year and month by exactly
      one and keeps the day. */
  lemma NavigateKeepsDay(anchor: int, dir: Direction)
    requires CivilOf(anchor).day <= 28
    ensures var c := CivilOf(anchor);
            var r := CivilOf(ShiftMonth(anchor, dir));
            r.day == c.day &&
            r.year * 12 + r.month == c.year * 12 + c.month + (if dir == Next then 1 else -1)
  {
  }

  /** The month the view shows, kept as the day the navigation started from. */
  class MonthView {
    var currentDate: int

    constructor(today: int)
      ensures currentDate == today
    {
      currentDate := today;
    }

    method NavigateMonth(dir: Direction)
      modifies this
      ensures currentDate == ShiftMonth(old(currentDate), dir)
    {
      currentDate := ShiftMonth(currentDate, dir);
    }
  }
}
