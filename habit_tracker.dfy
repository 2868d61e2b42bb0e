/** The habit tracker: streaks, toggling a day, the week strip, adding and deleting habits. */
module HabitTracker {
  import opened Wrappers
  import opened JsString
  import opened Seqs
  import opened Sorting
  import opened DateKeys
  import opened Entities

  // ---------------------------------------------------------------------------
  // The streak, as the loop computes it

  /** Whole days from the day of `dateStr` (UTC midnight) to day `current`; None when the
      string does not parse and the difference is NaN. */
  function DiffDays(current: int, dateStr: string): (r: Option<int>)
    ensures r.Some? <==> IsKey(dateStr)
    ensures r.Some? ==> r.value == current - KeyDay(dateStr)
  {
    match ParseKey(dateStr)
    case None => None
    case Some(d) => Some(current - d)
  }

  /** The loop's test `diffDays === streak` holds exactly when the date is `current - streak`. */
  lemma DiffDaysMatch(current: int, dateStr: string, streak: int)
    ensures DiffDays(current, dateStr) == Some(streak) <==> ParseKey(dateStr) == Some(current - streak)
  {
  }

  /** The value the streak loop reaches on a list naming the days `days`, with day `today` as
      the reference. After each match the reference moves back one day while the required gap
      grows by one, so element i must be day today - 2i. */
  function Streak(days: seq<Option<int>>, today: int): (k: nat)
    ensures k <= |days|
    ensures k > 0 <==> |days| > 0 && days[0] == Some(today)
    ensures forall i :: 0 <= i < k ==> days[i] == Some(today - 2 * i)
    ensures k < |days| ==> days[k] != Some(today - 2 * k)
  {
    if |days| > 0 && days[0] == Some(today) then 1 + Streak(days[1..], today - 2) else 0
  }

  /** The streak is the length of the longest prefix in which element i is day today - 2i. */
  lemma StreakIsLongestPrefix(days: seq<Option<int>>, today: int, k: nat)
    requires k <= |days|
    requires forall i :: 0 <= i < k ==> days[i] == Some(today - 2 * i)
    requires k < |days| ==> days[k] != Some(today - 2 * k)
    ensures Streak(days, today) == k
  {
  }

  /** An empty list of completed dates has streak 0. */
  lemma StreakEmpty(today: int)
    ensures Streak(DaysOf([]), today) == 0
  {
  }

  /** Element k is day today - 2k for each k below i. */
  ghost predicate GapsMatch(days: seq<Option<int>>, today: int, i: nat)
    requires i <= |days|
  {
    forall k :: 0 <= k < i ==> days[k] == Some(today - 2 * k)
  }

  lemma GapsMatchStep(days: seq<Option<int>>, today: int, i: nat)
    requires i < |days| && GapsMatch(days, today, i) && days[i] == Some(today - 2 * i)
    ensures GapsMatch(days, today, i + 1)
  {
  }

  /** `calculateStreak`: sorts the array in place, newest first, then counts matches from the
      front until the first miss. */
  method CalculateStreak(a: array<string>, today: int) returns (streak: nat)
    modifies a
    ensures a[..] == SortStringsDescending(old(a[..]))
    ensures streak == Streak(DaysOf(a[..]), today)
  {
    if a.Length == 0 {
      return 0;
    }
    var sorted := SortStringsDescending(a[..]);
    assert |sorted| == |multiset(sorted)| == |multiset(a[..])| == a.Length;
    forall i | 0 <= i < a.Length {
      a[i] := sorted[i];
    }
    assert a[..] == sorted;
    ghost var days := DaysOf(sorted);
    streak := 0;
    var current := today;
    var i := 0;
    while i < a.Length
      invariant 0 <= i <= a.Length
      invariant streak == i && current == today - i
      invariant a[..] == sorted
      invariant GapsMatch(days, today, i)
    {
      DiffDaysMatch(current, sorted[i], streak);
      assert days[i] == ParseKey(sorted[i]);
      var diff := DiffDays(current, a[i]);
      if diff == Some(streak) {
        GapsMatchStep(days, today, i);
        streak := streak + 1;
        current := current - 1;
        i := i + 1;
      } else {
        break;
      }
    }
    StreakIsLongestPrefix(days, today, i);
  }

  // ---------------------------------------------------------------------------
  // The consecutive-day streak the loop evidently means

  /** The loop with the reference day held at today: element i must be day today - i. */
  function ConsecutiveStreak(days: seq<Option<int>>, today: int): (k: nat)
    ensures k <= |days|
    ensures forall i :: 0 <= i < k ==> days[i] == Some(today - i)
    ensures k < |days| ==> days[k] != Some(today - k)
  {
    if |days| > 0 && days[0] == Some(today) then 1 + ConsecutiveStreak(days[1..], today - 1) else 0
  }

  /** Done today and yesterday: the list newest first names those two days; the loop as
      written stops at 1, the consecutive-day count is 2. */
  lemma StreakCounterexample(today: int)
    requires FourDigitYear(today - 1) && FourDigitYear(today)
    ensures SortedStringsDescending([KeyOf(today), KeyOf(today - 1)])
    ensures DaysOf([KeyOf(today), KeyOf(today - 1)]) == [Some(today), Some(today - 1)]
    ensures Streak([Some(today), Some(today - 1)], today) == 1
    ensures ConsecutiveStreak([Some(today), Some(today - 1)], today) == 2
  {
    ParseKeyOf(today);
    ParseKeyOf(today - 1);
    KeyOfOrder(today - 1, today);
    assert [Some(today), Some(today - 1)][1..] == [Some(today - 1)];
  }

  ghost predicate NoDuplicates(s: seq<string>)
  {
    forall d :: multiset(s)[d] <= 1
  }

  /** Every stored string is a date key naming a day no later than today. */
  ghost predicate PastKeys(s: seq<string>, today: int)
  {
    forall j :: 0 <= j < |s| ==> IsKey(s[j]) && KeyDay(s[j]) <= today
  }

  lemma RepeatedCountsTwice(s: seq<string>, i: nat, j: nat)
    requires i < j < |s| && s[i] == s[j]
    ensures multiset(s)[s[i]] >= 2
  {
    assert s == s[..j] + [s[j]] + s[j + 1..];
    assert s[i] in s[..j];
  }

  /** Every element is a day no later than today, and the days strictly decrease. */
  ghost predicate DecreasingPast(days: seq<Option<int>>, today: int)
  {
    (forall j :: 0 <= j < |days| ==> days[j].Some? && days[j].value <= today) &&
    (forall i, j :: 0 <= i < j < |days| ==> days[i].value > days[j].value)
  }

  /** A newest-first list of distinct keys, none after today, names strictly decreasing
      days, none after today. */
  lemma {:induction false} StoredDays(s: seq<string>, days: seq<Option<int>>, today: int)
    requires SortedStringsDescending(s) && NoDuplicates(s)
    requires PastKeys(s, today)
    requires days == DaysOf(s)
    ensures DecreasingPast(days, today)
  {
    forall j | 0 <= j < |s| ensures days[j].Some? && days[j].value <= today {
      assert days[j] == ParseKey(s[j]);
    }
    forall i, j | 0 <= i < j < |s| ensures days[i].value > days[j].value {
      if s[i] == s[j] {
        RepeatedCountsTwice(s, i, j);
      }
      KeyOrder(s[j], s[i]);
    }
  }

  /** On strictly decreasing days none after today, no element names the day the run stops
      at: the ones before position k name later days, position k does not name it, and the
      ones after name earlier days. */
  lemma {:induction false} RunStopsAtMiss(days: seq<Option<int>>, today: int, k: nat)
    requires DecreasingPast(days, today)
    requires k == ConsecutiveStreak(days, today)
    ensures Misses(days, today - k)
  {
    forall j | 0 <= j < |days| ensures days[j] != Some(today - k) {
      if j > k && k > 0 {
        assert days[k - 1] == Some(today - (k - 1));
        assert days[k].value > days[j].value;
      } else if j > k {
        assert days[0].value > days[j].value;
      }
    }
  }

  /** The days a list of date strings names. */
  ghost function DoneDays(dates: seq<string>): set<int>
  {
    set d | d in dates && IsKey(d) :: KeyDay(d)
  }

  /** Sorting keeps the same strings. */
  lemma SortedSameMember(dates: seq<string>, d: string)
    ensures d in SortStringsDescending(dates) <==> d in dates
  {
    var s := SortStringsDescending(dates);
    assert d in s <==> multiset(s)[d] > 0;
    assert d in dates <==> multiset(dates)[d] > 0;
  }

  /** Sorting keeps the keys distinct, valid and no later than today. */
  lemma SortedStoredFacts(dates: seq<string>, today: int)
    requires PastKeys(dates, today)
    requires NoDuplicates(dates)
    ensures var s := SortStringsDescending(dates);
            NoDuplicates(s) && PastKeys(s, today)
  {
    var s := SortStringsDescending(dates);
    forall d ensures d in s <==> d in dates {
      SortedSameMember(dates, d);
    }
    forall j | 0 <= j < |s| ensures IsKey(s[j]) && KeyDay(s[j]) <= today {
      assert s[j] in dates;
      var i :| 0 <= i < |dates| && dates[i] == s[j];
    }
  }

  /** With the stored dates distinct keys and none after today, the corrected count is the
      length of the run of done days ending today: days today, today-1, ..., today-k+1 are
      done and day today-k is not. */
  lemma ConsecutiveStreakIsRun(dates: seq<string>, today: int)
    requires PastKeys(dates, today)
    requires NoDuplicates(dates)
    ensures RunEndingAt(DoneDays(dates), today, CorrectedStreak(dates, today))
  {
    SortedDecreasing(dates, today);
    RunOfSorted(dates, today);
  }

  /** Days `today - k + 1` through `today` are all in `done`, and day `today - k` is not. */
  ghost predicate RunEndingAt(done: set<int>, today: int, k: int)
  {
    (forall n :: today - k < n <= today ==> n in done) && today - k !in done
  }

  /** The stored dates, sorted newest first and parsed. */
  function SortedDays(dates: seq<string>): seq<Option<int>>
  {
    DaysOf(SortStringsDescending(dates))
  }

  /** The corrected count on the stored dates: sort them newest first and count the
      consecutive days ending today. */
  function CorrectedStreak(dates: seq<string>, today: int): nat
  {
    ConsecutiveStreak(SortedDays(dates), today)
  }

  /** Distinct keys none after today, sorted newest first, name strictly decreasing days. */
  lemma SortedDecreasing(dates: seq<string>, today: int)
    requires PastKeys(dates, today)
    requires NoDuplicates(dates)
    ensures DecreasingPast(SortedDays(dates), today)
  {
    var s := SortStringsDescending(dates);
    SortedStoredFacts(dates, today);
    StoredDays(s, DaysOf(s), today);
  }

  lemma RunOfSorted(dates: seq<string>, today: int)
    requires DecreasingPast(SortedDays(dates), today)
    ensures RunEndingAt(DoneDays(dates), today, CorrectedStreak(dates, today))
  {
    var days := SortedDays(dates);
    var k := ConsecutiveStreak(days, today);
    RunInDays(days, today);
    TransferRun(dates, today, k);
  }

  /** A run of days of the sorted, parsed list is a run of days the stored strings name. */
  lemma TransferRun(dates: seq<string>, today: int, k: int)
    requires RunEndingAt(DaySet(SortedDays(dates)), today, k)
    ensures RunEndingAt(DoneDays(dates), today, k)
  {
    assert forall n :: today - k < n <= today ==> n in DoneDays(dates) by {
      forall n | today - k < n <= today ensures n in DoneDays(dates) {
        SameDay(dates, n);
      }
    }
    assert today - k !in DoneDays(dates) by {
      SameDay(dates, today - k);
    }
  }

  /** The days named in a list of parsed days. */
  ghost function DaySet(days: seq<Option<int>>): set<int>
  {
    set j | 0 <= j < |days| && days[j].Some? :: days[j].value
  }

  /** A day is named by the stored strings exactly when it is a day of their sorted,
      parsed list. */
  lemma SameDay(dates: seq<string>, n: int)
    ensures n in DoneDays(dates) <==> n in DaySet(SortedDays(dates))
  {
    var s := SortStringsDescending(dates);
    var days := DaysOf(s);
    if n in DoneDays(dates) {
      var d :| d in dates && IsKey(d) && KeyDay(d) == n;
      SortedSameMember(dates, d);
      var j :| 0 <= j < |s| && s[j] == d;
      assert days[j] == ParseKey(s[j]);
    }
    if n in DaySet(days) {
      var j :| 0 <= j < |days| && days[j].Some? && days[j].value == n;
      assert days[j] == ParseKey(s[j]);
      assert s[j] in s;
      SortedSameMember(dates, s[j]);
    }
  }

  /** On strictly decreasing days none after today, the days of the run are all named and
      the day it stops at is not. */
  lemma {:induction false} RunInDays(days: seq<Option<int>>, today: int)
    requires DecreasingPast(days, today)
    ensures RunEndingAt(DaySet(days), today, ConsecutiveStreak(days, today))
  {
    var k := ConsecutiveStreak(days, today);
    RunStopsAtMiss(days, today, k);
    forall n | today - k < n <= today ensures n in DaySet(days) {
      var i := today - n;
      assert days[i] == Some(n);
    }
  }

  /** No element of `days` is day `n`. */
  ghost predicate Misses(days: seq<Option<int>>, n: int)
  {
    forall j :: 0 <= j < |days| ==> days[j] != Some(n)
  }

  // ---------------------------------------------------------------------------
  // Chronological order of date keys

  /** Sorting full-date keys as strings sorts them by day, as the streak code relies on. */
  lemma SortedKeysChronological(s: seq<string>)
    requires forall i :: 0 <= i < |s| ==> IsKey(s[i])
    ensures SortedStrings(s) <==> forall i, j :: 0 <= i < j < |s| ==> KeyDay(s[i]) <= KeyDay(s[j])
    ensures SortedStringsDescending(s) <==> forall i, j :: 0 <= i < j < |s| ==> KeyDay(s[i]) >= KeyDay(s[j])
  {
    forall i, j | 0 <= i < |s| && 0 <= j < |s|
      ensures LexLessEq(s[i], s[j]) <==> KeyDay(s[i]) <= KeyDay(s[j])
    {
      KeyLessEq(s[i], s[j]);
    }
  }

  /** For two keys, string order is day order, and equal days are equal keys. */
  lemma KeyLessEq(a: string, b: string)
    requires IsKey(a) && IsKey(b)
    ensures LexLessEq(a, b) <==> KeyDay(a) <= KeyDay(b)
  {
    KeyOrder(a, b);
    KeyOfParseKey(a);
    KeyOfParseKey(b);
  }

  // ---------------------------------------------------------------------------
  // Toggling a day

  /** The new completed-date list before it is sorted: every copy of `date` removed when it
      is present, otherwise `date` appended and the list sorted. */
  function ToggledDates(dates: seq<string>, date: string): (r: seq<string>)
    ensures date in dates ==> date !in r
    ensures date !in dates ==> multiset(r)[date] == 1
    ensures forall d :: d != date ==> multiset(r)[d] == multiset(dates)[d]
  {
    if date in dates then Filter(dates, d => d != date)
    else
      SortStringsCorrect(dates + [date]);
      SortStrings(dates + [date])
  }

  /** The stored habit after toggling `date`: `calculateStreak` sorted the fresh list in place,
      so the stored dates are newest first, and the streak is computed from them. */
  function ToggledHabit(h: Habit, date: string, today: int): (r: Habit)
    ensures r.id == h.id && r.name == h.name && r.color == h.color
    ensures multiset(r.completedDates) == multiset(ToggledDates(h.completedDates, date))
    ensures SortedStringsDescending(r.completedDates)
    ensures r.streak == Streak(DaysOf(r.completedDates), today)
  {
    var dates := SortStringsDescending(ToggledDates(h.completedDates, date));
    h.(completedDates := dates, streak := Streak(DaysOf(dates), today))
  }

  /** Toggling flips whether `date` is done: present means every copy goes, absent means it
      is added once; every other day keeps its count. */
  lemma ToggleFlips(h: Habit, date: string, today: int)
    ensures var r := ToggledHabit(h, date, today).completedDates;
            (date in r <==> date !in h.completedDates) &&
            (date in h.completedDates ==> multiset(r)[date] == 0) &&
            (date !in h.completedDates ==> multiset(r)[date] == 1) &&
            (forall d :: d != date ==> multiset(r)[d] == multiset(h.completedDates)[d]) &&
            (forall d :: d != date ==> (d in r <==> d in h.completedDates))
  {
    var r := ToggledHabit(h, date, today).completedDates;
    assert multiset(r) == multiset(ToggledDates(h.completedDates, date));
    forall d | d != date ensures d in r <==> d in h.completedDates {
      assert d in r <==> multiset(r)[d] > 0;
      assert d in h.completedDates <==> multiset(h.completedDates)[d] > 0;
    }
  }

  /** The `map` callback of `toggleHabit`: only the habit with the id changes, and in it
      exactly `date` flips between done and not done, its streak recomputed. */
  function ToggleIfMatch(h: Habit, habitId: string, date: string, today: int): (r: Habit)
    ensures r.id == h.id && r.name == h.name && r.color == h.color
    ensures h.id != habitId ==> r == h
    ensures h.id == habitId ==>
              (date in r.completedDates <==> date !in h.completedDates) &&
              (forall d :: d != date ==> (d in r.completedDates <==> d in h.completedDates)) &&
              r.streak == Streak(DaysOf(r.completedDates), today)
  {
    if h.id != habitId then h
    else
      ToggleFlips(h, date, today);
      ToggledHabit(h, date, today)
  }

  /** One habit of the `map` in `toggleHabit`, with the in-place sort of the fresh list. */
  method ToggleOne(h: Habit, habitId: string, date: string, today: int) returns (r: Habit)
    ensures r == ToggleIfMatch(h, habitId, date, today)
  {
    if h.id != habitId {
      return h;
    }
    var newDates := ToggledDates(h.completedDates, date);
    var a := new string[|newDates|](i requires 0 <= i < |newDates| => newDates[i]);
    assert a[..] == newDates;
    var streak := CalculateStreak(a, today);
    r := h.(completedDates := a[..], streak := streak);
  }

  /** `toggleHabit(habitId, date)`: the new habit list. */
  method ToggleHabit(prev: seq<Habit>, habitId: string, date: string, today: int) returns (next: seq<Habit>)
    ensures |next| == |prev|
    ensures forall k :: 0 <= k < |prev| ==> next[k] == ToggleIfMatch(prev[k], habitId, date, today)
  {
    next := [];
    for k := 0 to |prev|
      invariant |next| == k
      invariant forall j :: 0 <= j < k ==> next[j] == ToggleIfMatch(prev[j], habitId, date, today)
    {
      var h := ToggleOne(prev[k], habitId, date, today);
      next := next + [h];
    }
  }

  /** Toggling the same day twice gives back the same set of completed days. */
  lemma ToggleTwiceRestoresDays(h: Habit, date: string, today: int)
    ensures var twice := ToggledHabit(ToggledHabit(h, date, today), date, today);
            forall d :: d in twice.completedDates <==> d in h.completedDates
  {
    ToggleFlips(h, date, today);
    ToggleFlips(ToggledHabit(h, date, today), date, today);
  }

  /** Toggling keeps a duplicate-free date list duplicate-free. */
  lemma ToggleKeepsDistinct(h: Habit, date: string, today: int)
    requires forall d :: multiset(h.completedDates)[d] <= 1
    ensures forall d :: multiset(ToggledHabit(h, date, today).completedDates)[d] <= 1
  {
    ToggleFlips(h, date, today);
  }

  // ---------------------------------------------------------------------------
  // The week strip

  /** `getWeekDates`: the keys of the seven days ending today, oldest first. */
  method WeekDates(today: int) returns (week: seq<string>)
    ensures |week| == 7
    ensures forall j :: 0 <= j < 7 ==> week[j] == KeyOf(today - 6 + j)
    ensures week[6] == KeyOf(today)
    ensures FourDigitYear(today - 6) && FourDigitYear(today) ==>
              forall j :: 0 <= j < 6 ==> LexLess(week[j], week[j + 1])
  {
    week := [];
    var i := 6;
    while i >= 0
      invariant -1 <= i <= 6
      invariant |week| == 6 - i
      invariant forall j :: 0 <= j < |week| ==> week[j] == KeyOf(today - 6 + j)
    {
      week := week + [KeyOf(today - i)];
      i := i - 1;
    }
    WeekKeysAscending(week, today);
  }

  /** The keys of seven consecutive days with four-digit years are in ascending string order. */
  lemma WeekKeysAscending(week: seq<string>, today: int)
    requires |week| == 7 && forall j :: 0 <= j < 7 ==> week[j] == KeyOf(today - 6 + j)
    ensures FourDigitYear(today - 6) && FourDigitYear(today) ==>
              forall j :: 0 <= j < 6 ==> LexLess(week[j], week[j + 1])
  {
    if FourDigitYear(today - 6) && FourDigitYear(today) {
      FourDigitYearBetween(today - 6, today);
      forall j | 0 <= j < 6 ensures LexLess(week[j], week[j + 1]) {
        KeyOfOrder(today - 6 + j, today - 6 + j + 1);
      }
    }
  }

  // ---------------------------------------------------------------------------
  // Adding, deleting and today's progress


  /** `deleteHabit(habitId)`: every habit with that id goes, the others keep their order. */
  function DeleteHabit(habits: seq<Habit>, habitId: string): (r: seq<Habit>)
    ensures forall h :: h in r <==> h in habits && h.id != habitId
    ensures forall h {:trigger multiset(r)[h]} :: multiset(r)[h] == if h.id != habitId then multiset(habits)[h] else 0
    ensures IsSubsequence(r, habits)
    ensures (forall h :: h in habits ==> h.id != habitId) ==> r == habits
  {
    if forall h :: h in habits ==> h.id != habitId then
      FilterAll(habits, (h: Habit) => h.id != habitId);
      Filter(habits, (h: Habit) => h.id != habitId)
    else
      Filter(habits, (h: Habit) => h.id != habitId)
  }

  /** The habits done on day key `current`: the length of the list filtered by it. The
      panel passes its current key, `SelectedOrToday(selectedDate, today)`. */
  function DoneCount(habits: seq<Habit>, current: string): (n: nat)
    ensures n == |Filter(habits, (h: Habit) => current in h.completedDates)|
    ensures n <= |habits|
    ensures n == |habits| <==> forall k :: 0 <= k < |habits| ==> current in habits[k].completedDates
    ensures n == 0 <==> forall k :: 0 <= k < |habits| ==> current !in habits[k].completedDates
  {
    if habits == [] then 0
    else (if current in habits[0].completedDates then 1 else 0) + DoneCount(habits[1..], current)
  }

  /** The width of the progress bar for day key `current` (the panel's current key,
      `SelectedOrToday`), in percent. */
  function ProgressWidth(habits: seq<Habit>, current: string): (w: real)
    ensures 0.0 <= w <= 100.0
    ensures habits == [] ==> w == 0.0
    ensures habits != [] ==> w == DoneCount(habits, current) as real / |habits| as real * 100.0
    ensures w == 100.0 <==> habits != [] && DoneCount(habits, current) == |habits|
  {
    if |habits| > 0 then
      PercentBounds(DoneCount(habits, current), |habits|);
      (DoneCount(habits, current) as real / |habits| as real) * 100.0
    else 0.0
  }

  lemma PercentBounds(c: nat, n: nat)
    requires 0 < n && c <= n
    ensures 0.0 <= (c as real / n as real) * 100.0 <= 100.0
    ensures (c as real / n as real) * 100.0 == 100.0 <==> c == n
  {
    var q := c as real / n as real;
    assert q * n as real == c as real;
    assert q <= 1.0;
    if q == 1.0 {
      assert c as real == n as real;
    }
  }

  /** The state the habit tracker owns, with the habit list it is handed. */
  class Tracker {
    var habits: seq<Habit>
    var showAddForm: bool
    var newHabitName: string
    var newHabitColor: string

    constructor(habits: seq<Habit>)
      ensures this.habits == habits && !showAddForm
      ensures newHabitName == "" && newHabitColor == "#3B82F6"
    {
      this.habits := habits;
      showAddForm := false;
      newHabitName := "";
      newHabitColor := "#3B82F6";
    }

    /** `handleAddHabit`, with `nowMs` the clock reading used as the id. A blank name changes
        nothing; otherwise one habit with streak 0 and no dates is appended and the form closes. */
    method AddHabit(nowMs: nat)
      modifies this
      ensures IsBlank(old(newHabitName)) ==>
                habits == old(habits) && newHabitName == old(newHabitName) && showAddForm == old(showAddForm)
      ensures !IsBlank(old(newHabitName)) ==>
                habits == old(habits) + [Habit(NumberToString(nowMs), old(newHabitName), old(newHabitColor), 0, [])] &&
                newHabitName == "" && !showAddForm
      ensures newHabitColor == old(newHabitColor)
    {
      if IsBlank(newHabitName) {
        return;
      }
      var h := Habit(NumberToString(nowMs), newHabitName, newHabitColor, 0, []);
      habits := habits + [h];
      newHabitName := "";
      showAddForm := false;
    }

    /** `toggleHabit(habitId, date)` on the tracker's list. */
    method Toggle(habitId: string, date: string, today: int)
      modifies this
      ensures |habits| == |old(habits)|
      ensures forall k :: 0 <= k < |habits| ==> habits[k] == ToggleIfMatch(old(habits)[k], habitId, date, today)
      ensures showAddForm == old(showAddForm) && newHabitName == old(newHabitName)
      ensures newHabitColor == old(newHabitColor)
    {
      habits := ToggleHabit(habits, habitId, date, today);
    }

    /** `deleteHabit(habitId)` on the tracker's list. */
    method Delete(habitId: string)
      modifies this
      ensures habits == DeleteHabit(old(habits), habitId)
      ensures showAddForm == old(showAddForm) && newHabitName == old(newHabitName)
      ensures newHabitColor == old(newHabitColor)
    {
      habits := DeleteHabit(habits, habitId);
    }
  }
}
