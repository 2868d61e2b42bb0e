/** The weekly analytics panel: productivity score, category breakdown, habit summary,
    upcoming deadlines and the colour and badge the score selects.

    Time is a count of milliseconds `now` since 0000-01-01T00:00Z, so the day of `now` is
    `now / DayMs` and a key's day `d` begins at `d * DayMs`.  The code compares the local
    clock against keys read as UTC midnights; with one time zone for both, the comparisons
    below are exact. */
module ProductivityInsights {
  import opened Wrappers
  import opened Seqs
  import opened Sorting
  import opened DateKeys
  import opened Entities
  import opened JsMath

  const DayMs: int := 86400000

  /** The day `now` falls on. */
  function Today(now: int): int
  {
    now / DayMs
  }

  // ---------------------------------------------------------------------------
  // The seven-day window

  /** `new Date(key) >= cutoffDate` with the cutoff seven days before `now`, time of day
      included; an unreadable key (NaN) compares false. At day granularity the window is
      today-6 onward (today-7 onward at exactly midnight), with no upper bound: future
      dates are recent too. */
  function Recent(key: string, now: int): (b: bool)
    ensures b <==> IsKey(key) && KeyDay(key) >= Today(now) - (if now % DayMs == 0 then 7 else 6)
  {
    match ParseKey(key)
    case None => false
    case Some(d) =>
      var q, r := now / DayMs, now % DayMs;
      assert now == q * DayMs + r;
      assert d * DayMs - (now - 7 * DayMs) == (d - q + 7) * DayMs - r;
      ScaledAtLeast(d - q + 7, r);
      d * DayMs >= now - 7 * DayMs
  }

  /** A whole number of days reaches a time of day `r`: for `r == 0` any `x >= 0`, otherwise
      only `x >= 1`. */
  lemma ScaledAtLeast(x: int, r: int)
    requires 0 <= r < DayMs
    ensures x * DayMs >= r <==> x >= (if r == 0 then 0 else 1)
  {
    if x >= 1 {
      assert x * DayMs >= DayMs;
    } else if x <= -1 {
      assert x * DayMs <= -DayMs;
    }
  }

  function RecentDates(dates: seq<string>, now: int): (r: seq<string>)
    ensures forall x {:trigger multiset(r)[x]} :: multiset(r)[x] == if Recent(x, now) then multiset(dates)[x] else 0
    ensures forall x {:trigger x in r} :: x in r <==> x in dates && Recent(x, now)
  {
    Filter(dates, (d: string) => Recent(d, now))
  }

  function RecentEvents(events: seq<Event>, now: int): (r: seq<Event>)
    ensures |r| <= |events|
    ensures forall e {:trigger e in r} :: e in r <==> e in events && Recent(e.data.date, now)
    ensures forall e {:trigger multiset(r)[e]} ::
              multiset(r)[e] == if Recent(e.data.date, now) then multiset(events)[e] else 0
  {
    Filter(events, (e: Event) => Recent(e.data.date, now))
  }

  function RecentMoods(moods: seq<MoodEntry>, now: int): (r: seq<MoodEntry>)
    ensures |r| <= |moods|
    ensures forall m {:trigger m in r} :: m in r <==> m in moods && Recent(m.date, now)
    ensures forall m {:trigger multiset(r)[m]} ::
              multiset(r)[m] == if Recent(m.date, now) then multiset(moods)[m] else 0
  {
    Filter(moods, (m: MoodEntry) => Recent(m.date, now))
  }

  // ---------------------------------------------------------------------------
  // The productivity score

  /** Ten points per recent event, at most forty. */
  function EventScore(events: seq<Event>, now: int): (r: int)
    ensures 0 <= r <= 40
    ensures r == 40 <==> |RecentEvents(events, now)| >= 4
    ensures |RecentEvents(events, now)| < 4 ==> r == 10 * |RecentEvents(events, now)|
    ensures r % 10 == 0
  {
    var n := |RecentEvents(events, now)|;
    if n * 10 < 40 then n * 10 else 40
  }

  /** The average recent mood scaled so that excellent is thirty points; with no recent
      entry the average defaults to neutral and the score to eighteen. */
  function MoodScore(moods: seq<MoodEntry>, now: int): (r: real)
    ensures RecentMoods(moods, now) == [] ==> r == 18.0
    ensures RecentMoods(moods, now) != [] ==>
              r == 6.0 * MoodSum(RecentMoods(moods, now)) as real / |RecentMoods(moods, now)| as real
    ensures 6.0 <= r <= 30.0
  {
    var recent := RecentMoods(moods, now);
    var avg := if |recent| > 0 then MoodSum(recent) as real / |recent| as real else 3.0;
    if |recent| > 0 then
      AverageWithin(MoodSum(recent), |recent|, 1, 5);
      ScaledAverage(MoodSum(recent), |recent|);
      (avg / 5.0) * 30.0
    else (avg / 5.0) * 30.0
  }

  /** A fifth of the average, times thirty, is six times the average. */
  lemma ScaledAverage(sum: int, n: nat)
    requires n > 0
    ensures ((sum as real / n as real) / 5.0) * 30.0 == 6.0 * sum as real / n as real
  {
    var q := sum as real / n as real;
    assert (q / 5.0) * 30.0 == 6.0 * q;
    assert 6.0 * q == 6.0 * sum as real / n as real;
  }

  /** A non-negative total of `n` values, each at most `hi`, averages at most `hi`. */
  lemma AverageAtMost(sum: real, n: nat, hi: real)
    requires n > 0 && 0.0 <= sum
    ensures 0.0 <= sum / n as real
    ensures sum <= hi * n as real ==> sum / n as real <= hi
  {
    var q := sum / n as real;
    assert q * n as real == sum;
  }

  /** The number of a habit's completed dates inside the window. */
  function RecentCompletions(h: Habit, now: int): nat
  {
    |RecentDates(h.completedDates, now)|
  }

  /** Every habit has at most seven completed dates in the window, as it has when its
      dates are distinct, none lies in the future and `now` is after midnight (at exact
      midnight the window spans eight days). */
  predicate AtMostAWeek(habits: seq<Habit>, now: int)
  {
    forall k :: 0 <= k < |habits| ==> RecentCompletions(habits[k], now) <= 7
  }

  /** The number of recent completions of all habits together. */
  function RecentTotal(habits: seq<Habit>, now: int): nat
  {
    if habits == [] then 0 else RecentCompletions(habits[0], now) + RecentTotal(habits[1..], now)
  }

  /** The total the habit `reduce` accumulates: thirty points per habit completed on every
      day of the window, in proportion otherwise. */
  function HabitSum(habits: seq<Habit>, now: int): (r: real)
    ensures r == 30.0 * RecentTotal(habits, now) as real / 7.0
    ensures r >= 0.0
    ensures AtMostAWeek(habits, now) ==> r <= 30.0 * |habits| as real
  {
    if habits == [] then 0.0
    else
      assert AtMostAWeek(habits, now) ==> AtMostAWeek(habits[1..], now) by {
        if AtMostAWeek(habits, now) {
          forall k | 0 <= k < |habits| - 1 ensures RecentCompletions(habits[1..][k], now) <= 7 {
            assert habits[1..][k] == habits[k + 1];
          }
        }
      }
      (RecentCompletions(habits[0], now) as real / 7.0) * 30.0 + HabitSum(habits[1..], now)
  }

  /** The habit total divided by the number of habits, or by one when there are none.
      Nothing caps it at thirty: only the seven-per-week condition does. */
  function HabitScore(habits: seq<Habit>, now: int): (r: real)
    ensures r >= 0.0
    ensures habits == [] ==> r == 0.0
    ensures habits != [] ==> r == 30.0 * RecentTotal(habits, now) as real / (7.0 * |habits| as real)
    ensures AtMostAWeek(habits, now) ==> r <= 30.0
  {
    var n := if |habits| > 1 then |habits| else 1;
    var s := HabitSum(habits, now);
    assert n == |habits| || (habits == [] && s == 0.0);
    assert AtMostAWeek(habits, now) ==> s <= 30.0 * n as real;
    AverageAtMost(s, n, 30.0);
    MeanOfScaled(s, RecentTotal(habits, now), n);
    s / n as real
  }

  /** Scaling a total to points and dividing by `n` is the mean of the per-item points. */
  lemma MeanOfScaled(s: real, t: nat, n: nat)
    requires n > 0 && s == 30.0 * t as real / 7.0
    ensures s / n as real == 30.0 * t as real / (7.0 * n as real)
  {
    var a := 30.0 * t as real;
    assert (a / 7.0) / n as real == a / (7.0 * n as real);
  }

  /** The weekly score out of one hundred: the rounded sum of the event, mood and habit
      parts; at least six, because the mood part is, and at most one hundred when no habit
      has more than seven recent completions. */
  function ProductivityScore(events: seq<Event>, moods: seq<MoodEntry>, habits: seq<Habit>, now: int): (r: int)
    ensures r == Round(EventScore(events, now) as real + MoodScore(moods, now) + HabitScore(habits, now))
    ensures 6 <= r
    ensures AtMostAWeek(habits, now) ==> r <= 100
  {
    var total := EventScore(events, now) as real + MoodScore(moods, now) + HabitScore(habits, now);
    RoundWithin(total, 6, if AtMostAWeek(habits, now) then 100 else Round(total) + 1);
    Round(total)
  }

  /** The worked case: one recent event, no moods and no habits score 10 + 18 + 0 = 28. */
  lemma OneRecentEventScore(e: Event, now: int)
    requires Recent(e.data.date, now)
    ensures ProductivityScore([e], [], [], now) == 28
  {
    var recent := RecentEvents([e], now);
    assert multiset(recent)[e] == 1;
    assert |recent| == 1 by {
      assert |recent| <= 1;
      assert e in recent;
    }
    assert EventScore([e], now) == 10;
    assert RecentMoods([], now) == [];
    assert MoodScore([], now) == 18.0;
    assert HabitScore([], now) == 0.0;
    assert Round(28.0) == 28;
  }

  /** Adding an event never removes a recent one: the recent list only grows. */
  lemma RecentEventsGrow(events: seq<Event>, e: Event, now: int)
    ensures |RecentEvents(events, now)| <= |RecentEvents(events + [e], now)|
  {
    var a, b := RecentEvents(events, now), RecentEvents(events + [e], now);
    assert multiset(events) <= multiset(events + [e]);
    assert multiset(a) <= multiset(b) by {
      forall x ensures multiset(a)[x] <= multiset(b)[x] {
        assert multiset(events)[x] <= multiset(events + [e])[x];
      }
    }
    assert |multiset(b)| == |multiset(a)| + |multiset(b) - multiset(a)|;
  }

  /** Adding an event never lowers the score. */
  lemma AddedEventNoLower(events: seq<Event>, e: Event, moods: seq<MoodEntry>, habits: seq<Habit>, now: int)
    ensures ProductivityScore(events, moods, habits, now) <= ProductivityScore(events + [e], moods, habits, now)
  {
    RecentEventsGrow(events, e, now);
    assert EventScore(events, now) <= EventScore(events + [e], now);
    var rest := MoodScore(moods, now) + HabitScore(habits, now);
    RoundMonotone(EventScore(events, now) as real + rest, EventScore(events + [e], now) as real + rest);
  }

  /** Keys of the days before today lie in the window exactly from today-6 on, for any
      time of day after midnight. */
  lemma RecentKeyOf(key: string, n: int, now: int)
    requires FourDigitYear(n) && n >= Today(now) - 6 && key == KeyOf(n)
    ensures Recent(key, now)
  {
    ParseKeyOf(n);
  }

  /** A list whose every date lies in the window counts in full. */
  lemma AllRecentCounted(dates: seq<string>, now: int)
    requires forall i :: 0 <= i < |dates| ==> Recent(dates[i], now)
    ensures |RecentDates(dates, now)| == |dates|
  {
    var r := RecentDates(dates, now);
    assert multiset(r) == multiset(dates) by {
      forall x ensures multiset(r)[x] == multiset(dates)[x] {
        if !Recent(x, now) {
          assert x !in dates;
        }
      }
    }
    assert |r| == |multiset(r)| == |multiset(dates)|;
  }

  /** The keys of today-6 to today+1 all lie in the window. */
  lemma EightKeysRecent(now: int, dates: seq<string>)
    requires FourDigitYear(Today(now) - 6) && FourDigitYear(Today(now) + 1)
    requires dates == seq(8, i => KeyOf(Today(now) - 6 + i))
    ensures forall i :: 0 <= i < |dates| ==> Recent(dates[i], now)
  {
    var t := Today(now);
    FourDigitYearBetween(t - 6, t + 1);
    forall i | 0 <= i < 8 ensures Recent(dates[i], now) {
      RecentKeyOf(dates[i], t - 6 + i, now);
    }
  }

  /** A habit completed on the eight days today-6 to today+1 scores 240/7 points, more
      than thirty: the habit part is not clamped. */
  lemma HabitScoreUnclamped(now: int)
    requires FourDigitYear(Today(now) - 6) && FourDigitYear(Today(now) + 1)
    ensures var dates := seq(8, i => KeyOf(Today(now) - 6 + i));
            HabitScore([Habit("h", "habit", "#3B82F6", 0, dates)], now) > 30.0
  {
    var dates := seq(8, i => KeyOf(Today(now) - 6 + i));
    var h := Habit("h", "habit", "#3B82F6", 0, dates);
    EightKeysRecent(now, dates);
    AllRecentCounted(dates, now);
    assert RecentCompletions(h, now) == 8;
    assert HabitSum([h], now) == 240.0 / 7.0;
  }

  // ---------------------------------------------------------------------------
  // Category breakdown

  datatype CategoryCount = CategoryCount(category: Category, count: nat)

  /** The categories of the events, in list order. */
  function CategoriesOf(events: seq<Event>): (r: seq<Category>)
    ensures |r| == |events|
    ensures forall i :: 0 <= i < |r| ==> r[i] == events[i].data.category
  {
    seq(|events|, i requires 0 <= i < |events| => events[i].data.category)
  }

  function KeysOf(acc: seq<CategoryCount>): (r: seq<Category>)
    ensures |r| == |acc|
    ensures forall i :: 0 <= i < |r| ==> r[i] == acc[i].category
  {
    seq(|acc|, i requires 0 <= i < |acc| => acc[i].category)
  }

  function CountSum(acc: seq<CategoryCount>): nat
  {
    if acc == [] then 0 else CountSum(acc[..|acc| - 1]) + acc[|acc| - 1].count
  }

  /** The position of the entry for `c`, if the object has that key. */
  function KeyIndex(acc: seq<CategoryCount>, c: Category): (r: Option<nat>)
    ensures r.None? <==> c !in KeysOf(acc)
    ensures r.Some? ==> r.value < |acc| && acc[r.value].category == c
  {
    if acc == [] then None
    else if acc[0].category == c then Some(0)
    else
      assert KeysOf(acc) == [acc[0].category] + KeysOf(acc[1..]);
      match KeyIndex(acc[1..], c)
      case None => None
      case Some(k) => Some(k + 1)
  }

  /** One step of the `reduce`: `acc[c] = (acc[c] || 0) + 1`, where a new key goes last. */
  function Bump(acc: seq<CategoryCount>, c: Category): (r: seq<CategoryCount>)
  {
    match KeyIndex(acc, c)
    case None => acc + [CategoryCount(c, 1)]
    case Some(i) => acc[i := CategoryCount(c, acc[i].count + 1)]
  }

  /** The object the `reduce` builds, as its entries in insertion order: a tally of the
      events' categories that counts every event once. */
  function Tally(events: seq<Event>): (r: seq<CategoryCount>)
    ensures TallyOf(r, CategoriesOf(events))
    ensures CountSum(r) == |events|
  {
    if events == [] then []
    else
      var init := events[..|events| - 1];
      var x := events[|events| - 1].data.category;
      var acc := Tally(init);
      CategoriesOfSnoc(events);
      BumpStep(acc, CategoriesOf(init), x);
      Bump(acc, x)
  }

  /** Category `a` occurs at some position before every occurrence of `b`. */
  ghost predicate AppearsFirst(s: seq<Category>, a: Category, b: Category)
  {
    exists k :: 0 <= k < |s| && s[k] == a && b !in s[..k]
  }

  /** What a tally of `s` is: each category of `s` exactly once, in order of first
      appearance, with the number of times it occurs. */
  ghost predicate TallyOf(acc: seq<CategoryCount>, s: seq<Category>)
  {
    (forall i, j :: 0 <= i < j < |acc| ==> acc[i].category != acc[j].category) &&
    (forall c :: c in KeysOf(acc) <==> c in s) &&
    (forall i :: 0 <= i < |acc| ==> acc[i].count == multiset(s)[acc[i].category]) &&
    (forall i, j :: 0 <= i < j < |acc| ==> AppearsFirst(s, acc[i].category, acc[j].category))
  }

  lemma {:induction false} CountSumUpdate(acc: seq<CategoryCount>, i: nat, e: CategoryCount)
    requires i < |acc|
    ensures CountSum(acc[i := e]) == CountSum(acc) - acc[i].count + e.count
    decreases |acc|
  {
    var last := |acc| - 1;
    if i < last {
      assert acc[i := e][..last] == acc[..last][i := e];
      CountSumUpdate(acc[..last], i, e);
    } else {
      assert acc[i := e][..last] == acc[..last];
    }
  }

  lemma AppearsFirstExtend(s: seq<Category>, x: Category, a: Category, b: Category)
    requires AppearsFirst(s, a, b)
    ensures AppearsFirst(s + [x], a, b)
  {
    var k :| 0 <= k < |s| && s[k] == a && b !in s[..k];
    assert (s + [x])[..k] == s[..k];
  }

  lemma AppearsFirstNew(s: seq<Category>, x: Category, a: Category)
    requires a in s && x !in s
    ensures AppearsFirst(s + [x], a, x)
  {
    var k :| 0 <= k < |s| && s[k] == a;
    assert (s + [x])[..k] == s[..k];
    assert x !in s[..k] by {
      forall j | 0 <= j < k ensures s[..k][j] != x {
        assert s[..k][j] == s[j];
      }
    }
  }

  /** A step of the `reduce` keeps the tally describing the categories seen so far and adds
      one to the total. */
  lemma BumpStep(acc: seq<CategoryCount>, s: seq<Category>, x: Category)
    requires TallyOf(acc, s) && CountSum(acc) == |s|
    ensures TallyOf(Bump(acc, x), s + [x]) && CountSum(Bump(acc, x)) == |s| + 1
  {
    match KeyIndex(acc, x)
    case None =>
      BumpNew(acc, s, x);
    case Some(i) =>
      BumpExisting(acc, s, i);
  }

  /** A category not seen before is appended with count one. */
  lemma BumpNew(acc: seq<CategoryCount>, s: seq<Category>, x: Category)
    requires TallyOf(acc, s) && CountSum(acc) == |s| && x !in KeysOf(acc)
    ensures TallyOf(acc + [CategoryCount(x, 1)], s + [x])
    ensures CountSum(acc + [CategoryCount(x, 1)]) == |s| + 1
  {
    var s' := s + [x];
    assert multiset(s') == multiset(s) + multiset{x};
    var r := acc + [CategoryCount(x, 1)];
    assert r[..|r| - 1] == acc;
    assert KeysOf(r) == KeysOf(acc) + [x];
    forall i, j | 0 <= i < j < |r| ensures AppearsFirst(s', r[i].category, r[j].category) {
      if j < |acc| {
        AppearsFirstExtend(s, x, r[i].category, r[j].category);
      } else {
        assert r[i].category in KeysOf(acc);
        AppearsFirstNew(s, x, r[i].category);
      }
    }
  }

  /** A category seen before has its count raised by one in place. */
  lemma BumpExisting(acc: seq<CategoryCount>, s: seq<Category>, i: nat)
    requires TallyOf(acc, s) && CountSum(acc) == |s| && i < |acc|
    ensures var x := acc[i].category;
            TallyOf(acc[i := CategoryCount(x, acc[i].count + 1)], s + [x]) &&
            CountSum(acc[i := CategoryCount(x, acc[i].count + 1)]) == |s| + 1
  {
    var x := acc[i].category;
    var s' := s + [x];
    assert multiset(s') == multiset(s) + multiset{x};
    var r := acc[i := CategoryCount(x, acc[i].count + 1)];
    CountSumUpdate(acc, i, CategoryCount(x, acc[i].count + 1));
    assert KeysOf(r) == KeysOf(acc);
    forall j, k | 0 <= j < k < |r| ensures AppearsFirst(s', r[j].category, r[k].category) {
      AppearsFirstExtend(s, x, r[j].category, r[k].category);
    }
  }

  lemma CategoriesOfSnoc(events: seq<Event>)
    requires events != []
    ensures CategoriesOf(events) == CategoriesOf(events[..|events| - 1]) + [events[|events| - 1].data.category]
  {
  }

  datatype Share = Share(category: Category, count: nat, percentage: int)

  function Shares(acc: seq<CategoryCount>, total: nat): (r: seq<Share>)
    requires total > 0
    ensures |r| == |acc|
    ensures forall i :: 0 <= i < |r| ==>
              r[i].category == acc[i].category && r[i].count == acc[i].count &&
              r[i].percentage == Round(acc[i].count as real / total as real * 100.0)
  {
    seq(|acc|, i requires 0 <= i < |acc| =>
      Share(acc[i].category, acc[i].count, Round(acc[i].count as real / total as real * 100.0)))
  }

  function ShareCategories(r: seq<Share>): (cs: seq<Category>)
    ensures |cs| == |r|
    ensures forall i :: 0 <= i < |r| ==> cs[i] == r[i].category
  {
    seq(|r|, i requires 0 <= i < |r| => r[i].category)
  }

  /** What a breakdown of `s` is: each category of `s` exactly once, in first-appearance
      order, with its number of occurrences and its rounded share of `|s|` in percent,
      which lies between 0 and 100. */
  ghost predicate BreakdownOf(r: seq<Share>, s: seq<Category>)
  {
    (forall i, j :: 0 <= i < j < |r| ==> r[i].category != r[j].category) &&
    (forall c :: c in ShareCategories(r) <==> c in s) &&
    (forall i, j :: 0 <= i < j < |r| ==> AppearsFirst(s, r[i].category, r[j].category)) &&
    (forall i :: 0 <= i < |r| ==> r[i].count == multiset(s)[r[i].category]) &&
    (forall i :: 0 <= i < |r| ==>
       0 < |s| && r[i].percentage == Round(r[i].count as real / |s| as real * 100.0)) &&
    (forall i :: 0 <= i < |r| ==> 0 <= r[i].percentage <= 100)
  }

  lemma SharesOfTally(events: seq<Event>)
    requires events != []
    ensures BreakdownOf(Shares(Tally(events), |events|), CategoriesOf(events))
  {
    SharesOfTallyOf(Tally(events), CategoriesOf(events));
  }

  /** The rows built from a tally of `s` are a breakdown of `s`. */
  lemma SharesOfTallyOf(acc: seq<CategoryCount>, s: seq<Category>)
    requires s != [] && TallyOf(acc, s)
    ensures BreakdownOf(Shares(acc, |s|), s)
  {
    var r := Shares(acc, |s|);
    assert ShareCategories(r) == KeysOf(acc);
    assert forall i :: 0 <= i < |r| ==> 0 <= r[i].percentage <= 100 by {
      forall i | 0 <= i < |r| ensures 0 <= r[i].percentage <= 100 {
        CountWithin(s, acc[i].category);
        PercentWithin(acc[i].count, |s|);
      }
    }
  }

  /** No category occurs more often than the list is long. */
  lemma CountWithin(s: seq<Category>, c: Category)
    ensures multiset(s)[c] <= |s|
  {
    assert |multiset(s)| == |s|;
    assert multiset(s)[c] <= |multiset(s)| by {
      assert multiset{c} * multiset(s) <= multiset(s);
    }
  }

  /** The breakdown rows: one per category present, in first-appearance order, each with its
      count and its rounded share in percent; none when there are no events. */
  function CategoryBreakdown(events: seq<Event>): (r: seq<Share>)
    ensures events == [] ==> r == []
    ensures BreakdownOf(r, CategoriesOf(events))
  {
    if events == [] then []
    else
      SharesOfTally(events);
      Shares(Tally(events), |events|)
  }

  lemma PercentWithin(c: nat, n: nat)
    requires 0 < n && c <= n
    ensures 0 <= Round(c as real / n as real * 100.0) <= 100
    ensures c == 0 ==> Round(c as real / n as real * 100.0) == 0
    ensures c == n ==> Round(c as real / n as real * 100.0) == 100
  {
    var q := c as real / n as real;
    assert q * n as real == c as real;
    assert q < 0.0 ==> q * n as real < 0.0;
    assert q > 1.0 ==> q * n as real > 1.0 * n as real;
    RoundWithin(q * 100.0, 0, 100);
    if c == 0 {
      assert q == 0.0;
    }
    if c == n {
      assert q == 1.0;
    }
  }

  /** The sum of the counts of breakdown rows. */
  function ShareTotal(r: seq<Share>): nat
  {
    if r == [] then 0 else ShareTotal(r[..|r| - 1]) + r[|r| - 1].count
  }

  lemma {:induction false} ShareTotalOfShares(acc: seq<CategoryCount>, total: nat)
    requires total > 0
    ensures ShareTotal(Shares(acc, total)) == CountSum(acc)
    decreases |acc|
  {
    if acc != [] {
      var init := acc[..|acc| - 1];
      ShareTotalOfShares(init, total);
      assert Shares(acc, total)[..|acc| - 1] == Shares(init, total);
    }
  }

  /** The counts of the breakdown add up to the number of events. */
  lemma BreakdownCountsSum(events: seq<Event>)
    ensures ShareTotal(CategoryBreakdown(events)) == |events|
  {
    if events != [] {
      ShareTotalOfShares(Tally(events), |events|);
    }
  }

  // ---------------------------------------------------------------------------
  // Habit summary

  /** `Math.max(...habits.map(h => h.streak), 0)`. */
  function LongestStreak(habits: seq<Habit>): (r: int)
    ensures r >= 0
    ensures forall k :: 0 <= k < |habits| ==> habits[k].streak <= r
    ensures r == 0 || exists k :: 0 <= k < |habits| && habits[k].streak == r
  {
    if habits == [] then 0
    else
      var rest := LongestStreak(habits[1..]);
      assert forall k :: 1 <= k < |habits| ==> habits[k] == habits[1..][k - 1];
      Max(habits[0].streak, rest)
  }

  /** The number of habits with a positive cached streak: the length of the list filtered
      by it. */
  function ActiveCount(habits: seq<Habit>): (n: nat)
    ensures n == |Filter(habits, (h: Habit) => h.streak > 0)|
    ensures n <= |habits|
    ensures n == 0 <==> forall k :: 0 <= k < |habits| ==> habits[k].streak <= 0
    ensures n == |habits| <==> forall k :: 0 <= k < |habits| ==> habits[k].streak > 0
  {
    if habits == [] then 0
    else
      assert forall k :: 1 <= k < |habits| ==> habits[k] == habits[1..][k - 1];
      (if habits[0].streak > 0 then 1 else 0) + ActiveCount(habits[1..])
  }

  datatype StreakInfo = StreakInfo(longestStreak: int, totalHabits: nat, activeHabits: nat)

  function GetStreakInfo(habits: seq<Habit>): (r: StreakInfo)
    ensures r.totalHabits == |habits|
    ensures r.activeHabits <= r.totalHabits
    ensures r.longestStreak == LongestStreak(habits) && r.activeHabits == ActiveCount(habits)
  {
    StreakInfo(LongestStreak(habits), |habits|, ActiveCount(habits))
  }

  /** The success rate in percent: 0 without habits, 100 when every habit is active and 0
      when none is. */
  function SuccessRate(habits: seq<Habit>): (r: int)
    ensures 0 <= r <= 100
    ensures habits == [] ==> r == 0
    ensures habits != [] ==> r == Round(ActiveCount(habits) as real / |habits| as real * 100.0)
    ensures habits != [] && ActiveCount(habits) == |habits| ==> r == 100
    ensures ActiveCount(habits) == 0 ==> r == 0
  {
    var info := GetStreakInfo(habits);
    if info.totalHabits > 0 then
      PercentWithin(info.activeHabits, info.totalHabits);
      Round(info.activeHabits as real / info.totalHabits as real * 100.0)
    else 0
  }

  // ---------------------------------------------------------------------------
  // Upcoming deadlines

  /** `eventDate >= today && eventDate <= nextWeek`, with `nextWeek` seven days after `now`.
      At day granularity the window is today+1 to today+7 (today to today+7 at exactly
      midnight). */
  function InDeadlineWindow(key: string, now: int): (b: bool)
    ensures b <==> IsKey(key) && Today(now) + (if now % DayMs == 0 then 0 else 1) <= KeyDay(key) <= Today(now) + 7
  {
    match ParseKey(key)
    case None => false
    case Some(d) =>
      var q, r := now / DayMs, now % DayMs;
      assert now == q * DayMs + r;
      assert d * DayMs - now == (d - q) * DayMs - r;
      ScaledAtLeast(d - q, r);
      assert now + 7 * DayMs - d * DayMs == (q + 7 - d) * DayMs + r;
      ScaledAtLeast(q + 7 - d, DayMs - 1 - r);
      now <= d * DayMs <= now + 7 * DayMs
  }

  /** An event a deadline can be: high priority and inside the window. */
  predicate IsDeadline(e: Event, now: int)
  {
    e.data.priority == High && InDeadlineWindow(e.data.date, now)
  }

  /** The day an event's date names, the key the deadline sort compares. */
  function EventDay(e: Event): int
  {
    match ParseKey(e.data.date)
    case None => 0
    case Some(d) => d
  }

  function DeadlineCandidates(events: seq<Event>, now: int): (r: seq<Event>)
    ensures forall e {:trigger e in r} :: e in r <==> e in events && IsDeadline(e, now)
    ensures forall e {:trigger multiset(r)[e]} ::
              multiset(r)[e] == if IsDeadline(e, now) then multiset(events)[e] else 0
  {
    Filter(events, (e: Event) => IsDeadline(e, now))
  }

  /** The first `n` elements of a list sorted by key are sorted, and none of the elements
      left out has a smaller key than one kept. */
  lemma TakeSortedEarliest<T>(s: seq<T>, key: T -> int, n: nat)
    requires SortedByKey(s, key)
    ensures SortedByKey(Take(s, n), key)
    ensures forall x :: x in Take(s, n) ==> x in s
    ensures forall e, x :: e in s && e !in Take(s, n) && x in Take(s, n) ==> key(x) <= key(e)
  {
    var r := Take(s, n);
    forall e, x | e in s && e !in r && x in r ensures key(x) <= key(e) {
      var j :| 0 <= j < |s| && s[j] == e;
      var i :| 0 <= i < |r| && r[i] == x;
      forall k | 0 <= k < |r| ensures s[k] != e {
        assert r[k] == s[k];
      }
    }
  }

  /** At most three high-priority events in the window, earliest first: as many as there
      are up to three, and no event left out is earlier than one shown. */
  function UpcomingDeadlines(events: seq<Event>, now: int): (r: seq<Event>)
    ensures |r| == if |DeadlineCandidates(events, now)| < 3 then |DeadlineCandidates(events, now)| else 3
    ensures forall e :: e in r ==> e in events && IsDeadline(e, now)
    ensures multiset(r) <= multiset(DeadlineCandidates(events, now))
    ensures SortedByKey(r, EventDay)
    ensures forall e, x :: e in events && IsDeadline(e, now) && e !in r && x in r ==> EventDay(x) <= EventDay(e)
  {
    var c := DeadlineCandidates(events, now);
    var sorted := SortByKey(c, EventDay);
    SortByKeyCorrect(c, EventDay);
    SameElements(sorted, c);
    TakeSortedEarliest(sorted, EventDay, 3);
    TakeSubMultiset(sorted, 3);
    Take(sorted, 3)
  }

  /** The first `n` elements of a list are a sub-multiset of it. */
  lemma TakeSubMultiset<T>(s: seq<T>, n: nat)
    ensures multiset(Take(s, n)) <= multiset(s)
  {
    var r := Take(s, n);
    assert s == r + s[|r|..];
    assert multiset(s) == multiset(r) + multiset(s[|r|..]);
  }

  /** Two lists with the same multiset have the same length and the same elements. */
  lemma SameElements<T>(a: seq<T>, b: seq<T>)
    requires multiset(a) == multiset(b)
    ensures |a| == |b|
    ensures forall x {:trigger x in a} {:trigger x in b} :: x in a <==> x in b
  {
    assert |multiset(a)| == |multiset(b)|;
    forall x ensures x in a <==> x in b {
      assert x in a <==> x in multiset(a);
      assert x in b <==> x in multiset(b);
    }
  }

  // ---------------------------------------------------------------------------
  // Score colour and badge

  datatype ScoreColor = Red | Yellow | Blue | Green

  /** The colour class of a score: green from 80, blue from 60, yellow from 40, red below. */
  function ScoreColorOf(score: int): (c: ScoreColor)
    ensures c == Green <==> score >= 80
    ensures c == Blue <==> 60 <= score < 80
    ensures c == Yellow <==> 40 <= score < 60
    ensures c == Red <==> score < 40
  {
    if score >= 80 then Green
    else if score >= 60 then Blue
    else if score >= 40 then Yellow
    else Red
  }

  function ColorRank(c: ScoreColor): nat
  {
    match c
    case Red => 0
    case Yellow => 1
    case Blue => 2
    case Green => 3
  }

  /** A higher score never gets a worse colour. */
  lemma ScoreColorMonotone(s1: int, s2: int)
    requires s1 <= s2
    ensures ColorRank(ScoreColorOf(s1)) <= ColorRank(ScoreColorOf(s2))
  {
  }

  /** The "Productivity Champion" badge is shown exactly for the green scores. */
  predicate ShowsChampion(score: int)
  {
    score >= 80
  }

  lemma ChampionIsGreen(score: int)
    ensures ShowsChampion(score) <==> ScoreColorOf(score) == Green
  {
  }
}
