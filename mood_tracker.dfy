/** The mood panel: saving one entry per date, looking up the shown day's entry and the
    average of the latest entries. */
module MoodTracker {
  import opened Wrappers
  import opened Seqs
  import opened DateKeys
  import opened Entities
  import opened JsMath

  /** The number of entries for `date`. */
  function DateCount(s: seq<MoodEntry>, date: string): (n: nat)
    ensures n <= |s|
    ensures n == 0 <==> forall i :: 0 <= i < |s| ==> s[i].date != date
  {
    if s == [] then 0
    else
      assert forall i :: 1 <= i < |s| ==> s[i] == s[1..][i - 1];
      (if s[0].date == date then 1 else 0) + DateCount(s[1..], date)
  }

  /** Keeping the entries of other dates drops exactly the entries for `date`. */
  lemma {:induction false} KeptLength(s: seq<MoodEntry>, date: string, keep: MoodEntry -> bool)
    requires forall m :: keep(m) <==> m.date != date
    ensures |Filter(s, keep)| == |s| - DateCount(s, date)
  {
    if s != [] {
      KeptLength(s[1..], date, keep);
    }
  }

  /** At most one entry per date. */
  predicate UniqueDates(s: seq<MoodEntry>)
  {
    forall i, j :: 0 <= i < j < |s| ==> s[i].date != s[j].date
  }

  /** Filtering keeps dates distinct. */
  lemma {:induction false} FilterKeepsUnique(s: seq<MoodEntry>, keep: MoodEntry -> bool)
    requires UniqueDates(s)
    ensures UniqueDates(Filter(s, keep))
  {
    if s != [] {
      var t := s[1..];
      assert UniqueDates(t) by {
        forall i, j | 0 <= i < j < |t| ensures t[i].date != t[j].date {
          assert t[i] == s[i + 1] && t[j] == s[j + 1];
        }
      }
      FilterKeepsUnique(t, keep);
      var rest := Filter(t, keep);
      if keep(s[0]) {
        forall k | 0 <= k < |rest| ensures rest[k].date != s[0].date {
          assert rest[k] in rest;
          var j :| 0 <= j < |t| && t[j] == rest[k];
          assert s[j + 1] == rest[k];
        }
        assert Filter(s, keep) == [s[0]] + rest;
      }
    }
  }

  /** The list after `handleSaveMood`: the entries of other dates in their order, then the
      new entry, so it is the only entry for its date and the last one. */
  function SavedMoods(prev: seq<MoodEntry>, entry: MoodEntry): (r: seq<MoodEntry>)
    ensures |r| == |prev| - DateCount(prev, entry.date) + 1
    ensures r[|r| - 1] == entry
    ensures forall i :: 0 <= i < |r| - 1 ==> r[i].date != entry.date
    ensures IsSubsequence(r[..|r| - 1], prev)
    ensures forall m {:trigger m in r} :: m in r <==> m == entry || (m in prev && m.date != entry.date)
    ensures UniqueDates(prev) ==> UniqueDates(r)
  {
    var keep := (m: MoodEntry) => m.date != entry.date;
    var kept := Filter(prev, keep);
    KeptLength(prev, entry.date, keep);
    var r := kept + [entry];
    assert r[..|r| - 1] == kept;
    assert forall i :: 0 <= i < |r| - 1 ==> r[i].date != entry.date by {
      forall i | 0 <= i < |r| - 1 ensures r[i].date != entry.date {
        assert r[i] in kept;
      }
    }
    assert UniqueDates(prev) ==> UniqueDates(kept) by {
      if UniqueDates(prev) {
        FilterKeepsUnique(prev, keep);
      }
    }
    r
  }

  /** `getTodayMood`: the first entry for the selected day, or for today. */
  function TodayMood(moods: seq<MoodEntry>, selectedDate: Option<string>, today: int): (r: Option<MoodEntry>)
    ensures r.None? <==> forall i :: 0 <= i < |moods| ==> moods[i].date != SelectedOrToday(selectedDate, today)
    ensures r.Some? ==> exists k :: 0 <= k < |moods| && moods[k] == r.value &&
                                   r.value.date == SelectedOrToday(selectedDate, today) &&
                                   forall j :: 0 <= j < k ==> moods[j].date != SelectedOrToday(selectedDate, today)
  {
    var date := SelectedOrToday(selectedDate, today);
    Find(moods, (m: MoodEntry) => m.date == date)
  }

  /** After a save, looking up the same day finds the entry just saved. */
  lemma SaveThenLookup(prev: seq<MoodEntry>, selectedDate: Option<string>, today: int, mood: Mood, energy: int, notes: string)
    ensures var entry := MoodEntry(SelectedOrToday(selectedDate, today), mood, energy, notes);
            TodayMood(SavedMoods(prev, entry), selectedDate, today) == Some(entry)
  {
    var entry := MoodEntry(SelectedOrToday(selectedDate, today), mood, energy, notes);
    var r := SavedMoods(prev, entry);
    var found := TodayMood(r, selectedDate, today);
    assert found.Some? by {
      assert r[|r| - 1].date == entry.date;
    }
    var k :| 0 <= k < |r| && r[k] == found.value && found.value.date == entry.date &&
             forall j :: 0 <= j < k ==> r[j].date != entry.date;
    assert k == |r| - 1;
  }

  /** `getWeeklyAverage`: 0 with no entries; otherwise the mean mood value of the last
      (at most seven) entries by position, rounded to one decimal. */
  function WeeklyAverage(moods: seq<MoodEntry>): (r: real)
    ensures moods == [] ==> r == 0.0
    ensures moods != [] ==> 1.0 <= r <= 5.0
    ensures moods != [] ==>
              var last := TakeLast(moods, 7);
              var mean := MoodSum(last) as real / |last| as real;
              -0.05 < r - mean <= 0.05
  {
    var last := TakeLast(moods, 7);
    if |last| == 0 then 0.0
    else
      var mean := MoodSum(last) as real / |last| as real;
      AverageWithin(MoodSum(last), |last|, 1, 5);
      RoundWithin(mean * 10.0, 10, 50);
      Round(mean * 10.0) as real / 10.0
  }

  /** The form state of the panel, with the mood list it updates through `setMoods`. */
  class MoodPanel {
    var currentMood: Mood
    var energy: int
    var notes: string
    var moods: seq<MoodEntry>

    /** The form opens on "good", energy 5 and no notes. */
    constructor(initial: seq<MoodEntry>)
      ensures currentMood == Good && energy == 5 && notes == "" && moods == initial
    {
      currentMood := Good;
      energy := 5;
      notes := "";
      moods := initial;
    }

    /** `handleSaveMood`: files the form under the selected day (or today) and clears the
        notes; mood and energy stay as they were. */
    method SaveMood(selectedDate: Option<string>, today: int)
      modifies this
      ensures moods == SavedMoods(old(moods), MoodEntry(SelectedOrToday(selectedDate, today), old(currentMood), old(energy), old(notes)))
      ensures notes == ""
      ensures currentMood == old(currentMood) && energy == old(energy)
    {
      var entry := MoodEntry(SelectedOrToday(selectedDate, today), currentMood, energy, notes);
      moods := SavedMoods(moods, entry);
      notes := "";
    }
  }
}
