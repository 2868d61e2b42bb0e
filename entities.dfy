/** The records the components share: events, mood entries and habits. */
module Entities {
  import opened Wrappers
  import opened DateKeys

  datatype Priority = Low | Medium | High

  datatype Category = Work | Personal | Health | Social | Learning

  /** The string each category is stored as. */
  function CategoryName(c: Category): string
  {
    match c
    case Work => "work"
    case Personal => "personal"
    case Health => "health"
    case Social => "social"
    case Learning => "learning"
  }

  /** Every field of an event except its id: what the event form edits. */
  datatype EventData = EventData(
    title: string,
    description: string,
    date: string,
    time: string,
    color: string,
    priority: Priority,
    category: Category)

  datatype Event = Event(id: string, data: EventData)

  datatype Mood = Excellent | Good | Neutral | Bad | Terrible

  /** The numeric value of a mood, terrible = 1 up to excellent = 5. */
  function MoodValue(m: Mood): (v: int)
    ensures 1 <= v <= 5
  {
    match m
    case Terrible => 1
    case Bad => 2
    case Neutral => 3
    case Good => 4
    case Excellent => 5
  }

  /** The order of moods, best first, as the mood picker lists them. */
  function MoodRank(m: Mood): nat
  {
    match m
    case Excellent => 0
    case Good => 1
    case Neutral => 2
    case Bad => 3
    case Terrible => 4
  }

  /** A better mood always has a larger value, and different moods have different values. */
  lemma MoodValueStrictlyIncreasing(m1: Mood, m2: Mood)
    ensures MoodRank(m1) < MoodRank(m2) <==> MoodValue(m1) > MoodValue(m2)
    ensures MoodValue(m1) == MoodValue(m2) <==> m1 == m2
  {
  }

  datatype MoodEntry = MoodEntry(date: string, mood: Mood, energy: int, notes: string)

  /** The sum of the mood values of a list of entries, as the `reduce` adds them. */
  function MoodSum(moods: seq<MoodEntry>): (r: int)
    ensures |moods| <= r <= 5 * |moods|
  {
    if moods == [] then 0 else MoodValue(moods[0].mood) + MoodSum(moods[1..])
  }

  datatype Habit = Habit(id: string, name: string, color: string, streak: int, completedDates: seq<string>)

  /** `x || fallback` for a value of type `string | null`: null and "" are both falsy. */
  function OrElse(x: Option<string>, fallback: string): (r: string)
    ensures x.Some? && x.value != "" ==> r == x.value
    ensures x == None || x == Some("") ==> r == fallback
  {
    if x.Some? && x.value != "" then x.value else fallback
  }

  /** The day key `selectedDate || today's key` that the mood and habit panels work on:
      the selected date, or today's key when none is selected (an empty selection counts
      as none). */
  function SelectedOrToday(selectedDate: Option<string>, today: int): (d: string)
    ensures Truthy(selectedDate) ==> d == selectedDate.value
    ensures !Truthy(selectedDate) ==> d == KeyOf(today)
  {
    OrElse(selectedDate, KeyOf(today))
  }

  /** A non-null value is truthy unless it is the empty string. */
  predicate Truthy(x: Option<string>)
  {
    x.Some? && x.value != ""
  }
}
