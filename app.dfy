/** The application shell: the event list it owns and the handlers that update it, the
    widget switch, the selected date, and the overview counts. */
module App {
  import opened Wrappers
  import opened Seqs
  import opened JsString
  import opened DateKeys
  import opened Gregorian
  import opened Entities

  // ---------------------------------------------------------------------------
  // The event list

  /** `handleAddEvent`: the new event, with the clock reading `nowMs` as its id, goes after
      the existing ones, which stay as they were. */
  function AddEvent(prev: seq<Event>, data: EventData, nowMs: nat): (r: seq<Event>)
    ensures |r| == |prev| + 1
    ensures r[..|prev|] == prev
    ensures r[|prev|].id == NumberToString(nowMs) && r[|prev|].data == data
  {
    prev + [Event(NumberToString(nowMs), data)]
  }

  /** The event at one position after an edit of `eventId`. */
  function EditOne(e: Event, eventId: string, data: EventData): Event
  {
    if e.id == eventId then Event(eventId, data) else e
  }

  /** `handleEditEvent`: the list keeps its length and order; every event with the id takes
      the new fields and keeps its id, every other event is untouched. */
  function EditEvent(prev: seq<Event>, eventId: string, data: EventData): (r: seq<Event>)
    ensures |r| == |prev|
    ensures forall k :: 0 <= k < |prev| && prev[k].id == eventId ==> r[k] == Event(eventId, data)
    ensures forall k :: 0 <= k < |prev| && prev[k].id != eventId ==> r[k] == prev[k]
  {
    if prev == [] then []
    else
      var rest := EditEvent(prev[1..], eventId, data);
      assert forall k :: 1 <= k < |prev| ==> prev[k] == prev[1..][k - 1];
      [EditOne(prev[0], eventId, data)] + rest
  }

  /** Editing keeps every position's id, so the set of ids is unchanged. */
  lemma EditKeepsIds(prev: seq<Event>, eventId: string, data: EventData)
    ensures var r := EditEvent(prev, eventId, data);
            forall k :: 0 <= k < |prev| ==> r[k].id == prev[k].id
  {
  }

  /** An edit of an id no event has changes nothing. */
  lemma EditAbsent(prev: seq<Event>, eventId: string, data: EventData)
    requires forall k :: 0 <= k < |prev| ==> prev[k].id != eventId
    ensures EditEvent(prev, eventId, data) == prev
  {
    var r := EditEvent(prev, eventId, data);
    assert forall k :: 0 <= k < |prev| ==> r[k] == prev[k];
  }

  /** Editing twice with the same fields is editing once. */
  lemma EditIdempotent(prev: seq<Event>, eventId: string, data: EventData)
    ensures EditEvent(EditEvent(prev, eventId, data), eventId, data) == EditEvent(prev, eventId, data)
  {
    var once := EditEvent(prev, eventId, data);
    var twice := EditEvent(once, eventId, data);
    assert forall k :: 0 <= k < |prev| ==> twice[k] == once[k];
  }

  /** `handleDeleteEvent`: every event with the id goes, the others keep their order. */
  function DeleteEvent(prev: seq<Event>, eventId: string): (r: seq<Event>)
    ensures forall e :: e in r <==> e in prev && e.id != eventId
    ensures forall e {:trigger multiset(r)[e]} :: multiset(r)[e] == if e.id != eventId then multiset(prev)[e] else 0
    ensures IsSubsequence(r, prev)
    ensures (forall k :: 0 <= k < |prev| ==> prev[k].id != eventId) ==> r == prev
  {
    var keep := (e: Event) => e.id != eventId;
    if forall k :: 0 <= k < |prev| ==> prev[k].id != eventId then
      FilterAll(prev, keep);
      Filter(prev, keep)
    else
      Filter(prev, keep)
  }

  /** Deleting the id an add has just used undoes the add, and also removes any older event
      that happened to get the same id. */
  lemma {:induction false} DeleteUndoesAdd(prev: seq<Event>, data: EventData, nowMs: nat)
    ensures var id := NumberToString(nowMs);
            DeleteEvent(AddEvent(prev, data, nowMs), id) == DeleteEvent(prev, id)
  {
    var id := NumberToString(nowMs);
    var keep := (e: Event) => e.id != id;
    var added := AddEvent(prev, data, nowMs);
    FilterAppendRejected(prev, Event(id, data), keep);
    assert added == prev + [Event(id, data)];
  }

  /** `getEventsForDate`: the events filed under exactly that key, in list order. */
  function EventsForDate(events: seq<Event>, date: string): (r: seq<Event>)
    ensures forall e :: e in r <==> e in events && e.data.date == date
    ensures forall e :: multiset(r)[e] == if e.data.date == date then multiset(events)[e] else 0
    ensures IsSubsequence(r, events)
  {
    Filter(events, (e: Event) => e.data.date == date)
  }

  // ---------------------------------------------------------------------------
  // The widget switch

  /** `toggleWidget`: the active widget closes, any other widget opens in its place. */
  function ToggleWidget(active: Option<string>, widget: string): (r: Option<string>)
    ensures active == Some(widget) ==> r.None?
    ensures active != Some(widget) ==> r == Some(widget)
  {
    if active == Some(widget) then None else Some(widget)
  }

  /** Toggling the same widget twice returns to the start exactly when nothing or that
      widget was open; from another open widget it ends with everything closed. */
  lemma ToggleTwice(active: Option<string>, widget: string)
    ensures ToggleWidget(ToggleWidget(active, widget), widget) == active <==>
              active.None? || active == Some(widget)
    ensures active.Some? && active != Some(widget) ==>
              ToggleWidget(ToggleWidget(active, widget), widget).None?
  {
  }

  // ---------------------------------------------------------------------------
  // The overview counts

  /** `s.startsWith(prefix)`. */
  predicate StartsWith(s: string, prefix: string)
  {
    |prefix| <= |s| && s[..|prefix|] == prefix
  }

  /** `new Date().toISOString().slice(0, 7)`: the year and month of the key of `today`,
      "YYYY-MM" in the years 0000 to 9999. */
  function MonthPrefix(today: int): (p: string)
    ensures |p| == 7 && p == KeyOf(today)[..7]
    ensures FourDigitYear(today) ==>
              p == Decimal(CivilOf(today).year, 4) + "-" + Decimal(CivilOf(today).month, 2)
  {
    var key := KeyOf(today);
    KeyOfLength(today);
    if FourDigitYear(today) then
      FormatCivilParts(CivilOf(today));
      assert key[..7] == key[..4] + [key[4]] + key[5..7];
      Take(key, 7)
    else
      Take(key, 7)
  }

  /** The "This Month" count: events whose date starts with the current year and month. */
  function MonthCount(events: seq<Event>, today: int): (n: nat)
    ensures n == |Filter(events, (e: Event) => StartsWith(e.data.date, MonthPrefix(today)))|
    ensures n <= |events|
    ensures n == |events| <==> forall k :: 0 <= k < |events| ==> StartsWith(events[k].data.date, MonthPrefix(today))
  {
    var inMonth := (e: Event) => StartsWith(e.data.date, MonthPrefix(today));
    FilterKeepsAll(events, inMonth);
    |Filter(events, inMonth)|
  }

  /** The "High Priority" count. */
  function HighCount(events: seq<Event>): (n: nat)
    ensures n == |Filter(events, (e: Event) => e.data.priority == High)|
    ensures n <= |events|
    ensures n == |events| <==> forall k :: 0 <= k < |events| ==> events[k].data.priority == High
    ensures n == 0 <==> forall k :: 0 <= k < |events| ==> events[k].data.priority != High
  {
    var high := (e: Event) => e.data.priority == High;
    FilterKeepsAll(events, high);
    var r := Filter(events, high);
    assert r == [] <==> forall k :: 0 <= k < |events| ==> !high(events[k]) by {
      if r != [] {
        assert r[0] in r;
      }
      if exists k :: 0 <= k < |events| && high(events[k]) {
        var k :| 0 <= k < |events| && high(events[k]);
        assert events[k] in r;
      }
    }
    |r|
  }

  // ---------------------------------------------------------------------------
  // The shell's state

  /** The state the application shell owns and its handlers update. */
  class Shell {
    var events: seq<Event>
    var selectedDate: Option<string>
    var showQuote: bool
    var showEventManager: bool
    var hoveredDate: Option<string>
    var activeWidget: Option<string>

    /** The first render: no date selected, nothing open, with the loaded events. */
    constructor(loaded: seq<Event>)
      ensures events == loaded && selectedDate.None? && hoveredDate.None? && activeWidget.None?
      ensures !showQuote && !showEventManager
    {
      events := loaded;
      selectedDate := None;
      showQuote := false;
      showEventManager := false;
      hoveredDate := None;
      activeWidget := None;
    }

    /** `handleDateClick`: selects the day and opens its quote. */
    method DateClick(date: string)
      modifies this
      ensures selectedDate == Some(date) && showQuote
      ensures events == old(events) && showEventManager == old(showEventManager)
      ensures hoveredDate == old(hoveredDate) && activeWidget == old(activeWidget)
    {
      selectedDate := Some(date);
      showQuote := true;
    }

    /** `handleDateHover`. */
    method DateHover(date: Option<string>)
      modifies this
      ensures hoveredDate == date
      ensures events == old(events) && selectedDate == old(selectedDate) && showQuote == old(showQuote)
      ensures showEventManager == old(showEventManager) && activeWidget == old(activeWidget)
    {
      hoveredDate := date;
    }

    method AddEventNow(data: EventData, nowMs: nat)
      modifies this
      ensures events == AddEvent(old(events), data, nowMs)
      ensures selectedDate == old(selectedDate) && showQuote == old(showQuote) && hoveredDate == old(hoveredDate)
      ensures showEventManager == old(showEventManager) && activeWidget == old(activeWidget)
    {
      events := AddEvent(events, data, nowMs);
    }

    method EditEventNow(eventId: string, data: EventData)
      modifies this
      ensures events == EditEvent(old(events), eventId, data)
      ensures selectedDate == old(selectedDate) && showQuote == old(showQuote) && hoveredDate == old(hoveredDate)
      ensures showEventManager == old(showEventManager) && activeWidget == old(activeWidget)
    {
      events := EditEvent(events, eventId, data);
    }

    method DeleteEventNow(eventId: string)
      modifies this
      ensures events == DeleteEvent(old(events), eventId)
      ensures selectedDate == old(selectedDate) && showQuote == old(showQuote) && hoveredDate == old(hoveredDate)
      ensures showEventManager == old(showEventManager) && activeWidget == old(activeWidget)
    {
      events := DeleteEvent(events, eventId);
    }

    /** `handleQuickAdd`: selects today and opens the event form. */
    method QuickAdd(today: int)
      modifies this
      ensures selectedDate == Some(KeyOf(today)) && showEventManager
      ensures events == old(events) && showQuote == old(showQuote)
      ensures hoveredDate == old(hoveredDate) && activeWidget == old(activeWidget)
    {
      selectedDate := Some(KeyOf(today));
      showEventManager := true;
    }

    /** `toggleWidget`. */
    method Toggle(widget: string)
      modifies this
      ensures activeWidget == ToggleWidget(old(activeWidget), widget)
      ensures events == old(events) && selectedDate == old(selectedDate) && showQuote == old(showQuote)
      ensures showEventManager == old(showEventManager) && hoveredDate == old(hoveredDate)
    {
      activeWidget := ToggleWidget(activeWidget, widget);
    }
  }
}
