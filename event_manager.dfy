/** The event panel: the add/edit form as a small state machine, the list of events it
    shows, and the category icons. */
module EventManager {
  import opened Wrappers
  import opened Seqs
  import opened JsString
  import opened Entities
  import App

  /** The empty form: no title, the given date, blue, medium priority, personal. */
  function BlankForm(date: string): (d: EventData)
    ensures d.date == date && d.title == "" && d.description == "" && d.time == ""
    ensures d.color == "#3B82F6" && d.priority == Medium && d.category == Personal
  {
    EventData("", "", date, "", "#3B82F6", Medium, Personal)
  }

  /** The date a fresh form starts on: `selectedDate || ''`. */
  function FormDate(selectedDate: Option<string>): (d: string)
    ensures Truthy(selectedDate) ==> d == selectedDate.value
    ensures !Truthy(selectedDate) ==> d == ""
  {
    OrElse(selectedDate, "")
  }

  /** What a submit asks the application shell to do. */
  datatype Command = NoCommand | AddCommand(data: EventData) | EditCommand(id: string, data: EventData)

  /** The shell's response to a command: `onAddEvent` or `onEditEvent`. */
  function Apply(events: seq<Event>, cmd: Command, nowMs: nat): (r: seq<Event>)
    ensures cmd.NoCommand? ==> r == events
    ensures cmd.AddCommand? ==> |r| == |events| + 1 && r[..|events|] == events && r[|events|].data == cmd.data
    ensures cmd.EditCommand? ==>
              |r| == |events| &&
              forall k :: 0 <= k < |events| ==>
                r[k] == if events[k].id == cmd.id then Event(cmd.id, cmd.data) else events[k]
  {
    match cmd
    case NoCommand => events
    case AddCommand(data) => App.AddEvent(events, data, nowMs)
    case EditCommand(id, data) => App.EditEvent(events, id, data)
  }

  /** `relevantEvents`: the selected day's events, or the first ten when no day is selected. */
  function RelevantEvents(events: seq<Event>, selectedDate: Option<string>): (r: seq<Event>)
    ensures Truthy(selectedDate) ==>
              (forall e :: e in r <==> e in events && e.data.date == selectedDate.value) &&
              (forall e {:trigger multiset(r)[e]} ::
                 multiset(r)[e] == if e.data.date == selectedDate.value then multiset(events)[e] else 0) &&
              IsSubsequence(r, events)
    ensures !Truthy(selectedDate) ==>
              |r| == (if |events| < 10 then |events| else 10) && r == events[..|r|]
  {
    if Truthy(selectedDate) then App.EventsForDate(events, selectedDate.value)
    else
      var first := Take(events, 10);
      assert first == events[..|first|];
      first
  }

  /** The icon of each category; none of them is the fallback icon. */
  function IconOf(c: Category): (icon: string)
    ensures icon != FallbackIcon
  {
    match c
    case Work => "💼"
    case Personal => "🏠"
    case Health => "🏥"
    case Social => "👥"
    case Learning => "📚"
  }

  /** The fallback for a category string that names no category. */
  const FallbackIcon: string := "📅"

  /** The category a stored string names, if any: the `find` over the category list. */
  function CategoryNamed(name: string): (r: Option<Category>)
    ensures r.Some? ==> CategoryName(r.value) == name
    ensures r.None? <==> forall c :: CategoryName(c) != name
  {
    if name == "work" then Some(Work)
    else if name == "personal" then Some(Personal)
    else if name == "health" then Some(Health)
    else if name == "social" then Some(Social)
    else if name == "learning" then Some(Learning)
    else None
  }

  /** `getCategoryIcon`: the icon of the category the string names, else the calendar. */
  function CategoryIcon(name: string): (icon: string)
    ensures icon == FallbackIcon <==> forall c :: CategoryName(c) != name
    ensures forall c :: CategoryName(c) == name ==> icon == IconOf(c)
  {
    match CategoryNamed(name)
    case Some(c) =>
      CategoryNameInjective(c);
      IconOf(c)
    case None => FallbackIcon
  }

  /** Different categories are stored under different names. */
  lemma CategoryNameInjective(c: Category)
    ensures forall d :: CategoryName(d) == CategoryName(c) ==> d == c
  {
  }

  /** The form's state: whether it is open, the event being edited, and the fields. */
  class EventForm {
    var showForm: bool
    var editingEvent: Option<Event>
    var formData: EventData

    /** The first render: closed, editing nothing, a blank form on the selected date. */
    constructor(selectedDate: Option<string>)
      ensures !showForm && editingEvent.None? && formData == BlankForm(FormDate(selectedDate))
    {
      showForm := false;
      editingEvent := None;
      formData := BlankForm(FormDate(selectedDate));
    }

    /** The effect on `selectedDate`: a selected day becomes the form's date; no other field
        changes, and an empty selection changes nothing. */
    method SyncDate(selectedDate: Option<string>)
      modifies this
      ensures Truthy(selectedDate) ==> formData == old(formData).(date := selectedDate.value)
      ensures !Truthy(selectedDate) ==> formData == old(formData)
      ensures showForm == old(showForm) && editingEvent == old(editingEvent)
    {
      if Truthy(selectedDate) {
        formData := formData.(date := selectedDate.value);
      }
    }

    /** `resetForm`: a blank form on the selected date, editing nothing, closed. */
    method ResetForm(selectedDate: Option<string>)
      modifies this
      ensures formData == BlankForm(FormDate(selectedDate)) && editingEvent.None? && !showForm
    {
      formData := BlankForm(FormDate(selectedDate));
      editingEvent := None;
      showForm := false;
    }

    /** `startEdit`: the form opens holding the event's fields. */
    method StartEdit(event: Event)
      modifies this
      ensures editingEvent == Some(event) && formData == event.data && showForm
    {
      editingEvent := Some(event);
      formData := event.data;
      showForm := true;
    }

    /** `handleSubmit`: a blank title does nothing; otherwise the form's fields are handed on,
        as an edit of the event being edited or as a new event, and the form is reset. */
    method Submit(selectedDate: Option<string>) returns (cmd: Command)
      modifies this
      ensures IsBlank(old(formData).title) ==>
                cmd.NoCommand? && formData == old(formData) &&
                editingEvent == old(editingEvent) && showForm == old(showForm)
      ensures !IsBlank(old(formData).title) && old(editingEvent).Some? ==>
                cmd == EditCommand(old(editingEvent).value.id, old(formData))
      ensures !IsBlank(old(formData).title) && old(editingEvent).None? ==>
                cmd == AddCommand(old(formData))
      ensures !IsBlank(old(formData).title) ==>
                formData == BlankForm(FormDate(selectedDate)) && editingEvent.None? && !showForm
    {
      if IsBlank(formData.title) {
        return NoCommand;
      }
      if editingEvent.Some? {
        cmd := EditCommand(editingEvent.value.id, formData);
      } else {
        cmd := AddCommand(formData);
      }
      ResetForm(selectedDate);
    }
  }

  /** Opening an event for editing and submitting it unchanged hands the shell an edit that
      leaves the list exactly as it was, as long as no other event shares its id. */
  lemma EditUnchanged(events: seq<Event>, e: Event, nowMs: nat)
    requires forall k :: 0 <= k < |events| && events[k].id == e.id ==> events[k] == e
    ensures Apply(events, EditCommand(e.id, e.data), nowMs) == events
  {
    var r := Apply(events, EditCommand(e.id, e.data), nowMs);
    assert forall k :: 0 <= k < |events| ==> r[k] == events[k];
  }

  /** A submitted new event shows among the relevant events of its own day, after the
      events that were there before. */
  lemma AddedEventRelevant(events: seq<Event>, data: EventData, nowMs: nat)
    requires data.date != ""
    ensures var r := Apply(events, AddCommand(data), nowMs);
            var shown := RelevantEvents(r, Some(data.date));
            r[|events|] in shown && RelevantEvents(events, Some(data.date)) == shown[..|shown| - 1]
  {
    var r := Apply(events, AddCommand(data), nowMs);
    assert r[|events|] in r;
    assert r == events + [r[|events|]];
    FilterAppendKept(events, r[|events|], (e: Event) => e.data.date == data.date);
  }
}
