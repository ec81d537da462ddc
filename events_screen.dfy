/**
 * The events screen (app/mockups/EventsScreen.tsx): the events handed to the
 * calendar, the chronological list, the events of the selected day and the
 * calendar/list view switch.
 */
module EventsScreen {
  import opened Options
  import opened Seqs
  import opened Calendar

  datatype ViewMode = CalendarView | ListView
  datatype EventStatus = Upcoming | Ongoing | Registered | Past

  /** An event of the screen; its `date` is a day, as every event is created at midnight. */
  datatype Event = Event(
    id: string,
    title: string,
    date: Date,
    time: string,
    location: string,
    speaker: Option<string>,
    description: Option<string>,
    status: EventStatus)

  /** One entry of `calendarEvents`: registered events are `important`, all others `normal`. */
  function ToCalendarEvent(e: Event): (c: CalendarEvent)
    ensures c.id == e.id && c.date == e.date && c.title == e.title
    ensures c.kind == Some("important") <==> e.status == Registered
    ensures c.kind == Some("normal") <==> e.status != Registered
  {
    CalendarEvent(e.id, e.date, e.title, Some(if e.status == Registered then "important" else "normal"))
  }

  /** `calendarEvents`: the events mapped one to one, in the same order. */
  function CalendarEvents(events: seq<Event>): (r: seq<CalendarEvent>)
    ensures |r| == |events|
    ensures forall i :: 0 <= i < |r| ==>
      && r[i].id == events[i].id && r[i].date == events[i].date && r[i].title == events[i].title
      && (r[i].kind == Some("important") <==> events[i].status == Registered)
      && (r[i].kind == Some("normal") <==> events[i].status != Registered)
  {
    seq(|events|, i requires 0 <= i < |events| => ToCalendarEvent(events[i]))
  }

  /** The comparator `a.date.getTime() - b.date.getTime()` does not put `a` after `b`. */
  predicate NotLater(a: Event, b: Event)
  {
    DayNumber(a.date) - DayNumber(b.date) <= 0
  }

  /** `listEvents`: a sorted copy; `events` itself is a value and stays as it was. */
  function ListEvents(events: seq<Event>): (r: seq<Event>)
    ensures multiset(r) == multiset(events)
  {
    SortBy(events, NotLater)
  }

  lemma NotLaterTotalPreorder(events: seq<Event>)
    ensures TotalPreorderOn(NotLater, events)
  {
  }

  /**
   * `listEvents` is a permutation of the events in non-decreasing date order,
   * and events of the same date keep their order in `events`.
   */
  lemma ListEventsSorted(events: seq<Event>)
    ensures multiset(ListEvents(events)) == multiset(events)
    ensures var r := ListEvents(events);
      forall i, j :: 0 <= i < j < |r| ==> DayNumber(r[i].date) <= DayNumber(r[j].date)
    ensures forall e :: e in events ==>
      Filter(ListEvents(events), Ties(NotLater, e)) == Filter(events, Ties(NotLater, e))
  {
    NotLaterTotalPreorder(events);
    SortBySorted(events, NotLater);
    forall e | e in events
      ensures Filter(ListEvents(events), Ties(NotLater, e)) == Filter(events, Ties(NotLater, e))
    {
      SortByStable(events, NotLater, e);
    }
  }

  /** For dates read from `Date` getters, that order is the calendar order (year, then month, then day). */
  lemma ListEventsChronological(events: seq<Event>)
    requires forall i :: 0 <= i < |events| ==> ValidDate(events[i].date)
    ensures var r := ListEvents(events);
      forall i, j :: 0 <= i < j < |r| ==> LexLe(r[i].date, r[j].date)
  {
    ListEventsSorted(events);
    var r := ListEvents(events);
    forall i, j | 0 <= i < j < |r| ensures LexLe(r[i].date, r[j].date) {
      assert r[i] in multiset(events) && r[j] in multiset(events);
      assert ValidDate(r[i].date) && ValidDate(r[j].date);
      DayNumberOrder(r[i].date, r[j].date);
    }
  }

  /** `selectedDateEvents`: the events on the selected day (same day of month, month and year). */
  function SelectedDateEvents(events: seq<Event>, selected: Date): seq<Event>
  {
    Filter(events, (e: Event) => IsSameDay(e.date, selected))
  }

  /** Exactly the events of the selected day, in their original order. */
  lemma SelectedDateEventsExact(events: seq<Event>, selected: Date)
    ensures forall e :: e in SelectedDateEvents(events, selected) <==> e in events && e.date == selected
    ensures IsSubsequence(SelectedDateEvents(events, selected), events)
    ensures forall e :: multiset(SelectedDateEvents(events, selected))[e] == if e.date == selected then multiset(events)[e] else 0
  {
    FilterIsSubsequence(events, (e: Event) => IsSameDay(e.date, selected));
    FilterMembers(events, (e: Event) => IsSameDay(e.date, selected));
    FilterMultiplicity(events, (e: Event) => IsSameDay(e.date, selected));
  }

  /** An event of May 2024 with default details. */
  function MayEvent(id: string, day: int): Event
  {
    Event(id, "", Date(2024, 4, day), "10:00", "", None, None, Upcoming)
  }

  /** With two events on 12 May 2024 and one on 13 May, selecting 12 May lists the first two. */
  lemma SelectedDateScenario()
    ensures SelectedDateEvents([MayEvent("1", 12), MayEvent("2", 12), MayEvent("3", 13)], Date(2024, 4, 12))
      == [MayEvent("1", 12), MayEvent("2", 12)]
  {
    var events := [MayEvent("1", 12), MayEvent("2", 12), MayEvent("3", 13)];
    var p := (e: Event) => IsSameDay(e.date, Date(2024, 4, 12));
    assert events[1..][1..] == [MayEvent("3", 13)];
    assert Filter(events[2..], p) == [];
  }

  function Toggled(mode: ViewMode): ViewMode
  {
    if mode == CalendarView then ListView else CalendarView
  }

  /** `toggleViewMode` always changes the mode, and twice restores it. */
  lemma ToggleInvolution(mode: ViewMode)
    ensures Toggled(mode) != mode
    ensures Toggled(Toggled(mode)) == mode
  {
  }

  /** The screen's state; "today" is a parameter as the clock is not part of the model. */
  class EventsScreenState {
    var viewMode: ViewMode
    var selectedDate: Date

    constructor (today: Date)
      ensures viewMode == CalendarView && selectedDate == today
    {
      viewMode := CalendarView;
      selectedDate := today;
    }

    method ToggleViewMode()
      modifies this
      ensures viewMode == Toggled(old(viewMode)) && viewMode != old(viewMode)
      ensures selectedDate == old(selectedDate)
    {
      viewMode := if viewMode == CalendarView then ListView else CalendarView;
    }

    method HandleDateSelect(date: Date)
      modifies this
      ensures selectedDate == date && viewMode == old(viewMode)
    {
      selectedDate := date;
    }
  }
}
