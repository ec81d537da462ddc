/**
 * The attendance screen: a timeline of months, each holding the events a
 * member was expected at with their presence status. The screen shows one
 * month (the selected one, or the first) and the overall counts of present,
 * late and absent events together with the attendance rate.
 */
module PresenceScreen {
  import opened Options
  import opened Seqs
  import opened Text

  datatype PresenceStatus = Present | Absent | Late | Unknown

  datatype PresenceEvent = PresenceEvent(
    id: string,
    title: string,
    date: string,
    time: string,
    status: PresenceStatus,
    location: Option<string>,
    eventType: Option<string>)

  /** A month of the timeline; its precomputed display rate is a float and is not modelled. */
  datatype TimelineMonth = TimelineMonth(month: string, year: string, events: seq<PresenceEvent>)

  // ---------------------------------------------------------------------
  // The displayed month

  /** Index `i` holds the first month of the timeline called `name`. */
  predicate FirstNamedAt(timeline: seq<TimelineMonth>, name: string, i: int)
  {
    0 <= i < |timeline| && timeline[i].month == name &&
    forall j :: 0 <= j < i ==> timeline[j].month != name
  }

  /** `timelineData.find(month => month.month === name)`. */
  function FindMonth(timeline: seq<TimelineMonth>, name: string): (r: Option<TimelineMonth>)
    ensures r.None? <==> forall i :: 0 <= i < |timeline| ==> timeline[i].month != name
    ensures r.Some? ==> r.value.month == name
    decreases |timeline|
  {
    if timeline == [] then None
    else if timeline[0].month == name then Some(timeline[0])
    else FindMonth(timeline[1..], name)
  }

  /** What `find` returns is the first month of that name. */
  lemma {:induction false} FindMonthFirst(timeline: seq<TimelineMonth>, name: string)
    ensures FindMonth(timeline, name).Some? ==>
      exists i :: FirstNamedAt(timeline, name, i) && timeline[i] == FindMonth(timeline, name).value
    decreases |timeline|
  {
    if timeline != [] {
      if timeline[0].month == name {
        assert FirstNamedAt(timeline, name, 0);
      } else if FindMonth(timeline, name).Some? {
        FindMonthFirst(timeline[1..], name);
        var i :| FirstNamedAt(timeline[1..], name, i) && timeline[1..][i] == FindMonth(timeline, name).value;
        assert FirstNamedAt(timeline, name, i + 1);
      }
    }
  }

  /**
   * `displayedData`: with a (truthy) selected month name, the first month of
   * that name, or nothing; with none, the first month of the timeline, which
   * is nothing when the timeline is empty.
   */
  function DisplayedData(timeline: seq<TimelineMonth>, selectedMonth: Option<string>): (r: Option<TimelineMonth>)
    ensures !Truthy(selectedMonth) ==> (r.Some? <==> timeline != []) && (r.Some? ==> r.value == timeline[0])
    ensures Truthy(selectedMonth) ==>
      (r.None? <==> forall i :: 0 <= i < |timeline| ==> timeline[i].month != selectedMonth.value)
    ensures Truthy(selectedMonth) && r.Some? ==> r.value.month == selectedMonth.value
  {
    if Truthy(selectedMonth) then FindMonth(timeline, selectedMonth.value)
    else if timeline != [] then Some(timeline[0])
    else None
  }

  /** The month selector highlights month `index` when it is the selected one, or, with no selection, the first. */
  predicate Highlighted(timeline: seq<TimelineMonth>, selectedMonth: Option<string>, index: int)
    requires 0 <= index < |timeline|
  {
    selectedMonth == Some(timeline[index].month) || (!Truthy(selectedMonth) && index == 0)
  }

  /**
   * The displayed month is the first highlighted entry of the selector, and
   * nothing is displayed exactly when no entry is highlighted.
   */
  lemma DisplayedIsFirstHighlighted(timeline: seq<TimelineMonth>, selectedMonth: Option<string>)
    ensures DisplayedData(timeline, selectedMonth).None? <==>
      forall i :: 0 <= i < |timeline| ==> !Highlighted(timeline, selectedMonth, i)
    ensures DisplayedData(timeline, selectedMonth).Some? ==>
      exists i :: 0 <= i < |timeline| && Highlighted(timeline, selectedMonth, i) &&
        DisplayedData(timeline, selectedMonth) == Some(timeline[i]) &&
        forall j :: 0 <= j < i ==> !Highlighted(timeline, selectedMonth, j)
  {
    var r := DisplayedData(timeline, selectedMonth);
    if Truthy(selectedMonth) {
      var name := selectedMonth.value;
      if r.Some? {
        FindMonthFirst(timeline, name);
        var i :| FirstNamedAt(timeline, name, i) && timeline[i] == r.value;
        assert Highlighted(timeline, selectedMonth, i);
      } else {
        forall i | 0 <= i < |timeline| ensures !Highlighted(timeline, selectedMonth, i) {
          assert timeline[i].month != name;
        }
      }
    } else if timeline != [] {
      assert Highlighted(timeline, selectedMonth, 0);
    }
  }

  /**
   * Pressing a month of the selector (which stores its name) displays that
   * month, provided month names are non-empty and pairwise distinct, as they
   * are in the timeline the screen shows.
   */
  lemma PressedMonthIsDisplayed(timeline: seq<TimelineMonth>, index: int)
    requires 0 <= index < |timeline|
    requires forall i :: 0 <= i < |timeline| ==> timeline[i].month != ""
    requires forall i, j :: 0 <= i < j < |timeline| ==> timeline[i].month != timeline[j].month
    ensures DisplayedData(timeline, Some(timeline[index].month)) == Some(timeline[index])
  {
    var name := timeline[index].month;
    var r := DisplayedData(timeline, Some(name));
    assert Truthy(Some(name));
    assert r.Some?;
    FindMonthFirst(timeline, name);
    var i :| FirstNamedAt(timeline, name, i) && timeline[i] == r.value;
    assert i == index;
  }

  // ---------------------------------------------------------------------
  // Counts

  /** Every event of the timeline, month after month. */
  function AllEvents(timeline: seq<TimelineMonth>): seq<PresenceEvent>
    decreases |timeline|
  {
    if timeline == [] then [] else timeline[0].events + AllEvents(timeline[1..])
  }

  /** `totalEvents`: the event counts of the months, added up. */
  function TotalEvents(timeline: seq<TimelineMonth>): (n: nat)
    decreases |timeline|
  {
    if timeline == [] then 0 else |timeline[0].events| + TotalEvents(timeline[1..])
  }

  function HasStatus(status: PresenceStatus): PresenceEvent -> bool
  {
    (e: PresenceEvent) => e.status == status
  }

  /**
   * `presentEvents`, `lateEvents`, `absentEvents`: per month, the number of
   * events with the given status, added up over the months.
   */
  function StatusCount(timeline: seq<TimelineMonth>, status: PresenceStatus): (n: nat)
    decreases |timeline|
  {
    if timeline == [] then 0
    else CountWhere(timeline[0].events, HasStatus(status)) + StatusCount(timeline[1..], status)
  }

  /** The total is the number of events of the whole timeline. */
  lemma {:induction false} TotalEventsCountsAll(timeline: seq<TimelineMonth>)
    ensures TotalEvents(timeline) == |AllEvents(timeline)|
    decreases |timeline|
  {
    if timeline != [] {
      TotalEventsCountsAll(timeline[1..]);
    }
  }

  /** A status count is the number of events of the whole timeline that have exactly that status. */
  lemma {:induction false} StatusCountCountsAll(timeline: seq<TimelineMonth>, status: PresenceStatus)
    ensures StatusCount(timeline, status) == |Filter(AllEvents(timeline), HasStatus(status))|
    decreases |timeline|
  {
    if timeline != [] {
      StatusCountCountsAll(timeline[1..], status);
      FilterConcat(timeline[0].events, AllEvents(timeline[1..]), HasStatus(status));
    }
  }

  /** Every event has exactly one of the four statuses. */
  lemma {:induction false} StatusesPartitionMonth(events: seq<PresenceEvent>)
    ensures CountWhere(events, HasStatus(Present)) + CountWhere(events, HasStatus(Late)) +
            CountWhere(events, HasStatus(Absent)) + CountWhere(events, HasStatus(Unknown)) == |events|
    decreases |events|
  {
    if events != [] {
      StatusesPartitionMonth(events[1..]);
      CountWhereCons(events, HasStatus(Present));
      CountWhereCons(events, HasStatus(Late));
      CountWhereCons(events, HasStatus(Absent));
      CountWhereCons(events, HasStatus(Unknown));
    }
  }

  /** Over the timeline, the four status counts add up to the total. */
  lemma {:induction false} StatusesPartition(timeline: seq<TimelineMonth>)
    ensures StatusCount(timeline, Present) + StatusCount(timeline, Late) +
            StatusCount(timeline, Absent) + StatusCount(timeline, Unknown) == TotalEvents(timeline)
    decreases |timeline|
  {
    if timeline != [] {
      StatusesPartitionMonth(timeline[0].events);
      StatusesPartition(timeline[1..]);
    }
  }

  /** Present, late and absent events together never exceed the total: the unknown ones are in none of them. */
  lemma AttendanceWithinTotal(timeline: seq<TimelineMonth>)
    ensures StatusCount(timeline, Present) + StatusCount(timeline, Late) + StatusCount(timeline, Absent)
            == TotalEvents(timeline) - StatusCount(timeline, Unknown)
    ensures StatusCount(timeline, Present) + StatusCount(timeline, Late) + StatusCount(timeline, Absent)
            <= TotalEvents(timeline)
  {
    StatusesPartition(timeline);
  }

  /**
   * `overallPresenceRate` as the integer fraction it is computed from: the
   * present and late events over all events.
   */
  function OverallRate(timeline: seq<TimelineMonth>): (rate: (nat, nat))
    ensures rate.0 <= rate.1
    ensures rate.1 == |AllEvents(timeline)|
    ensures rate.0 + StatusCount(timeline, Absent) + StatusCount(timeline, Unknown) == rate.1
  {
    StatusesPartition(timeline);
    TotalEventsCountsAll(timeline);
    (StatusCount(timeline, Present) + StatusCount(timeline, Late), TotalEvents(timeline))
  }
}
