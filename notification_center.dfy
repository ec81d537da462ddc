/**
 * The notification centre (app/mockups/NotificationCenterScreen.tsx): the
 * list of notifications held in component state, its type filter, the
 * unread count and the three handlers that replace the list.
 */
module NotificationCenter {
  import opened Seqs

  datatype NotificationKind = Info | EventNotice | Media | Alert

  /** `activeFilter`: `'all'` or one type. */
  datatype NotificationFilter = AllTypes | OnlyType(kind: NotificationKind)

  datatype Notification = Notification(id: string, title: string, message: string, time: string, kind: NotificationKind, read: bool)

  function OfKind(kind: NotificationKind): Notification -> bool
  {
    (n: Notification) => n.kind == kind
  }

  /** `filteredNotifications`. */
  function FilteredNotifications(ns: seq<Notification>, filter: NotificationFilter): seq<Notification>
  {
    if filter == AllTypes then ns else Filter(ns, OfKind(filter.kind))
  }

  /** With `'all'` the list is shown as is; otherwise exactly the notifications of that type, in order. */
  lemma FilteredNotificationsExact(ns: seq<Notification>, filter: NotificationFilter)
    ensures filter == AllTypes ==> FilteredNotifications(ns, filter) == ns
    ensures IsSubsequence(FilteredNotifications(ns, filter), ns)
    ensures filter.OnlyType? ==>
      forall n :: n in FilteredNotifications(ns, filter) <==> n in ns && n.kind == filter.kind
    ensures filter.OnlyType? ==>
      forall n :: multiset(FilteredNotifications(ns, filter))[n] == if n.kind == filter.kind then multiset(ns)[n] else 0
  {
    if filter.OnlyType? {
      FilterMultiplicity(ns, OfKind(filter.kind));
      FilterIsSubsequence(ns, OfKind(filter.kind));
      FilterMembers(ns, OfKind(filter.kind));
    } else {
      SubsequenceOfSelf(ns);
    }
  }

  lemma {:induction false} SubsequenceOfSelf(ns: seq<Notification>)
    ensures IsSubsequence(ns, ns)
    decreases |ns|
  {
    if ns != [] {
      SubsequenceOfSelf(ns[1..]);
    }
  }

  predicate Unread(n: Notification)
  {
    !n.read
  }

  /** `unreadCount`. */
  function UnreadCount(ns: seq<Notification>): nat
  {
    |Filter(ns, Unread)|
  }

  /** The positions of the unread notifications. */
  ghost function UnreadPositions(ns: seq<Notification>): set<int>
  {
    set i | 0 <= i < |ns| && !ns[i].read
  }

  lemma UnreadPositionsSnoc(init: seq<Notification>, last: Notification)
    ensures UnreadPositions(init + [last]) == UnreadPositions(init) + (if last.read then {} else {|init|})
  {
    var ns := init + [last];
    forall i | i in UnreadPositions(ns) ensures i in UnreadPositions(init) + (if last.read then {} else {|init|}) {
      if i < |init| {
        assert ns[i] == init[i];
      }
    }
    forall i | i in UnreadPositions(init) ensures i in UnreadPositions(ns) {
      assert ns[i] == init[i];
    }
  }

  /** `unreadCount` is the number of notifications whose `read` is false. */
  lemma {:induction false} UnreadCountIsCardinality(ns: seq<Notification>)
    ensures UnreadCount(ns) == |UnreadPositions(ns)|
    decreases |ns|
  {
    if ns != [] {
      var init, last := ns[..|ns| - 1], ns[|ns| - 1];
      assert ns == init + [last];
      UnreadCountIsCardinality(init);
      FilterConcat(init, [last], Unread);
      UnreadPositionsSnoc(init, last);
      assert |init| !in UnreadPositions(init);
    }
  }

  /** The list after `handleMarkAsRead(id)`: `read` flipped on the notifications with that id. */
  function ToggleRead(ns: seq<Notification>, id: string): (r: seq<Notification>)
    ensures |r| == |ns|
    ensures forall i :: 0 <= i < |ns| ==>
      && r[i].(read := ns[i].read) == ns[i]
      && (r[i].read == ns[i].read <==> ns[i].id != id)
  {
    seq(|ns|, i requires 0 <= i < |ns| => if ns[i].id == id then ns[i].(read := !ns[i].read) else ns[i])
  }

  /** Marking the same id twice restores the list. */
  lemma ToggleReadTwice(ns: seq<Notification>, id: string)
    ensures ToggleRead(ToggleRead(ns, id), id) == ns
  {
  }

  /** The list after `handleMarkAllAsRead`. */
  function MarkAllRead(ns: seq<Notification>): (r: seq<Notification>)
    ensures |r| == |ns|
    ensures forall i :: 0 <= i < |ns| ==> r[i].read && r[i].(read := ns[i].read) == ns[i]
  {
    seq(|ns|, i requires 0 <= i < |ns| => ns[i].(read := true))
  }

  /** After marking all as read nothing is unread, and marking again changes nothing. */
  lemma MarkAllReadProperties(ns: seq<Notification>)
    ensures UnreadCount(MarkAllRead(ns)) == 0
    ensures MarkAllRead(MarkAllRead(ns)) == MarkAllRead(ns)
  {
    FilterDropsAll(MarkAllRead(ns), Unread);
  }

  /** The screen's state: the notification list and the type filter. */
  class NotificationCenterState {
    var notifications: seq<Notification>
    var activeFilter: NotificationFilter

    constructor (initial: seq<Notification>)
      ensures notifications == initial && activeFilter == AllTypes
    {
      notifications := initial;
      activeFilter := AllTypes;
    }

    method SetActiveFilter(filter: NotificationFilter)
      modifies this
      ensures activeFilter == filter && notifications == old(notifications)
    {
      activeFilter := filter;
    }

    /** `handleMarkAsRead`: flips `read` on the notifications with that id. */
    method HandleMarkAsRead(id: string)
      modifies this
      ensures notifications == ToggleRead(old(notifications), id)
      ensures activeFilter == old(activeFilter)
    {
      notifications := ToggleRead(notifications, id);
    }

    /** `handleMarkAllAsRead`: every notification read, nothing unread left. */
    method HandleMarkAllAsRead()
      modifies this
      ensures notifications == MarkAllRead(old(notifications))
      ensures UnreadCount(notifications) == 0
      ensures activeFilter == old(activeFilter)
    {
      notifications := MarkAllRead(notifications);
      MarkAllReadProperties(old(notifications));
    }

    /** `handleDeleteAll`: the list is empty, and so are its filtered view and unread count. */
    method HandleDeleteAll()
      modifies this
      ensures notifications == []
      ensures FilteredNotifications(notifications, activeFilter) == [] && UnreadCount(notifications) == 0
      ensures activeFilter == old(activeFilter)
    {
      notifications := [];
    }
  }
}
