/** The notification store: the loaded notifications with the count of
    unread ones, the local effects of marking one or all as read, and the
    view filtered by type. The count is kept equal to the number of unread
    notifications by every operation. */
module NotificationStore {
  import opened Base
  import opened Lists

  datatype NotificationType =
    | DeviceAdded | DeviceRemoved | DeviceStatusChanged | DeviceMaintenance
    | EmployeeAdded | EmployeeUpdated | EmployeeRemoved
    | LicenseExpiring | LicenseAdded | LicenseRenewed | LicenseThreshold

  datatype Severity = Info | Warning | Critical

  /** A reading of the clock, `new Date().toISOString()`: never empty. */
  type Timestamp = s: string | s != "" witness "1970-01-01T00:00:00.000Z"

  /** A notification; `readAt` is `None` for a null `read_at`. */
  datatype Notification = Notification(id: string, notificationType: NotificationType, title: string,
                                       message: string, severity: Severity, readAt: Option<string>,
                                       createdAt: string)

  /** `!n.read_at`: null or the empty string, both falsy; any timestamp
      makes the notification read. */
  function IsUnread(n: Notification): (unread: bool)
    ensures unread <==> |n.readAt.GetOr("")| == 0
  {
    n.readAt == None || n.readAt == Some("")
  }

  /** `notifications.filter(n => !n.read_at).length`. */
  function UnreadCount(ns: seq<Notification>): (count: nat)
    ensures count <= |ns|
    ensures count == 0 <==> forall i :: 0 <= i < |ns| ==> !IsUnread(ns[i])
  {
    if ns == [] then 0 else (if IsUnread(ns[0]) then 1 else 0) + UnreadCount(ns[1..])
  }

  /** The count is the length of the list of unread notifications. */
  lemma {:induction false} UnreadCountIsFilterLength(ns: seq<Notification>)
    ensures UnreadCount(ns) == |Filter(IsUnread, ns)|
  {
    if ns != [] {
      UnreadCountIsFilterLength(ns[1..]);
      assert Filter(IsUnread, ns) == (if IsUnread(ns[0]) then [ns[0]] else []) + Filter(IsUnread, ns[1..]);
    }
  }

  /** The local effect of `markAsRead(id)`: every notification with the id
      gets the timestamp `now`, and only its timestamp; the others are
      kept. */
  function MarkRead(ns: seq<Notification>, id: string, now: Timestamp): (r: seq<Notification>)
    ensures |r| == |ns|
    ensures forall i :: 0 <= i < |ns| && ns[i].id == id ==> r[i] == ns[i].(readAt := Some(now))
    ensures forall i :: 0 <= i < |ns| && ns[i].id != id ==> r[i] == ns[i]
  {
    if ns == [] then []
    else [if ns[0].id == id then ns[0].(readAt := Some(now)) else ns[0]] + MarkRead(ns[1..], id, now)
  }

  /** The local effect of `markAllAsRead`: unread notifications get the
      timestamp `now`, read ones keep theirs, and nothing is left unread. */
  function MarkAllRead(ns: seq<Notification>, now: Timestamp): (r: seq<Notification>)
    ensures |r| == |ns|
    ensures forall i :: 0 <= i < |ns| && !IsUnread(ns[i]) ==> r[i] == ns[i]
    ensures forall i :: 0 <= i < |ns| && IsUnread(ns[i]) ==> r[i] == ns[i].(readAt := Some(now))
    ensures UnreadCount(r) == 0
  {
    if ns == [] then []
    else [if IsUnread(ns[0]) then ns[0].(readAt := Some(now)) else ns[0]] + MarkAllRead(ns[1..], now)
  }

  /** `getFilteredNotifications(type)`: all notifications without a type,
      otherwise those of the type, in order. */
  function FilteredNotifications(ns: seq<Notification>, t: Option<NotificationType>): (shown: seq<Notification>)
    ensures t.None? ==> shown == ns
    ensures IsSubsequence(shown, ns)
    ensures t.Some? ==> forall n :: n in shown <==> n in ns && n.notificationType == t.value
  {
    if t.None? then
      FilterKeepsAll((n: Notification) => true, ns);
      ns
    else Filter((n: Notification) => n.notificationType == t.value, ns)
  }

  // ------------------------------------------------------------ properties

  /** Marking a notification with a real timestamp never adds unread ones;
      marking an id none of whose notifications is unread changes the count
      not at all (though it overwrites their timestamps). */
  lemma {:induction false} MarkReadCount(ns: seq<Notification>, id: string, now: Timestamp)
    ensures UnreadCount(MarkRead(ns, id, now)) <= UnreadCount(ns)
    ensures (forall i :: 0 <= i < |ns| && ns[i].id == id ==> !IsUnread(ns[i]))
            ==> UnreadCount(MarkRead(ns, id, now)) == UnreadCount(ns)
    ensures (exists i :: 0 <= i < |ns| && ns[i].id == id && IsUnread(ns[i]))
            ==> UnreadCount(MarkRead(ns, id, now)) < UnreadCount(ns)
  {
    if ns != [] {
      MarkReadCount(ns[1..], id, now);
      var r := MarkRead(ns, id, now);
      assert r[1..] == MarkRead(ns[1..], id, now);
      assert UnreadCount(r) == (if IsUnread(r[0]) then 1 else 0) + UnreadCount(r[1..]);
      if ns[0].id == id {
        assert !IsUnread(r[0]);
      } else {
        assert r[0] == ns[0];
      }
      assert forall k :: 0 <= k < |ns[1..]| ==> ns[1..][k] == ns[k + 1];
      if exists i :: 0 <= i < |ns| && ns[i].id == id && IsUnread(ns[i]) {
        var i :| 0 <= i < |ns| && ns[i].id == id && IsUnread(ns[i]);
        if i > 0 {
          assert ns[1..][i - 1] == ns[i];
        }
      }
    }
  }

  // --------------------------------------------------------------- state

  class NotificationStoreState {
    var notifications: seq<Notification>
    var unreadCount: nat
    var isLoading: bool
    var error: Option<string>

    /** The count shown is the number of unread notifications. */
    predicate Valid()
      reads this
    {
      unreadCount == UnreadCount(notifications)
    }

    constructor()
      ensures Valid()
      ensures notifications == [] && unreadCount == 0 && !isLoading && error == None
    {
      notifications := [];
      unreadCount := 0;
      isLoading := false;
      error := None;
    }

    /** `fetchNotifications`, given what the API returned. */
    method FetchNotifications(response: Call<seq<Notification>>)
      requires Valid()
      modifies this
      ensures Valid()
      ensures !isLoading
      ensures response.Returned? ==> notifications == response.value && error == None
      ensures response.Threw? ==> notifications == old(notifications) && unreadCount == old(unreadCount)
                                  && error == Some(MessageOr(response.error, "Failed to fetch notifications"))
    {
      isLoading := true;
      error := None;
      match response
      case Returned(fetched) =>
        notifications := fetched;
        unreadCount := UnreadCount(fetched);
        isLoading := false;
      case Threw(e) =>
        error := Some(MessageOr(e, "Failed to fetch notifications"));
        isLoading := false;
    }

    /** `markAsRead(id)`, given what the API call did and the clock's
        reading; a rejection is recorded and rethrown with the list and the
        count untouched. */
    method MarkAsRead(id: string, now: Timestamp, response: Call<()>) returns (thrown: Option<Thrown>)
      requires Valid()
      modifies this
      ensures Valid()
      ensures response.Returned? ==> thrown == None && notifications == MarkRead(old(notifications), id, now)
                                     && error == old(error)
      ensures response.Threw? ==> thrown == Some(response.error) && notifications == old(notifications)
                                  && error == Some(MessageOr(response.error, "Failed to mark notification as read"))
      ensures isLoading == old(isLoading)
    {
      match response
      case Returned(_) =>
        notifications := MarkRead(notifications, id, now);
        unreadCount := UnreadCount(notifications);
        thrown := None;
      case Threw(e) =>
        error := Some(MessageOr(e, "Failed to mark notification as read"));
        thrown := Some(e);
    }

    /** `markAllAsRead`, given what the API call did and the clock's
        reading. */
    method MarkAllAsRead(now: Timestamp, response: Call<()>) returns (thrown: Option<Thrown>)
      requires Valid()
      modifies this
      ensures Valid()
      ensures response.Returned? ==> thrown == None && notifications == MarkAllRead(old(notifications), now)
                                     && unreadCount == 0 && error == old(error)
      ensures response.Threw? ==> thrown == Some(response.error) && notifications == old(notifications)
                                  && error == Some(MessageOr(response.error, "Failed to mark all notifications as read"))
      ensures isLoading == old(isLoading)
    {
      match response
      case Returned(_) =>
        notifications := MarkAllRead(notifications, now);
        unreadCount := 0;
        thrown := None;
      case Threw(e) =>
        error := Some(MessageOr(e, "Failed to mark all notifications as read"));
        thrown := Some(e);
    }

    /** `getFilteredNotifications(type)` on the current state. */
    function GetFilteredNotifications(t: Option<NotificationType>): (shown: seq<Notification>)
      reads this
      ensures t.None? ==> shown == notifications
      ensures t.Some? ==> forall n :: n in shown <==> n in notifications && n.notificationType == t.value
    {
      FilteredNotifications(notifications, t)
    }
  }
}
