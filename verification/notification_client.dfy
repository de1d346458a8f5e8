/** The notification bell in the browser: the list of notifications it
    shows and its unread counter, changed by three events only: a message
    from the live stream, the initial fetch of the listing, and "mark all
    read". The badge label is a function of the counter. */
module NotificationClient {
  import opened Base
  import opened Models
  import NotificationsRoute

  datatype ClientState = ClientState(items: seq<Notification>, unreadCount: int)

  const Initial := ClientState([], 0)

  /** A parsed stream message: a `notification` event with its payload, or
      a message of any other type (the `connected` handshake among them). */
  datatype ServerMessage = NotificationMessage(data: Notification) | OtherMessage(kind: string)

  /** `onmessage`. */
  function OnMessage(s: ClientState, m: ServerMessage): (r: ClientState)
    ensures m.OtherMessage? ==> r == s
    ensures m.NotificationMessage? ==>
      && |r.items| == |s.items| + 1
      && r.items[0] == m.data
      && r.items[1..] == s.items
      && r.unreadCount == s.unreadCount + 1
  {
    match m
    case NotificationMessage(n) => ClientState([n] + s.items, s.unreadCount + 1)
    case OtherMessage(_) => s
  }

  /** What `fetchNotifications` gets back: a network failure, or a JSON body
      whose `notifications` and `unreadCount` fields may be missing (an error
      body has neither). */
  datatype FetchResult =
    | FetchFailed
    | FetchBody(notifications: Option<seq<Notification>>, unreadCount: Option<int>)

  /** `fetchNotifications`: a missing field falls back to `[]` or 0; a
      failed request changes nothing. */
  function OnFetch(s: ClientState, f: FetchResult): (r: ClientState)
    ensures f.FetchFailed? ==> r == s
    ensures f.FetchBody? ==>
      && (f.notifications.Some? ==> r.items == f.notifications.value)
      && (f.notifications.None? ==> r.items == [])
      && (f.unreadCount.Some? ==> r.unreadCount == f.unreadCount.value)
      && (f.unreadCount.None? ==> r.unreadCount == 0)
  {
    match f
    case FetchFailed => s
    case FetchBody(ns, c) => ClientState(ns.GetOr([]), c.GetOr(0))
  }

  /** `markAllAsRead`: only a request that throws (a network failure, not an
      error status) leaves the state as it was. */
  function MarkAllAsRead(s: ClientState, requestFailed: bool): (r: ClientState)
    ensures requestFailed ==> r == s
    ensures !requestFailed ==>
      && r.unreadCount == 0
      && |r.items| == |s.items|
      && forall k :: 0 <= k < |r.items| ==> r.items[k] == s.items[k].(isRead := true)
  {
    if requestFailed then s
    else ClientState(seq(|s.items|, k requires 0 <= k < |s.items| => s.items[k].(isRead := true)), 0)
  }

  function DigitChar(d: int): (c: char)
    requires 0 <= d <= 9
    ensures '0' <= c <= '9'
  {
    ('0' as int + d) as char
  }

  function DigitValue(c: char): int {
    c as int - '0' as int
  }

  /** The bell's badge: hidden at zero (or below), `9+` above nine, else the
      count as one digit. */
  function Badge(count: int): (shown: Option<string>)
    ensures shown.None? <==> count <= 0
    ensures shown == Some("9+") <==> count > 9
    ensures 1 <= count <= 9 ==>
      shown.Some? && |shown.value| == 1 && '1' <= shown.value[0] <= '9'
  {
    if count <= 0 then None
    else if count > 9 then Some("9+")
    else Some([DigitChar(count)])
  }

  /** The label is faithful: a one-character label reads back as the count. */
  lemma BadgeReadsBack(count: int)
    requires 1 <= count <= 9
    ensures DigitValue(Badge(count).value[0]) == count
  {
  }

  /** Unread records among those shown. */
  function UnreadShown(items: seq<Notification>): (n: nat)
    ensures n <= |items|
  {
    if items == [] then 0
    else (if items[0].isRead then 0 else 1) + UnreadShown(items[1..])
  }

  /** The counter matches the list whenever it did before and each new event
      carries an unread record, and "mark all read" re-establishes the match:
      a fresh bell and one after "mark all read" satisfy it. */
  lemma OnMessageKeepsCounterInStep(s: ClientState, m: ServerMessage)
    requires s.unreadCount == UnreadShown(s.items)
    requires m.NotificationMessage? ==> !m.data.isRead
    ensures var r := OnMessage(s, m); r.unreadCount == UnreadShown(r.items)
  {
    var r := OnMessage(s, m);
    if m.NotificationMessage? {
      assert r.items[1..] == s.items;
    }
  }

  lemma {:induction false} AllReadNoneShown(items: seq<Notification>)
    requires forall k :: 0 <= k < |items| ==> items[k].isRead
    ensures UnreadShown(items) == 0
  {
    if items != [] {
      AllReadNoneShown(items[1..]);
    }
  }

  lemma MarkAllPutsCounterInStep(s: ClientState)
    ensures var r := MarkAllAsRead(s, false); r.unreadCount == UnreadShown(r.items) == 0
    ensures Badge(MarkAllAsRead(s, false).unreadCount).None?
  {
    AllReadNoneShown(MarkAllAsRead(s, false).items);
  }

  /** The bell mirrors the server: loading a listing shows exactly its page
      and the caller's unread total, and "mark all read" then shows the same
      records the server's `markAll` produces for them. */
  lemma FetchThenMarkMirrorsServer(store: NotificationsRoute.Store, caller: Id, page: int, limit: int, s: ClientState)
    requires page >= 1 && limit >= 1
    ensures var listing := NotificationsRoute.List(store, Some(caller), page, limit, false);
      var loaded := OnFetch(s, FetchBody(Some(listing.notifications), Some(listing.unreadCount)));
      var marked := MarkAllAsRead(loaded, false);
      && loaded.items == listing.notifications
      && loaded.unreadCount == NotificationsRoute.CountUnread(store, caller)
      && marked.items == NotificationsRoute.MarkAll(listing.notifications, caller)
      && marked.unreadCount == NotificationsRoute.CountUnread(NotificationsRoute.MarkAll(store, caller), caller)
  {
    var listing := NotificationsRoute.List(store, Some(caller), page, limit, false);
    var loaded := OnFetch(s, FetchBody(Some(listing.notifications), Some(listing.unreadCount)));
    var marked := MarkAllAsRead(loaded, false);
    var server := NotificationsRoute.MarkAll(listing.notifications, caller);
    assert |marked.items| == |server|;
    forall k | 0 <= k < |server| ensures marked.items[k] == server[k] {
      assert listing.notifications[k].recipient == caller;
    }
    NotificationsRoute.MarkAllClearsUnread(store, caller);
  }
}
