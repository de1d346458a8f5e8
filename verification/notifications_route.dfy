/** The notifications endpoint: `GET` lists the caller's notifications
    newest first, one page at a time, with the caller's unread count; `PUT`
    marks the caller's notifications read, all of them or a listed few. */
module NotificationsRoute {
  import opened Base
  import opened Models
  import opened Sorting
  import opened Paging

  type Store = seq<Notification>

  function CreatedAt(n: Notification): int { n.createdAt }

  /** The listing query: the caller's records, only unread ones when asked. */
  predicate Matches(n: Notification, caller: Id, unreadOnly: bool) {
    n.recipient == caller && (!unreadOnly || !n.isRead)
  }

  function Selected(store: Store, caller: Id, unreadOnly: bool): seq<Notification> {
    Filter(store, (n: Notification) => Matches(n, caller, unreadOnly))
  }

  predicate Unread(n: Notification, caller: Id) {
    n.recipient == caller && !n.isRead
  }

  /** `countDocuments({recipient: caller, isRead: false})`. */
  function CountUnread(store: Store, caller: Id): nat {
    if store == [] then 0
    else (if Unread(store[0], caller) then 1 else 0) + CountUnread(store[1..], caller)
  }

  datatype ListReply =
    | ListUnauthorized
    | Listing(notifications: seq<Notification>, unreadCount: nat, pagination: PageInfo)

  /** `GET`: filter, sort newest first, skip `(page - 1) * limit`, take at
      most `limit`; `total` counts with the same filter as the listing, the
      unread count ignores `unreadOnly` and the page. */
  function List(store: Store, caller: Option<Id>, page: int, limit: int, unreadOnly: bool): (r: ListReply)
    requires page >= 1 && limit >= 1
    ensures caller.None? <==> r == ListUnauthorized
    ensures r.Listing? ==>
      r.notifications == Window(SortDesc(Selected(store, caller.value, unreadOnly), CreatedAt), Skip(page, limit), limit)
    ensures r.Listing? ==>
      forall k :: 0 <= k < |r.notifications| ==>
        r.notifications[k] in store && Matches(r.notifications[k], caller.value, unreadOnly)
    ensures r.Listing? ==> SortedDesc(r.notifications, CreatedAt)
    ensures r.Listing? ==>
      && r.unreadCount == CountUnread(store, caller.value)
      && r.pagination == Paginate(page, limit, |Selected(store, caller.value, unreadOnly)|)
  {
    match caller
    case None => ListUnauthorized
    case Some(me) =>
      var skip := Skip(page, limit);
      PageFacts(store, me, unreadOnly, skip, limit);
      var selected := Selected(store, me, unreadOnly);
      Listing(Window(SortDesc(selected, CreatedAt), skip, limit), CountUnread(store, me), Paginate(page, limit, |selected|))
  }

  /** A page cut from the caller's selection, newest first, holds only the
      caller's stored, matching records and stays newest first. */
  lemma PageFacts(store: Store, me: Id, unreadOnly: bool, skip: nat, limit: nat)
    ensures var w := Window(SortDesc(Selected(store, me, unreadOnly), CreatedAt), skip, limit);
      forall k :: 0 <= k < |w| ==> w[k] in store && Matches(w[k], me, unreadOnly)
    ensures SortedDesc(Window(SortDesc(Selected(store, me, unreadOnly), CreatedAt), skip, limit), CreatedAt)
  {
    var selected := Selected(store, me, unreadOnly);
    var sorted := SortDesc(selected, CreatedAt);
    WindowOfSorted(selected, sorted, CreatedAt, skip, limit);
    SelectedFacts(store, me, unreadOnly);
  }

  lemma SelectedFacts(store: Store, caller: Id, unreadOnly: bool)
    ensures forall n :: n in Selected(store, caller, unreadOnly) ==> n in store && Matches(n, caller, unreadOnly)
  {
    var s := Selected(store, caller, unreadOnly);
    forall n | n in s ensures n in store && Matches(n, caller, unreadOnly) {
      var k :| 0 <= k < |s| && s[k] == n;
    }
  }

  /** The unread count is the size of the `unreadOnly` listing's total. */
  lemma {:induction false} CountUnreadIsUnreadTotal(store: Store, caller: Id)
    ensures CountUnread(store, caller) == |Selected(store, caller, true)|
  {
    if store != [] {
      CountUnreadIsUnreadTotal(store[1..], caller);
    }
  }

  /** The record at position `idx` of the newest-first order is listed on
      page `PageOf(idx, limit)` (that is `idx / limit + 1`), a page within
      range. The database orders records with equal creation times afresh
      on every query, so this is stated for selections whose creation times
      are distinct: their order is then the only one
      (`SortDescIsTheOnlyOrder`), and paging through the listing shows
      every matching record once. */
  lemma ListedOnItsPage(store: Store, caller: Id, limit: int, unreadOnly: bool, idx: nat)
    requires limit >= 1 && idx < |Selected(store, caller, unreadOnly)|
    requires DistinctKeys(multiset(Selected(store, caller, unreadOnly)), CreatedAt)
    ensures var sorted := SortDesc(Selected(store, caller, unreadOnly), CreatedAt);
      var page := PageOf(idx, limit);
      var listed := List(store, Some(caller), page, limit, unreadOnly).notifications;
      && page <= PageCount(|sorted|, limit)
      && 0 <= idx - Skip(page, limit) < |listed|
      && listed[idx - Skip(page, limit)] == sorted[idx]
  {
    var sorted := SortDesc(Selected(store, caller, unreadOnly), CreatedAt);
    var page := PageOf(idx, limit);
    WindowOfPageHolds(sorted, limit, idx);
    assert List(store, Some(caller), page, limit, unreadOnly).notifications == Window(sorted, Skip(page, limit), limit);
  }

  datatype MarkRequest = MarkRequest(markAll: bool, notificationIds: Option<seq<Id>>)

  datatype MarkReply = MarkUnauthorized | Marked(message: string)

  /** Only the `isRead` flag may differ between the two records. */
  predicate SameButRead(a: Notification, b: Notification) {
    a.(isRead := b.isRead) == b
  }

  /** `updateMany({recipient: caller, isRead: false}, {isRead: true})`. */
  function MarkAll(store: Store, caller: Id): (r: Store)
    ensures |r| == |store|
    ensures forall k :: 0 <= k < |r| ==>
      SameButRead(store[k], r[k]) && r[k].isRead == (store[k].isRead || store[k].recipient == caller)
  {
    seq(|store|, k requires 0 <= k < |store| =>
      if Unread(store[k], caller) then store[k].(isRead := true) else store[k])
  }

  /** `updateMany({_id: {$in: ids}, recipient: caller}, {isRead: true})`. */
  function MarkIds(store: Store, caller: Id, ids: seq<Id>): (r: Store)
    ensures |r| == |store|
    ensures forall k :: 0 <= k < |r| ==>
      SameButRead(store[k], r[k])
      && r[k].isRead == (store[k].isRead || (store[k].id in ids && store[k].recipient == caller))
  {
    seq(|store|, k requires 0 <= k < |store| =>
      if store[k].id in ids && store[k].recipient == caller then store[k].(isRead := true) else store[k])
  }

  datatype MarkResult = MarkResult(reply: MarkReply, store: Store)

  /** `PUT`: `markAll` wins over a list of ids; with neither, nothing
      changes and success is still reported. */
  function HandleMark(store: Store, caller: Option<Id>, req: MarkRequest): (r: MarkResult)
    ensures caller.None? ==> r == MarkResult(MarkUnauthorized, store)
    ensures caller.Some? ==> r.reply == Marked("Notifications marked as read")
    ensures caller.Some? && req.markAll ==> r.store == MarkAll(store, caller.value)
    ensures caller.Some? && !req.markAll && req.notificationIds.Some? ==>
      r.store == MarkIds(store, caller.value, req.notificationIds.value)
    ensures caller.Some? && !req.markAll && req.notificationIds.None? ==> r.store == store
  {
    match caller
    case None => MarkResult(MarkUnauthorized, store)
    case Some(me) =>
      var store' :=
        if req.markAll then MarkAll(store, me)
        else if req.notificationIds.Some? then MarkIds(store, me, req.notificationIds.value)
        else store;
      MarkResult(Marked("Notifications marked as read"), store')
  }

  /** Two stores that agree, record by record, on which records are the
      caller's unread ones have the same unread count. */
  lemma {:induction false} CountUnreadPointwise(a: Store, b: Store, caller: Id)
    requires |a| == |b|
    requires forall k :: 0 <= k < |a| ==> (Unread(a[k], caller) <==> Unread(b[k], caller))
    ensures CountUnread(a, caller) == CountUnread(b, caller)
  {
    if a != [] {
      CountUnreadPointwise(a[1..], b[1..], caller);
    }
  }

  lemma {:induction false} CountUnreadNone(a: Store, caller: Id)
    requires forall k :: 0 <= k < |a| ==> !Unread(a[k], caller)
    ensures CountUnread(a, caller) == 0
  {
    if a != [] {
      CountUnreadNone(a[1..], caller);
    }
  }

  /** Any `PUT` leaves every other user's records, and unread count, alone;
      it never marks anything unread. */
  lemma MarkTouchesOnlyCaller(store: Store, caller: Id, req: MarkRequest, other: Id)
    requires other != caller
    ensures var s := HandleMark(store, Some(caller), req).store;
      && |s| == |store|
      && (forall k :: 0 <= k < |s| ==> store[k].recipient != caller ==> s[k] == store[k])
      && (forall k :: 0 <= k < |s| ==> store[k].isRead ==> s[k].isRead)
      && CountUnread(s, other) == CountUnread(store, other)
  {
    var s := HandleMark(store, Some(caller), req).store;
    CountUnreadPointwise(store, s, other);
  }

  /** After `markAll` the caller has nothing unread. */
  lemma MarkAllClearsUnread(store: Store, caller: Id)
    ensures CountUnread(MarkAll(store, caller), caller) == 0
  {
    CountUnreadNone(MarkAll(store, caller), caller);
  }

  /** Both marking forms are idempotent. */
  lemma MarkIdempotent(store: Store, caller: Id, ids: seq<Id>)
    ensures MarkAll(MarkAll(store, caller), caller) == MarkAll(store, caller)
    ensures MarkIds(MarkIds(store, caller, ids), caller, ids) == MarkIds(store, caller, ids)
  {
    var a := MarkAll(store, caller);
    var a2 := MarkAll(a, caller);
    assert forall k :: 0 <= k < |a| ==> a2[k] == a[k];
    var b := MarkIds(store, caller, ids);
    var b2 := MarkIds(b, caller, ids);
    assert forall k :: 0 <= k < |b| ==> b2[k] == b[k];
  }

  /** Ids owned by other users are ignored: listing them marks nothing. */
  lemma ForeignIdsIgnored(store: Store, caller: Id, ids: seq<Id>)
    requires forall k :: 0 <= k < |store| && store[k].id in ids ==> store[k].recipient != caller
    ensures MarkIds(store, caller, ids) == store
  {
    var r := MarkIds(store, caller, ids);
    assert forall k :: 0 <= k < |store| ==> r[k] == store[k];
  }
}
