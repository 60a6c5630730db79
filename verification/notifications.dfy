/**
 In-app notifications: the per-user listing with its read-state filter and
 paging, reading one or all, creation for one user or many, statistics and
 the cleanup of old read notifications; and the service's guards in front
 of the repository. The table is kept in the order rows were created, so
 newest first is that order reversed.
 */
module Notifications {
  import opened Wrappers
  import opened Collections
  import Paging
  import Text

  datatype Notification = Notification(
    id: int,
    userId: string,
    notificationType: string,
    title: string,
    message: string,
    channel: string,
    priority: string,
    isRead: bool,
    createdAt: int)

  type Store = seq<Notification>

  /** Ids are the table's primary key. */
  ghost predicate Unique(store: Store) {
    forall i, j :: 0 <= i < j < |store| ==> store[i].id != store[j].id
  }

  /** The status filter of a listing. */
  datatype Status = All | Read | Unread

  /** A listing request; absent fields take their defaults. Validation keeps page and limit at least 1. */
  datatype Query = Query(page: Option<int>, limit: Option<int>, status: Option<Status>, notificationType: Option<string>)

  /** Whether a notification is listed for `userId` under a status and an optional type filter. */
  predicate Listed(n: Notification, userId: string, status: Status, notificationType: Option<string>) {
    && n.userId == userId
    && (status == Read ==> n.isRead)
    && (status == Unread ==> !n.isRead)
    && (notificationType.Some? && notificationType.value != "" ==> n.notificationType == notificationType.value)
  }

  /** The `where` clause of a listing, as a filter. */
  function ListedBy(userId: string, status: Status, notificationType: Option<string>): Notification -> bool {
    (n: Notification) => Listed(n, userId, status, notificationType)
  }

  datatype Listing = Listing(
    notifications: seq<Notification>,
    page: int,
    limit: int,
    total: nat,
    totalPages: nat,
    hasNext: bool,
    hasPrev: bool)

  /** The rows a listing draws from, newest first. */
  function Matching(store: Store, userId: string, status: Status, notificationType: Option<string>): (r: seq<Notification>)
    ensures |r| == Count(store, ListedBy(userId, status, notificationType))
    ensures forall i :: 0 <= i < |r| ==> r[i] in store && Listed(r[i], userId, status, notificationType)
    ensures r == Reverse(Filter(store, ListedBy(userId, status, notificationType)))
  {
    var p := ListedBy(userId, status, notificationType);
    var rows := Filter(store, p);
    FilterLength(store, p);
    Reverse(rows)
  }

  /**
   `getNotifications`: page 1, limit 10 and status ALL by default; the
   user's notifications under the status and type filters, newest first,
   `limit` of them after `(page - 1) * limit`; `totalPages` is
   `ceil(total / limit)`, `hasNext` is `page < totalPages` and `hasPrev` is
   `page > 1`.
   */
  function GetNotifications(store: Store, userId: string, q: Query): (r: Listing)
    requires q.page.Some? ==> q.page.value >= 1
    requires q.limit.Some? ==> q.limit.value >= 1
    ensures r.page == q.page.GetOr(1) && r.limit == q.limit.GetOr(10)
    ensures r.total == Count(store, ListedBy(userId, q.status.GetOr(All), q.notificationType))
    ensures |r.notifications| <= r.limit
    ensures forall i :: 0 <= i < |r.notifications| ==>
      r.notifications[i] in store && Listed(r.notifications[i], userId, q.status.GetOr(All), q.notificationType)
    ensures r.notifications ==
      Paging.Window(Matching(store, userId, q.status.GetOr(All), q.notificationType), Paging.Skip(r.page, r.limit), r.limit)
    ensures r.totalPages == Paging.CeilDiv(r.total, r.limit)
    ensures r.hasNext <==> r.page < r.totalPages
    ensures r.hasNext <==> r.page * r.limit < r.total
    ensures r.hasPrev <==> r.page > 1
  {
    var page := q.page.GetOr(1);
    var limit := q.limit.GetOr(10);
    var rows := Matching(store, userId, q.status.GetOr(All), q.notificationType);
    var shown := Paging.Window(rows, Paging.Skip(page, limit), limit);
    var totalPages := Paging.CeilDiv(|rows|, limit);
    Paging.NextPageExists(|rows|, page, limit);
    Listing(shown, page, limit, |rows|, totalPages, page < totalPages, page > 1)
  }

  /**
   Newest first: a notification created for the listed user heads the
   listing, and one the filters leave out does not change it.
   */
  lemma {:induction false} NewestListedFirst(store: Store, n: Notification, userId: string, status: Status,
                                             notificationType: Option<string>)
    ensures Listed(n, userId, status, notificationType) ==>
      Matching(store + [n], userId, status, notificationType) == [n] + Matching(store, userId, status, notificationType)
    ensures !Listed(n, userId, status, notificationType) ==>
      Matching(store + [n], userId, status, notificationType) == Matching(store, userId, status, notificationType)
  {
    var p := ListedBy(userId, status, notificationType);
    FilterAppend(store, [n], p);
    if p(n) {
      assert Filter([n], p) == [n];
      ReverseAppend(Filter(store, p), n);
    } else {
      assert Filter([n], p) == [];
      assert Filter(store, p) + [] == Filter(store, p);
    }
  }

  /** The read and the unread listings split the full listing between them. */
  lemma {:induction false} StatusPartition(store: Store, userId: string, notificationType: Option<string>)
    ensures Count(store, ListedBy(userId, Read, notificationType))
          + Count(store, ListedBy(userId, Unread, notificationType))
         == Count(store, ListedBy(userId, All, notificationType))
  {
    if store != [] {
      StatusPartition(store[1..], userId, notificationType);
    }
  }

  /** `findFirst({ where: { id, userId } })`. */
  function FindOwned(store: Store, userId: string, id: int): (r: Option<nat>)
    ensures r.None? <==> forall i :: 0 <= i < |store| ==> !(store[i].id == id && store[i].userId == userId)
    ensures r.Some? ==> r.value < |store| && store[r.value].id == id && store[r.value].userId == userId
  {
    if store == [] then None
    else if store[0].id == id && store[0].userId == userId then Some(0)
    else match FindOwned(store[1..], userId, id)
      case None => None
      case Some(k) => Some(k + 1)
  }

  /** `getNotification` on the repository: the user's notification with this id, or NotFound. */
  function GetNotification(store: Store, userId: string, id: int): (r: Result<Notification>)
    ensures r.Success? <==> exists i :: 0 <= i < |store| && store[i].id == id && store[i].userId == userId
    ensures r.Success? ==> r.value in store && r.value.id == id && r.value.userId == userId
    ensures r.Failure? ==> r.error == NotFound("Notification not found")
  {
    match FindOwned(store, userId, id)
    case None => Failure(NotFound("Notification not found"))
    case Some(i) => Success(store[i])
  }

  /**
   `readNotification`: NotFound unless the user owns it; an already-read
   notification comes back as it is; otherwise only its `isRead` flips.
   */
  function ReadNotification(store: Store, userId: string, id: int): (r: Result<(Store, Notification)>)
    ensures r.Failure? <==> GetNotification(store, userId, id).Failure?
    ensures r.Failure? ==> r.error == NotFound("Notification not found")
    ensures r.Success? ==>
      var (store', n) := r.value;
      var i := FindOwned(store, userId, id).value;
      && n == store[i].(isRead := true)
      && |store'| == |store|
      && store'[i] == n
      && (forall k :: 0 <= k < |store| && k != i ==> store'[k] == store[k])
      && (store[i].isRead ==> store' == store && n == store[i])
  {
    match FindOwned(store, userId, id)
    case None => Failure(NotFound("Notification not found"))
    case Some(i) =>
      if store[i].isRead then Success((store, store[i]))
      else
        var n := store[i].(isRead := true);
        Success((store[i := n], n))
  }

  /** Reading a notification twice is the same as reading it once. */
  lemma ReadIdempotent(store: Store, userId: string, id: int)
    requires ReadNotification(store, userId, id).Success?
    ensures var (store', n) := ReadNotification(store, userId, id).value;
      ReadNotification(store', userId, id) == Success((store', n))
  {
    var (store', n) := ReadNotification(store, userId, id).value;
    var i := FindOwned(store, userId, id).value;
    FindOwnedAfterUpdate(store, userId, id, n);
  }

  /** Rewriting the found row without touching its id or owner leaves it found at the same place. */
  lemma FindOwnedAfterUpdate(store: Store, userId: string, id: int, n: Notification)
    requires FindOwned(store, userId, id).Some?
    requires n.id == id && n.userId == userId
    ensures FindOwned(store[FindOwned(store, userId, id).value := n], userId, id) == FindOwned(store, userId, id)
  {
    var i := FindOwned(store, userId, id).value;
    if i > 0 {
      assert store[i := n][1..] == store[1..][i - 1 := n];
      FindOwnedAfterUpdate(store[1..], userId, id, n);
    }
  }

  predicate UnreadOf(n: Notification, userId: string) {
    n.userId == userId && !n.isRead
  }

  /** Every unread notification of the user marked read, everything else as it was. */
  function MarkAllRead(store: Store, userId: string): (r: Store)
    ensures |r| == |store|
    ensures forall i :: 0 <= i < |store| ==> r[i].userId == store[i].userId && !UnreadOf(r[i], userId)
    ensures forall i :: 0 <= i < |store| && !UnreadOf(store[i], userId) ==> r[i] == store[i]
    ensures forall i :: 0 <= i < |store| && UnreadOf(store[i], userId) ==> r[i] == store[i].(isRead := true)
  {
    seq(|store|, i requires 0 <= i < |store| => if UnreadOf(store[i], userId) then store[i].(isRead := true) else store[i])
  }

  /** `readAllNotifications`: every unread notification of the user becomes read; `count` is how many. */
  function ReadAll(store: Store, userId: string): (r: (Store, nat))
    ensures r.0 == MarkAllRead(store, userId)
    ensures r.1 == Count(store, (n: Notification) => UnreadOf(n, userId))
  {
    (MarkAllRead(store, userId), Count(store, (n: Notification) => UnreadOf(n, userId)))
  }

  datatype Stats = Stats(total: nat, unread: nat, read: int)

  /** `getNotificationStats`: `read` is `total - unread`. */
  function GetStats(store: Store, userId: string): (r: Stats)
    ensures r.total == Count(store, (n: Notification) => n.userId == userId)
    ensures r.unread == Count(store, (n: Notification) => UnreadOf(n, userId))
    ensures r.read + r.unread == r.total
  {
    var total := Count(store, (n: Notification) => n.userId == userId);
    var unread := Count(store, (n: Notification) => UnreadOf(n, userId));
    Stats(total, unread, total - unread)
  }

  /** `read` counts exactly the user's read notifications. */
  lemma {:induction false} StatsReadCountsRead(store: Store, userId: string)
    ensures GetStats(store, userId).read == Count(store, (n: Notification) => n.userId == userId && n.isRead)
  {
    if store != [] {
      StatsReadCountsRead(store[1..], userId);
    }
  }

  /** After reading everything the user has nothing unread, and the count was the unread total before. */
  lemma ReadAllClearsUnread(store: Store, userId: string)
    ensures GetStats(ReadAll(store, userId).0, userId).unread == 0
    ensures ReadAll(store, userId).1 == GetStats(store, userId).unread
    ensures GetStats(ReadAll(store, userId).0, userId).total == GetStats(store, userId).total
  {
    var after := ReadAll(store, userId).0;
    SameOwners(store, after, userId);
  }

  /** Two tables with the same owners row by row have the same count per owner. */
  lemma {:induction false} SameOwners(a: Store, b: Store, userId: string)
    requires |a| == |b| && forall i :: 0 <= i < |a| ==> a[i].userId == b[i].userId
    ensures Count(a, (n: Notification) => n.userId == userId) == Count(b, (n: Notification) => n.userId == userId)
  {
    if a != [] {
      SameOwners(a[1..], b[1..], userId);
    }
  }

  /** A create request (`CreateNotificationDto`). */
  datatype Input = Input(
    notificationType: string,
    title: string,
    message: string,
    channel: Option<string>,
    priority: Option<string>,
    userId: Option<string>)

  predicate Truthy(s: Option<string>) {
    s.Some? && s.value != ""
  }

  /** The row a request creates for one user: channel 'web' and priority 'normal' unless given. */
  function RowFor(input: Input, userId: string, id: int, now: int): (n: Notification)
    ensures n.userId == userId && n.id == id && !n.isRead && n.createdAt == now
    ensures n.notificationType == input.notificationType && n.title == input.title && n.message == input.message
    ensures Truthy(input.channel) ==> n.channel == input.channel.value
    ensures !Truthy(input.channel) ==> n.channel == "web"
    ensures Truthy(input.priority) ==> n.priority == input.priority.value
    ensures !Truthy(input.priority) ==> n.priority == "normal"
  {
    Notification(id, userId, input.notificationType, input.title, input.message,
                 if Truthy(input.channel) then input.channel.value else "web",
                 if Truthy(input.priority) then input.priority.value else "normal",
                 false, now)
  }

  /**
   `createNotificationsForUsers`: one row per user id, in order, with ids
   drawn consecutively from `nextId`; the count is the number of ids.
   */
  function CreateForUsers(store: Store, input: Input, userIds: seq<string>, nextId: int, now: int): (r: (Store, nat))
    ensures r.1 == |userIds|
    ensures |r.0| == |store| + |userIds| && r.0[..|store|] == store
    ensures forall k :: 0 <= k < |userIds| ==> r.0[|store| + k] == RowFor(input, userIds[k], nextId + k, now)
  {
    var rows := seq(|userIds|, k requires 0 <= k < |userIds| => RowFor(input, userIds[k], nextId + k, now));
    (store + rows, |userIds|)
  }

  /** Creating rows with ids above every existing one keeps ids unique. */
  lemma CreateForUsersKeepsUnique(store: Store, input: Input, userIds: seq<string>, nextId: int, now: int)
    requires Unique(store) && forall i :: 0 <= i < |store| ==> store[i].id < nextId
    ensures Unique(CreateForUsers(store, input, userIds, nextId, now).0)
  {
    var s' := CreateForUsers(store, input, userIds, nextId, now).0;
    forall i, j | 0 <= i < j < |s'| ensures s'[i].id != s'[j].id {
      if j >= |store| && i < |store| {
        assert s'[i] == store[i];
      } else if j < |store| {
        assert s'[i] == store[i] && s'[j] == store[j];
      }
    }
  }

  /**
   Who a notification goes to: the `receiver` query is `'users'`, `'user'`,
   or anything else (absent included), which nothing validates.
   */
  datatype Receiver = Everyone | OneUser | Unrecognised

  datatype Created = Created(message: string, count: nat)

  /**
   `createNotification` on the service: a single-user notification without
   a user id is refused before anything is written. For everyone, one row
   per existing user (`allUsers`), or nothing and 'No users found' when
   there are none; for one user, one row. An unrecognised receiver passes
   the service's check and takes the repository's single-user branch,
   whose own check throws a plain error when the user id is missing.
   */
  function CreateNotification(store: Store, input: Input, receiver: Receiver, allUsers: seq<string>, nextId: int, now: int)
    : (r: Result<(Store, Created)>)
    ensures receiver == OneUser && !Truthy(input.userId) ==>
      r == Failure(BadRequest("User ID is required when receiver is \"user\""))
    ensures receiver == Everyone && allUsers == [] ==> r == Success((store, Created("No users found", 0)))
    ensures r.Success? ==> r.value.1.count == |r.value.0| - |store| && r.value.0[..|store|] == store
    ensures r.Success? && receiver == Everyone ==> r.value.1.count == |allUsers|
    ensures receiver == Unrecognised && !Truthy(input.userId) ==>
      r == Failure(Plain("User ID is required when receiver is \"user\""))
    ensures r.Success? && receiver != Everyone ==>
      r.value.0 == store + [RowFor(input, input.userId.value, nextId, now)]
    ensures receiver != Everyone && Truthy(input.userId) ==>
      r == Success((store + [RowFor(input, input.userId.value, nextId, now)], Created("Notification created successfully", 1)))
    ensures receiver == Everyone && allUsers != [] ==>
      && r.Success?
      && r.value.0 == CreateForUsers(store, input, allUsers, nextId, now).0
      && r.value.1.message == "Notification created successfully for " + Text.Decimal(|allUsers|) + " users"
    ensures r.Failure? <==> receiver != Everyone && !Truthy(input.userId)
  {
    if receiver == OneUser && !Truthy(input.userId) then
      Failure(BadRequest("User ID is required when receiver is \"user\""))
    else if receiver != Everyone then
      if !Truthy(input.userId) then Failure(Plain("User ID is required when receiver is \"user\""))
      else Success((store + [RowFor(input, input.userId.value, nextId, now)], Created("Notification created successfully", 1)))
    else if allUsers == [] then Success((store, Created("No users found", 0)))
    else
      var (store', count) := CreateForUsers(store, input, allUsers, nextId, now);
      Success((store', Created("Notification created successfully for " + Text.Decimal(count) + " users", count)))
  }

  /** `createBulkNotifications`: refuses an empty list; otherwise reports the number of rows created. */
  function CreateBulkNotifications(store: Store, userIds: seq<string>, input: Input, nextId: int, now: int)
    : (r: Result<(Store, nat)>)
    ensures userIds == [] ==> r == Failure(BadRequest("No user IDs provided"))
    ensures r.Success? ==> r.value == CreateForUsers(store, input, userIds, nextId, now) && r.value.1 == |userIds|
    ensures r.Success? <==> userIds != []
  {
    if userIds == [] then Failure(BadRequest("No user IDs provided"))
    else Success(CreateForUsers(store, input, userIds, nextId, now))
  }

  /** `createSystemNotification`: a SYSTEM notification on the web channel at normal priority. */
  function CreateSystemNotification(store: Store, userId: string, title: string, message: string, nextId: int, now: int)
    : (r: (Store, Notification))
    ensures r.0 == store + [r.1]
    ensures r.1.notificationType == "system" && r.1.channel == "web" && r.1.priority == "normal"
    ensures r.1.userId == userId && r.1.title == title && r.1.message == message && !r.1.isRead
  {
    var n := RowFor(Input("system", title, message, Some("web"), Some("normal"), None), userId, nextId, now);
    (store + [n], n)
  }

  /**
   `getNotification` on the service: fetches the user's notification and,
   when unread, marks it read; the caller always sees it as read.
   */
  function GetAndMarkRead(store: Store, userId: string, id: int): (r: Result<(Store, Notification)>)
    ensures r.Failure? <==> GetNotification(store, userId, id).Failure?
    ensures r.Success? ==> r.value.1.isRead && r.value.1 == GetNotification(store, userId, id).value.(isRead := true)
    ensures r.Success? ==> r == ReadNotification(store, userId, id)
  {
    var n :- GetNotification(store, userId, id);
    if !n.isRead then Success((ReadNotification(store, userId, id).value.0, n.(isRead := true)))
    else Success((store, n))
  }

  predicate Stale(n: Notification, cutoff: int) {
    n.createdAt < cutoff && n.isRead
  }

  function StaleAt(cutoff: int): Notification -> bool {
    n => Stale(n, cutoff)
  }

  function KeptAt(cutoff: int): Notification -> bool {
    n => !Stale(n, cutoff)
  }

  /**
   `deleteOldNotifications`: removes read notifications created before the
   cutoff (`daysOld` days before now) and nothing else; `count` is how many.
   */
  function DeleteOld(store: Store, cutoff: int): (r: (Store, nat))
    ensures forall n :: n in r.0 <==> n in store && !Stale(n, cutoff)
    ensures |r.0| + r.1 == |store|
    ensures r.1 == Count(store, StaleAt(cutoff))
  {
    var kept := Filter(store, KeptAt(cutoff));
    KeptPlusStale(store, cutoff);
    (kept, |store| - |kept|)
  }

  /** What the cleanup keeps and what it deletes add up to the whole table. */
  lemma {:induction false} KeptPlusStale(store: Store, cutoff: int)
    ensures |Filter(store, KeptAt(cutoff))| + Count(store, StaleAt(cutoff)) == |store|
  {
    if store != [] {
      KeptPlusStale(store[1..], cutoff);
    }
  }

  /** Cleanup never removes an unread notification. */
  lemma CleanupKeepsUnread(store: Store, cutoff: int, n: Notification)
    requires n in store && !n.isRead
    ensures n in DeleteOld(store, cutoff).0
  {
  }
}
