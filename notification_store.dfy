/**
 * What the two notification controllers share: who sees a notification,
 * the newest-first order, and the fan-out that stores one copy of a
 * notification per recipient.
 */
module NotificationStore {
  import opened Common
  import opened Tables
  import opened Entities

  /** A user sees the notifications addressed to them and the broadcasts. */
  predicate Visible(n: Notification, userId: int) {
    n.userId == Some(userId) || n.userId.None?
  }

  /** `a` may come before `b` in OrderByDescending(CreatedDate). */
  predicate NewestFirst(a: (int, Notification), b: (int, Notification)) {
    a.1.createdDate >= b.1.createdDate
  }

  lemma NewestFirstIsOrder()
    ensures Total(NewestFirst) && Transitive(NewestFirst)
  {
  }

  /** The condition of a query without Where. */
  predicate Anything(n: Notification, u: ()) {
    true
  }

  // ---------------------------------------------------------------- history and counts

  /** The optional user filter of a history query: no filter, or what that user sees. */
  predicate Shown(n: Notification, userId: Option<int>) {
    userId.None? || Visible(n, userId.value)
  }

  /** Notifications.Where(filter).OrderByDescending(CreatedDate), with their keys. */
  function HistoryRows(m: map<int, Notification>, userId: Option<int>): seq<(int, Notification)> {
    OrderedRowsWhere(m, Shown, userId, NewestFirst)
  }

  /** The body { total, notifications } of a paged notification query. */
  datatype NotificationPage<T> = NotificationPage(total: int, notifications: seq<T>)

  /**
   * One page of the filtered notifications, newest first; `total` counts every
   * notification the filter keeps, on any page (the whole table without a filter).
   */
  function HistoryPage(m: map<int, Notification>, userId: Option<int>, pageSize: int, pageNumber: int)
    : (r: NotificationPage<(int, Notification)>)
    ensures |r.notifications| <= Max(pageSize, 0) && |r.notifications| <= r.total
    ensures r.total == |HistoryRows(m, userId)|
    ensures r.total == |KeysWhere(m, Shown, userId)|
    ensures userId.None? ==> r.total == |m|
  {
    assert userId.None? ==> |RowsWhere(m, Shown, userId)| == |m| by {
      if userId.None? {
        RowsWhereAll(m, Shown, userId);
      }
    }
    NotificationPage(|RowsWhere(m, Shown, userId)|, Page(HistoryRows(m, userId), pageNumber, pageSize))
  }

  /** Every notification on a page is a stored notification the filter keeps. */
  lemma HistorySound(m: map<int, Notification>, userId: Option<int>, pageSize: int, pageNumber: int, i: int)
    requires 0 <= i < |HistoryPage(m, userId, pageSize, pageNumber).notifications|
    ensures var row := HistoryPage(m, userId, pageSize, pageNumber).notifications[i];
            row.0 in m && row.1 == m[row.0] && Shown(row.1, userId)
  {
    var rows := HistoryRows(m, userId);
    var k := PageAt(rows, pageNumber, pageSize, i);
    InOrderedRows(m, Shown, userId, NewestFirst, rows[k]);
  }

  /** With a positive page size, every notification the filter keeps is on some page. */
  lemma HistoryComplete(m: map<int, Notification>, userId: Option<int>, pageSize: int, k: int)
    requires pageSize > 0 && k in m && Shown(m[k], userId)
    ensures exists pageNumber, i :: 1 <= pageNumber && 0 <= i < |HistoryPage(m, userId, pageSize, pageNumber).notifications|
                                    && HistoryPage(m, userId, pageSize, pageNumber).notifications[i] == (k, m[k])
  {
    var rows := HistoryRows(m, userId);
    var j := PositionInOrderedRows(m, Shown, userId, NewestFirst, k);
    PageCovers(rows, pageSize, j);
    var p, i := j / pageSize + 1, j % pageSize;
    var page := HistoryPage(m, userId, pageSize, p).notifications;
    assert page == Page(rows, p, pageSize);
    assert 0 <= i < |page| && page[i] == (k, m[k]);
  }

  /** A page lists newer notifications before older ones. */
  lemma HistoryNewestFirst(m: map<int, Notification>, userId: Option<int>, pageSize: int, pageNumber: int, i: int, j: int)
    requires 0 <= i < j < |HistoryPage(m, userId, pageSize, pageNumber).notifications|
    ensures var page := HistoryPage(m, userId, pageSize, pageNumber).notifications;
            page[i].1.createdDate >= page[j].1.createdDate
  {
    var rows := HistoryRows(m, userId);
    var a := PageAt(rows, pageNumber, pageSize, i);
    var b := PageAt(rows, pageNumber, pageSize, j);
    NewestFirstIsOrder();
    OrderedRowsSorted(m, Shown, userId, NewestFirst);
    assert a < b;
    assert NewestFirst(rows[a], rows[b]);
  }

  /** What NotificationController counts as unread for a user: addressed to them or broadcast. */
  predicate VisibleUnread(n: Notification, userId: int) {
    Visible(n, userId) && !n.isRead
  }

  /** What AdminNotificationController counts as unread: addressed to the user, not broadcasts. */
  predicate AddressedUnread(n: Notification, userId: int) {
    n.userId == Some(userId) && !n.isRead
  }

  /** Where((UserId == id || UserId == null) && !IsRead).Count(): zero exactly when nothing is unread. */
  function UnreadCount(m: map<int, Notification>, userId: int): (r: nat)
    ensures r == 0 <==> forall k :: k in m ==> !VisibleUnread(m[k], userId)
    ensures r <= |m|
    ensures r == |KeysWhere(m, VisibleUnread, userId)|
  {
    RowsWhereCount(m, VisibleUnread, userId);
    var rows := RowsWhere(m, VisibleUnread, userId);
    assert rows != [] ==> VisibleUnread(m[rows[0].0], userId);
    |rows|
  }

  /** Where(UserId == id && IsRead == false).Count(): zero exactly when nothing addressed is unread. */
  function AddressedUnreadCount(m: map<int, Notification>, userId: int): (r: nat)
    ensures r == 0 <==> forall k :: k in m ==> !AddressedUnread(m[k], userId)
    ensures r <= |m|
    ensures r == |KeysWhere(m, AddressedUnread, userId)|
  {
    RowsWhereCount(m, AddressedUnread, userId);
    var rows := RowsWhere(m, AddressedUnread, userId);
    assert rows != [] ==> AddressedUnread(m[rows[0].0], userId);
    |rows|
  }

  /** The admin count never exceeds the user's own count, which never exceeds what the user sees. */
  lemma UnreadCountsOrdered(m: map<int, Notification>, userId: int)
    ensures AddressedUnreadCount(m, userId) <= UnreadCount(m, userId)
    ensures UnreadCount(m, userId) <= HistoryPage(m, Some(userId), 1, 1).total
  {
    RowsWhereMonotone(m, AddressedUnread, userId, VisibleUnread, userId);
    RowsWhereMonotone(m, VisibleUnread, userId, Shown, Some(userId));
  }

  // ---------------------------------------------------------------- recipients

  /**
   * Whether a user's account receives a group notification. NotificationController
   * accepts Status "ACTIVE" or null; AdminNotificationController (`strict`) only "ACTIVE".
   */
  predicate UserReceives(u: User, strict: bool) {
    u.status == Some("ACTIVE") || (!strict && u.status.None?)
  }

  /**
   * Whether a staff profile receives an "all_staff" notification: IsActive true
   * or null, or (`strict`) only true.
   */
  predicate StaffReceives(s: Staff, strict: bool) {
    s.isActive == Some(true) || (!strict && s.isActive.None?)
  }

  /** "all_users": every user whose account receives, ascending. */
  function AllUsers(users: map<int, User>, strict: bool): (r: seq<int>)
    ensures StrictlyIncreasing(r)
    ensures forall i :: 0 <= i < |r| ==> r[i] in users && UserReceives(users[r[i]], strict)
    ensures forall u :: u in users && UserReceives(users[u], strict) ==> u in r
  {
    SortedKeys(set u | u in users && UserReceives(users[u], strict))
  }

  /** "all_customers": the distinct user ids of customers whose account receives, ascending. */
  function AllCustomers(users: map<int, User>, customers: map<int, Customer>, strict: bool): (r: seq<int>)
    ensures StrictlyIncreasing(r)
    ensures forall i :: 0 <= i < |r| ==>
              r[i] in users && UserReceives(users[r[i]], strict)
              && exists c :: c in customers && customers[c].userId == Some(r[i])
    ensures forall c :: (c in customers && customers[c].userId.Some? && customers[c].userId.value in users
                         && UserReceives(users[customers[c].userId.value], strict)) ==> customers[c].userId.value in r
  {
    SortedKeys(set c | c in customers && customers[c].userId.Some? && customers[c].userId.value in users
                       && UserReceives(users[customers[c].userId.value], strict) :: customers[c].userId.value)
  }

  /** "all_staff": the distinct user ids of staff whose account and profile receive, ascending. */
  function AllStaff(users: map<int, User>, staff: map<int, Staff>, strict: bool): (r: seq<int>)
    ensures StrictlyIncreasing(r)
    ensures forall i :: 0 <= i < |r| ==>
              r[i] in users && UserReceives(users[r[i]], strict)
              && exists s :: s in staff && staff[s].userId == r[i] && StaffReceives(staff[s], strict)
    ensures forall s :: (s in staff && staff[s].userId in users && UserReceives(users[staff[s].userId], strict)
                         && StaffReceives(staff[s], strict)) ==> staff[s].userId in r
  {
    SortedKeys(set s | s in staff && staff[s].userId in users && UserReceives(users[staff[s].userId], strict)
                       && StaffReceives(staff[s], strict) :: staff[s].userId)
  }

  /**
   * The recipients of a send: a group, or the one user of "specific" with a
   * UserId; anything else has none (and the notification goes out as a broadcast).
   */
  function Recipients(users: map<int, User>, customers: map<int, Customer>, staff: map<int, Staff>,
                      recipientType: Option<string>, userId: Option<int>, strict: bool): (r: seq<int>)
    ensures StrictlyIncreasing(r)
    ensures recipientType == Some("specific") && userId.Some? ==> r == [userId.value]
    ensures recipientType == Some("all_users") ==> r == AllUsers(users, strict)
    ensures recipientType == Some("all_customers") ==> r == AllCustomers(users, customers, strict)
    ensures recipientType == Some("all_staff") ==> r == AllStaff(users, staff, strict)
    ensures (recipientType.None? || recipientType.value !in {"all_users", "all_customers", "all_staff", "specific"}
             || (recipientType == Some("specific") && userId.None?)) ==> r == []
  {
    match recipientType
    case Some("all_users") => AllUsers(users, strict)
    case Some("all_customers") => AllCustomers(users, customers, strict)
    case Some("all_staff") => AllStaff(users, staff, strict)
    case Some("specific") => if userId.Some? then [userId.value] else []
    case _ => []
  }

  /** Every user the strict rules reach is reached by the lenient ones too. */
  lemma StrictRecipientsAmongLenient(users: map<int, User>, customers: map<int, Customer>, staff: map<int, Staff>,
                                     recipientType: Option<string>, userId: Option<int>, u: int)
    requires u in Recipients(users, customers, staff, recipientType, userId, true)
    ensures u in Recipients(users, customers, staff, recipientType, userId, false)
  {
    var strict := Recipients(users, customers, staff, recipientType, userId, true);
    var i :| 0 <= i < |strict| && strict[i] == u;
    if recipientType == Some("all_customers") {
      var c :| c in customers && customers[c].userId == Some(u);
      assert UserReceives(users[customers[c].userId.value], false);
    } else if recipientType == Some("all_staff") {
      var s :| s in staff && staff[s].userId == u && StaffReceives(staff[s], true);
      assert UserReceives(users[staff[s].userId], false);
    }
  }

  /** The copies a fan-out stores: the i-th recipient's copy under key first + i. */
  function Copies(first: int, recipients: seq<int>, n: Notification): (r: map<int, Notification>)
    ensures forall k :: k in r <==> first <= k < first + |recipients|
    ensures forall i :: 0 <= i < |recipients| ==> r[first + i] == n.(userId := Some(recipients[i]))
    decreases |recipients|
  {
    if recipients == [] then map[]
    else
      var last := |recipients| - 1;
      var r := Copies(first, recipients[..last], n)[first + last := n.(userId := Some(recipients[last]))];
      assert forall i :: 0 <= i < last ==> recipients[..last][i] == recipients[i];
      r
  }

  /**
   * foreach (var userId in userIds) { Notifications.Add(...); createdCount++; }:
   * stores one copy of `n` per recipient under fresh keys from `first` on.
   */
  method AddPerRecipient(table: map<int, Notification>, first: int, recipients: seq<int>, n: Notification)
    returns (result: map<int, Notification>, next: int, created: int)
    requires forall k :: k in table ==> k < first
    ensures created == |recipients| && next == first + |recipients|
    ensures result == table + Copies(first, recipients, n)
    ensures forall k :: k in table ==> k in result && result[k] == table[k]
    ensures forall i :: 0 <= i < |recipients| ==>
              first + i in result && result[first + i] == n.(userId := Some(recipients[i]))
  {
    result, next, created := table, first, 0;
    var i := 0;
    while i < |recipients|
      invariant 0 <= i <= |recipients|
      invariant created == i && next == first + i
      invariant result == table + Copies(first, recipients[..i], n)
    {
      AddOneCopy(table, first, recipients, i, n);
      result := result[next := n.(userId := Some(recipients[i]))];
      next := next + 1;
      created := created + 1;
      i := i + 1;
    }
    assert recipients[..i] == recipients;
    CopiesAfterTable(table, first, recipients, n);
  }

  /** Storing recipient i's copy extends the table by the copies of the first i + 1 recipients. */
  lemma AddOneCopy(table: map<int, Notification>, first: int, recipients: seq<int>, i: int, n: Notification)
    requires forall k :: k in table ==> k < first
    requires 0 <= i < |recipients|
    ensures (table + Copies(first, recipients[..i], n))[first + i := n.(userId := Some(recipients[i]))]
            == table + Copies(first, recipients[..i + 1], n)
  {
    CopiesStep(first, recipients, i, n);
    AddCopy(table, Copies(first, recipients[..i], n), first + i, n.(userId := Some(recipients[i])));
  }

  /** One more recipient adds one more copy, under the next key. */
  lemma CopiesStep(first: int, recipients: seq<int>, i: int, n: Notification)
    requires 0 <= i < |recipients|
    ensures Copies(first, recipients[..i + 1], n)
            == Copies(first, recipients[..i], n)[first + i := n.(userId := Some(recipients[i]))]
  {
    assert recipients[..i + 1][..i] == recipients[..i];
  }

  /** Storing a row under a key the table lacks commutes with adding the new rows. */
  lemma AddCopy(table: map<int, Notification>, copies: map<int, Notification>, k: int, v: Notification)
    requires k !in table
    ensures (table + copies)[k := v] == table + copies[k := v]
  {
  }

  /** The copies sit above the table's keys, which keep their rows. */
  lemma CopiesAfterTable(table: map<int, Notification>, first: int, recipients: seq<int>, n: Notification)
    requires forall k :: k in table ==> k < first
    ensures var result := table + Copies(first, recipients, n);
            (forall k :: k in table ==> k in result && result[k] == table[k])
            && forall i :: 0 <= i < |recipients| ==>
                 first + i in result && result[first + i] == n.(userId := Some(recipients[i]))
  {
  }

  // ---------------------------------------------------------------- sending

  const MsgRequired := "Title and message are required"
  /** Request.Type ?? "INFO" when an admin sends. */
  const SendDefaultType := "INFO"
  /** Request.Channel ?? "IN_APP". */
  const DefaultChannel := "IN_APP"
  const StatusSent := "SENT"

  /**
   * The body of an admin send. A body without RecipientType reads as
   * Some("all_users") (the property's initializer); an explicit null is None.
   */
  datatype SendRequest = SendRequest(
    recipientType: Option<string>,
    userId: Option<int>,
    title: Option<string>,
    message: Option<string>,
    notificationType: Option<string>,
    channel: Option<string>)

  /** The notification an admin send stores, before it is addressed (a broadcast). */
  function Outgoing(req: SendRequest, now: int): (n: Notification)
    ensures n.userId.None? && !n.isRead && n.status == Some(StatusSent)
    ensures n.title == req.title.GetOr("") && n.message == req.message.GetOr("")
    ensures n.notificationType == Some(if req.notificationType.Some? then req.notificationType.value else SendDefaultType)
    ensures n.channel == Some(if req.channel.Some? then req.channel.value else DefaultChannel)
    ensures n.createdDate == now && n.sentAt == Some(now)
  {
    Notification(None, req.title.GetOr(""), req.message.GetOr(""),
                 Some(req.notificationType.GetOr(SendDefaultType)), Some(req.channel.GetOr(DefaultChannel)),
                 Some(StatusSent), now, Some(now), false)
  }

  /**
   * The table after a send: one copy per recipient under keys first, first + 1, ...,
   * or, with no recipients, one broadcast under key first.
   */
  function Delivered(table: map<int, Notification>, first: int, recipients: seq<int>, n: Notification)
    : map<int, Notification>
  {
    if |recipients| > 0 then table + Copies(first, recipients, n) else table[first := n.(userId := None)]
  }

  /** The creation step of a send: AddPerRecipient, or the one broadcast row. */
  method Deliver(table: map<int, Notification>, first: int, recipients: seq<int>, n: Notification)
    returns (result: map<int, Notification>, next: int, created: int)
    requires forall k :: k in table ==> k < first
    requires n.userId.None?
    ensures result == Delivered(table, first, recipients, n)
    ensures created == SentCount(recipients) && next == first + created
    ensures forall k :: k in result ==> k in table || first <= k < next
  {
    if |recipients| > 0 {
      result, next, created := AddPerRecipient(table, first, recipients, n);
    } else {
      result, next, created := table[first := n], first + 1, 1;
    }
  }

  /** notificationCount: the number of rows a send stores. */
  function SentCount(recipients: seq<int>): (c: int)
    ensures c >= 1
    ensures |recipients| > 0 ==> c == |recipients|
  {
    if |recipients| > 0 then |recipients| else 1
  }

  /** Storing a notification under a fresh key raises a user's unread count by one exactly when they see it unread. */
  lemma UnreadInsert(m: map<int, Notification>, k: int, n: Notification, u: int)
    requires k !in m
    ensures UnreadCount(m[k := n], u) == UnreadCount(m, u) + (if VisibleUnread(n, u) then 1 else 0)
  {
    RowsWhereInsert(m, VisibleUnread, u, k, n);
  }

  /** A fresh notification raises the admin count by one exactly when it is addressed to the user and unread; a broadcast never does. */
  lemma AddressedUnreadInsert(m: map<int, Notification>, k: int, n: Notification, u: int)
    requires k !in m
    ensures AddressedUnreadCount(m[k := n], u)
         == AddressedUnreadCount(m, u) + (if n.userId == Some(u) && !n.isRead then 1 else 0)
    ensures n.userId.None? ==> AddressedUnreadCount(m[k := n], u) == AddressedUnreadCount(m, u)
  {
    RowsWhereInsert(m, AddressedUnread, u, k, n);
  }

  /** The keys of the copies addressed to user u. */
  ghost function CopyKeysFor(first: int, recipients: seq<int>, u: int): set<int> {
    set i | 0 <= i < |recipients| && recipients[i] == u :: first + i
  }

  lemma CopyKeysForSize(first: int, recipients: seq<int>, u: int)
    requires StrictlyIncreasing(recipients)
    ensures |CopyKeysFor(first, recipients, u)| == if u in recipients then 1 else 0
  {
    if u in recipients {
      var j :| 0 <= j < |recipients| && recipients[j] == u;
      assert CopyKeysFor(first, recipients, u) == {first + j};
    } else {
      assert CopyKeysFor(first, recipients, u) == {};
    }
  }

  lemma UnreadKeysWithCopies(table: map<int, Notification>, first: int, recipients: seq<int>, n: Notification, u: int)
    requires forall k :: k in table ==> k < first
    requires !n.isRead
    ensures KeysWhere(table + Copies(first, recipients, n), VisibleUnread, u)
            == KeysWhere(table, VisibleUnread, u) + CopyKeysFor(first, recipients, u)
    ensures KeysWhere(table, VisibleUnread, u) !! CopyKeysFor(first, recipients, u)
  {
    var c := Copies(first, recipients, n);
    var all := table + c;
    forall k | k in KeysWhere(all, VisibleUnread, u) && k !in table ensures k in CopyKeysFor(first, recipients, u) {
      var i := k - first;
      assert all[k] == c[first + i];
      assert recipients[i] == u;
    }
    forall k | k in CopyKeysFor(first, recipients, u) ensures k in KeysWhere(all, VisibleUnread, u) {
      var i :| 0 <= i < |recipients| && recipients[i] == u && k == first + i;
      assert all[k] == c[first + i];
    }
  }

  /** A fan-out to distinct recipients adds one unread notification for each of them and none for anybody else. */
  lemma CopiesRaiseUnread(table: map<int, Notification>, first: int, recipients: seq<int>, n: Notification, u: int)
    requires forall k :: k in table ==> k < first
    requires StrictlyIncreasing(recipients) && !n.isRead
    ensures UnreadCount(table + Copies(first, recipients, n), u) == UnreadCount(table, u) + (if u in recipients then 1 else 0)
  {
    UnreadKeysWithCopies(table, first, recipients, n, u);
    CopyKeysForSize(first, recipients, u);
    RowsWhereCount(table + Copies(first, recipients, n), VisibleUnread, u);
    RowsWhereCount(table, VisibleUnread, u);
  }

  /**
   * A send raises the unread count of every recipient by exactly one and leaves
   * everybody else's alone; a send without recipients raises everybody's by one.
   */
  lemma DeliveredRaisesUnread(table: map<int, Notification>, first: int, recipients: seq<int>, n: Notification, u: int)
    requires forall k :: k in table ==> k < first
    requires StrictlyIncreasing(recipients) && !n.isRead
    ensures UnreadCount(Delivered(table, first, recipients, n), u)
            == UnreadCount(table, u) + (if u in recipients || recipients == [] then 1 else 0)
  {
    if |recipients| > 0 {
      CopiesRaiseUnread(table, first, recipients, n, u);
    } else {
      UnreadInsert(table, first, n.(userId := None), u);
    }
  }
}
