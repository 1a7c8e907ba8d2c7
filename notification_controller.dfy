/**
 * NotificationController: a user's notification list and unread count,
 * marking read, deleting, creating one notification, and the admin send and
 * history endpoints. Recipient groups accept users whose Status is "ACTIVE"
 * or null and staff whose IsActive is true or null.
 */
module NotificationSupport {
  import opened Common
  import opened Tables
  import opened Entities
  import opened NotificationStore

  const MsgNotFound := "Notification not found"
  const MsgMarkedRead := "Notification marked as read"
  const MsgDeleted := "Notification deleted"
  const MsgMarkedAllSuffix := " notifications marked as read"
  /** CreateNotification: Request.Type ?? "system". */
  const CreateDefaultType := "system"

  /** One entry of GetUserNotifications: the row without its UserId. */
  datatype NotificationView = NotificationView(
    notificationId: int,
    title: string,
    message: string,
    notificationType: Option<string>,
    channel: Option<string>,
    status: Option<string>,
    createdDate: int,
    sentAt: Option<int>,
    isRead: bool)

  function ViewOf(row: (int, Notification)): NotificationView {
    var n := row.1;
    NotificationView(row.0, n.title, n.message, n.notificationType, n.channel, n.status, n.createdDate, n.sentAt, n.isRead)
  }

  /**
   * GetUserNotifications: one page of what the user sees (addressed to them or
   * broadcast), newest first, and the count of all of it.
   */
  function GetUserNotifications(m: map<int, Notification>, userId: int, pageSize: int, pageNumber: int)
    : (r: NotificationPage<NotificationView>)
    ensures |r.notifications| <= Max(pageSize, 0) && |r.notifications| <= r.total
    ensures r.total == |HistoryRows(m, Some(userId))|
    ensures r.total == |KeysWhere(m, Shown, Some(userId))|
  {
    var h := HistoryPage(m, Some(userId), pageSize, pageNumber);
    NotificationPage(h.total, MapSeq(h.notifications, ViewOf))
  }

  /** Every entry of the user's page is a stored notification the user sees. */
  lemma UserNotificationsSound(m: map<int, Notification>, userId: int, pageSize: int, pageNumber: int, i: int)
    requires 0 <= i < |GetUserNotifications(m, userId, pageSize, pageNumber).notifications|
    ensures var v := GetUserNotifications(m, userId, pageSize, pageNumber).notifications[i];
            v.notificationId in m && Visible(m[v.notificationId], userId) && v == ViewOf((v.notificationId, m[v.notificationId]))
  {
    HistorySound(m, Some(userId), pageSize, pageNumber, i);
  }

  /** With a positive page size, everything the user sees is on one of their pages. */
  lemma UserNotificationsComplete(m: map<int, Notification>, userId: int, pageSize: int, k: int)
    requires pageSize > 0 && k in m && Visible(m[k], userId)
    ensures exists pageNumber, i :: 1 <= pageNumber && 0 <= i < |GetUserNotifications(m, userId, pageSize, pageNumber).notifications|
                                    && GetUserNotifications(m, userId, pageSize, pageNumber).notifications[i] == ViewOf((k, m[k]))
  {
    HistoryComplete(m, Some(userId), pageSize, k);
    var p, i :| 1 <= p && 0 <= i < |HistoryPage(m, Some(userId), pageSize, p).notifications|
                && HistoryPage(m, Some(userId), pageSize, p).notifications[i] == (k, m[k]);
    assert GetUserNotifications(m, userId, pageSize, p).notifications[i] == ViewOf((k, m[k]));
  }

  /** The user's page is newest first. */
  lemma UserNotificationsNewestFirst(m: map<int, Notification>, userId: int, pageSize: int, pageNumber: int, i: int, j: int)
    requires 0 <= i < j < |GetUserNotifications(m, userId, pageSize, pageNumber).notifications|
    ensures var page := GetUserNotifications(m, userId, pageSize, pageNumber).notifications;
            page[i].createdDate >= page[j].createdDate
  {
    HistoryNewestFirst(m, Some(userId), pageSize, pageNumber, i, j);
  }

  function MarkRead(n: Notification): Notification {
    n.(isRead := true)
  }

  /** The table after MarkAllAsRead(userId). */
  function AllRead(m: map<int, Notification>, userId: int): map<int, Notification> {
    UpdatedWhere(m, VisibleUnread, userId, MarkRead)
  }

  /** After MarkAllAsRead the user has nothing unread. */
  lemma AllReadLeavesNothingUnread(m: map<int, Notification>, userId: int)
    ensures UnreadCount(AllRead(m, userId), userId) == 0
  {
    var r := AllRead(m, userId);
    forall k | k in r ensures !VisibleUnread(r[k], userId) {
    }
  }

  /** MarkAllAsRead changes only what the user sees, and marking twice is marking once. */
  lemma AllReadOnlyTouchesVisible(m: map<int, Notification>, userId: int)
    ensures forall k :: k in m && !Visible(m[k], userId) ==> AllRead(m, userId)[k] == m[k]
    ensures forall k :: k in m ==> AllRead(m, userId)[k].isRead == (m[k].isRead || Visible(m[k], userId))
    ensures AllRead(AllRead(m, userId), userId) == AllRead(m, userId)
  {
    var once := AllRead(m, userId);
    forall k | k in once ensures AllRead(once, userId)[k] == once[k] {
    }
  }

  /** CreateNotification's body; a missing title or message arrives as None. */
  datatype CreateRequest = CreateRequest(
    userId: Option<int>,
    title: Option<string>,
    message: Option<string>,
    notificationType: Option<string>,
    channel: Option<string>)

  /** The notification CreateNotification stores. */
  function Created(req: CreateRequest, now: int): (n: Notification)
    ensures n.userId == req.userId && !n.isRead && n.status == Some(StatusSent)
    ensures n.notificationType == Some(if req.notificationType.Some? then req.notificationType.value else CreateDefaultType)
    ensures n.channel == Some(if req.channel.Some? then req.channel.value else DefaultChannel)
    ensures n.title == (if req.title.Some? then req.title.value else "")
    ensures n.message == (if req.message.Some? then req.message.value else "")
    ensures n.createdDate == now && n.sentAt == Some(now)
  {
    Notification(req.userId, req.title.GetOr(""), req.message.GetOr(""),
                 Some(req.notificationType.GetOr(CreateDefaultType)), Some(req.channel.GetOr(DefaultChannel)),
                 Some(StatusSent), now, Some(now), false)
  }

  class NotificationCenter {
    /** Users, Customers and Staff are read here, never written. */
    var users: map<int, User>
    var customers: map<int, Customer>
    var staff: map<int, Staff>
    var notifications: map<int, Notification>
    var nextNotificationId: int

    ghost predicate Valid()
      reads this
    {
      1 <= nextNotificationId && forall k :: k in notifications ==> 1 <= k < nextNotificationId
    }

    constructor (users: map<int, User>, customers: map<int, Customer>, staff: map<int, Staff>)
      ensures Valid()
      ensures this.users == users && this.customers == customers && this.staff == staff
      ensures notifications == map[]
    {
      this.users := users;
      this.customers := customers;
      this.staff := staff;
      notifications := map[];
      nextNotificationId := 1;
    }

    /** MarkAsRead: sets IsRead on one notification. */
    method MarkAsRead(id: int) returns (r: Response<string>)
      requires Valid()
      modifies this
      ensures Valid()
      ensures users == old(users) && customers == old(customers) && staff == old(staff)
      ensures nextNotificationId == old(nextNotificationId)
      ensures id !in old(notifications) ==> r == NotFound(MsgNotFound) && notifications == old(notifications)
      ensures id in old(notifications) ==>
                r == Ok(MsgMarkedRead) && notifications == old(notifications)[id := old(notifications)[id].(isRead := true)]
    {
      if id !in notifications {
        return NotFound(MsgNotFound);
      }
      notifications := notifications[id := notifications[id].(isRead := true)];
      r := Ok(MsgMarkedRead);
    }

    /** MarkAllAsRead: reads the user's unread notifications, then marks each one read. */
    method MarkAllAsRead(userId: int) returns (r: Response<string>)
      requires Valid()
      modifies this
      ensures Valid()
      ensures users == old(users) && customers == old(customers) && staff == old(staff)
      ensures nextNotificationId == old(nextNotificationId)
      ensures notifications == AllRead(old(notifications), userId)
      ensures r == Ok(NatToString(UnreadCount(old(notifications), userId)) + MsgMarkedAllSuffix)
    {
      var count;
      notifications, count := UpdateWhere(notifications, VisibleUnread, userId, MarkRead);
      r := Ok(NatToString(count) + MsgMarkedAllSuffix);
    }

    /** DeleteNotification. */
    method Delete(id: int) returns (r: Response<string>)
      requires Valid()
      modifies this
      ensures Valid()
      ensures users == old(users) && customers == old(customers) && staff == old(staff)
      ensures nextNotificationId == old(nextNotificationId)
      ensures id !in old(notifications) ==> r == NotFound(MsgNotFound) && notifications == old(notifications)
      ensures id in old(notifications) ==> r == Ok(MsgDeleted) && notifications == old(notifications) - {id}
    {
      if id !in notifications {
        return NotFound(MsgNotFound);
      }
      notifications := notifications - {id};
      r := Ok(MsgDeleted);
    }

    /** CreateNotification: the new notification's id, or the missing-text error with nothing stored. */
    method Create(req: CreateRequest, now: int) returns (r: Response<int>)
      requires Valid()
      modifies this
      ensures Valid()
      ensures users == old(users) && customers == old(customers) && staff == old(staff)
      ensures IsNullOrEmpty(req.title) || IsNullOrEmpty(req.message) ==>
                r == BadRequest(MsgRequired) && notifications == old(notifications)
                && nextNotificationId == old(nextNotificationId)
      ensures !IsNullOrEmpty(req.title) && !IsNullOrEmpty(req.message) ==>
                r == Ok(old(nextNotificationId)) && old(nextNotificationId) !in old(notifications)
                && notifications == old(notifications)[old(nextNotificationId) := Created(req, now)]
                && nextNotificationId == old(nextNotificationId) + 1
    {
      if IsNullOrEmpty(req.title) || IsNullOrEmpty(req.message) {
        return BadRequest(MsgRequired);
      }
      var id := nextNotificationId;
      notifications := notifications[id := Created(req, now)];
      nextNotificationId := id + 1;
      r := Ok(id);
    }

    /**
     * AdminSendNotification: one copy per recipient, or a broadcast when there
     * is none; answers the number of rows stored (notificationCount).
     */
    method AdminSend(req: SendRequest, now: int) returns (r: Response<int>)
      requires Valid()
      modifies this
      ensures Valid()
      ensures users == old(users) && customers == old(customers) && staff == old(staff)
      ensures IsNullOrEmpty(req.title) || IsNullOrEmpty(req.message) ==>
                r == BadRequest(MsgRequired) && notifications == old(notifications)
                && nextNotificationId == old(nextNotificationId)
      ensures !IsNullOrEmpty(req.title) && !IsNullOrEmpty(req.message) ==>
                var ids := Recipients(users, customers, staff, req.recipientType, req.userId, false);
                r == Ok(SentCount(ids))
                && notifications == Delivered(old(notifications), old(nextNotificationId), ids, Outgoing(req, now))
                && nextNotificationId == old(nextNotificationId) + SentCount(ids)
    {
      if IsNullOrEmpty(req.title) || IsNullOrEmpty(req.message) {
        return BadRequest(MsgRequired);
      }
      var ids := Recipients(users, customers, staff, req.recipientType, req.userId, false);
      var n := Outgoing(req, now);
      var count;
      notifications, nextNotificationId, count := Deliver(notifications, nextNotificationId, ids, n);
      r := Ok(count);
    }
  }
}
