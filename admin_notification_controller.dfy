/**
 * AdminNotificationController: the admin's send, history and unread-count
 * endpoints. Its recipient groups are stricter than NotificationController's:
 * only users whose Status is "ACTIVE" and staff whose IsActive is true. Its
 * history is `NotificationStore.HistoryPage` with the optional user filter, and
 * its unread count is `NotificationStore.AddressedUnreadCount`.
 */
module AdminNotifications {
  import opened Common
  import opened Entities
  import opened NotificationStore

  class AdminNotificationDesk {
    /** Users, Customers and Staff are read here, never written. */
    var users: map<int, User>
    var customers: map<int, Customer>
    var staff: map<int, Staff>
    var notifications: map<int, Notification>
    var nextNotificationId: int

    ghost predicate Valid()
      reads this
    {
      1 <= nextNotificationId && forall k :: k in notifications ==> 1 <= k < nextNotificationId
    }

    constructor (users: map<int, User>, customers: map<int, Customer>, staff: map<int, Staff>)
      ensures Valid()
      ensures this.users == users && this.customers == customers && this.staff == staff
      ensures notifications == map[]
    {
      this.users := users;
      this.customers := customers;
      this.staff := staff;
      notifications := map[];
      nextNotificationId := 1;
    }

    /**
     * SendNotification: one copy per recipient, or a broadcast when there is
     * none; answers the number of rows stored (notificationCount).
     */
    method Send(req: SendRequest, now: int) returns (r: Response<int>)
      requires Valid()
      modifies this
      ensures Valid()
      ensures users == old(users) && customers == old(customers) && staff == old(staff)
      ensures IsNullOrEmpty(req.title) || IsNullOrEmpty(req.message) ==>
                r == BadRequest(MsgRequired) && notifications == old(notifications)
                && nextNotificationId == old(nextNotificationId)
      ensures !IsNullOrEmpty(req.title) && !IsNullOrEmpty(req.message) ==>
                var ids := Recipients(users, customers, staff, req.recipientType, req.userId, true);
                r == Ok(SentCount(ids))
                && notifications == Delivered(old(notifications), old(nextNotificationId), ids, Outgoing(req, now))
                && nextNotificationId == old(nextNotificationId) + SentCount(ids)
    {
      if IsNullOrEmpty(req.title) || IsNullOrEmpty(req.message) {
        return BadRequest(MsgRequired);
      }
      var ids := Recipients(users, customers, staff, req.recipientType, req.userId, true);
      var n := Outgoing(req, now);
      var count;
      notifications, nextNotificationId, count := Deliver(notifications, nextNotificationId, ids, n);
      r := Ok(count);
    }
  }
}
