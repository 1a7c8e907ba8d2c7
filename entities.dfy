/**
 * Rows of the tables that several controllers share. Each table is a
 * `map<int, Row>` keyed by its identity column; the key is not repeated in
 * the row. Nullable columns are `Option`s; date-times are instants (`int`).
 */
module Entities {
  import opened Common

  /** Customers: the profile of a user with role CUSTOMER. */
  datatype Customer = Customer(
    userId: Option<int>,
    customerName: Option<string>,
    address: Option<string>,
    phone: Option<string>,
    avatar: Option<string>)

  /** Feedback: one customer's rating and comment. */
  datatype Feedback = Feedback(
    customerId: int,
    content: Option<string>,
    rating: int,
    createdDate: int,
    isPinned: bool)

  /** Testimonials: a feedback proposed for the public site, moderated through Status. */
  datatype Testimonial = Testimonial(
    customerId: int,
    content: Option<string>,
    rating: int,
    status: Option<string>,
    createdDate: int)

  /** Users: credentials, role and account state. */
  datatype User = User(
    username: string,
    passwordHash: string,
    email: Option<string>,
    roleId: int,
    isLocked: Option<bool>,
    status: Option<string>,
    bannedUntil: Option<int>,
    createdAt: Option<int>)

  /** Staff: the profile of a user with role STAFF. */
  datatype Staff = Staff(
    userId: int,
    fullName: Option<string>,
    phone: Option<string>,
    position: Option<string>,
    avatar: Option<string>,
    isActive: Option<bool>)

  /** Policies: money in hundredths. */
  datatype Policy = Policy(
    customerId: Option<int>,
    status: Option<string>,
    isHidden: Option<bool>,
    policyStartDate: Option<Date>,
    premiumAmount: int)

  /** Claims: money in hundredths. */
  datatype Claim = Claim(
    policyId: Option<int>,
    status: Option<string>,
    accidentDate: Option<Date>,
    claimableAmount: int)

  /** Notifications: UserId null is a broadcast to everybody. */
  datatype Notification = Notification(
    userId: Option<int>,
    title: string,
    message: string,
    notificationType: Option<string>,
    channel: Option<string>,
    status: Option<string>,
    createdDate: int,
    sentAt: Option<int>,
    isRead: bool)

  /** AuditLogs: only the owner matters here. */
  datatype AuditLog = AuditLog(userId: Option<int>, action: Option<string>)

  /** Role ids (Roles table): ADMIN = 1, CUSTOMER = 2, STAFF = 3. */
  const RoleAdmin := 1
  const RoleCustomer := 2
  const RoleStaff := 3

  /** Feedback.Customer?.CustomerName: null when the customer row is missing. */
  function CustomerNameOf(customers: map<int, Customer>, customerId: int): (r: Option<string>)
    ensures customerId !in customers ==> r.None?
    ensures customerId in customers ==> r == customers[customerId].customerName
  {
    if customerId in customers then customers[customerId].customerName else None
  }

  /** The row condition "CustomerId == id" on testimonials. */
  predicate TestimonialOf(t: Testimonial, customerId: int) {
    t.customerId == customerId
  }

  /** The row condition "UserId == id" on customers. */
  predicate CustomerOfUser(c: Customer, userId: int) {
    c.userId == Some(userId)
  }

  /** The row condition "UserId == id" on staff. */
  predicate StaffOfUser(s: Staff, userId: int) {
    s.userId == userId
  }

  /** The row condition "CustomerId == id" on policies. */
  predicate PolicyOfCustomer(p: Policy, customerId: int) {
    p.customerId == Some(customerId)
  }

  /** The row condition "CustomerId == id" on feedback. */
  predicate FeedbackOf(f: Feedback, customerId: int) {
    f.customerId == customerId
  }
}
