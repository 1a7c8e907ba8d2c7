# Vehicle insurance back office: a Dafny model

This project models the administrative core of a vehicle-insurance web
application. It covers the ASP.NET controllers that keep the insurance
catalogue, customer feedback and testimonials, notifications, administrator
and staff accounts, branches, FAQs, contact messages and the dashboard
reports. It also covers the browser scripts that choose the API address, guard
the admin and staff pages, draw their sidebars and header, and check the
reset-password form.

Each controller's tables are a class. Its fields are `map`s from primary key
to row, and it holds the next identity value. An endpoint that writes becomes
a `method` with a `modifies` clause. Its `ensures` give the response and the
whole new state, and the class invariant `Valid()` keeps what the database
would keep: identities below the next one, unique codes and the
one-feedback-per-customer rule. Read-only endpoints are functions over those
maps. Lemmas state what the listing queries promise:

- every row shown passes the filters (soundness);
- every row that passes them is shown (completeness);
- the order of `OrderBy`/`OrderByDescending`;
- how paging and the counts relate.

Each browser script's page state is a class: the window object, the sidebar,
the reset form and the storage areas. A loop over the page's links keeps its
loop and its array.

Shared pieces:

- `Common` holds the string helpers: C#'s `Trim`, `IsNullOrWhiteSpace` and ordinal `Contains`, and a decimal rendering of naturals.
- `Tables` holds the query helpers over `map<int, Row>`: filtered, ordered and paged row lists, first-match lookups and counts, with the lemmas that connect them.
- `Entities` holds the rows of the database tables.
- `WebSession` holds the browser storage and the login record the scripts read.

Clocks are parameters: `now` is a tick count and `today` a calendar date.
Database identities are the class's `next…Id` counters. Money amounts and
stored percentages are integers in hundredths. The dashboard's percentages are
kept as the exact quotient the source computes before rounding.

## Model

| member | source | states |
|---|---|---|
| InsuranceManagement.StatusOf | backend/insurance_management/InsuranceManagementController.cs:59 | the reported status is "ACTIVE" exactly for an active type and "INACTIVE" otherwise |
| InsuranceManagement.ListInsurances | backend/insurance_management/InsuranceManagementController.cs:27-65 | the list never holds more entries than the table has rows |
| InsuranceManagement.ListInsurancesSound | backend/insurance_management/InsuranceManagementController.cs:27-62 | every listed entry is the view of a stored type that passes both filters: its code or name, lower-cased, contains the trimmed lower-cased search term, and its active flag matches the ACTIVE/INACTIVE filter |
| InsuranceManagement.ListInsurancesComplete | backend/insurance_management/InsuranceManagementController.cs:27-62 | every stored type that passes both filters is listed |
| InsuranceManagement.ListInsurancesDescending | backend/insurance_management/InsuranceManagementController.cs:48-50 | the list runs strictly from the highest id down |
| InsuranceManagement.StatusFiltersPartition | backend/insurance_management/InsuranceManagementController.cs:39-46 | for any search, the ACTIVE list and the INACTIVE list together are as long as the unfiltered list |
| InsuranceManagement.StatusSplitsRow | backend/insurance_management/InsuranceManagementController.cs:39-46 | a type passes the unfiltered query exactly when it passes one of the two status filters, and never both |
| InsuranceManagement.StatusFilterNames | backend/insurance_management/InsuranceManagementController.cs:41-45 | the filter values "ACTIVE" and "INACTIVE" select the active and the inactive types |
| InsuranceManagement.GetInsuranceById | backend/insurance_management/InsuranceManagementController.cs:69-95 | 404 with "Insurance type not found" exactly for an unknown id. Otherwise every field of the stored type: id, code, name, description, base rate, active flag and creation time, with a status that is "ACTIVE" iff it is active and "INACTIVE" iff not |
| InsuranceManagement.WriteKeepsCodesUnique | backend/insurance_management/InsuranceManagementController.cs:156-166 | writing a row whose code no other row holds keeps type codes unique |
| InsuranceManagement.InsuranceCatalogue.constructor | backend/insurance_management/InsuranceManagementController.cs:14-17 | an empty catalogue satisfies the invariant |
| InsuranceManagement.InsuranceCatalogue.Create | backend/insurance_management/InsuranceManagementController.cs:99-142 | a blank code or name gives 400 "TypeCode and TypeName are required"; a code already held gives 400 "Insurance Code already exists"; both leave the table alone. Otherwise exactly one active row is added under the next id, with the default rate 2.50 when none is given, and codes stay unique |
| InsuranceManagement.InsuranceCatalogue.Update | backend/insurance_management/InsuranceManagementController.cs:146-201 | 404 for an unknown id. A new code held by another type gives 400 and no change. Otherwise only that row changes: every non-blank or present field replaces the stored one and the rest stay. Succeeds whenever the code is blank or free, and codes stay unique |
| InsuranceManagement.InsuranceCatalogue.Deactivate | backend/insurance_management/InsuranceManagementController.cs:205-224 | 404 for an unknown id; otherwise only the row's active flag becomes false, so a second call changes nothing |
| InsuranceManagement.InsuranceCatalogue.Delete | backend/insurance_management/InsuranceManagementController.cs:228-246 | 404 for an unknown id; otherwise exactly that row is removed |
| FeedbackManagement.SubmitError | backend/feedback_management/FeedbackController.cs:32-61 | each validation message is returned exactly when every earlier check passes and its own fails, in the controller's order: customer id, content, rating 1..5, customer exists, no earlier feedback. None exactly when all pass |
| FeedbackManagement.GetMyFeedback | backend/feedback_management/FeedbackController.cs:163-201 | no feedback id exactly when the customer has none, and then the "No feedback found" body; otherwise the customer's feedback with the lowest id, with its content, rating, pin and createdDate, and the customer's name |
| FeedbackManagement.GetMyFeedbackByUserId | backend/feedback_management/FeedbackController.cs:101-159 | "Customer not found" when no customer belongs to the user. Otherwise it uses the lowest-id such customer: that customer's name with "No feedback found" when they have no feedback, else the same body as the customer lookup |
| FeedbackManagement.GetFeedbackDetail | backend/feedback_management/FeedbackController.cs:319-347 | 404 with "Feedback not found" exactly for an unknown id. Otherwise every field of the stored row: id, customer id, the customer's name when the customer exists, rating, content, creation time and pin, with no message |
| FeedbackManagement.PinnedThenNewestIsOrder | backend/feedback_management/FeedbackController.cs:268-271 | the pinned-first, newest-next ordering is total and transitive |
| FeedbackManagement.ListFeedbacks | backend/feedback_management/FeedbackController.cs:273-284 | `total` is the number of rows, which is the number of stored feedbacks passing the filters. The rows are numbered 1..n in order |
| FeedbackManagement.RowsFrom | backend/feedback_management/FeedbackController.cs:273-282 | row i of the projection shows the i-th feedback, numbered from the given start |
| FeedbackManagement.ListFeedbacksSound | backend/feedback_management/FeedbackController.cs:239-282 | every listed row shows a stored feedback that passes the rating filter, the name-or-content search and the pinned filter |
| FeedbackManagement.ListFeedbacksComplete | backend/feedback_management/FeedbackController.cs:239-282 | every stored feedback that passes the filters is listed |
| FeedbackManagement.ListFeedbacksOrder | backend/feedback_management/FeedbackController.cs:268-271 | pinned rows come before unpinned ones, and within each group the newest comes first |
| FeedbackManagement.FeedbackDesk.constructor | backend/feedback_management/FeedbackController.cs:18-21 | empty feedback and testimonial tables satisfy the invariant |
| FeedbackManagement.FeedbackDesk.Submit | backend/feedback_management/FeedbackController.cs:27-97 | 200 with a new id exactly when no validation fails; then one unpinned feedback is added, plus one Pending testimonial when the rating is 4 or more. Otherwise 400 with the first failed check's message and nothing stored. Each customer keeps at most one feedback |
| FeedbackManagement.FeedbackDesk.Delete | backend/feedback_management/FeedbackController.cs:205-233 | 404 for an unknown id. Otherwise the feedback and the customer's first testimonial, if any, are removed and nothing else changes, so the customer may submit again |
| FeedbackManagement.FeedbackDesk.TogglePin | backend/feedback_management/FeedbackController.cs:294-315 | 404 for an unknown id; otherwise only the row's pin flips, and the response gives the new pin with the matching pinned/unpinned message |
| TestimonialsManagement.NewestFirstIsOrder | backend/testimonials_management/TestimonialsController.cs:34 | newest-first is a total, transitive ordering |
| TestimonialsManagement.Quoted | backend/testimonials_management/TestimonialsController.cs:43 | the public content is the stored content, a null content reading as empty, between two double quotes |
| TestimonialsManagement.PublishedFrom | backend/testimonials_management/TestimonialsController.cs:37-46 | entry i of the public list is the public view of the i-th row, with the creation time unformatted (see "## Left out") |
| TestimonialsManagement.GetPublished | backend/testimonials_management/TestimonialsController.cs:27-48 | the public list has one entry per stored Published testimonial of four stars or more |
| TestimonialsManagement.PublishedSound | backend/testimonials_management/TestimonialsController.cs:31-43 | every public entry is a stored testimonial that is Published with four stars or more, and is exactly its public view: the customer's name and avatar, the rating and the content quoted, with the creation time unformatted (see "## Left out") |
| TestimonialsManagement.PublishedComplete | backend/testimonials_management/TestimonialsController.cs:31-35 | every stored Published testimonial with four stars or more is shown |
| TestimonialsManagement.PublishedNewestFirst | backend/testimonials_management/TestimonialsController.cs:34 | the public list runs from the newest testimonial down |
| TestimonialsManagement.StatusColor | backend/testimonials_management/TestimonialsController.cs:88 | purple exactly for Published, yellow exactly for Pending, red for every other status |
| TestimonialsManagement.RowsFrom | backend/testimonials_management/TestimonialsController.cs:79-89 | row i of the staff list shows the i-th testimonial, numbered from the given start |
| TestimonialsManagement.GetAll | backend/testimonials_management/TestimonialsController.cs:60-91 | the staff list has one row per stored testimonial of four stars or more passing the status filter, numbered 1..n |
| TestimonialsManagement.GetAllSound | backend/testimonials_management/TestimonialsController.cs:64-73 | every staff row is a stored testimonial with four stars or more. A blank or "all" status filter passes every row; any other value must equal the row's status |
| TestimonialsManagement.GetAllComplete | backend/testimonials_management/TestimonialsController.cs:64-73 | every stored testimonial that passes those filters is listed |
| TestimonialsManagement.GetAllNewestFirst | backend/testimonials_management/TestimonialsController.cs:75-77 | the staff list runs from the newest testimonial down |
| TestimonialsManagement.PublishedIsStaffView | backend/testimonials_management/TestimonialsController.cs:64-73 | a testimonial is public exactly when the staff list filtered by "Published" shows it |
| TestimonialsManagement.GetDetail | backend/testimonials_management/TestimonialsController.cs:151-179 | 404 with "Testimonial not found" exactly for an unknown id. Otherwise the stored testimonial whatever its status or rating, with every field: id, customer id, the customer's name when the customer exists, rating, content, creation time and status |
| TestimonialsManagement.TestimonialDesk.constructor | backend/testimonials_management/TestimonialsController.cs:18-21 | an empty testimonial table over the given customers and feedback |
| TestimonialsManagement.TestimonialDesk.SetStatus | backend/testimonials_management/TestimonialsController.cs:105-114 | 404 and no change for an unknown id; otherwise only that row's status changes |
| TestimonialsManagement.TestimonialDesk.Approve | backend/testimonials_management/TestimonialsController.cs:101-122 | 404 and no change for an unknown id; otherwise only that row becomes Published |
| TestimonialsManagement.TestimonialDesk.Reject | backend/testimonials_management/TestimonialsController.cs:126-147 | 404 and no change for an unknown id; otherwise only that row becomes Denied |
| TestimonialsManagement.TestimonialDesk.CreateFromFeedback | backend/testimonials_management/TestimonialsController.cs:183-228 | 404 for an unknown feedback; 400 below four stars; 400 when the customer already has a testimonial. It succeeds exactly when none of these applies, and then adds one Pending copy of the feedback under the next id. Failures change nothing |
| NotificationStore.NewestFirstIsOrder | backend/notification_support/NotificationController.cs:34 | newest-first is a total, transitive ordering of notifications |
| NotificationStore.HistoryPage | backend/notification_support/AdminNotificationController.cs:211-226 | a page holds at most pageSize notifications and no more than `total`. `total` is the number of stored notifications the optional user filter keeps, on any page; without a filter it is the whole table (as in NotificationController's admin history) |
| NotificationStore.HistorySound | backend/notification_support/AdminNotificationController.cs:216-224 | every notification on a page is a stored row that the user filter keeps: addressed to the user, or a broadcast |
| NotificationStore.HistoryComplete | backend/notification_support/AdminNotificationController.cs:216-224 | with a positive page size, every notification the filter keeps appears on some page |
| NotificationStore.HistoryNewestFirst | backend/notification_support/AdminNotificationController.cs:222 | a page lists newer notifications before older ones |
| NotificationStore.UnreadCount | backend/notification_support/NotificationController.cs:61-69 | the count is the number of stored notifications addressed to the user or broadcast and still unread, so it is zero exactly when there are none, and never exceeds the table |
| NotificationStore.AddressedUnreadCount | backend/notification_support/AdminNotificationController.cs:237-245 | the count is the number of stored notifications addressed to the user and still unread (broadcasts do not count), so it is zero exactly when there are none, and never exceeds the table |
| NotificationStore.UnreadCountsOrdered | backend/notification_support/AdminNotificationController.cs:241-243 | the admin count never exceeds the user-facing count, which never exceeds the number of notifications the user sees |
| NotificationStore.AllUsers | backend/notification_support/NotificationController.cs:311-317 | "all_users" reaches each user whose status passes exactly once: "ACTIVE" or null, or only "ACTIVE" under the admin controller's rules. Every listed id is such a user |
| NotificationStore.AllCustomers | backend/notification_support/NotificationController.cs:318-326 | "all_customers" reaches, once each, exactly the users owning a customer profile whose account status passes |
| NotificationStore.AllStaff | backend/notification_support/NotificationController.cs:327-335 | "all_staff" reaches, once each, exactly the users owning a staff profile whose account status and IsActive both pass |
| NotificationStore.Recipients | backend/notification_support/NotificationController.cs:311-343 | the recipient list has no repeats. It is the named group, or the one user of "specific" with a UserId. It is empty for any other type or a "specific" without UserId |
| NotificationStore.StrictRecipientsAmongLenient | backend/notification_support/AdminNotificationController.cs:114-146 | every user the admin controller's stricter groups reach is also reached by NotificationController's groups |
| NotificationStore.Copies | backend/notification_support/NotificationController.cs:349-365 | the fan-out's rows occupy exactly the consecutive keys from the first new id on, the i-th addressed to the i-th recipient |
| NotificationStore.AddPerRecipient | backend/notification_support/NotificationController.cs:345-366 | the loop stores one copy per recipient under fresh keys, counts them, and leaves every earlier row untouched |
| NotificationStore.AddOneCopy | backend/notification_support/NotificationController.cs:363-364 | storing recipient i's copy extends the stored copies by exactly that one |
| NotificationStore.CopiesStep | backend/notification_support/NotificationController.cs:349-364 | one more recipient adds one more copy, under the next key |
| NotificationStore.CopiesAfterTable | backend/notification_support/NotificationController.cs:349-365 | after the fan-out the old rows are unchanged and each recipient's copy is under its key |
| NotificationStore.Outgoing | backend/notification_support/NotificationController.cs:350-361 | an admin send stores an unread, SENT notification with the request's title and message. Type defaults to "INFO" and channel to "IN_APP"; creation and send time are both now |
| NotificationStore.Deliver | backend/notification_support/NotificationController.cs:345-384 | a send stores one copy per recipient, or one broadcast without recipients, under fresh keys. It reports the number of rows stored |
| NotificationStore.SentCount | backend/notification_support/NotificationController.cs:345-390 | notificationCount is at least 1, and equals the number of recipients when there are any |
| NotificationStore.UnreadInsert | backend/notification_support/NotificationController.cs:61-69 | storing a notification under a fresh key raises a user's unread count by one exactly when the user sees it and it is unread |
| NotificationStore.AddressedUnreadInsert | backend/notification_support/AdminNotificationController.cs:237-245 | a notification stored under a fresh key raises the admin count by one exactly when it is addressed to the user and unread; a broadcast never raises it |
| NotificationStore.CopyKeysForSize | backend/notification_support/NotificationController.cs:349-365 | with distinct recipients, a user owns one copy when listed and none otherwise |
| NotificationStore.UnreadKeysWithCopies | backend/notification_support/NotificationController.cs:349-365 | the user's unread rows after a fan-out are their old unread rows plus their own copies, which are new keys |
| NotificationStore.CopiesRaiseUnread | backend/notification_support/NotificationController.cs:345-366 | a fan-out to distinct recipients raises each recipient's unread count by exactly one and nobody else's |
| NotificationStore.DeliveredRaisesUnread | backend/notification_support/NotificationController.cs:345-384 | a send raises each recipient's unread count by one and leaves others alone; a send without recipients, a broadcast, raises everybody's by one |
| NotificationSupport.GetUserNotifications | backend/notification_support/NotificationController.cs:24-49 | at most pageSize entries, none beyond `total`. `total` is the number of stored notifications the user sees, addressed to them or broadcast, on any page |
| NotificationSupport.UserNotificationsSound | backend/notification_support/NotificationController.cs:28-37 | every entry is the view of a stored notification addressed to the user or broadcast |
| NotificationSupport.UserNotificationsComplete | backend/notification_support/NotificationController.cs:28-37 | with a positive page size, everything the user sees is on one of their pages |
| NotificationSupport.UserNotificationsNewestFirst | backend/notification_support/NotificationController.cs:34 | the user's page lists newer notifications first |
| NotificationSupport.AllReadLeavesNothingUnread | backend/notification_support/NotificationController.cs:101-117 | after marking all as read the user's unread count is zero |
| NotificationSupport.AllReadOnlyTouchesVisible | backend/notification_support/NotificationController.cs:104-113 | marking all as read changes only notifications the user sees, sets each one read, and doing it twice equals doing it once |
| NotificationSupport.Created | backend/notification_support/NotificationController.cs:156-167 | CreateNotification stores the request's addressee, title and message (empty when null), unread and SENT, created and sent at the current time, with type defaulting to "system" and channel to "IN_APP" |
| NotificationSupport.NotificationCenter.constructor | backend/notification_support/NotificationController.cs:17-20 | an empty notification table over the given users, customers and staff |
| NotificationSupport.NotificationCenter.MarkAsRead | backend/notification_support/NotificationController.cs:79-97 | 404 "Notification not found" and no change for an unknown id; otherwise only that notification becomes read |
| NotificationSupport.NotificationCenter.MarkAllAsRead | backend/notification_support/NotificationController.cs:101-123 | every notification the user sees that was unread becomes read and nothing else changes; the message reports how many there were |
| NotificationSupport.NotificationCenter.Delete | backend/notification_support/NotificationController.cs:127-144 | 404 and no change for an unknown id; otherwise exactly that row is removed |
| NotificationSupport.NotificationCenter.Create | backend/notification_support/NotificationController.cs:148-179 | a null or empty title or message gives 400 and stores nothing; otherwise the created notification is stored under the next id, which is returned |
| NotificationSupport.NotificationCenter.AdminSend | backend/notification_support/NotificationController.cs:298-396 | a null or empty title or message gives 400 and stores nothing. Otherwise the recipients under the lenient rules (Status "ACTIVE" or null) each get a copy, or one broadcast is stored; the count of rows stored is returned |
| AdminNotifications.AdminNotificationDesk.constructor | backend/notification_support/AdminNotificationController.cs:18-21 | an empty notification table over the given users, customers and staff |
| AdminNotifications.AdminNotificationDesk.Send | backend/notification_support/AdminNotificationController.cs:102-206 | the same send under the strict rules: only Status "ACTIVE" accounts and IsActive true staff receive |
| AdminManagement.RoleNameOf | backend/admin_management/AdminManagementController.cs:41 | the role name is present exactly when the role row exists, and is then that row's name |
| AdminManagement.RowsOf | backend/admin_management/AdminManagementController.cs:35-46 | entry i of the list is the projection of the i-th user |
| AdminManagement.GetUsers | backend/admin_management/AdminManagementController.cs:21-50 | the list is no longer than the user table |
| AdminManagement.GetUsersSound | backend/admin_management/AdminManagementController.cs:25-32 | every listed entry is a stored user with the requested role, if one was given, whose username or email contains the trimmed lower-cased search |
| AdminManagement.GetUsersNewestFirst | backend/admin_management/AdminManagementController.cs:34 | the list runs strictly from the largest user id down |
| AdminManagement.GetUsersComplete | backend/admin_management/AdminManagementController.cs:25-32 | every stored user passing the filters is listed |
| AdminManagement.GetUsersUnfilteredListsAll | backend/admin_management/AdminManagementController.cs:25-34 | without a role and with a blank search every user is listed |
| AdminManagement.GetUser | backend/admin_management/AdminManagementController.cs:54-80 | 404 exactly for an unknown id. Otherwise the user's row, plus the lowest-id staff profile and the lowest-id customer profile that belong to the user; each profile is null exactly when none exists |
| AdminManagement.CreateErrorCases | backend/admin_management/AdminManagementController.cs:103-108 | each CreateUser 400 happens exactly when the earlier checks pass and its own fails: blank username, blank password, role not positive, username taken in any letter case. A request passes exactly when none of these holds |
| AdminManagement.NormalEmail | backend/admin_management/AdminManagementController.cs:114 | a blank email is stored as null; any other is stored trimmed and non-empty |
| AdminManagement.NormalStatus | backend/admin_management/AdminManagementController.cs:117 | a given status is stored trimmed and upper-cased: non-empty, no longer than given, each character the upper-case of the trimmed input's |
| AdminManagement.NormalStatusIdempotent | backend/admin_management/AdminManagementController.cs:117 | a stored status stays non-empty, and normalising it again leaves it unchanged, so a status read back and saved again is stable |
| AdminManagement.StatusOnCreate | backend/admin_management/AdminManagementController.cs:117 | a new account's status is ACTIVE when none is given, otherwise the normalised one; it is never empty and has no lower-case letters |
| AdminManagement.NewUserNormalised | backend/admin_management/AdminManagementController.cs:110-120 | a new account has the trimmed non-empty username, the given hash and role, and the creation time. Its email is null or trimmed, it is unlocked unless locking was asked for, and its status is normalised with ACTIVE as default |
| AdminManagement.CreateThenDuplicateRejected | backend/admin_management/AdminManagementController.cs:107-108 | once an account is created, a second request with the same username in any case or padding is refused with "Username already exists" |
| AdminManagement.CreateKeepsUsernamesUnique | backend/admin_management/AdminManagementController.cs:107-122 | creating an account keeps usernames unique up to letter case |
| AdminManagement.UpdatedUserKeeps | backend/admin_management/AdminManagementController.cs:164-180 | an update never changes the role or the creation time. It keeps the username unless a new one is asked for, and keeps the password, lock flag and status when none is given. It always replaces the email (normalised) and the ban |
| AdminManagement.UpdateKeepsUsernamesUnique | backend/admin_management/AdminManagementController.cs:165-169 | an update that passes the username check keeps usernames unique up to letter case |
| AdminManagement.ReplaceKeepsUnique | backend/admin_management/AdminManagementController.cs:165-169 | replacing an account with one whose username no other account shares keeps usernames unique |
| AdminManagement.ActiveInAnyCaseNotHidden | backend/admin_management/AdminManagementController.cs:210-211 | a status of "active" in any letter case, with no running ban, does not hide the customer's policies |
| AdminManagement.PoliciesHiddenFor | backend/admin_management/AdminManagementController.cs:234-240 | hiding keeps the same set of policies |
| AdminManagement.PoliciesHiddenForCustomer | backend/admin_management/AdminManagementController.cs:234-240 | hiding sets IsHidden on every policy of the user's first customer row and changes nothing else; without a customer row nothing changes |
| AdminManagement.HideCustomerPolicies | backend/admin_management/AdminManagementController.cs:234-240 | the loop leaves the policies as the hiding specification says |
| AdminManagement.EditProfile | backend/admin_management/AdminManagementController.cs:182-218 | a STAFF account's first staff row gets the name, phone and position. A CUSTOMER account's first customer row gets the name when given, plus phone and address, and when the account should be hidden that customer's policies are hidden. Other roles and accounts without a profile change nothing, and no rows are added or removed |
| AdminManagement.SoftDeletedLeavesGroups | backend/admin_management/AdminManagementController.cs:244 | a softly deleted (INACTIVE) account is reached by no group notification, under either controller's rules |
| AdminManagement.HardDeleteLeavesBroadcastsOnly | backend/admin_management/AdminManagementController.cs:275-276 | after a permanent delete, the only notifications the removed user would see are broadcasts |
| AdminManagement.PurgeProfile | backend/admin_management/AdminManagementController.cs:251-270 | a STAFF account loses its first staff row. A CUSTOMER account has its policies hidden and its first customer row detached and anonymised as "[DELETED]". Other roles keep everything, and no rows are added |
| AdminManagement.UserAdministration.constructor | backend/admin_management/AdminManagementController.cs:14-17 | empty tables over the given roles |
| AdminManagement.UserAdministration.Create | backend/admin_management/AdminManagementController.cs:101-155 | the first failed check gives its 400 and nothing is stored. Otherwise the normalised account is stored under the next id with the hashed password. A STAFF role (3) also gets an active staff profile and a CUSTOMER role (2) a customer profile, both with the default avatar; nothing else changes |
| AdminManagement.UserAdministration.AddAccount | backend/admin_management/AdminManagementController.cs:122-152 | stores the account under the next id, then the profile its role calls for |
| AdminManagement.UserAdministration.Update | backend/admin_management/AdminManagementController.cs:159-222 | 404 for an unknown id. A new username taken by another account in any case gives 400 and no change. Otherwise the account is updated and its profile edited; a customer's policies are hidden when the status is not ACTIVE or a ban is running. Ids and other tables stay |
| AdminManagement.UserAdministration.StoreUpdate | backend/admin_management/AdminManagementController.cs:169-218 | stores the updated account and its profile edits and nothing else |
| AdminManagement.UserAdministration.Delete | backend/admin_management/AdminManagementController.cs:228-281 | 404 and no change for an unknown id. A soft delete makes the account INACTIVE and hides its customer's policies. A permanent delete purges the profile, removes the user's audit logs and addressed notifications, and then the account |
| AdminManagement.UserAdministration.SoftDelete | backend/admin_management/AdminManagementController.cs:242-247 | only the account's status (now INACTIVE) and its customer's policies change |
| AdminManagement.UserAdministration.HardDelete | backend/admin_management/AdminManagementController.cs:250-280 | the account is removed, the profile purged by role, and exactly the user's audit logs and addressed notifications are removed |
| BranchesManagement.WindowLength | backend/branches_management/BranchesController.cs:217-231 | a branch's open window is positive and at most a day, and shorter than a day unless opening and closing times are equal |
| BranchesManagement.SinceOpening | backend/branches_management/BranchesController.cs:217-231 | the time since the branch last opened, counted around midnight, is under a day |
| BranchesManagement.IsCurrentlyOpen | backend/branches_management/BranchesController.cs:217-231 | both cases say one thing: a branch is open exactly when less than its window's length has passed since it last opened. It is open at its opening time, and open at its closing time only when the two times are equal |
| BranchesManagement.OvernightIsComplement | backend/branches_management/BranchesController.cs:222-230 | for distinct times, the overnight window from start to end is open exactly when the day window from end to start is closed |
| BranchesManagement.TwoDigits | backend/branches_management/BranchesController.cs:38 | a two-digit field is exactly two decimal digits |
| BranchesManagement.MinuteOf | backend/branches_management/BranchesController.cs:38 | truncation to the minute loses less than a minute and lands on a whole minute |
| BranchesManagement.FormatTime | backend/branches_management/BranchesController.cs:38-39 | "HH:mm" output is five characters, digits around a colon |
| BranchesManagement.ParseTime | backend/branches_management/BranchesController.cs:125-126 | a parsed time is a whole minute |
| BranchesManagement.TwoDigitsValue | backend/branches_management/BranchesController.cs:38 | reading two printed digits back gives the number |
| BranchesManagement.ParseFormatted | backend/branches_management/BranchesController.cs:125-126 | parsing a printed time gives the time truncated to the minute |
| BranchesManagement.FormatParsed | backend/branches_management/BranchesController.cs:125-126 | every accepted "HH:mm" text prints back unchanged |
| BranchesManagement.NameLeTotal | backend/branches_management/BranchesController.cs:42 | ordinal name order is total |
| BranchesManagement.NameLeTransitive | backend/branches_management/BranchesController.cs:42 | ordinal name order is transitive |
| BranchesManagement.ByNameIsOrder | backend/branches_management/BranchesController.cs:42 | OrderBy(BranchName) is a total, transitive ordering |
| BranchesManagement.ItemsFrom | backend/branches_management/BranchesController.cs:30-41 | entry i of the list is the view of the i-th branch |
| BranchesManagement.GetAll | backend/branches_management/BranchesController.cs:22-46 | the list has one entry per stored active branch |
| BranchesManagement.GetAllSound | backend/branches_management/BranchesController.cs:26-41 | every listed branch is a stored active branch, shown with its hours as "HH:mm" and whether it is open at the given time |
| BranchesManagement.GetAllComplete | backend/branches_management/BranchesController.cs:26-28 | every active branch is listed |
| BranchesManagement.GetAllByName | backend/branches_management/BranchesController.cs:42 | the list is in ordinal branch-name order |
| BranchesManagement.GetById | backend/branches_management/BranchesController.cs:56-88 | 404 "Branch not found" exactly for an unknown id. Otherwise the branch, active or not, with its id, name, manager, address, hotline, e-mail, active flag and creation and update times. Its hours are printed so that they parse back to the stored times to the minute, and the open flag is whether it is open now |
| BranchesManagement.CreateError | backend/branches_management/BranchesController.cs:103-116 | "All fields are required" exactly when a field is blank; "Invalid email format" exactly when the fields are present and the email has no '@'; none otherwise |
| BranchesManagement.AcceptedBranchWellFormed | backend/branches_management/BranchesController.cs:103-129 | an accepted branch has no blank field, an email with '@', is active and was never updated |
| BranchesManagement.ChosenTime | backend/branches_management/BranchesController.cs:170-174 | a blank time keeps the stored one; a given one is parsed |
| BranchesManagement.EditedFields | backend/branches_management/BranchesController.cs:155-176 | each non-blank field given replaces the stored one and each blank one keeps it; the active flag and creation date stay and UpdatedDate becomes now |
| BranchesManagement.EmptyUpdateTouchesDateOnly | backend/branches_management/BranchesController.cs:155-176 | an update with nothing given changes only UpdatedDate |
| BranchesManagement.Deactivated | backend/branches_management/BranchesController.cs:202-203 | a soft delete makes the branch inactive and sets UpdatedDate, changing nothing else |
| BranchesManagement.DeletedLeavesList | backend/branches_management/BranchesController.cs:192-214 | a deleted branch leaves the public list but can still be fetched by id |
| BranchesManagement.BranchDirectory.constructor | backend/branches_management/BranchesController.cs:14-17 | an empty branch table |
| BranchesManagement.BranchDirectory.Create | backend/branches_management/BranchesController.cs:93-140 | the validation 400s store nothing. An opening time that does not parse gives 500 and stores nothing. Success happens exactly when validation passes and both times parse, and then one active branch is added under the next id |
| BranchesManagement.BranchDirectory.Update | backend/branches_management/BranchesController.cs:145-187 | 404 for an unknown id; 500 and no change when a given time does not parse; otherwise only that branch changes, as the edit says |
| BranchesManagement.BranchDirectory.Delete | backend/branches_management/BranchesController.cs:192-214 | 404 and no change for an unknown id; otherwise only that branch is deactivated |
| FaqManagement.PublicFrom | backend/FAQ/FaqController.cs:31-36 | entry i of the public page shows the i-th FAQ's id, question and answer |
| FaqManagement.GetPublic | backend/FAQ/FaqController.cs:24-45 | the public page is no longer than the table |
| FaqManagement.GetPublicSound | backend/FAQ/FaqController.cs:28-36 | every public entry is a stored FAQ whose IsActive is true, with its question and answer; a null IsActive is not public |
| FaqManagement.GetPublicComplete | backend/FAQ/FaqController.cs:28-30 | every FAQ whose IsActive is true is on the public page |
| FaqManagement.PublicFromAt | backend/FAQ/FaqController.cs:31-36 | the projection keeps each row's id at its position |
| FaqManagement.GetPublicOrdered | backend/FAQ/FaqController.cs:30 | the public page runs in strictly increasing FaqId order |
| FaqManagement.GetAllAdmin | backend/FAQ/FaqController.cs:49-66 | `total` counts every FAQ, public or not, and a page holds at most pageSize of them |
| FaqManagement.AdminPageSound | backend/FAQ/FaqController.cs:54-58 | every row on an admin page is a stored FAQ, as stored |
| FaqManagement.AdminPageOrdered | backend/FAQ/FaqController.cs:55 | an admin page runs in strictly increasing FaqId order |
| FaqManagement.AllRowsIncreasing | backend/FAQ/FaqController.cs:55 | the whole table, ordered by FaqId, is strictly increasing |
| FaqManagement.AdminPagesCoverAll | backend/FAQ/FaqController.cs:53-58 | with a positive page size every FAQ is on some page |
| FaqManagement.GetFaq | backend/FAQ/FaqController.cs:70-84 | 404 "FAQ not found" exactly for an unknown id; otherwise the stored FAQ |
| FaqManagement.NewFaq | backend/FAQ/FaqController.cs:95-100 | a new FAQ keeps the question and answer; IsActive is the requested value, true when none is given |
| FaqManagement.NewFaqPublic | backend/FAQ/FaqController.cs:99 | a new FAQ is public unless the request switched it off |
| FaqManagement.EditedFields | backend/FAQ/FaqController.cs:123-130 | a non-blank question or answer replaces the stored one and a blank one keeps it; a given IsActive replaces the stored one. An empty request changes nothing |
| FaqManagement.EditIdempotent | backend/FAQ/FaqController.cs:123-130 | applying the same update twice equals applying it once |
| FaqManagement.Negated | backend/FAQ/FaqController.cs:174 | negating a nullable flag keeps null and flips a value |
| FaqManagement.ToggleInvolution | backend/FAQ/FaqController.cs:174 | toggling twice restores the FAQ |
| FaqManagement.TogglePublic | backend/FAQ/FaqController.cs:174 | a toggle makes an FAQ public exactly when it was switched off; a null IsActive stays off |
| FaqManagement.ToggleMessage | backend/FAQ/FaqController.cs:178 | the message says "activated" exactly when IsActive is now true, and "deactivated" otherwise, null included |
| FaqManagement.FaqDesk.constructor | backend/FAQ/FaqController.cs:17-20 | an empty FAQ table |
| FaqManagement.FaqDesk.Create | backend/FAQ/FaqController.cs:88-111 | success exactly when question and answer are both non-blank. Then the new FAQ is stored under the next id; otherwise 400 and nothing stored |
| FaqManagement.FaqDesk.Update | backend/FAQ/FaqController.cs:115-141 | 404 and no change for an unknown id; otherwise only that FAQ is replaced by its edit, which is returned |
| FaqManagement.FaqDesk.Delete | backend/FAQ/FaqController.cs:145-162 | 404 and no change for an unknown id; otherwise exactly that FAQ is removed |
| FaqManagement.FaqDesk.Toggle | backend/FAQ/FaqController.cs:166-184 | 404 and no change for an unknown id; otherwise only that FAQ's IsActive is negated, and the message reports the new state |
| ContactsManagement.Stamped | backend/contacts/ContactsController.cs:27-30 | a missing or MinValue creation date becomes now; any other date is kept |
| ContactsManagement.StampedIdempotent | backend/contacts/ContactsController.cs:27-30 | stamping an already stamped date again changes nothing |
| ContactsManagement.StampedIsSet | backend/contacts/ContactsController.cs:27-30 | every stored ticket carries a real creation date |
| ContactsManagement.NewestFirstIsOrder | backend/contacts/ContactsController.cs:77 | newest-first, with undated tickets last, is a total and transitive ordering |
| ContactsManagement.CategoryNameOf | backend/contacts/ContactsController.cs:72 | a ticket without a known category shows "General Inquiry"; otherwise it shows its category's name |
| ContactsManagement.ViewStatus | backend/contacts/ContactsController.cs:66-74 | a ticket without status shows as "Open" and unresolved. IsResolved holds exactly when the shown status is "Resolved", and a missing name shows as "Unknown" |
| ContactsManagement.ViewsFrom | backend/contacts/ContactsController.cs:63-76 | entry i of the list is the view of the i-th ticket |
| ContactsManagement.GetContacts | backend/contacts/ContactsController.cs:57-86 | the list has one entry per stored ticket |
| ContactsManagement.GetContactsSound | backend/contacts/ContactsController.cs:61-76 | every entry is the view of a stored ticket |
| ContactsManagement.GetContactsComplete | backend/contacts/ContactsController.cs:61-78 | every stored ticket is listed |
| ContactsManagement.GetContactsNewestFirst | backend/contacts/ContactsController.cs:77 | newer tickets come before older ones, and undated ones come last |
| ContactsManagement.ContactDesk.constructor | backend/contacts/ContactsController.cs:14-17 | an empty ticket table over the given categories |
| ContactsManagement.ContactDesk.Create | backend/contacts/ContactsController.cs:22-52 | success exactly when name and email are non-blank. Then the ticket is stored, dated, under the next id; otherwise 400 "Name and Email are required" and nothing stored |
| ContactsManagement.ContactDesk.UpdateStatus | backend/contacts/ContactsController.cs:91-111 | 404 and no change for an unknown id; otherwise only that ticket's status becomes the requested value, or "Open" without one |
| ContactsManagement.UpdatedStatusView | backend/contacts/ContactsController.cs:101 | after a status update the ticket shows as resolved exactly when "Resolved" was asked for |
| Reports.MonthStart | backend/report_analytics/ReportsController.cs:30-31 | the first day of the month n months away: a real calendar month, day 1, exactly n month indices later |
| Reports.ChartMonth | backend/report_analytics/ReportsController.cs:118 | every chart month is a calendar month starting on day 1 |
| Reports.Growth | backend/report_analytics/ReportsController.cs:43-48 | relative change against a positive last month; 100 for revenue after an empty month; 0 when both months are empty |
| Reports.GrowthSign | backend/report_analytics/ReportsController.cs:43-48 | growth is positive exactly when revenue rose, counting a rise from nothing. It is zero exactly when revenue held, or when there was none in either month |
| Reports.LossRatio | backend/report_analytics/ReportsController.cs:67-69 | claims paid over the year's revenue, and 0 when the year has none |
| Reports.LossRatioBounded | backend/report_analytics/ReportsController.cs:67-69 | claims paid within the year's revenue give a ratio between 0 and 100 |
| Reports.GetKpiSummary | backend/report_analytics/ReportsController.cs:25-86 | totalClaims counts the stored PAID or APPROVED claims, and totalClaimsPaid sums exactly their claimable amounts. totalPolicies counts the ACTIVE policies, newPolicies the policies starting this month or later, and totalRevenue sums exactly their premiums. revenueGrowth compares totalRevenue with the premiums of policies starting in the previous month (from its first day up to the first day of this month). The loss ratio divides the claims paid by the revenue of policies starting this year or later |
| Reports.NoClaimsNothingPaid | backend/report_analytics/ReportsController.cs:51-56 | the claims count and the claims paid cover the same PAID or APPROVED claims, so a zero count means nothing paid |
| Reports.UnsettledClaimChangesNothing | backend/report_analytics/ReportsController.cs:51-56 | storing a claim that is neither PAID nor APPROVED, new or over one that was neither, leaves every figure of the summary unchanged |
| Reports.SettledClaimCounted | backend/report_analytics/ReportsController.cs:51-56 | a new PAID or APPROVED claim raises the claim count by one and the claims paid by its claimable amount |
| Reports.NoNewPoliciesNoRevenue | backend/report_analytics/ReportsController.cs:35-60 | new policies and this month's revenue cover the same policies, so none new means no revenue |
| Reports.YearRevenueCoversMonth | backend/report_analytics/ReportsController.cs:30-65 | with no negative premiums, the year's revenue, the loss ratio's base, is at least this month's revenue |
| Reports.ChartWindow | backend/report_analytics/ReportsController.cs:94-118 | the six chart months are consecutive and lie between the period start and today; the last one is the current month |
| Reports.Label | backend/report_analytics/ReportsController.cs:119 | a chart label starts with "T" |
| Reports.LabelInjective | backend/report_analytics/ReportsController.cs:119 | a label determines its month and year |
| Reports.ChartLabelsDistinct | backend/report_analytics/ReportsController.cs:116-119 | the six labels are pairwise different |
| Reports.QuietMonthHasNoRevenue | backend/report_analytics/ReportsController.cs:99-122 | a month in which no policy starts shows 0 revenue |
| Reports.UnsettledClaimsCostNothing | backend/report_analytics/ReportsController.cs:105-125 | claims neither PAID nor APPROVED never reach the expense series |
| Reports.ChartPoint | backend/report_analytics/ReportsController.cs:118-125 | the i-th month's label, its revenue group and its expense group, with 0 for a month without a group |
| Reports.GetChartData | backend/report_analytics/ReportsController.cs:90-134 | six labels, revenues and expenses; entry i belongs to the i-th month of the window, in month order |
| WebSession.Field | frontend/js/header.js:142 | optional property access: undefined unless the value is an object holding that property |
| WebSession.StringToNumber | frontend/js/header.js:150-151 | Number() of digit text is its decimal value; only text that starts with '-' is negative |
| WebSession.ToNumber | frontend/js/header.js:150-151 | Number() keeps numbers and gives NaN for undefined and for objects |
| WebSession.Lookup | frontend/js/header.js:126-127 | getItem is null exactly for a missing key and otherwise the stored text |
| WebSession.WebStorage.constructor | frontend/js/admin-sidebar.js:21-22 | a storage area holding the given entries |
| WebSession.WebStorage.RemoveItem | frontend/js/header.js:197-198 | the key is gone and every other entry stays |
| WebSession.WebStorage.Clear | frontend/js/admin-sidebar.js:73 | the area is empty |
| WebSession.ClearUserData | frontend/js/admin-sidebar.js:67-77 | the four login keys leave localStorage and all else stays; sessionStorage is emptied; no user entry remains in either |
| WebSession.StoredUser | frontend/js/admin-sidebar.js:21-32 | the session entry wins over the local one. A stored text that parses gives the parsed user; nothing stored gives null |
| WebSession.LoggedOutReadsNull | frontend/js/admin-sidebar.js:21-34 | with nothing stored, the user the sidebars read is falsy |
| WebSession.LastSegmentIsLastPart | frontend/js/header.js:211 | the part after the last '/' is a suffix without '/', preceded by '/' unless it is the whole path |
| WebSession.BeforeFirstDotIsFirstPart | frontend/js/header.js:211 | the part before the first '.' is a prefix without '.', followed by '.' unless it is the whole name |
| WebSession.CurrentPage | frontend/js/admin-sidebar.js:58 | the page is the path's last segment, or dashboard.html for an empty path or a folder path |
| Header.CheckSession | frontend/js/header.js:124-165 | a trusted user has a valid shape, is the parse of the stored text, and nothing is removed. It came from sessionStorage, or from localStorage with "Remember me". Every distrusted login text leaves localStorage, and sessionStorage loses it only together with localStorage |
| Header.CheckSessionComplete | frontend/js/header.js:124-165 | conversely, a well-shaped session login, or a well-shaped remembered local login when there is no session one, is trusted |
| Header.CheckSessionStable | frontend/js/header.js:124-165 | checking again after the removals trusts the same user and removes nothing more |
| Header.GetValidSessionUser | frontend/js/header.js:124-165 | returns the trusted user and removes exactly the entries the check distrusts, every other entry kept |
| Header.Logout | frontend/js/header.js:196-200 | the user entry leaves both areas, all else kept, and no session user is found afterwards |
| Header.FileStemOf | frontend/js/header.js:209-212 | the stem of dir/name.ext is the lower-cased name, whatever the folder and the extension |
| Header.LinkToSameFileIsActive | frontend/js/header.js:203-218 | a link to the page's own file is active across folders, extensions and letter case |
| Header.EmptyStemNeverActive | frontend/js/header.js:214 | a link without an href, or with an empty stem, is never active |
| Header.HighlightActiveNav | frontend/js/header.js:203-218 | link i is active exactly when its stem and the page's are non-empty and equal |
| Header.BadgeText | frontend/js/header.js:305-315 | the badge shows exactly for a positive count, as "9+" above nine, in one or two characters |
| Header.BadgeReadsBack | frontend/js/header.js:309-310 | counts 1 to 9 are shown as their own digit |
| Header.BadgeDistinguishesSmallCounts | frontend/js/header.js:309-310 | two different counts below ten never share a badge |
| Config.SameOriginApi | frontend/js/config.js:43-45 | the address starts with the page's protocol, "//" and host, and ends in "/api" |
| Config.SelectApiBase | frontend/js/config.js:20-47 | a non-empty manual address always wins. Otherwise the base ends in "/api": the fixed local address on a local host, exactly protocol//hostname/api with no port on an ngrok host, and an address on the page's protocol and host on any other host |
| Config.PortMattersOnlyElsewhere | frontend/js/config.js:33-46 | local and ngrok hosts ignore the port. On any other host, different ports give different bases |
| Config.RemoteHostUsesPageOrigin | frontend/js/config.js:40-46 | on a host neither local nor ngrok, the API shares the page's protocol, host and port |
| Config.Published | frontend/js/config.js:20 | an existing value is kept; only an undefined one takes the computed value |
| Config.PublishedOnce | frontend/js/config.js:20 | loading the script again, from any location, keeps the first published base |
| Config.BrowserWindow.constructor | frontend/js/config.js:20 | a window with the given API_BASE and API_BASE_FALLBACK, either possibly undefined |
| Config.BrowserWindow.LoadConfig | frontend/js/config.js:20-57 | API_BASE becomes the selected base and API_BASE_FALLBACK the local address, each only where undefined |
| AdminSidebar.AdminGuardAdmitsOnlyAdmins | frontend/js/admin-sidebar.js:34 | of the three roles' login records, the guard admits only the administrator's |
| AdminSidebar.NoLoginIsRejected | frontend/js/admin-sidebar.js:21-34 | with no stored login the guard rejects the visitor |
| AdminSidebar.AdminAllowed | frontend/js/admin-sidebar.js:34 | a login passes exactly when it is present and names the ADMIN role or carries the back end's administrator role id |
| AdminSidebar.Sidebar.constructor | frontend/js/admin-sidebar.js:1 | the current page name starts empty |
| AdminSidebar.Sidebar.HighlightActivePage | frontend/js/admin-sidebar.js:8-18 | link i is marked exactly when its href equals the current page name |
| AdminSidebar.Sidebar.SetCurrentPage | frontend/js/admin-sidebar.js:3-6 | records the page, and link i is marked exactly when its href equals it |
| AdminSidebar.Sidebar.Initialize | frontend/js/admin-sidebar.js:20-65 | allowed exactly when the stored login passes the guard; a rejected visitor changes nothing. Otherwise the location's page becomes current and links are marked against it |
| AdminSidebar.Sidebar.Logout | frontend/js/admin-sidebar.js:67-77 | the login keys are cleared and the guard then rejects everybody |
| EmployeeSidebar.CustomerPassesGuardAsWritten | frontend/js/employee-sidebar.js:59 | the guard as written lets a customer's login record in |
| EmployeeSidebar.StaffGuardAdmitsOnlyStaff | frontend/js/employee-sidebar.js:59 | with the staff role's id, only the staff login record passes |
| EmployeeSidebar.GuardsAgreeOffCustomerId | frontend/js/employee-sidebar.js:59 | both guards agree on every login whose role id is neither 2 nor 3 |
| EmployeeSidebar.StaffAllowedAsWritten | frontend/js/employee-sidebar.js:59 | the guard as written admits a present login naming the STAFF role or carrying the back end's CUSTOMER role id |
| EmployeeSidebar.LinkMatches | frontend/js/employee-sidebar.js:8-43 | the exact-match test adds nothing: a link matches exactly when its href, or "null" without one, occurs in the page name, so an empty href matches every page |
| EmployeeSidebar.Highlighted | frontend/js/employee-sidebar.js:8-43 | the link keeps its href and is active exactly when it matches the page. A link with at most one bar keeps at most one, and has one exactly when it is active |
| EmployeeSidebar.HighlightIdempotent | frontend/js/employee-sidebar.js:8-43 | highlighting twice for the same page equals highlighting once |
| EmployeeSidebar.BadgeText | frontend/js/employee-sidebar.js:119-120 | the badge text is non-empty and all digits |
| EmployeeSidebar.BadgeReadsBack | frontend/js/employee-sidebar.js:119-120 | the badge reads back as the count when positive and as 0 otherwise |
| EmployeeSidebar.NegativeCountShowsZero | frontend/js/employee-sidebar.js:119-126 | a negative count leaves the badge shown, reading "0" |
| EmployeeSidebar.BadgeUserId | frontend/js/employee-sidebar.js:90-93 | the login's own truthy id is used first, then the stored userId; nothing is loaded only when both are falsy |
| EmployeeSidebar.Sidebar.constructor | frontend/js/employee-sidebar.js:1 | the current page name starts empty and the badge is as given |
| EmployeeSidebar.Sidebar.HighlightActivePage | frontend/js/employee-sidebar.js:8-43 | every link is re-marked against the current page, in place |
| EmployeeSidebar.Sidebar.SetCurrentPage | frontend/js/employee-sidebar.js:3-6 | records the page and re-marks every link against it; the badge is unchanged |
| EmployeeSidebar.Sidebar.ShowUnreadCount | frontend/js/employee-sidebar.js:107-135 | a count sets the badge text and shows it unless the count is 0; a failed request shows "0" and keeps the visibility |
| EmployeeSidebar.Sidebar.Initialize | frontend/js/employee-sidebar.js:45-104 | allowed exactly when the login passes the staff guard, and a rejected visitor changes nothing. Otherwise the page becomes current, links are re-marked and the badge id is returned |
| EmployeeSidebar.Sidebar.Logout | frontend/js/employee-sidebar.js:137-147 | the login keys are cleared and the guard then rejects everybody |
| ResetPassword.MetCount | frontend/js/reset-password.js:178-180 | between 0 and 4 requirements are met, and 4 exactly when all are |
| ResetPassword.IsPasswordStrong | frontend/js/reset-password.js:197-202 | a password is strong exactly when it meets all four requirements the bar ticks off |
| ResetPassword.StrengthOf | frontend/js/reset-password.js:178-192 | strong exactly when all four requirements are met, medium when three are, weak when two or fewer are |
| ResetPassword.StrongBarIffStrong | frontend/js/reset-password.js:178-202 | the bar shows strong exactly for the passwords the submit check accepts |
| ResetPassword.MediumBarIffOneMissing | frontend/js/reset-password.js:178-191 | the bar shows medium exactly when one requirement is missing |
| ResetPassword.AppendingKeepsRequirements | frontend/js/reset-password.js:143-150 | typing more characters never takes a met requirement away |
| ResetPassword.LiveMismatch | frontend/js/reset-password.js:40-54 | the warning shows exactly when the confirmation is non-empty and differs from the new password |
| ResetPassword.ValidateSubmit | frontend/js/reset-password.js:66-89 | the form sends exactly the strong passwords both fields hold after trimming, and sends the trimmed value. Otherwise it reports a required, mismatch or weakness message under the right field, and a mismatch only for fields that differ after trimming |
| ResetPassword.AgreedFieldsNeverMismatch | frontend/js/reset-password.js:79-82 | fields equal as typed never get the mismatch error on submit |
| ResetPassword.BlankNewPasswordFirst | frontend/js/reset-password.js:70-73 | a blank new password is reported first, whatever the confirmation holds |
| ResetPassword.SubmitErrorCases | frontend/js/reset-password.js:66-89 | the checks run in the source's order: a blank new password, else a blank confirmation, else a mismatch after trimming, else a weak password; each message is shown exactly in its own case |
| ResetPassword.ResetForm.constructor | frontend/js/reset-password.js:6-17 | no errors shown, no requirement met, no bar and the button enabled |
| ResetPassword.ResetForm.OnNewPasswordInput | frontend/js/reset-password.js:36-46 | requirements and bar follow the typed value. The new-password error clears and the mismatch warning is refreshed |
| ResetPassword.ResetForm.OnConfirmInput | frontend/js/reset-password.js:49-56 | the new-password error clears and the mismatch warning is refreshed; the bar is unchanged |
| ResetPassword.ResetForm.Submit | frontend/js/reset-password.js:59-92 | the first failed check shows its message under its field and sends nothing. Otherwise the button is disabled and the request carries the trimmed password |

## Left out

- Persistence: EF Core change tracking, `async`, and how LINQ is translated to SQL are not modelled. Each endpoint runs as one step over the class's maps.
- Error mapping: the `try`/`catch` blocks that turn a thrown exception into a 500 are not modelled. The exception is the Branches time parse, modelled as `ServerError`. `ModelState` binding errors are not modelled either.
- Row order: a query without `OrderBy`, or a tie under one, returns rows in ascending primary-key order. The database does not promise that order. Tables.OrderedRowsTieOrder proves that the model's stable sort keeps that order among ties.
- TestimonialsManagement.PublishedOf: the public entry's createdDate is the stored creation time. TestimonialsController.cs:44 sends `CreatedDate?.ToString("MMM dd, yyyy")` instead. That is day-only text such as "Jan 05, 2025", its month name depends on the server's culture, and it is null when the date is missing. Calendar conversion and culture month names are not modelled. The staff list (:86) and the detail (:171) send the raw DateTime, as the model does.
- TestimonialsManagement.PublishedFrom: each entry carries the raw creation time, not the "MMM dd, yyyy" text, for the reason given on the PublishedOf line.
- TestimonialsManagement.PublishedSound: "exactly its public view" covers the raw creation time, not the "MMM dd, yyyy" text, for the reason given on the PublishedOf line.
- BranchesManagement.ParseTime: only the exact "HH:mm" form is accepted. `TimeOnly.Parse` also accepts forms such as "9:00", "09:00:30" and "9:00 AM". On those, BranchesManagement.BranchDirectory.Create and Update answer with a 500 where the source stores the branch.
- String comparison: every comparison is ordinal, with ASCII-only case mapping and white space. SQL Server collations, `OrderBy(BranchName)`'s culture comparison and Unicode case tables are not modelled.
- Paging: `(pageNumber - 1) * pageSize` is computed on unbounded integers, so the 32-bit overflow of `int` is not modelled. The source pages on SQL Server (Program.cs:10), where a negative OFFSET or FETCH count is a database error, so `pageNumber <= 0` or a negative `pageSize` answers 500 (FaqController.cs:56-57, NotificationController.cs:35-36 and 409-410, AdminNotificationController.cs:223-224). NotificationStore.HistoryPage, NotificationSupport.GetUserNotifications and FaqManagement.GetAllAdmin instead return a page, with `Skip`/`Take` reading a negative count as zero.
- Password hashing in AdminManagementController.cs is the parameter `hash`. The hashing algorithm is not modelled.
- Clocks: `DateTime.Now`, `DateTime.UtcNow` and `DateTime.Today` are parameters.
- Dates: `DateOnly.AddMonths` is modelled on unbounded years, so its 1..9999 range check is not modelled.
- Reports.Growth: the conversion to `double` and `Math.Round(_, 1)` are not modelled. The result is the exact quotient times 100, and GrowthSign is stated about that value.
- Reports.LossRatio: the conversion to `double` and `Math.Round(_, 1)` are not modelled. The result is the exact quotient times 100.
- Money: decimals are integer hundredths, so finer decimal fractions are not modelled.
- InsuranceManagement.StatusOf: a null `IsActive` is modelled as `true`, since the source reports any value other than `false` as "ACTIVE".
- The projection endpoints of NotificationController.cs (`users`, `users/{userId}`, `admin/customers`, `admin/staff`) and of AdminNotificationController.cs (`users`, `customers`, `staff`) are not modelled. They only list rows for the send form.
- NotificationStore.AllCustomers: in the source, a customer row without a user makes the `all_customers` query throw, giving a 500. The model skips such rows.
- NotificationStore.Recipients: recipients are listed in ascending id order. The source leaves the order to the database.
- backend/FAQ/FaqsController.cs is not part of this model. It is a pass-through add/list/remove with no rules of its own.
- The Contact, Notification, Feedback, Testimonial, User, Policy and Claim records take their fields from how the controllers use them. The model files under `Models/` list different fields and are not part of this model.
- Browser: DOM updates, CSS classes other than the active markers, `fetch`, redirects, timers and `console` output are not modelled.
- `JSON.parse` is the parameter `parse`, with `None` standing for a `SyntaxError`. JSON arrays are not modelled as values.
- WebSession.StringToNumber: `Number()` of text with a decimal point, an exponent, a hex prefix or "Infinity" is NaN in the model, where JavaScript gives a number.
- String lengths count characters, not UTF-16 code units.
- Header: `checkLoginStatus`, `loadCustomerData`, the hover dropdown, `setupSearch`, `updateHeaderAvatar` and the dark-mode removal are not modelled. They are DOM and fetch work.
- Header.BadgeText: the count is an integer. `data.unreadCount || 0` applied to a non-numeric JSON value is not modelled, and neither is the `API_BASE` default of "/api".
- The sidebars' display of the administrator or staff name, position and avatar is not modelled.
- EmployeeSidebar.Highlighted: every `.ml-auto.w-1` child of a link is assumed to carry `bg-primary`. The source removes the first such child only when it does.
- EmployeeSidebar.Sidebar.ShowUnreadCount: the request URL fallback and the `fetch` are not modelled. The response is an optional count, with `None` for a failed request.
- EmployeeSidebar.Sidebar.Initialize: uses the guard with the staff role's id (see Findings). EmployeeSidebar.StaffAllowedAsWritten models the guard as written.
- ResetPassword: reading the email and username from sessionStorage, the redirect when they are missing, and the response handling after the request are not modelled. The latter covers the success message, the redirect and re-enabling the button on failure.
- Config: the manual override is a parameter; the script ships with it null.
- Demo clients, the demo-only controllers, the e-mail service, host startup, `pageLoader.js`, `popMessage.js` and `forgotten-password.js` are not part of this model. They contain no rules of their own.

## Findings

| source | as written | input that shows it | evidently intended | confidence | as-written member | corrected member |
|---|---|---|---|---|---|---|
| frontend/js/employee-sidebar.js:59 | the staff-page guard admits `roleId === 2`, which is the CUSTOMER role (1 ADMIN, 2 CUSTOMER, 3 STAFF) | a stored login `{userId: 7, roleId: 2, roleName: "CUSTOMER"}` passes the guard and stays on the staff pages | admit `roleId === 3`, the STAFF role | not executed | EmployeeSidebar.CustomerPassesGuardAsWritten | EmployeeSidebar.StaffGuardAdmitsOnlyStaff |
