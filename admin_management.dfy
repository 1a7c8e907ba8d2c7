/**
 * AdminManagementController: the admin's user accounts. Listing with a role
 * and a text filter, one user with their staff or customer profile, creating
 * a user (with the profile its role calls for), updating one (hiding a
 * customer's policies when the account becomes inactive or banned), and
 * deleting one softly (INACTIVE) or permanently (profile detached and
 * anonymised, audit logs and addressed notifications removed).
 */
module AdminManagement {
  import opened Common
  import opened Tables
  import opened Entities
  import opened NotificationStore

  const MsgUsernameRequired := "Username is required"
  const MsgPasswordRequired := "Password is required"
  const MsgRoleRequired := "RoleId is required"
  const MsgUsernameExists := "Username already exists"
  const DefaultAvatar := "/images/default-avatar.png"
  const DeletedName := "[DELETED]"
  const StatusActive := "ACTIVE"
  const StatusInactive := "INACTIVE"

  // ---------------------------------------------------------------- GetUsers

  /** The query string of GetUsers: ?roleId=..&search=.. */
  datatype UserQuery = UserQuery(roleId: Option<int>, search: Option<string>)

  /** One entry of the user list (and the head of GetUser's answer). */
  datatype UserRow = UserRow(
    userId: int,
    username: string,
    email: Option<string>,
    roleId: int,
    roleName: Option<string>,
    isLocked: Option<bool>,
    status: Option<string>,
    bannedUntil: Option<int>,
    createdAt: Option<int>)

  /** The role's name through the Role navigation; null when the Roles row is missing. */
  function RoleNameOf(roles: map<int, string>, roleId: int): (r: Option<string>)
    ensures r.Some? <==> roleId in roles
    ensures r.Some? ==> r.value == roles[roleId]
  {
    if roleId in roles then Some(roles[roleId]) else None
  }

  function RowOf(row: (int, User), roles: map<int, string>): UserRow {
    var u := row.1;
    UserRow(row.0, u.username, u.email, u.roleId, RoleNameOf(roles, u.roleId),
            u.isLocked, u.status, u.bannedUntil, u.createdAt)
  }

  /** The search filter: blank matches all, otherwise the lower-cased trimmed text occurs in the username or the email. */
  predicate MatchesSearch(u: User, search: Option<string>) {
    IsBlank(search)
    || (var s := Lower(Trim(search.value));
        Contains(Lower(u.username), s) || (u.email.Some? && Contains(Lower(u.email.value), s)))
  }

  predicate Listed(u: User, q: UserQuery) {
    (q.roleId.None? || u.roleId == q.roleId.value) && MatchesSearch(u, q.search)
  }

  function RowsOf(rows: seq<(int, User)>, roles: map<int, string>): (r: seq<UserRow>)
    ensures |r| == |rows|
    ensures forall i :: 0 <= i < |rows| ==> r[i] == RowOf(rows[i], roles)
  {
    if rows == [] then [] else [RowOf(rows[0], roles)] + RowsOf(rows[1..], roles)
  }

  /** GetUsers: the users passing the filters, newest (largest UserId) first. */
  function GetUsers(users: map<int, User>, roles: map<int, string>, q: UserQuery): (r: seq<UserRow>)
    ensures |r| <= |users|
  {
    RowsOf(RowsWhereDescending(users, Listed, q), roles)
  }

  /** Every listed row is the row of a stored user that passes the filters. */
  lemma GetUsersSound(users: map<int, User>, roles: map<int, string>, q: UserQuery, i: int)
    requires 0 <= i < |GetUsers(users, roles, q)|
    ensures var r := GetUsers(users, roles, q);
            r[i].userId in users && Listed(users[r[i].userId], q)
            && r[i] == RowOf((r[i].userId, users[r[i].userId]), roles)
  {
    var rows := RowsWhereDescending(users, Listed, q);
    assert GetUsers(users, roles, q)[i] == RowOf(rows[i], roles);
  }

  /** Newer users (larger ids) come first. */
  lemma GetUsersNewestFirst(users: map<int, User>, roles: map<int, string>, q: UserQuery, i: int, j: int)
    requires 0 <= i < j < |GetUsers(users, roles, q)|
    ensures GetUsers(users, roles, q)[i].userId > GetUsers(users, roles, q)[j].userId
  {
    var rows := RowsWhereDescending(users, Listed, q);
    assert GetUsers(users, roles, q)[i] == RowOf(rows[i], roles);
    assert GetUsers(users, roles, q)[j] == RowOf(rows[j], roles);
  }

  /** Every user passing the filters is listed. */
  lemma GetUsersComplete(users: map<int, User>, roles: map<int, string>, q: UserQuery, k: int)
    requires k in users && Listed(users[k], q)
    ensures RowOf((k, users[k]), roles) in GetUsers(users, roles, q)
  {
    var rows := RowsWhereDescending(users, Listed, q);
    var i :| 0 <= i < |rows| && rows[i] == (k, users[k]);
    assert GetUsers(users, roles, q)[i] == RowOf((k, users[k]), roles);
  }

  /** Without a role and with a blank search every user is listed. */
  lemma GetUsersUnfilteredListsAll(users: map<int, User>, roles: map<int, string>, search: Option<string>)
    requires IsBlank(search)
    ensures |GetUsers(users, roles, UserQuery(None, search))| == |users|
  {
    var q := UserQuery(None, search);
    RowsWhereDescendingCount(users, Listed, q);
    assert KeysWhere(users, Listed, q) == users.Keys;
  }

  // ---------------------------------------------------------------- GetUser

  datatype StaffProfile = StaffProfile(
    staffId: int, fullName: Option<string>, phone: Option<string>,
    position: Option<string>, avatar: Option<string>, isActive: Option<bool>)

  datatype CustomerProfile = CustomerProfile(
    customerId: int, customerName: Option<string>, phone: Option<string>,
    address: Option<string>, avatar: Option<string>)

  datatype UserDetail = UserDetail(user: UserRow, staff: Option<StaffProfile>, customer: Option<CustomerProfile>)

  function StaffProfileOf(id: int, s: Staff): StaffProfile {
    StaffProfile(id, s.fullName, s.phone, s.position, s.avatar, s.isActive)
  }

  function CustomerProfileOf(id: int, c: Customer): CustomerProfile {
    CustomerProfile(id, c.customerName, c.phone, c.address, c.avatar)
  }

  /**
   * GetUser: 404 without a body for an unknown id; otherwise the user with the
   * first staff row and the first customer row that belong to them, if any.
   */
  function GetUser(users: map<int, User>, roles: map<int, string>, staff: map<int, Staff>,
                   customers: map<int, Customer>, id: int): (r: Response<UserDetail>)
    ensures id !in users <==> r == NotFound("")
    ensures r.Ok? ==> r.value.user == RowOf((id, users[id]), roles)
    ensures r.Ok? ==> (r.value.staff.None? <==> forall k :: k in staff ==> !StaffOfUser(staff[k], id))
    ensures r.Ok? && r.value.staff.Some? ==>
              var k := r.value.staff.value.staffId;
              k in staff && StaffOfUser(staff[k], id) && r.value.staff.value == StaffProfileOf(k, staff[k])
              && forall k' :: k' in staff && StaffOfUser(staff[k'], id) ==> k <= k'
    ensures r.Ok? ==> (r.value.customer.None? <==> forall k :: k in customers ==> !CustomerOfUser(customers[k], id))
    ensures r.Ok? && r.value.customer.Some? ==>
              var k := r.value.customer.value.customerId;
              k in customers && CustomerOfUser(customers[k], id) && r.value.customer.value == CustomerProfileOf(k, customers[k])
              && forall k' :: k' in customers && CustomerOfUser(customers[k'], id) ==> k <= k'
  {
    if id !in users then NotFound("")
    else
      var s := FirstKeyWhere(staff, StaffOfUser, id);
      var c := FirstKeyWhere(customers, CustomerOfUser, id);
      Ok(UserDetail(RowOf((id, users[id]), roles),
                    if s.Some? then Some(StaffProfileOf(s.value, staff[s.value])) else None,
                    if c.Some? then Some(CustomerProfileOf(c.value, customers[c.value])) else None))
  }

  // ---------------------------------------------------------------- CreateUser

  /** The body of CreateUser and UpdateUser. Username defaults to the empty string. */
  datatype UpsertUserRequest = UpsertUserRequest(
    username: string,
    password: Option<string>,
    email: Option<string>,
    roleId: int,
    status: Option<string>,
    bannedUntil: Option<int>,
    isLocked: Option<bool>,
    fullName: Option<string>,
    phone: Option<string>,
    position: Option<string>,
    address: Option<string>)

  /** Username.ToLower() == name.ToLower() */
  predicate SameUsername(u: User, name: string) {
    Lower(u.username) == Lower(name)
  }

  /** Users.Any(u => u.Username.ToLower() == name.ToLower()) */
  predicate UsernameTaken(users: map<int, User>, name: string) {
    exists k :: k in users && SameUsername(users[k], name)
  }

  /** No two accounts share a username up to case. */
  ghost predicate UniqueUsernames(users: map<int, User>) {
    forall a, b :: a in users && b in users && a != b ==> Lower(users[a].username) != Lower(users[b].username)
  }

  /** CreateUser's checks, in order: the message of the first that fails, or None. */
  function CreateError(req: UpsertUserRequest, users: map<int, User>): Option<string> {
    if IsBlank(Some(req.username)) then Some(MsgUsernameRequired)
    else if IsBlank(req.password) then Some(MsgPasswordRequired)
    else if req.roleId <= 0 then Some(MsgRoleRequired)
    else if UsernameTaken(users, Trim(req.username)) then Some(MsgUsernameExists)
    else None
  }

  /**
   * Each check fails exactly when the earlier ones pass and its own condition
   * holds; a request passes all of them exactly when it names a non-blank
   * username and password, a positive role, and a username no account has in any case.
   */
  lemma CreateErrorCases(req: UpsertUserRequest, users: map<int, User>)
    ensures var r := CreateError(req, users);
            && (r == Some(MsgUsernameRequired) <==> IsBlank(Some(req.username)))
            && (r == Some(MsgPasswordRequired) <==> !IsBlank(Some(req.username)) && IsBlank(req.password))
            && (r == Some(MsgRoleRequired) <==>
                  !IsBlank(Some(req.username)) && !IsBlank(req.password) && req.roleId <= 0)
            && (r == Some(MsgUsernameExists) <==>
                  !IsBlank(Some(req.username)) && !IsBlank(req.password) && req.roleId > 0
                  && exists k :: k in users && Lower(users[k].username) == Lower(Trim(req.username)))
            && (r.None? <==>
                  !IsBlank(Some(req.username)) && !IsBlank(req.password) && req.roleId > 0
                  && forall k :: k in users ==> Lower(users[k].username) != Lower(Trim(req.username)))
  {
  }

  /** Email: null when blank, trimmed otherwise. */
  function NormalEmail(email: Option<string>): (r: Option<string>)
    ensures r.None? <==> IsBlank(email)
    ensures r.Some? ==> r.value == Trim(email.value) && r.value != ""
  {
    if IsBlank(email) then None
    else
      TrimEmptyIffBlank(email.value);
      Some(Trim(email.value))
  }

  /** A status as stored: trimmed and upper-cased. */
  function NormalStatus(status: string): (r: string)
    requires !IsBlank(Some(status))
    ensures r != "" && |r| <= |status|
    ensures forall i :: 0 <= i < |r| ==> !IsLowerLetter(r[i])
    ensures |r| == |Trim(status)| && forall i :: 0 <= i < |r| ==> r[i] == UpperChar(Trim(status)[i])
  {
    TrimEmptyIffBlank(status);
    UpperHasNoLower(Trim(status));
    Upper(Trim(status))
  }

  /** Normalising a stored status again leaves it as it is. */
  lemma NormalStatusIdempotent(status: string)
    requires !IsBlank(Some(status))
    ensures !IsBlank(Some(NormalStatus(status)))
    ensures NormalStatus(NormalStatus(status)) == NormalStatus(status)
  {
    var r := NormalStatus(status);
    TrimIdempotent(status);
    UpperOfTrimmedIsTrimmed(Trim(status));
    assert Trim(r) == r;
    TrimEmptyIffBlank(r);
    UpperIsFixed(r);
  }

  lemma ActiveIsNormal()
    ensures StatusActive != "" && forall i :: 0 <= i < |StatusActive| ==> !IsLowerLetter(StatusActive[i])
  {
    assert |StatusActive| == 6;
  }

  /** The status CreateUser stores: ACTIVE when none is given. */
  function StatusOnCreate(status: Option<string>): (r: string)
    ensures r != "" && forall i :: 0 <= i < |r| ==> !IsLowerLetter(r[i])
    ensures IsBlank(status) ==> r == StatusActive
    ensures !IsBlank(status) ==> r == NormalStatus(status.value)
  {
    ActiveIsNormal();
    if IsBlank(status) then StatusActive else NormalStatus(status.value)
  }

  /** The account CreateUser stores, given the hash of the password. */
  function NewUser(req: UpsertUserRequest, passwordHash: string, now: int): User {
    User(Trim(req.username), passwordHash, NormalEmail(req.email), req.roleId,
         Some(req.isLocked.GetOr(false)), Some(StatusOnCreate(req.status)), req.bannedUntil, Some(now))
  }

  /**
   * A new account has a non-empty trimmed username, a null or trimmed
   * non-empty email, an unlocked flag unless locking was asked for, and a
   * non-empty status without lower-case letters (ACTIVE by default).
   */
  lemma NewUserNormalised(req: UpsertUserRequest, passwordHash: string, now: int)
    requires !IsBlank(Some(req.username))
    ensures var u := NewUser(req, passwordHash, now);
            && u.username == Trim(req.username) && u.username != ""
            && u.passwordHash == passwordHash && u.roleId == req.roleId && u.createdAt == Some(now)
            && (u.email.None? <==> IsBlank(req.email))
            && (u.email.Some? ==> u.email.value == Trim(req.email.value) && u.email.value != "")
            && (req.isLocked.None? ==> u.isLocked == Some(false))
            && (req.isLocked.Some? ==> u.isLocked == req.isLocked)
            && u.status.Some? && u.status.value != ""
            && (IsBlank(req.status) ==> u.status == Some(StatusActive))
            && forall i :: 0 <= i < |u.status.value| ==> !IsLowerLetter(u.status.value[i])
  {
    TrimEmptyIffBlank(req.username);
  }

  /** The staff profile created with a STAFF account: active, default avatar. */
  function NewStaff(userId: int, req: UpsertUserRequest): Staff {
    Staff(userId, req.fullName, req.phone, req.position, Some(DefaultAvatar), Some(true))
  }

  /** The customer profile created with a CUSTOMER account; its name falls back to the raw username. */
  function NewCustomer(userId: int, req: UpsertUserRequest): Customer {
    Customer(Some(userId), Some(req.fullName.GetOr(req.username)), req.address, req.phone, Some(DefaultAvatar))
  }

  /** Once created, the same username in any case and padding is refused. */
  lemma CreateThenDuplicateRejected(users: map<int, User>, req: UpsertUserRequest, hash: string, now: int,
                                    id: int, again: UpsertUserRequest)
    requires CreateError(req, users).None?
    requires Lower(Trim(again.username)) == Lower(Trim(req.username))
    requires !IsBlank(Some(again.username)) && !IsBlank(again.password) && again.roleId > 0
    ensures CreateError(again, users[id := NewUser(req, hash, now)]) == Some(MsgUsernameExists)
  {
    var after := users[id := NewUser(req, hash, now)];
    assert SameUsername(after[id], Trim(again.username));
  }

  /** Creating an account keeps usernames unique up to case. */
  lemma CreateKeepsUsernamesUnique(users: map<int, User>, req: UpsertUserRequest, hash: string, now: int, id: int)
    requires UniqueUsernames(users) && id !in users
    requires CreateError(req, users).None?
    ensures UniqueUsernames(users[id := NewUser(req, hash, now)])
  {
    CreateErrorCases(req, users);
  }

  // ---------------------------------------------------------------- UpdateUser

  /** A new username is asked for: non-blank and, trimmed, not the stored one (ordinally). */
  predicate RenameRequested(u: User, req: UpsertUserRequest) {
    !IsBlank(Some(req.username)) && Trim(req.username) != u.username
  }

  /** UpdateUser's 400: the new username belongs to another account, up to case. */
  predicate UsernameConflict(users: map<int, User>, id: int, req: UpsertUserRequest)
    requires id in users
  {
    RenameRequested(users[id], req) && UsernameTaken(users - {id}, Trim(req.username))
  }

  /** The account after UpdateUser. */
  function UpdatedUser(u: User, req: UpsertUserRequest, hash: string -> string): User {
    u.(username := if RenameRequested(u, req) then Trim(req.username) else u.username,
       passwordHash := if IsBlank(req.password) then u.passwordHash else hash(req.password.value),
       email := NormalEmail(req.email),
       isLocked := if req.isLocked.Some? then req.isLocked else u.isLocked,
       status := if IsBlank(req.status) then u.status else Some(NormalStatus(req.status.value)),
       bannedUntil := req.bannedUntil)
  }

  /**
   * UpdateUser never changes the role or the creation time; it keeps the
   * password, the lock flag and the status when none is given, and always
   * replaces the email (normalised) and the ban.
   */
  lemma UpdatedUserKeeps(u: User, req: UpsertUserRequest, hash: string -> string)
    ensures var r := UpdatedUser(u, req, hash);
            && r.roleId == u.roleId && r.createdAt == u.createdAt
            && (!RenameRequested(u, req) ==> r.username == u.username)
            && (IsBlank(req.password) ==> r.passwordHash == u.passwordHash)
            && (!IsBlank(req.password) ==> r.passwordHash == hash(req.password.value))
            && (req.isLocked.None? ==> r.isLocked == u.isLocked)
            && (IsBlank(req.status) ==> r.status == u.status)
            && (!IsBlank(req.status) ==> r.status.Some? && r.status.value != ""
                                         && forall i :: 0 <= i < |r.status.value| ==> !IsLowerLetter(r.status.value[i]))
            && (r.email.None? <==> IsBlank(req.email)) && r.bannedUntil == req.bannedUntil
  {
  }

  /** An update that passes the username check keeps usernames unique up to case. */
  lemma UpdateKeepsUsernamesUnique(users: map<int, User>, id: int, req: UpsertUserRequest, hash: string -> string)
    requires UniqueUsernames(users) && id in users
    requires !UsernameConflict(users, id, req)
    ensures UniqueUsernames(users[id := UpdatedUser(users[id], req, hash)])
  {
    var v := UpdatedUser(users[id], req, hash);
    if RenameRequested(users[id], req) {
      forall k | k in users && k != id ensures Lower(users[k].username) != Lower(v.username) {
        assert k in users - {id};
        assert !SameUsername(users[k], Trim(req.username));
      }
    } else {
      assert v.username == users[id].username;
    }
    ReplaceKeepsUnique(users, id, v);
  }

  /** Replacing an account by one whose username no other account shares keeps usernames unique. */
  lemma ReplaceKeepsUnique(users: map<int, User>, id: int, v: User)
    requires UniqueUsernames(users) && id in users
    requires forall k :: k in users && k != id ==> Lower(users[k].username) != Lower(v.username)
    ensures UniqueUsernames(users[id := v])
  {
  }

  /** The staff profile after UpdateUser: name, phone and position replaced, nulls included. */
  function EditedStaff(s: Staff, req: UpsertUserRequest): Staff {
    s.(fullName := req.fullName, phone := req.phone, position := req.position)
  }

  /** The customer profile after UpdateUser: the name only when given, phone and address always. */
  function EditedCustomer(c: Customer, req: UpsertUserRequest): Customer {
    c.(customerName := if req.fullName.Some? then req.fullName else c.customerName,
       phone := req.phone, address := req.address)
  }

  /** An account whose status is not ACTIVE (in any case) or whose ban has not run out. */
  predicate ShouldHide(u: User, now: int) {
    (u.status.Some? && Upper(u.status.value) != StatusActive)
    || (u.bannedUntil.Some? && u.bannedUntil.value > now)
  }

  /** A status of ACTIVE in any letter case keeps the policies visible (absent a ban). */
  lemma ActiveInAnyCaseNotHidden(u: User, now: int)
    requires u.status.Some? && Lower(u.status.value) == "active"
    requires u.bannedUntil.None? || u.bannedUntil.value <= now
    ensures !ShouldHide(u, now)
  {
    var s := u.status.value;
    assert |s| == 6;
    forall i | 0 <= i < 6 ensures Upper(s)[i] == StatusActive[i] {
      assert LowerChar(s[i]) == "active"[i];
    }
    assert Upper(s) == StatusActive;
  }

  function Hide(p: Policy): Policy {
    p.(isHidden := Some(true))
  }

  /**
   * HideCustomerPolicies(userId): the policies of the first customer row of the
   * user, hidden; nothing changes when the user has no customer row.
   */
  function PoliciesHiddenFor(policies: map<int, Policy>, customers: map<int, Customer>, userId: int): (r: map<int, Policy>)
    ensures r.Keys == policies.Keys
  {
    match FirstKeyWhere(customers, CustomerOfUser, userId)
    case None => policies
    case Some(c) => UpdatedWhere(policies, PolicyOfCustomer, c, Hide)
  }

  /**
   * Hiding changes only IsHidden; it hides every policy of the user's first
   * customer row and no other; without a customer row nothing changes.
   */
  lemma PoliciesHiddenForCustomer(policies: map<int, Policy>, customers: map<int, Customer>, userId: int, k: int)
    requires k in policies
    ensures var r := PoliciesHiddenFor(policies, customers, userId);
            var c := FirstKeyWhere(customers, CustomerOfUser, userId);
            && (c.Some? && PolicyOfCustomer(policies[k], c.value) ==> r[k] == policies[k].(isHidden := Some(true)))
            && (c.None? || !PolicyOfCustomer(policies[k], c.value) ==> r[k] == policies[k])
            && (c.Some? ==> c.value in customers && CustomerOfUser(customers[c.value], userId))
  {
  }

  method HideCustomerPolicies(policies: map<int, Policy>, customers: map<int, Customer>, userId: int)
    returns (result: map<int, Policy>)
    ensures result == PoliciesHiddenFor(policies, customers, userId)
  {
    var c := FirstKeyWhere(customers, CustomerOfUser, userId);
    if c.None? {
      return policies;
    }
    var count;
    result, count := UpdateWhere(policies, PolicyOfCustomer, c.value, Hide);
  }

  /**
   * The profile part of UpdateUser: a STAFF account's first staff row is
   * edited; a CUSTOMER account's first customer row is edited and, when the
   * account should be hidden, that customer's policies are hidden; other
   * roles, and accounts without a profile row, keep everything.
   */
  ghost predicate EditedProfile(staff: map<int, Staff>, customers: map<int, Customer>, policies: map<int, Policy>,
                                role: int, id: int, req: UpsertUserRequest, conceal: bool,
                                staff': map<int, Staff>, customers': map<int, Customer>, policies': map<int, Policy>)
  {
    var s := FirstKeyWhere(staff, StaffOfUser, id);
    var c := FirstKeyWhere(customers, CustomerOfUser, id);
    && staff' == (if role == RoleStaff && s.Some? then staff[s.value := EditedStaff(staff[s.value], req)] else staff)
    && customers' == (if role == RoleCustomer && c.Some? then customers[c.value := EditedCustomer(customers[c.value], req)]
                      else customers)
    && policies' == (if role == RoleCustomer && c.Some? && conceal then UpdatedWhere(policies, PolicyOfCustomer, c.value, Hide)
                     else policies)
  }

  method EditProfile(staff: map<int, Staff>, customers: map<int, Customer>, policies: map<int, Policy>,
                     role: int, id: int, req: UpsertUserRequest, conceal: bool)
    returns (staff': map<int, Staff>, customers': map<int, Customer>, policies': map<int, Policy>)
    ensures staff'.Keys == staff.Keys && customers'.Keys == customers.Keys && policies'.Keys == policies.Keys
    ensures EditedProfile(staff, customers, policies, role, id, req, conceal, staff', customers', policies')
  {
    staff', customers', policies' := staff, customers, policies;
    if role == RoleStaff {
      var s := FirstKeyWhere(staff, StaffOfUser, id);
      if s.Some? {
        staff' := staff[s.value := EditedStaff(staff[s.value], req)];
      }
    } else if role == RoleCustomer {
      var c := FirstKeyWhere(customers, CustomerOfUser, id);
      if c.Some? {
        customers' := customers[c.value := EditedCustomer(customers[c.value], req)];
        if conceal {
          var count;
          policies', count := UpdateWhere(policies, PolicyOfCustomer, c.value, Hide);
        }
      }
    }
  }

  // ---------------------------------------------------------------- DeleteUser

  /** The customer row after a permanent delete: detached from the account and stripped of personal data. */
  function Anonymised(c: Customer): Customer {
    Customer(None, Some(DeletedName), None, None, None)
  }

  predicate LogOfUser(l: AuditLog, userId: int) {
    l.userId == Some(userId)
  }

  predicate AddressedTo(n: Notification, userId: int) {
    n.userId == Some(userId)
  }

  /** A softly deleted account is reached by no group notification, strict or lenient. */
  lemma SoftDeletedLeavesGroups(users: map<int, User>, customers: map<int, Customer>, staff: map<int, Staff>,
                                id: int, recipientType: Option<string>, userId: Option<int>, strict: bool)
    requires id in users && users[id].status == Some(StatusInactive)
    requires recipientType != Some("specific")
    ensures id !in Recipients(users, customers, staff, recipientType, userId, strict)
  {
    var r := Recipients(users, customers, staff, recipientType, userId, strict);
    if recipientType == Some("all_users") {
      assert r == AllUsers(users, strict);
    } else if recipientType == Some("all_customers") {
      assert r == AllCustomers(users, customers, strict);
    } else if recipientType == Some("all_staff") {
      assert r == AllStaff(users, staff, strict);
    } else {
      assert r == [];
    }
    assert !UserReceives(users[id], strict);
  }

  /** After a permanent delete the user's addressed notifications are gone: what they would see is broadcasts only. */
  lemma HardDeleteLeavesBroadcastsOnly(notifications: map<int, Notification>, id: int)
    ensures forall k :: k in RemoveWhere(notifications, AddressedTo, id) ==>
              (Visible(RemoveWhere(notifications, AddressedTo, id)[k], id)
               <==> RemoveWhere(notifications, AddressedTo, id)[k].userId.None?)
  {
  }

  /**
   * The profile part of a permanent delete: a STAFF account loses its first
   * staff row; a CUSTOMER account has its policies hidden and its first
   * customer row anonymised; other roles keep everything.
   */
  ghost predicate PurgedProfile(staff: map<int, Staff>, customers: map<int, Customer>, policies: map<int, Policy>,
                                role: int, id: int,
                                staff': map<int, Staff>, customers': map<int, Customer>, policies': map<int, Policy>)
  {
    var s := FirstKeyWhere(staff, StaffOfUser, id);
    var c := FirstKeyWhere(customers, CustomerOfUser, id);
    && staff' == (if role == RoleStaff && s.Some? then staff - {s.value} else staff)
    && customers' == (if role == RoleCustomer && c.Some? then customers[c.value := Anonymised(customers[c.value])]
                      else customers)
    && policies' == (if role == RoleCustomer then PoliciesHiddenFor(policies, customers, id) else policies)
  }

  method PurgeProfile(staff: map<int, Staff>, customers: map<int, Customer>, policies: map<int, Policy>, role: int, id: int)
    returns (staff': map<int, Staff>, customers': map<int, Customer>, policies': map<int, Policy>)
    ensures staff'.Keys <= staff.Keys && customers'.Keys == customers.Keys && policies'.Keys == policies.Keys
    ensures PurgedProfile(staff, customers, policies, role, id, staff', customers', policies')
  {
    staff', customers', policies' := staff, customers, policies;
    if role == RoleStaff {
      var s := FirstKeyWhere(staff, StaffOfUser, id);
      if s.Some? {
        staff' := staff - {s.value};
      }
    } else if role == RoleCustomer {
      policies' := HideCustomerPolicies(policies, customers, id);
      var c := FirstKeyWhere(customers, CustomerOfUser, id);
      if c.Some? {
        customers' := customers[c.value := Anonymised(customers[c.value])];
      }
    }
  }

  // ---------------------------------------------------------------- the controller

  class UserAdministration {
    /** Roles are read here, never written. */
    var roles: map<int, string>
    var users: map<int, User>
    var staff: map<int, Staff>
    var customers: map<int, Customer>
    var policies: map<int, Policy>
    var auditLogs: map<int, AuditLog>
    var notifications: map<int, Notification>
    var nextUserId: int
    var nextStaffId: int
    var nextCustomerId: int

    ghost predicate Valid()
      reads this
    {
      1 <= nextUserId && 1 <= nextStaffId && 1 <= nextCustomerId
      && (forall k :: k in users ==> 1 <= k < nextUserId)
      && (forall k :: k in staff ==> 1 <= k < nextStaffId)
      && (forall k :: k in customers ==> 1 <= k < nextCustomerId)
    }

    constructor (roles: map<int, string>)
      ensures Valid()
      ensures this.roles == roles
      ensures users == map[] && staff == map[] && customers == map[] && policies == map[]
      ensures auditLogs == map[] && notifications == map[]
    {
      this.roles := roles;
      users := map[];
      staff := map[];
      customers := map[];
      policies := map[];
      auditLogs := map[];
      notifications := map[];
      nextUserId := 1;
      nextStaffId := 1;
      nextCustomerId := 1;
    }

    /**
     * CreateUser: the first failing check's 400 with nothing stored, or the new
     * user's id, with a staff profile for role 3 and a customer profile for role 2.
     */
    method Create(req: UpsertUserRequest, hash: string -> string, now: int) returns (r: Response<int>)
      requires Valid()
      modifies this
      ensures Valid()
      ensures roles == old(roles) && policies == old(policies)
      ensures auditLogs == old(auditLogs) && notifications == old(notifications)
      ensures CreateError(req, old(users)).Some? ==>
                r == BadRequest(CreateError(req, old(users)).value)
                && users == old(users) && staff == old(staff) && customers == old(customers)
      ensures CreateError(req, old(users)).None? ==>
                var id := old(nextUserId);
                r == Ok(id) && id !in old(users)
                && users == old(users)[id := NewUser(req, hash(req.password.value), now)]
                && staff == (if req.roleId == RoleStaff then old(staff)[old(nextStaffId) := NewStaff(id, req)] else old(staff))
                && customers == (if req.roleId == RoleCustomer
                                 then old(customers)[old(nextCustomerId) := NewCustomer(id, req)]
                                 else old(customers))
    {
      if IsBlank(Some(req.username)) {
        return BadRequest(MsgUsernameRequired);
      } else if IsBlank(req.password) {
        return BadRequest(MsgPasswordRequired);
      } else if req.roleId <= 0 {
        return BadRequest(MsgRoleRequired);
      } else if UsernameTaken(users, Trim(req.username)) {
        return BadRequest(MsgUsernameExists);
      }
      r := AddAccount(NewUser(req, hash(req.password.value), now), req);
    }

    /** The stores of a CreateUser that passed its checks: the account, then the profile its role calls for. */
    method AddAccount(u: User, req: UpsertUserRequest) returns (r: Response<int>)
      requires Valid()
      modifies this
      ensures Valid()
      ensures roles == old(roles) && policies == old(policies)
      ensures auditLogs == old(auditLogs) && notifications == old(notifications)
      ensures var id := old(nextUserId);
              r == Ok(id) && id !in old(users)
              && users == old(users)[id := u]
              && staff == (if req.roleId == RoleStaff then old(staff)[old(nextStaffId) := NewStaff(id, req)] else old(staff))
              && customers == (if req.roleId == RoleCustomer
                               then old(customers)[old(nextCustomerId) := NewCustomer(id, req)]
                               else old(customers))
    {
      var id := nextUserId;
      users, nextUserId := users[id := u], id + 1;
      if req.roleId == RoleStaff {
        staff, nextStaffId := staff[nextStaffId := NewStaff(id, req)], nextStaffId + 1;
      } else if req.roleId == RoleCustomer {
        customers, nextCustomerId := customers[nextCustomerId := NewCustomer(id, req)], nextCustomerId + 1;
      }
      r := Ok(id);
    }

    /**
     * UpdateUser: 404, the username 400 with nothing changed, or the account,
     * its profile and (for a customer who should be hidden) its policies updated.
     */
    method Update(id: int, req: UpsertUserRequest, hash: string -> string, now: int) returns (r: Response<bool>)
      requires Valid()
      modifies this
      ensures Valid()
      ensures roles == old(roles) && auditLogs == old(auditLogs) && notifications == old(notifications)
      ensures nextUserId == old(nextUserId) && nextStaffId == old(nextStaffId) && nextCustomerId == old(nextCustomerId)
      ensures id !in old(users) ==>
                r == NotFound("") && users == old(users) && staff == old(staff)
                && customers == old(customers) && policies == old(policies)
      ensures id in old(users) && UsernameConflict(old(users), id, req) ==>
                r == BadRequest(MsgUsernameExists) && users == old(users) && staff == old(staff)
                && customers == old(customers) && policies == old(policies)
      ensures id in old(users) && !UsernameConflict(old(users), id, req) ==>
                var u := UpdatedUser(old(users)[id], req, hash);
                r == Ok(true) && users == old(users)[id := u]
                && EditedProfile(old(staff), old(customers), old(policies), u.roleId, id, req, ShouldHide(u, now),
                                 staff, customers, policies)
    {
      if id !in users {
        return NotFound("");
      }
      if UsernameConflict(users, id, req) {
        return BadRequest(MsgUsernameExists);
      }
      var u := UpdatedUser(users[id], req, hash);
      StoreUpdate(id, u, req, ShouldHide(u, now));
      r := Ok(true);
    }

    /** The stores of an UpdateUser that passed its checks: the account, then its profile. */
    method StoreUpdate(id: int, u: User, req: UpsertUserRequest, conceal: bool)
      requires Valid() && id in users
      modifies this
      ensures Valid()
      ensures roles == old(roles) && auditLogs == old(auditLogs) && notifications == old(notifications)
      ensures nextUserId == old(nextUserId) && nextStaffId == old(nextStaffId) && nextCustomerId == old(nextCustomerId)
      ensures users == old(users)[id := u]
      ensures EditedProfile(old(staff), old(customers), old(policies), u.roleId, id, req, conceal, staff, customers, policies)
    {
      var staff', customers', policies' := EditProfile(staff, customers, policies, u.roleId, id, req, conceal);
      users, staff, customers, policies := users[id := u], staff', customers', policies';
    }

    /**
     * DeleteUser: 404 for an unknown id, otherwise the soft or the permanent
     * delete below.
     */
    method Delete(id: int, permanent: bool) returns (r: Response<string>)
      requires Valid()
      modifies this
      ensures Valid()
      ensures roles == old(roles)
      ensures nextUserId == old(nextUserId) && nextStaffId == old(nextStaffId) && nextCustomerId == old(nextCustomerId)
      ensures id !in old(users) ==>
                r == NotFound("") && users == old(users) && staff == old(staff) && customers == old(customers)
                && policies == old(policies) && auditLogs == old(auditLogs) && notifications == old(notifications)
      ensures id in old(users) && !permanent ==>
                r == Ok("soft") && users == old(users)[id := old(users)[id].(status := Some(StatusInactive))]
                && policies == PoliciesHiddenFor(old(policies), old(customers), id)
                && staff == old(staff) && customers == old(customers)
                && auditLogs == old(auditLogs) && notifications == old(notifications)
      ensures id in old(users) && permanent ==>
                r == Ok("hard") && users == old(users) - {id}
                && PurgedProfile(old(staff), old(customers), old(policies), old(users)[id].roleId, id,
                                 staff, customers, policies)
                && auditLogs == RemoveWhere(old(auditLogs), LogOfUser, id)
                && notifications == RemoveWhere(old(notifications), AddressedTo, id)
    {
      if id !in users {
        return NotFound("");
      }
      if !permanent {
        SoftDelete(id);
        return Ok("soft");
      }
      HardDelete(id);
      r := Ok("hard");
    }

    /** The soft delete: the account becomes INACTIVE and its customer's policies are hidden. */
    method SoftDelete(id: int)
      requires Valid() && id in users
      modifies this
      ensures Valid()
      ensures roles == old(roles)
      ensures nextUserId == old(nextUserId) && nextStaffId == old(nextStaffId) && nextCustomerId == old(nextCustomerId)
      ensures users == old(users)[id := old(users)[id].(status := Some(StatusInactive))]
      ensures policies == PoliciesHiddenFor(old(policies), old(customers), id)
      ensures staff == old(staff) && customers == old(customers)
      ensures auditLogs == old(auditLogs) && notifications == old(notifications)
    {
      var policies' := HideCustomerPolicies(policies, customers, id);
      users, policies := users[id := users[id].(status := Some(StatusInactive))], policies';
    }

    /**
     * The permanent delete: the profile purged as its role says, the user's
     * audit logs and addressed notifications removed, then the account itself.
     */
    method HardDelete(id: int)
      requires Valid() && id in users
      modifies this
      ensures Valid()
      ensures roles == old(roles)
      ensures nextUserId == old(nextUserId) && nextStaffId == old(nextStaffId) && nextCustomerId == old(nextCustomerId)
      ensures users == old(users) - {id}
      ensures PurgedProfile(old(staff), old(customers), old(policies), old(users)[id].roleId, id, staff, customers, policies)
      ensures auditLogs == RemoveWhere(old(auditLogs), LogOfUser, id)
      ensures notifications == RemoveWhere(old(notifications), AddressedTo, id)
    {
      var staff', customers', policies' := PurgeProfile(staff, customers, policies, users[id].roleId, id);
      users, staff, customers, policies := users - {id}, staff', customers', policies';
      auditLogs, notifications := RemoveWhere(auditLogs, LogOfUser, id), RemoveWhere(notifications, AddressedTo, id);
    }
  }
}
