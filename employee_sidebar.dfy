/**
 * employee-sidebar.js: the staff pages' sidebar. It lets only staff stay on
 * the page, marks the current page's link with a highlight and a vertical
 * indicator bar, shows the unread-notification badge and logs out.
 */
module EmployeeSidebar {
  import opened Common
  import opened WebSession
  import Entities

  // ---------------------------------------------------------------- the role guard

  /**
   * The guard as written: `user && (user.roleName === 'STAFF' || user.roleId === 2)`.
   * Role id 2 is CUSTOMER in the back end (1 ADMIN, 2 CUSTOMER, 3 STAFF).
   */
  predicate StaffAllowedAsWritten(user: JsValue): (r: bool)
    ensures r <==> Truthy(user) && (Field(user, "roleName") == JsString("STAFF")
                                    || Field(user, "roleId") == JsNumber(Entities.RoleCustomer as real))
  {
    Truthy(user) && (Field(user, "roleName") == JsString("STAFF") || Field(user, "roleId") == JsNumber(2.0))
  }

  /** The guard with the staff role's id, which the sidebar uses. */
  predicate StaffAllowed(user: JsValue) {
    Truthy(user)
    && (Field(user, "roleName") == JsString("STAFF") || Field(user, "roleId") == JsNumber(Entities.RoleStaff as real))
  }

  /** The guard as written lets a customer's login into the staff pages. */
  lemma CustomerPassesGuardAsWritten(userId: nat)
    ensures StaffAllowedAsWritten(LoginRecord(userId, Entities.RoleCustomer, "CUSTOMER"))
  {
  }

  /** With the staff role's id, the guard admits staff logins and turns customers and administrators away. */
  lemma StaffGuardAdmitsOnlyStaff(userId: nat)
    ensures StaffAllowed(LoginRecord(userId, Entities.RoleStaff, "STAFF"))
    ensures !StaffAllowed(LoginRecord(userId, Entities.RoleCustomer, "CUSTOMER"))
    ensures !StaffAllowed(LoginRecord(userId, Entities.RoleAdmin, "ADMIN"))
  {
    assert "CUSTOMER" != "STAFF" && "ADMIN" != "STAFF";
  }

  /** Both guards agree on every login whose role id is not the customer's. */
  lemma GuardsAgreeOffCustomerId(user: JsValue)
    requires Field(user, "roleId") != JsNumber(Entities.RoleCustomer as real)
    requires Field(user, "roleId") != JsNumber(Entities.RoleStaff as real)
    ensures StaffAllowed(user) <==> StaffAllowedAsWritten(user)
  {
  }

  // ---------------------------------------------------------------- the active link

  /** `currentPageName.includes(href)` converts a missing href to the text "null". */
  function HrefText(href: Option<string>): string {
    if href.Some? then href.value else "null"
  }

  /**
   * `href === currentPageName || currentPageName.includes(href)`. The exact-match
   * test adds nothing: a link matches exactly when its href occurs in the page
   * name, so an empty href matches every page.
   */
  predicate LinkMatches(href: Option<string>, currentPageName: string): (r: bool)
    ensures r <==> Contains(currentPageName, HrefText(href))
    ensures href == Some("") ==> r
  {
    ContainsItself(currentPageName);
    EmptyIsContained(currentPageName);
    href == Some(currentPageName) || Contains(currentPageName, HrefText(href))
  }

  lemma {:induction false} ContainsItself(s: string)
    ensures Contains(s, s)
  {
    assert s[..|s|] == s;
  }

  /** A link and the vertical indicator bars (`.ml-auto.w-1.bg-primary`) it holds. */
  datatype StaffLink = StaffLink(href: Option<string>, active: bool, indicators: nat)

  /**
   * One pass of highlightActivePage over a link: the first bar goes, and a
   * matching link gains a new one. A link with at most one bar keeps at most
   * one, and has one exactly when it is active.
   */
  function Highlighted(link: StaffLink, currentPageName: string): (r: StaffLink)
    ensures r.href == link.href && (r.active <==> LinkMatches(link.href, currentPageName))
    ensures link.indicators <= 1 ==> r.indicators <= 1 && (r.indicators == 1 <==> r.active)
  {
    var matched := LinkMatches(link.href, currentPageName);
    StaffLink(link.href, matched, (if link.indicators > 0 then link.indicators - 1 else 0) + (if matched then 1 else 0))
  }

  /** Highlighting twice for the same page is the same as highlighting once. */
  lemma HighlightIdempotent(link: StaffLink, currentPageName: string)
    requires link.indicators <= 1
    ensures Highlighted(Highlighted(link, currentPageName), currentPageName) == Highlighted(link, currentPageName)
  {
  }

  // ---------------------------------------------------------------- the badge

  /** `count > 0 ? count : '0'` for `count = data.unreadCount || 0`. */
  function BadgeText(count: int): (r: string)
    ensures r != "" && forall i :: 0 <= i < |r| ==> IsDigit(r[i])
  {
    if count > 0 then NatToString(count) else "0"
  }

  /** The badge is displayed unless the count is exactly 0. */
  predicate BadgeShown(count: int) {
    count != 0
  }

  /** The badge reads back as the count when there are unread notifications, and as 0 otherwise. */
  lemma BadgeReadsBack(count: int)
    ensures DigitsValue(BadgeText(count)) == if count > 0 then count else 0
  {
    if count > 0 {
      NatToStringRoundTrip(count);
    } else {
      assert DigitsValue("0") == DigitsValue("") * 10 + 0;
    }
  }

  /** A negative count is shown, as "0". */
  lemma NegativeCountShowsZero(count: int)
    requires count < 0
    ensures BadgeShown(count) && BadgeText(count) == "0"
  {
  }

  /** The id the badge is loaded for: `user.userId || localStorage.getItem('userId')`; None loads nothing. */
  function BadgeUserId(user: JsValue, storedUserId: Option<string>): (r: Option<JsValue>)
    ensures r.Some? ==> Truthy(r.value)
    ensures Truthy(Field(user, "userId")) ==> r == Some(Field(user, "userId"))
    ensures r.None? <==> !Truthy(Field(user, "userId")) && !TruthyText(storedUserId)
  {
    if Truthy(Field(user, "userId")) then Some(Field(user, "userId"))
    else if TruthyText(storedUserId) then Some(JsString(storedUserId.value))
    else None
  }

  // ---------------------------------------------------------------- the sidebar

  /** The sidebar's module state and the notification badge. */
  class Sidebar {
    var currentPageName: string
    var badgeText: string
    var badgeShown: bool

    constructor (badgeText: string, badgeShown: bool)
      ensures currentPageName == "" && this.badgeText == badgeText && this.badgeShown == badgeShown
    {
      currentPageName := "";
      this.badgeText := badgeText;
      this.badgeShown := badgeShown;
    }

    /** highlightActivePage: every link is re-marked against the current page. */
    method HighlightActivePage(links: array<StaffLink>)
      modifies links
      ensures forall i :: 0 <= i < links.Length ==> links[i] == Highlighted(old(links[i]), currentPageName)
    {
      for i := 0 to links.Length
        invariant forall k :: 0 <= k < i ==> links[k] == Highlighted(old(links[k]), currentPageName)
        invariant forall k :: i <= k < links.Length ==> links[k] == old(links[k])
      {
        var link := links[i];
        var indicators := if link.indicators > 0 then link.indicators - 1 else 0;
        var active := false;
        if link.href == Some(currentPageName) || Contains(currentPageName, HrefText(link.href)) {
          active := true;
          indicators := indicators + 1;
        }
        links[i] := StaffLink(link.href, active, indicators);
      }
    }

    /** setCurrentPage: records the page and re-marks the links. */
    method SetCurrentPage(pageName: string, links: array<StaffLink>)
      modifies this, links
      ensures currentPageName == pageName && badgeText == old(badgeText) && badgeShown == old(badgeShown)
      ensures forall i :: 0 <= i < links.Length ==> links[i] == Highlighted(old(links[i]), pageName)
    {
      currentPageName := pageName;
      HighlightActivePage(links);
    }

    /** loadUnreadNotificationCount: a count sets text and visibility; a failed request (None) shows "0" and keeps the visibility. */
    method ShowUnreadCount(response: Option<int>)
      modifies this
      ensures currentPageName == old(currentPageName)
      ensures response.Some? ==> badgeText == BadgeText(response.value) && badgeShown == BadgeShown(response.value)
      ensures response.None? ==> badgeText == "0" && badgeShown == old(badgeShown)
    {
      if response.None? {
        badgeText := "0";
        return;
      }
      var count := response.value;
      badgeText := if count > 0 then NatToString(count) else "0";
      if count == 0 {
        badgeShown := false;
      } else {
        badgeShown := true;
      }
    }

    /**
     * initializeStaffSidebar: a visitor who is not staff is sent to the login page and
     * nothing changes; otherwise the page named by the location becomes current and
     * its links are re-marked. The returned id is the one the badge is loaded for.
     */
    method Initialize(session: WebStorage, local: WebStorage, parse: string -> Option<JsValue>,
                      pathname: string, links: array<StaffLink>)
        returns (allowed: bool, badgeUserId: Option<JsValue>)
      modifies this, links
      ensures var user := StoredUser(Lookup(session.items, UserKey), Lookup(local.items, UserKey), parse);
              allowed == StaffAllowed(user)
              && (allowed ==> badgeUserId == BadgeUserId(user, Lookup(local.items, "userId")))
              && (!allowed ==> badgeUserId.None?)
      ensures badgeText == old(badgeText) && badgeShown == old(badgeShown)
      ensures !allowed ==> currentPageName == old(currentPageName) && links[..] == old(links[..])
      ensures allowed ==> currentPageName == CurrentPage(pathname)
                          && forall i :: 0 <= i < links.Length ==> links[i] == Highlighted(old(links[i]), CurrentPage(pathname))
    {
      var user := StoredUser(Lookup(session.items, UserKey), Lookup(local.items, UserKey), parse);
      if !StaffAllowed(user) {
        return false, None;
      }
      badgeUserId := BadgeUserId(user, Lookup(local.items, "userId"));
      currentPageName := CurrentPage(pathname);
      HighlightActivePage(links);
      allowed := true;
    }

    /** logoutStaff: clears the login keys, after which the guard turns everybody away. */
    method Logout(session: WebStorage, local: WebStorage, parse: string -> Option<JsValue>)
      requires session != local
      modifies session, local
      ensures local.items == old(local.items) - LoggedInKeys && session.items == map[]
      ensures !StaffAllowed(StoredUser(Lookup(session.items, UserKey), Lookup(local.items, UserKey), parse))
    {
      ClearUserData(session, local);
    }
  }
}
