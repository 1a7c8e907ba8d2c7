/**
 * admin-sidebar.js: the admin pages' sidebar. It lets only administrators
 * stay on the page, remembers which page is current, marks that page's link
 * and logs out.
 *
 * The sidebar's links are the `href` attributes of `aside nav a`, in document
 * order (None for a link without one); `active[i]` is whether link i carries
 * the active-nav-item class.
 */
module AdminSidebar {
  import opened Common
  import opened WebSession
  import Entities

  /** `user && (user.roleName === 'ADMIN' || user.roleId === 1)` */
  predicate AdminAllowed(user: JsValue): (r: bool)
    ensures r ==> Truthy(user)
    ensures r <==> Truthy(user) && (Field(user, "roleName") == JsString("ADMIN")
                                    || Field(user, "roleId") == JsNumber(Entities.RoleAdmin as real))
  {
    Truthy(user) && (Field(user, "roleName") == JsString("ADMIN") || Field(user, "roleId") == JsNumber(1.0))
  }

  /** For the login records of the three roles, the guard admits exactly the administrator. */
  lemma AdminGuardAdmitsOnlyAdmins(userId: nat)
    ensures AdminAllowed(LoginRecord(userId, Entities.RoleAdmin, "ADMIN"))
    ensures !AdminAllowed(LoginRecord(userId, Entities.RoleCustomer, "CUSTOMER"))
    ensures !AdminAllowed(LoginRecord(userId, Entities.RoleStaff, "STAFF"))
  {
    assert "CUSTOMER" != "ADMIN" && "STAFF" != "ADMIN";
  }

  /** No stored login, or one that does not parse, keeps everybody out. */
  lemma NoLoginIsRejected(sessionStr: Option<string>, localStr: Option<string>, parse: string -> Option<JsValue>)
    requires !TruthyText(sessionStr) && !TruthyText(localStr)
    ensures !AdminAllowed(StoredUser(sessionStr, localStr, parse))
  {
  }

  /** `href === currentPageName`: a link without an href never matches. */
  predicate IsCurrentLink(href: Option<string>, currentPageName: string) {
    href == Some(currentPageName)
  }

  /** The sidebar's module state: `currentPageName`. */
  class Sidebar {
    var currentPageName: string

    constructor ()
      ensures currentPageName == ""
    {
      currentPageName := "";
    }

    /** highlightActivePage: link i is active exactly when its href is the current page's name. */
    method HighlightActivePage(hrefs: seq<Option<string>>, active: array<bool>)
      requires active.Length == |hrefs|
      modifies active
      ensures forall i :: 0 <= i < |hrefs| ==> active[i] == IsCurrentLink(hrefs[i], currentPageName)
    {
      for i := 0 to |hrefs|
        invariant forall k :: 0 <= k < i ==> active[k] == IsCurrentLink(hrefs[k], currentPageName)
      {
        active[i] := false;
        if hrefs[i] == Some(currentPageName) {
          active[i] := true;
        }
      }
    }

    /** setCurrentPage: records the page and re-marks the links. */
    method SetCurrentPage(pageName: string, hrefs: seq<Option<string>>, active: array<bool>)
      requires active.Length == |hrefs|
      modifies this, active
      ensures currentPageName == pageName
      ensures forall i :: 0 <= i < |hrefs| ==> active[i] == IsCurrentLink(hrefs[i], pageName)
    {
      currentPageName := pageName;
      HighlightActivePage(hrefs, active);
    }

    /**
     * initializeAdminSidebar: a visitor who is not an administrator is sent to the
     * login page and nothing changes; otherwise the page named by the location
     * becomes current and its links are marked.
     */
    method Initialize(session: WebStorage, local: WebStorage, parse: string -> Option<JsValue>,
                      pathname: string, hrefs: seq<Option<string>>, active: array<bool>)
        returns (allowed: bool)
      requires active.Length == |hrefs|
      modifies this, active
      ensures allowed == AdminAllowed(StoredUser(Lookup(session.items, UserKey), Lookup(local.items, UserKey), parse))
      ensures !allowed ==> currentPageName == old(currentPageName) && active[..] == old(active[..])
      ensures allowed ==> currentPageName == CurrentPage(pathname)
                          && forall i :: 0 <= i < |hrefs| ==> active[i] == IsCurrentLink(hrefs[i], CurrentPage(pathname))
    {
      var user := StoredUser(Lookup(session.items, UserKey), Lookup(local.items, UserKey), parse);
      if !AdminAllowed(user) {
        return false;
      }
      currentPageName := CurrentPage(pathname);
      HighlightActivePage(hrefs, active);
      allowed := true;
    }

    /** logoutAdmin: clears the login keys, after which the guard turns everybody away. */
    method Logout(session: WebStorage, local: WebStorage, parse: string -> Option<JsValue>)
      requires session != local
      modifies session, local
      ensures local.items == old(local.items) - LoggedInKeys && session.items == map[]
      ensures !AdminAllowed(StoredUser(Lookup(session.items, UserKey), Lookup(local.items, UserKey), parse))
    {
      ClearUserData(session, local);
    }
  }
}
