/**
 * header.js: the customer pages' header. It decides which stored login to
 * trust, logs out, marks the navigation link of the current page and shows
 * the unread-notification badge.
 */
module Header {
  import opened Common
  import opened WebSession

  // ---------------------------------------------------------------- the session user

  /** `['CUSTOMER', 'STAFF', 'ADMIN'].includes(String(roleName || '').toUpperCase())` */
  predicate ValidRoleName(roleName: JsValue) {
    // String() of true, of a number or of an object never upper-cases to a role name,
    // so only a string can pass.
    roleName.JsString? && Upper(roleName.s) in {"CUSTOMER", "STAFF", "ADMIN"}
  }

  /** The shape test: a known role name and positive integer user and role ids. */
  predicate ValidShape(user: JsValue) {
    ValidRoleName(Field(user, "roleName"))
    && IsPositiveInteger(ToNumber(Field(user, "userId")))
    && IsPositiveInteger(ToNumber(Field(user, "roleId")))
  }

  /** `user?.rememberMe === true` */
  predicate RemembersMe(user: JsValue) {
    Field(user, "rememberMe") == JsBool(true)
  }

  /** What getValidSessionUser returns and which of the two stored 'user' entries it removes. */
  datatype SessionCheck = SessionCheck(user: Option<JsValue>, clearSession: bool, clearLocal: bool)

  /**
   * getValidSessionUser as a function of the two stored strings. A returned user
   * is the parse of the stored text, has a valid shape, and came from
   * sessionStorage or was saved with "Remember me"; nothing is removed then.
   * Every rejected login text leaves localStorage; sessionStorage loses it
   * unless only "Remember me" failed.
   */
  function CheckSession(sessionStr: Option<string>, localStr: Option<string>,
                        parse: string -> Option<JsValue>): (c: SessionCheck)
    ensures c.user.Some? ==>
              ValidShape(c.user.value) && !c.clearSession && !c.clearLocal
              && (TruthyText(sessionStr) ==> parse(sessionStr.value) == Some(c.user.value))
              && (!TruthyText(sessionStr) ==> TruthyText(localStr) && parse(localStr.value) == Some(c.user.value)
                                              && RemembersMe(c.user.value))
    ensures c.user.None? && (TruthyText(sessionStr) || TruthyText(localStr)) ==> c.clearLocal
    ensures c.clearSession ==> c.user.None? && c.clearLocal
  {
    var userStr := if TruthyText(sessionStr) then sessionStr else localStr;
    if !TruthyText(userStr) then SessionCheck(None, false, false)
    else match parse(userStr.value)
      case None => SessionCheck(None, true, true)
      case Some(user) =>
        if !TruthyText(sessionStr) && !RemembersMe(user) then SessionCheck(None, false, true)
        else if !ValidShape(user) then SessionCheck(None, true, true)
        else SessionCheck(Some(user), false, false)
  }

  /**
   * Conversely, a well-formed stored login is accepted: a valid session entry,
   * or (without one) a valid remembered local entry.
   */
  lemma CheckSessionComplete(sessionStr: Option<string>, localStr: Option<string>,
                             parse: string -> Option<JsValue>, user: JsValue)
    requires ValidShape(user)
    requires (TruthyText(sessionStr) && parse(sessionStr.value) == Some(user))
          || (!TruthyText(sessionStr) && TruthyText(localStr) && parse(localStr.value) == Some(user)
              && RemembersMe(user))
    ensures CheckSession(sessionStr, localStr, parse) == SessionCheck(Some(user), false, false)
  {
  }

  /** The stored text after the removals the check asked for. */
  function AfterCheck(stored: Option<string>, clear: bool): Option<string> {
    if clear then None else stored
  }

  /** Checking again after the removals gives the same user and removes nothing more. */
  lemma CheckSessionStable(sessionStr: Option<string>, localStr: Option<string>,
                           parse: string -> Option<JsValue>)
    ensures var c := CheckSession(sessionStr, localStr, parse);
            CheckSession(AfterCheck(sessionStr, c.clearSession), AfterCheck(localStr, c.clearLocal), parse)
            == SessionCheck(c.user, false, false)
  {
    var c := CheckSession(sessionStr, localStr, parse);
    if c.user.None? && !c.clearSession && c.clearLocal {
      assert !TruthyText(sessionStr);
    }
  }

  /** getValidSessionUser: reads both 'user' entries, removes the ones it distrusts, and returns the trusted user or null. */
  method GetValidSessionUser(session: WebStorage, local: WebStorage, parse: string -> Option<JsValue>)
      returns (user: Option<JsValue>)
    requires session != local
    modifies session, local
    ensures var c := CheckSession(old(Lookup(session.items, UserKey)), old(Lookup(local.items, UserKey)), parse);
            user == c.user
            && session.items == (if c.clearSession then old(session.items) - {UserKey} else old(session.items))
            && local.items == (if c.clearLocal then old(local.items) - {UserKey} else old(local.items))
  {
    var sessionStr := Lookup(session.items, UserKey);
    var localStr := Lookup(local.items, UserKey);
    var userStr := if TruthyText(sessionStr) then sessionStr else localStr;
    if !TruthyText(userStr) {
      return None;
    }
    var parsed := parse(userStr.value);
    if parsed.None? {
      session.RemoveItem(UserKey);
      local.RemoveItem(UserKey);
      return None;
    }
    var u := parsed.value;
    if !TruthyText(sessionStr) && TruthyText(localStr) {
      if !RemembersMe(u) {
        local.RemoveItem(UserKey);
        return None;
      }
    }
    if !ValidShape(u) {
      session.RemoveItem(UserKey);
      local.RemoveItem(UserKey);
      return None;
    }
    user := Some(u);
  }

  /** logout: the stored 'user' leaves both areas, so no session user is found afterwards. */
  method Logout(session: WebStorage, local: WebStorage, parse: string -> Option<JsValue>)
    requires session != local
    modifies session, local
    ensures session.items == old(session.items) - {UserKey}
    ensures local.items == old(local.items) - {UserKey}
    ensures CheckSession(Lookup(session.items, UserKey), Lookup(local.items, UserKey), parse).user.None?
  {
    session.RemoveItem(UserKey);
    local.RemoveItem(UserKey);
  }

  // ---------------------------------------------------------------- the active link

  /** `s.toLowerCase().split('/').pop().split('.')[0]`: the file name without folders or extension. */
  function FileStem(s: string): string {
    BeforeFirstDot(LastSegment(Lower(s)))
  }

  /** A link is active when its file stem and the page's are both non-empty and equal. */
  predicate NavMatches(href: Option<string>, pathname: string) {
    StemsMatch(FileStem(href.GetOr("")), FileStem(pathname))
  }

  /** `fileName && pathFileName && fileName === pathFileName` */
  predicate StemsMatch(fileName: string, pathFileName: string) {
    fileName != "" && pathFileName != "" && fileName == pathFileName
  }

  lemma LowerConcat(a: string, b: string)
    ensures Lower(a + b) == Lower(a) + Lower(b)
  {
    assert forall i :: 0 <= i < |a + b| ==> Lower(a + b)[i] == (Lower(a) + Lower(b))[i];
  }

  /** Lower-casing keeps '/' and '.' where they are. */
  lemma LowerOfPath(dir: string, name: string, ext: string)
    ensures Lower(dir + "/" + name + ext) == Lower(dir) + "/" + (Lower(name) + Lower(ext))
  {
    LowerConcat(dir + "/", name + ext);
    LowerConcat(dir, "/");
    LowerConcat(name, ext);
    assert Lower("/") == "/";
  }

  lemma LowerKeepsSeparators(s: string)
    requires forall i :: 0 <= i < |s| ==> s[i] != '/' && s[i] != '.'
    ensures forall i :: 0 <= i < |Lower(s)| ==> Lower(s)[i] != '/' && Lower(s)[i] != '.'
  {
  }

  /** The stem of `dir/name.ext` is the lower-cased name, whatever the folder and the extension. */
  lemma FileStemOf(dir: string, name: string, ext: string)
    requires forall i :: 0 <= i < |name| ==> name[i] != '/' && name[i] != '.'
    requires ext == "" || (ext[0] == '.' && forall i :: 0 <= i < |ext| ==> ext[i] != '/')
    ensures FileStem(dir + "/" + name + ext) == Lower(name)
  {
    LowerOfPath(dir, name, ext);
    LowerKeepsSeparators(name);
    var lname, lext := Lower(name), Lower(ext);
    assert forall i :: 0 <= i < |lname + lext| ==> (lname + lext)[i] != '/' by {
      assert forall i :: 0 <= i < |lext| ==> lext[i] == LowerChar(ext[i]);
    }
    LastSegmentAfterSlash(Lower(dir), lname + lext);
    assert lext == "" || lext[0] == '.';
    BeforeFirstDotOfExtension(lname, lext);
  }

  /**
   * A link to the page's own file is active even when it names another folder, another
   * extension or other letter case, e.g. "../user/Policies.html" on "/user/policies".
   */
  lemma LinkToSameFileIsActive(linkDir: string, pageDir: string, linkName: string, pageName: string,
                               linkExt: string, pageExt: string)
    requires linkName != "" && Lower(linkName) == Lower(pageName)
    requires forall i :: 0 <= i < |linkName| ==> linkName[i] != '/' && linkName[i] != '.'
    requires forall i :: 0 <= i < |pageName| ==> pageName[i] != '/' && pageName[i] != '.'
    requires linkExt == "" || (linkExt[0] == '.' && forall i :: 0 <= i < |linkExt| ==> linkExt[i] != '/')
    requires pageExt == "" || (pageExt[0] == '.' && forall i :: 0 <= i < |pageExt| ==> pageExt[i] != '/')
    ensures NavMatches(Some(linkDir + "/" + linkName + linkExt), pageDir + "/" + pageName + pageExt)
  {
    FileStemOf(linkDir, linkName, linkExt);
    FileStemOf(pageDir, pageName, pageExt);
    assert |Lower(linkName)| == |linkName|;
  }

  /** A link without an href, or whose file stem is empty, is never active. */
  lemma EmptyStemNeverActive(href: Option<string>, pathname: string)
    requires FileStem(href.GetOr("")) == ""
    ensures !NavMatches(href, pathname)
  {
  }

  /** highlightActiveNav: link i ends up active exactly when it matches the page. */
  method HighlightActiveNav(hrefs: seq<Option<string>>, pathname: string, active: array<bool>)
    requires active.Length == |hrefs|
    modifies active
    ensures forall i :: 0 <= i < |hrefs| ==> active[i] == NavMatches(hrefs[i], pathname)
  {
    var pathFileName := FileStem(pathname);
    for i := 0 to |hrefs|
      invariant forall k :: 0 <= k < i ==> active[k] == NavMatches(hrefs[k], pathname)
    {
      var fileName := FileStem(hrefs[i].GetOr(""));
      active[i] := StemsMatch(fileName, pathFileName);
    }
  }

  // ---------------------------------------------------------------- the badge

  /** loadNotificationCount: the badge text for an unread count, or None when the badge is hidden. */
  function BadgeText(unreadCount: int): (r: Option<string>)
    ensures r.Some? <==> unreadCount > 0
    ensures unreadCount > 9 ==> r == Some("9+")
    ensures r.Some? ==> 1 <= |r.value| <= 2
  {
    if unreadCount <= 0 then None
    else if unreadCount > 9 then Some("9+")
    else Some(NatToString(unreadCount))
  }

  /** Counts from 1 to 9 are shown as themselves: the badge text reads back as the count. */
  lemma BadgeReadsBack(unreadCount: int)
    requires 0 < unreadCount <= 9
    ensures BadgeText(unreadCount).Some?
    ensures DigitsValue(BadgeText(unreadCount).value) == unreadCount
  {
    NatToStringRoundTrip(unreadCount);
  }

  /** Two different counts below ten never share a badge; every count above nine shares "9+". */
  lemma BadgeDistinguishesSmallCounts(a: int, b: int)
    requires 0 < a <= 9 && 0 < b <= 9 && a != b
    ensures BadgeText(a) != BadgeText(b)
  {
    BadgeReadsBack(a);
    BadgeReadsBack(b);
  }
}
