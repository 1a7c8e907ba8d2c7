/**
 * What the front-end scripts share: JSON values as JSON.parse returns them,
 * JavaScript's truthiness and Number() conversion, the two Web Storage areas
 * (sessionStorage and localStorage), and the path arithmetic the navigation
 * scripts do on window.location.pathname.
 *
 * JSON.parse itself is a parameter `parse: string -> Option<JsValue>`, with
 * None standing for the SyntaxError it throws.
 */
module WebSession {
  import opened Common

  /** A JavaScript value reachable from a parsed JSON document (arrays are not modelled). */
  datatype JsValue =
    | JsUndefined
    | JsNull
    | JsBool(b: bool)
    | JsNumber(n: real)
    | JsString(s: string)
    | JsObject(fields: map<string, JsValue>)

  /** `v?.name`: a missing property, and any property of a primitive or of null, reads as undefined. */
  function Field(v: JsValue, name: string): (r: JsValue)
    ensures r != JsUndefined ==> v.JsObject? && name in v.fields && r == v.fields[name]
    ensures v.JsObject? && name in v.fields ==> r == v.fields[name]
  {
    if v.JsObject? && name in v.fields then v.fields[name] else JsUndefined
  }

  /** ToBoolean: undefined, null, false, 0 and "" are falsy; every object is truthy. */
  predicate Truthy(v: JsValue) {
    match v
    case JsUndefined => false
    case JsNull => false
    case JsBool(b) => b
    case JsNumber(n) => n != 0.0
    case JsString(s) => s != ""
    case JsObject(_) => true
  }

  /** A storage value used as a condition: null and "" are falsy. */
  predicate TruthyText(s: Option<string>) {
    s.Some? && s.value != ""
  }

  predicate AllDigits(s: string) {
    forall i :: 0 <= i < |s| ==> IsDigit(s[i])
  }

  /**
   * Number(s) for a string: blank text is 0, optionally signed decimal digits are
   * their value, and any other text is NaN (None).
   */
  function StringToNumber(s: string): (r: Option<real>)
    ensures AllDigits(Trim(s)) ==> r == Some(DigitsValue(Trim(s)) as real)
    ensures r.Some? && r.value < 0.0 ==> Trim(s)[0] == '-'
  {
    var t := Trim(s);
    if AllDigits(t) then Some(DigitsValue(t) as real)
    else if |t| > 1 && (t[0] == '-' || t[0] == '+') && AllDigits(t[1..]) then
      Some(if t[0] == '-' then -(DigitsValue(t[1..]) as real) else DigitsValue(t[1..]) as real)
    else None
  }

  /** Number(v); None is NaN. */
  function ToNumber(v: JsValue): (r: Option<real>)
    ensures v.JsNumber? ==> r == Some(v.n)
    ensures v == JsUndefined || v.JsObject? ==> r.None?
  {
    match v
    case JsUndefined => None
    case JsNull => Some(0.0)
    case JsBool(b) => Some(if b then 1.0 else 0.0)
    case JsNumber(n) => Some(n)
    case JsString(s) => StringToNumber(s)
    case JsObject(_) => None
  }

  /** `Number.isInteger(x) && x > 0` */
  predicate IsPositiveInteger(x: Option<real>) {
    x.Some? && x.value == x.value.Floor as real && x.value > 0.0
  }

  // ---------------------------------------------------------------- Web Storage

  /** The value getItem(key) returns: null for a missing key. */
  function Lookup(items: map<string, string>, key: string): (r: Option<string>)
    ensures r.Some? <==> key in items
    ensures r.Some? ==> r.value == items[key]
  {
    if key in items then Some(items[key]) else None
  }

  /** One Storage area (sessionStorage or localStorage) of the page. */
  class WebStorage {
    var items: map<string, string>

    constructor (items: map<string, string>)
      ensures this.items == items
    {
      this.items := items;
    }

    /** removeItem(key): the key is gone and every other entry is kept. */
    method RemoveItem(key: string)
      modifies this
      ensures items == old(items) - {key}
    {
      items := items - {key};
    }

    /** clear(): the area is empty. */
    method Clear()
      modifies this
      ensures items == map[]
    {
      items := map[];
    }
  }

  const UserKey := "user"
  const LoggedInKeys: set<string> := {"user", "role", "userId", "staffId"}

  /**
   * logoutAdmin / logoutStaff: the four login keys leave localStorage, every
   * other key stays, and sessionStorage is emptied.
   */
  method ClearUserData(session: WebStorage, local: WebStorage)
    requires session != local
    modifies session, local
    ensures local.items == old(local.items) - LoggedInKeys
    ensures session.items == map[]
    ensures Lookup(local.items, UserKey).None? && Lookup(session.items, UserKey).None?
  {
    local.RemoveItem("user");
    local.RemoveItem("role");
    local.RemoveItem("userId");
    local.RemoveItem("staffId");
    session.Clear();
  }

  /**
   * The user the sidebars read: `sessionStr || localStr`, parsed when present;
   * a parse failure leaves it null.
   */
  function StoredUser(sessionStr: Option<string>, localStr: Option<string>,
                      parse: string -> Option<JsValue>): (r: JsValue)
    ensures !TruthyText(sessionStr) && !TruthyText(localStr) ==> r == JsNull
    ensures TruthyText(sessionStr) && parse(sessionStr.value).Some? ==> r == parse(sessionStr.value).value
    ensures !TruthyText(sessionStr) && TruthyText(localStr) && parse(localStr.value).Some?
            ==> r == parse(localStr.value).value
  {
    var userStr := if TruthyText(sessionStr) then sessionStr else localStr;
    if TruthyText(userStr) then parse(userStr.value).GetOr(JsNull) else JsNull
  }

  /** The parsed login record of a user with the given ids and role name. */
  function LoginRecord(userId: nat, roleId: int, roleName: string): JsValue {
    JsObject(map["userId" := JsNumber(userId as real), "roleId" := JsNumber(roleId as real),
                 "roleName" := JsString(roleName)])
  }

  /** After a logout nothing is stored, so the sidebars read a null user. */
  lemma LoggedOutReadsNull(parse: string -> Option<JsValue>)
    ensures !Truthy(StoredUser(None, None, parse))
  {
  }

  // ---------------------------------------------------------------- paths

  /** `s.split('/').pop()`: the longest suffix of `s` without a '/'. */
  function LastSegment(s: string): string {
    if s == [] || s[|s| - 1] == '/' then []
    else LastSegment(s[..|s| - 1]) + [s[|s| - 1]]
  }

  /** The segment is a suffix without a '/', preceded by a '/' unless it is the whole string. */
  lemma {:induction false} LastSegmentIsLastPart(s: string)
    ensures var r := LastSegment(s);
            |r| <= |s| && r == s[|s| - |r|..]
            && (forall i :: 0 <= i < |r| ==> r[i] != '/')
            && (|r| < |s| ==> s[|s| - |r| - 1] == '/')
    decreases |s|
  {
    if s != [] && s[|s| - 1] != '/' {
      LastSegmentIsLastPart(s[..|s| - 1]);
    }
  }

  /** `s.split('.')[0]`: the longest prefix of `s` without a '.'. */
  function BeforeFirstDot(s: string): string {
    if s == [] || s[0] == '.' then []
    else [s[0]] + BeforeFirstDot(s[1..])
  }

  /** The part is a prefix without a '.', followed by a '.' unless it is the whole string. */
  lemma {:induction false} BeforeFirstDotIsFirstPart(s: string)
    ensures var r := BeforeFirstDot(s);
            |r| <= |s| && r == s[..|r|]
            && (forall i :: 0 <= i < |r| ==> r[i] != '.')
            && (|r| < |s| ==> s[|r|] == '.')
    decreases |s|
  {
    if s != [] && s[0] != '.' {
      BeforeFirstDotIsFirstPart(s[1..]);
    }
  }

  /** The segment after the last '/' of `dir + "/" + name` is `name` when `name` has no '/'. */
  lemma {:induction false} LastSegmentAfterSlash(dir: string, name: string)
    requires forall i :: 0 <= i < |name| ==> name[i] != '/'
    ensures LastSegment(dir + "/" + name) == name
    decreases |name|
  {
    var s := dir + "/" + name;
    if name != [] {
      var init := name[..|name| - 1];
      assert s[..|s| - 1] == dir + "/" + init;
      LastSegmentAfterSlash(dir, init);
      assert name == init + [name[|name| - 1]];
    }
  }

  /** The part before the first '.' of `name + ext` is `name` when `name` has no '.' and `ext` is empty or starts one. */
  lemma {:induction false} BeforeFirstDotOfExtension(name: string, ext: string)
    requires forall i :: 0 <= i < |name| ==> name[i] != '.'
    requires ext == "" || ext[0] == '.'
    ensures BeforeFirstDot(name + ext) == name
    decreases |name|
  {
    if name != [] {
      assert (name + ext)[1..] == name[1..] + ext;
      BeforeFirstDotOfExtension(name[1..], ext);
    }
  }

  const DefaultPage := "dashboard.html"

  /** `pathname.split('/').pop() || 'dashboard.html'`: the page's file name, or the dashboard for a folder URL. */
  function CurrentPage(pathname: string): (r: string)
    ensures r != ""
    ensures pathname == "" || pathname[|pathname| - 1] == '/' ==> r == DefaultPage
    ensures pathname != "" && pathname[|pathname| - 1] != '/' ==> r == LastSegment(pathname) != ""
  {
    LastSegmentIsLastPart(pathname);
    var last := LastSegment(pathname);
    if last == "" then DefaultPage else last
  }
}
