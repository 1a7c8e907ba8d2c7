/**
 * BranchesController: the company's branch offices, their opening hours and
 * whether each is open at the current time of day; admins create, edit and
 * soft-delete branches.
 *
 * A time of day (TimeOnly) is its count of 100-nanosecond ticks since
 * midnight; requests carry opening hours as "HH:mm" text.
 */
module BranchesManagement {
  import opened Common
  import opened Tables

  const TicksPerMinute := 600_000_000
  const MinutesPerDay := 1440
  const TicksPerDay := 864_000_000_000

  type TimeOfDay = t: int | 0 <= t < TicksPerDay

  const MsgBranchNotFound := "Branch not found"
  const MsgAllFieldsRequired := "All fields are required"
  const MsgInvalidEmail := "Invalid email format"
  const MsgCreated := "Branch created successfully!"
  const MsgUpdated := "Branch updated successfully!"
  const MsgDeleted := "Branch deleted successfully!"
  /** The 500 body is this prefix followed by the exception's own message. */
  const MsgCreateFailed := "Error creating branch: "
  const MsgUpdateFailed := "Error updating branch: "

  datatype Branch = Branch(
    branchName: string,
    managerName: string,
    address: string,
    hotline: string,
    email: string,
    operatingStartTime: TimeOfDay,
    operatingEndTime: TimeOfDay,
    isActive: bool,
    createdDate: int,
    updatedDate: Option<int>)

  // ---------------------------------------------------------------- opening hours

  /**
   * IsCurrentlyOpen: a window with start < end is open from start up to (not
   * including) end; otherwise it runs overnight, open from start or before
   * end, so start == end is open all day. Both cases say one thing: a branch is
   * open exactly when less than its window's length has passed since it last
   * opened. It is open at its opening time and, unless it never closes, closed
   * at its closing time.
   */
  predicate IsCurrentlyOpen(start: TimeOfDay, end: TimeOfDay, now: TimeOfDay): (r: bool)
    ensures r <==> SinceOpening(start, now) < WindowLength(start, end)
    ensures now == start ==> r
    ensures now == end ==> (r <==> start == end)
  {
    assert start < end ==> WindowLength(start, end) == end - start;
    assert start > end ==> WindowLength(start, end) == end - start + TicksPerDay;
    if start < end then start <= now < end else now >= start || now < end
  }

  /** How long a branch stays open after opening; an equal start and end mean the whole day. */
  function WindowLength(start: TimeOfDay, end: TimeOfDay): (r: int)
    ensures 0 < r <= TicksPerDay
    ensures start != end ==> r < TicksPerDay
  {
    if start == end then TicksPerDay else (end - start) % TicksPerDay
  }

  /** The time since the branch last opened, counted around the clock. */
  function SinceOpening(start: TimeOfDay, now: TimeOfDay): (r: int)
    ensures 0 <= r < TicksPerDay
    ensures now >= start ==> r == now - start
    ensures now < start ==> r == now - start + TicksPerDay
  {
    (now - start) % TicksPerDay
  }

  /** Outside of equal start and end, the overnight window is the complement of the day window it leaves out. */
  lemma OvernightIsComplement(start: TimeOfDay, end: TimeOfDay, now: TimeOfDay)
    requires start != end
    ensures IsCurrentlyOpen(start, end, now) <==> !IsCurrentlyOpen(end, start, now)
  {
  }

  // ---------------------------------------------------------------- "HH:mm"

  predicate IsTwoDigits(n: int) { 0 <= n < 100 }

  function TwoDigits(n: int): (r: string)
    requires IsTwoDigits(n)
    ensures |r| == 2 && IsDigit(r[0]) && IsDigit(r[1])
  {
    [DigitChar(n / 10), DigitChar(n % 10)]
  }

  function DigitValue(c: char): int
    requires IsDigit(c)
  {
    c as int - '0' as int
  }

  /** The time of day truncated to the minute. */
  function MinuteOf(t: TimeOfDay): (r: TimeOfDay)
    ensures r <= t < r + TicksPerMinute
    ensures r % TicksPerMinute == 0
  {
    t / TicksPerMinute * TicksPerMinute
  }

  /** ToString("HH:mm"): two-digit hour (00-23), a colon, two-digit minute. */
  function FormatTime(t: TimeOfDay): (r: string)
    ensures |r| == 5 && r[2] == ':'
    ensures forall i :: 0 <= i < 5 && i != 2 ==> IsDigit(r[i])
  {
    var m := t / TicksPerMinute;
    TwoDigits(m / 60) + ":" + TwoDigits(m % 60)
  }

  /**
   * TimeOnly.Parse restricted to the "HH:mm" form the pages send: two-digit
   * hour 00-23, a colon, two-digit minute 00-59. Every other text is None,
   * which the write operations answer with a 500.
   */
  function ParseTime(s: string): (r: Option<TimeOfDay>)
    ensures r.Some? ==> r.value % TicksPerMinute == 0
  {
    if |s| == 5 && IsDigit(s[0]) && IsDigit(s[1]) && s[2] == ':' && IsDigit(s[3]) && IsDigit(s[4]) then
      var h := DigitValue(s[0]) * 10 + DigitValue(s[1]);
      var m := DigitValue(s[3]) * 10 + DigitValue(s[4]);
      if h < 24 && m < 60 then Some((h * 60 + m) * TicksPerMinute) else None
    else
      None
  }

  lemma TwoDigitsValue(n: int)
    requires IsTwoDigits(n)
    ensures DigitValue(TwoDigits(n)[0]) * 10 + DigitValue(TwoDigits(n)[1]) == n
  {
  }

  /** Printing a time and parsing it back gives the time truncated to the minute. */
  lemma ParseFormatted(t: TimeOfDay)
    ensures ParseTime(FormatTime(t)) == Some(MinuteOf(t))
  {
    var m := t / TicksPerMinute;
    assert 0 <= m < MinutesPerDay;
    var s := FormatTime(t);
    TwoDigitsValue(m / 60);
    TwoDigitsValue(m % 60);
    assert s[..2] == TwoDigits(m / 60) && s[3..] == TwoDigits(m % 60);
    assert DigitValue(s[0]) * 10 + DigitValue(s[1]) == m / 60;
    assert DigitValue(s[3]) * 10 + DigitValue(s[4]) == m % 60;
    assert (m / 60 * 60 + m % 60) * TicksPerMinute == MinuteOf(t);
  }

  /** Every text the parser accepts is printed back unchanged: "HH:mm" is canonical. */
  lemma FormatParsed(s: string)
    requires ParseTime(s).Some?
    ensures FormatTime(ParseTime(s).value) == s
  {
    var h := DigitValue(s[0]) * 10 + DigitValue(s[1]);
    var m := DigitValue(s[3]) * 10 + DigitValue(s[4]);
    var t := ParseTime(s).value;
    assert t == (h * 60 + m) * TicksPerMinute;
    assert t / TicksPerMinute == h * 60 + m;
    assert (h * 60 + m) / 60 == h && (h * 60 + m) % 60 == m;
    assert TwoDigits(h) == s[..2];
    assert TwoDigits(m) == s[3..];
  }

  // ---------------------------------------------------------------- reading

  /** Ordinal string order: a prefix comes first, otherwise the first differing character decides. */
  predicate NameLe(a: string, b: string) {
    a == [] || (b != [] && (a[0] < b[0] || (a[0] == b[0] && NameLe(a[1..], b[1..]))))
  }

  lemma {:induction false} NameLeTotal(a: string, b: string)
    ensures NameLe(a, b) || NameLe(b, a)
  {
    if a != [] && b != [] && a[0] == b[0] {
      NameLeTotal(a[1..], b[1..]);
    }
  }

  lemma {:induction false} NameLeTransitive(a: string, b: string, c: string)
    requires NameLe(a, b) && NameLe(b, c)
    ensures NameLe(a, c)
  {
    if a != [] && a[0] == b[0] && b[0] == c[0] {
      NameLeTransitive(a[1..], b[1..], c[1..]);
    }
  }

  /** `a` may come before `b` in OrderBy(BranchName). */
  predicate ByName(a: (int, Branch), b: (int, Branch)) {
    NameLe(a.1.branchName, b.1.branchName)
  }

  lemma ByNameIsOrder()
    ensures Total(ByName) && Transitive(ByName)
  {
    forall a: (int, Branch), b: (int, Branch) ensures ByName(a, b) || ByName(b, a) {
      NameLeTotal(a.1.branchName, b.1.branchName);
    }
    forall a: (int, Branch), b: (int, Branch), c: (int, Branch) | ByName(a, b) && ByName(b, c)
      ensures ByName(a, c)
    {
      NameLeTransitive(a.1.branchName, b.1.branchName, c.1.branchName);
    }
  }

  predicate IsActive(b: Branch, u: ()) { b.isActive }

  datatype BranchItem = BranchItem(
    branchId: int,
    branchName: string,
    managerName: string,
    address: string,
    hotline: string,
    email: string,
    operatingStartTime: string,
    operatingEndTime: string,
    isOnline: bool)

  function ItemOf(e: (int, Branch), now: TimeOfDay): BranchItem {
    var b := e.1;
    BranchItem(e.0, b.branchName, b.managerName, b.address, b.hotline, b.email,
               FormatTime(b.operatingStartTime), FormatTime(b.operatingEndTime),
               IsCurrentlyOpen(b.operatingStartTime, b.operatingEndTime, now))
  }

  function ItemsFrom(rows: seq<(int, Branch)>, now: TimeOfDay): (r: seq<BranchItem>)
    ensures |r| == |rows|
    ensures forall i :: 0 <= i < |r| ==> r[i] == ItemOf(rows[i], now)
  {
    if rows == [] then [] else [ItemOf(rows[0], now)] + ItemsFrom(rows[1..], now)
  }

  function ActiveRows(branches: map<int, Branch>): seq<(int, Branch)> {
    OrderedRowsWhere(branches, IsActive, (), ByName)
  }

  /** GetAllBranches at time of day `now`. */
  function GetAll(branches: map<int, Branch>, now: TimeOfDay): (r: seq<BranchItem>)
    ensures |r| <= |branches|
    ensures |r| == |KeysWhere(branches, IsActive, ())|
  {
    ItemsFrom(ActiveRows(branches), now)
  }

  /** Every listed branch is a stored active branch, shown with its hours and whether it is open now. */
  lemma GetAllSound(branches: map<int, Branch>, now: TimeOfDay, i: int)
    requires 0 <= i < |GetAll(branches, now)|
    ensures GetAll(branches, now)[i].branchId in branches
    ensures branches[GetAll(branches, now)[i].branchId].isActive
    ensures GetAll(branches, now)[i] == ItemOf((GetAll(branches, now)[i].branchId,
                                                branches[GetAll(branches, now)[i].branchId]), now)
  {
    InOrderedRows(branches, IsActive, (), ByName, ActiveRows(branches)[i]);
  }

  /** Every active branch is listed. */
  lemma GetAllComplete(branches: map<int, Branch>, now: TimeOfDay, id: int)
    requires id in branches && branches[id].isActive
    ensures exists i :: 0 <= i < |GetAll(branches, now)| && GetAll(branches, now)[i].branchId == id
  {
    var i := PositionInOrderedRows(branches, IsActive, (), ByName, id);
    assert GetAll(branches, now)[i].branchId == id;
  }

  /** The list is in branch-name order. */
  lemma GetAllByName(branches: map<int, Branch>, now: TimeOfDay, i: int, j: int)
    requires 0 <= i < j < |GetAll(branches, now)|
    ensures NameLe(GetAll(branches, now)[i].branchName, GetAll(branches, now)[j].branchName)
  {
    var rows := ActiveRows(branches);
    ByNameIsOrder();
    OrderedRowsSorted(branches, IsActive, (), ByName);
    assert ByName(rows[i], rows[j]);
  }

  datatype BranchDetail = BranchDetail(
    item: BranchItem,
    isActive: bool,
    createdDate: int,
    updatedDate: Option<int>)

  /** GetBranchById: any stored branch, active or not; 404 for an unknown id. */
  function GetById(branches: map<int, Branch>, id: int, now: TimeOfDay): (r: Response<BranchDetail>)
    ensures r.NotFound? <==> id !in branches
    ensures r.NotFound? ==> r.message == MsgBranchNotFound
    ensures r.Ok? ==> r.value.item.branchId == id && r.value.isActive == branches[id].isActive
                      && r.value.updatedDate == branches[id].updatedDate
    ensures r.Ok? ==> var b := branches[id];
                      r.value.item.branchName == b.branchName && r.value.item.managerName == b.managerName
                      && r.value.item.address == b.address && r.value.item.hotline == b.hotline
                      && r.value.item.email == b.email && r.value.createdDate == b.createdDate
    ensures r.Ok? ==> var b := branches[id];
                      ParseTime(r.value.item.operatingStartTime) == Some(MinuteOf(b.operatingStartTime))
                      && ParseTime(r.value.item.operatingEndTime) == Some(MinuteOf(b.operatingEndTime))
    ensures r.Ok? ==> r.value.item.isOnline
                      == IsCurrentlyOpen(branches[id].operatingStartTime, branches[id].operatingEndTime, now)
    ensures r.Ok? || r.NotFound?
  {
    if id !in branches then NotFound(MsgBranchNotFound)
    else
      var b := branches[id];
      ParseFormatted(b.operatingStartTime);
      ParseFormatted(b.operatingEndTime);
      Ok(BranchDetail(ItemOf((id, b), now), b.isActive, b.createdDate, b.updatedDate))
  }

  // ---------------------------------------------------------------- writing

  datatype CreateBranchRequest = CreateBranchRequest(
    branchName: string,
    managerName: string,
    address: string,
    hotline: string,
    email: string,
    operatingStartTime: string,
    operatingEndTime: string)

  /** The 400 a create request draws, if any; the opening hours are not checked here. */
  function CreateError(req: CreateBranchRequest): (r: Option<string>)
    ensures r == Some(MsgAllFieldsRequired) <==>
              IsBlank(Some(req.branchName)) || IsBlank(Some(req.managerName)) || IsBlank(Some(req.address))
              || IsBlank(Some(req.hotline)) || IsBlank(Some(req.email))
    ensures r == Some(MsgInvalidEmail) <==> r != Some(MsgAllFieldsRequired) && !Contains(req.email, "@")
    ensures r.None? <==> r != Some(MsgAllFieldsRequired) && r != Some(MsgInvalidEmail)
  {
    if IsBlank(Some(req.branchName)) || IsBlank(Some(req.managerName)) || IsBlank(Some(req.address))
       || IsBlank(Some(req.hotline)) || IsBlank(Some(req.email))
    then Some(MsgAllFieldsRequired)
    else if !Contains(req.email, "@") then Some(MsgInvalidEmail)
    else None
  }

  /** The branch a valid create request adds: active, created now, never updated. */
  function NewBranch(req: CreateBranchRequest, start: TimeOfDay, end: TimeOfDay, now: int): Branch {
    Branch(req.branchName, req.managerName, req.address, req.hotline, req.email, start, end, true, now, None)
  }

  /** An accepted branch has no blank field and an email with an '@'. */
  lemma AcceptedBranchWellFormed(req: CreateBranchRequest, start: TimeOfDay, end: TimeOfDay, now: int)
    requires CreateError(req).None?
    ensures var b := NewBranch(req, start, end, now);
            !IsBlank(Some(b.branchName)) && !IsBlank(Some(b.managerName)) && !IsBlank(Some(b.address))
            && !IsBlank(Some(b.hotline)) && !IsBlank(Some(b.email)) && Contains(b.email, "@")
            && b.isActive && b.updatedDate.None?
  {
  }

  datatype UpdateBranchRequest = UpdateBranchRequest(
    branchName: Option<string>,
    managerName: Option<string>,
    address: Option<string>,
    hotline: Option<string>,
    email: Option<string>,
    operatingStartTime: Option<string>,
    operatingEndTime: Option<string>)

  /** A field of an update: the request's value when it is not blank, the stored one otherwise. */
  function Chosen<T>(given: Option<string>, value: T, stored: T): T {
    if IsBlank(given) then stored else value
  }

  /** A time of an update: parsed when given non-blank (None when that text does not parse). */
  function ChosenTime(given: Option<string>, stored: TimeOfDay): (r: Option<TimeOfDay>)
    ensures IsBlank(given) ==> r == Some(stored)
    ensures !IsBlank(given) ==> r == ParseTime(given.value)
  {
    if IsBlank(given) then Some(stored) else ParseTime(given.value)
  }

  /** The branch after an update whose times parsed to `start` and `end`; UpdatedDate is always set. */
  function Edited(b: Branch, req: UpdateBranchRequest, start: TimeOfDay, end: TimeOfDay, now: int): Branch {
    Branch(Chosen(req.branchName, req.branchName.GetOr(""), b.branchName),
           Chosen(req.managerName, req.managerName.GetOr(""), b.managerName),
           Chosen(req.address, req.address.GetOr(""), b.address),
           Chosen(req.hotline, req.hotline.GetOr(""), b.hotline),
           Chosen(req.email, req.email.GetOr(""), b.email),
           start, end, b.isActive, b.createdDate, Some(now))
  }

  /** A field given blank keeps its stored value; one given non-blank takes the request's value. */
  lemma EditedFields(b: Branch, req: UpdateBranchRequest, start: TimeOfDay, end: TimeOfDay, now: int)
    ensures var e := Edited(b, req, start, end, now);
            (IsBlank(req.branchName) ==> e.branchName == b.branchName)
            && (!IsBlank(req.branchName) ==> Some(e.branchName) == req.branchName)
            && (IsBlank(req.managerName) ==> e.managerName == b.managerName)
            && (!IsBlank(req.managerName) ==> Some(e.managerName) == req.managerName)
            && (IsBlank(req.address) ==> e.address == b.address)
            && (!IsBlank(req.address) ==> Some(e.address) == req.address)
            && (IsBlank(req.hotline) ==> e.hotline == b.hotline)
            && (!IsBlank(req.hotline) ==> Some(e.hotline) == req.hotline)
            && (IsBlank(req.email) ==> e.email == b.email)
            && (!IsBlank(req.email) ==> Some(e.email) == req.email)
            && e.isActive == b.isActive && e.createdDate == b.createdDate && e.updatedDate == Some(now)
  {
  }

  /** An update with nothing given changes only UpdatedDate. */
  lemma EmptyUpdateTouchesDateOnly(b: Branch, now: int)
    ensures var none := UpdateBranchRequest(None, None, None, None, None, None, None);
            ChosenTime(none.operatingStartTime, b.operatingStartTime) == Some(b.operatingStartTime)
            && ChosenTime(none.operatingEndTime, b.operatingEndTime) == Some(b.operatingEndTime)
            && Edited(b, none, b.operatingStartTime, b.operatingEndTime, now) == b.(updatedDate := Some(now))
  {
  }

  /** Soft delete: the branch stays stored, inactive, with UpdatedDate set. */
  function Deactivated(b: Branch, now: int): (r: Branch)
    ensures !r.isActive && r.updatedDate == Some(now)
    ensures r.(isActive := b.isActive, updatedDate := b.updatedDate) == b
  {
    b.(isActive := false, updatedDate := Some(now))
  }

  /** A deleted branch leaves the public list but can still be fetched by id. */
  lemma DeletedLeavesList(branches: map<int, Branch>, id: int, deletedAt: int, now: TimeOfDay, i: int)
    requires id in branches
    requires 0 <= i < |GetAll(branches[id := Deactivated(branches[id], deletedAt)], now)|
    ensures GetAll(branches[id := Deactivated(branches[id], deletedAt)], now)[i].branchId != id
    ensures GetById(branches[id := Deactivated(branches[id], deletedAt)], id, now).Ok?
  {
    GetAllSound(branches[id := Deactivated(branches[id], deletedAt)], now, i);
  }

  /** The branch table, with the identity counter the database keeps for BranchId. */
  class BranchDirectory {
    var branches: map<int, Branch>
    var nextBranchId: int

    ghost predicate Valid()
      reads this
    {
      1 <= nextBranchId && forall id :: id in branches ==> 1 <= id < nextBranchId
    }

    constructor ()
      ensures Valid() && branches == map[]
    {
      branches := map[];
      nextBranchId := 1;
    }

    /**
     * CreateBranch: 400 for a blank field or an email without '@', 500 when an
     * opening time does not parse, otherwise the new branch's id.
     */
    method Create(req: CreateBranchRequest, now: int) returns (r: Response<int>)
      requires Valid()
      modifies this
      ensures Valid()
      ensures CreateError(req).Some? ==> r == BadRequest(CreateError(req).value)
      ensures CreateError(req).None?
              && (ParseTime(req.operatingStartTime).None? || ParseTime(req.operatingEndTime).None?)
              ==> r == ServerError(MsgCreateFailed)
      ensures !r.Ok? ==> branches == old(branches) && nextBranchId == old(nextBranchId)
      ensures r.Ok? <==> CreateError(req).None? && ParseTime(req.operatingStartTime).Some?
                         && ParseTime(req.operatingEndTime).Some?
      ensures r.Ok? ==>
                r.value == old(nextBranchId) && r.value !in old(branches)
                && branches == old(branches)[r.value := NewBranch(req, ParseTime(req.operatingStartTime).value,
                                                                  ParseTime(req.operatingEndTime).value, now)]
                && nextBranchId == old(nextBranchId) + 1
    {
      var error := CreateError(req);
      if error.Some? {
        return BadRequest(error.value);
      }
      var start := ParseTime(req.operatingStartTime);
      var end := ParseTime(req.operatingEndTime);
      if start.None? || end.None? {
        return ServerError(MsgCreateFailed);
      }
      var id := nextBranchId;
      branches := branches[id := NewBranch(req, start.value, end.value, now)];
      nextBranchId := nextBranchId + 1;
      r := Ok(id);
    }

    /**
     * UpdateBranch: 404 for an unknown id, 500 (nothing saved) when a given
     * opening time does not parse; otherwise the non-blank fields change and
     * UpdatedDate becomes `now`.
     */
    method Update(id: int, req: UpdateBranchRequest, now: int) returns (r: Response<string>)
      requires Valid()
      modifies this
      ensures Valid() && nextBranchId == old(nextBranchId)
      ensures id !in old(branches) ==> r == NotFound(MsgBranchNotFound)
      ensures !r.Ok? ==> branches == old(branches)
      ensures id in old(branches) ==>
                var b := old(branches)[id];
                var start := ChosenTime(req.operatingStartTime, b.operatingStartTime);
                var end := ChosenTime(req.operatingEndTime, b.operatingEndTime);
                if start.None? || end.None? then r == ServerError(MsgUpdateFailed)
                else r == Ok(MsgUpdated) && branches == old(branches)[id := Edited(b, req, start.value, end.value, now)]
    {
      if id !in branches {
        return NotFound(MsgBranchNotFound);
      }
      var b := branches[id];
      var start := ChosenTime(req.operatingStartTime, b.operatingStartTime);
      var end := ChosenTime(req.operatingEndTime, b.operatingEndTime);
      if start.None? || end.None? {
        return ServerError(MsgUpdateFailed);
      }
      branches := branches[id := Edited(b, req, start.value, end.value, now)];
      r := Ok(MsgUpdated);
    }

    /** DeleteBranch: 404 for an unknown id, otherwise the branch is deactivated in place. */
    method Delete(id: int, now: int) returns (r: Response<string>)
      requires Valid()
      modifies this
      ensures Valid() && nextBranchId == old(nextBranchId)
      ensures id !in old(branches) ==> r == NotFound(MsgBranchNotFound) && branches == old(branches)
      ensures id in old(branches) ==>
                r == Ok(MsgDeleted) && branches == old(branches)[id := Deactivated(old(branches)[id], now)]
    {
      if id !in branches {
        return NotFound(MsgBranchNotFound);
      }
      branches := branches[id := Deactivated(branches[id], now)];
      r := Ok(MsgDeleted);
    }
  }
}
