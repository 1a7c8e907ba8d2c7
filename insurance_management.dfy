/**
 * The insurance-type catalogue (InsuranceManagementController): listing with
 * search and status filters, lookup, create with a unique type code, partial
 * update, deactivation and deletion over the InsuranceTypes table.
 */
module InsuranceManagement {
  import opened Common
  import opened Tables

  /** A row of InsuranceTypes; its InsuranceTypeId is the key it is stored under. */
  datatype InsuranceType = InsuranceType(
    typeCode: string,
    typeName: string,
    description: Option<string>,
    baseRatePercent: int,  // hundredths: 2.50 is 250
    isActive: bool,
    createdAt: int)

  /** The row as the list and lookup endpoints return it. */
  datatype InsuranceView = InsuranceView(
    insuranceTypeId: int,
    typeCode: string,
    typeName: string,
    description: Option<string>,
    baseRatePercent: int,
    status: string,
    isActive: bool,
    createdAt: int)

  /** The row as create and update return it. */
  datatype InsuranceSummary = InsuranceSummary(
    insuranceTypeId: int,
    typeCode: string,
    typeName: string,
    description: Option<string>,
    baseRatePercent: int,
    status: string)

  /** A missing request body reads as a request whose fields are all absent. */
  datatype CreateInsuranceRequest = CreateInsuranceRequest(
    typeCode: Option<string>,
    typeName: Option<string>,
    description: Option<string>,
    baseRatePercent: Option<int>)

  datatype UpdateInsuranceRequest = UpdateInsuranceRequest(
    typeCode: Option<string>,
    typeName: Option<string>,
    description: Option<string>,
    baseRatePercent: Option<int>,
    isActive: Option<bool>)

  const DefaultBaseRatePercent := 250
  const MsgNotFound := "Insurance type not found"
  const MsgRequired := "TypeCode and TypeName are required"
  const MsgCodeExists := "Insurance Code already exists"

  /** The reported status: "ACTIVE" exactly when the type is active. */
  function StatusOf(isActive: bool): (r: string)
    ensures r == "ACTIVE" || r == "INACTIVE"
    ensures r == "ACTIVE" <==> isActive
  {
    if isActive then "ACTIVE" else "INACTIVE"
  }

  function ToView(id: int, t: InsuranceType): InsuranceView {
    InsuranceView(id, t.typeCode, t.typeName, t.description, t.baseRatePercent,
                  StatusOf(t.isActive), t.isActive, t.createdAt)
  }

  function ToSummary(id: int, t: InsuranceType): InsuranceSummary {
    InsuranceSummary(id, t.typeCode, t.typeName, t.description, t.baseRatePercent, StatusOf(t.isActive))
  }

  // ---------------------------------------------------------------- listing

  /** The search term as applied (trimmed, lower-cased), or None when the filter is off. */
  function SearchKey(search: Option<string>): Option<string> {
    if IsBlank(search) then None else Some(Lower(Trim(search.value)))
  }

  /** The status filter: Some(true) keeps active types, Some(false) inactive ones, None all. */
  function StatusFilter(status: Option<string>): Option<bool> {
    if IsBlank(status) then None
    else
      var st := Upper(Trim(status.value));
      if st == "ACTIVE" then Some(true)
      else if st == "INACTIVE" then Some(false)
      else None
  }

  /** The query string of GetAllInsurances. */
  datatype InsuranceQuery = InsuranceQuery(search: Option<string>, status: Option<string>)

  /** The type's code or name contains the search key, ignoring case (always, without a key). */
  predicate MatchesSearch(t: InsuranceType, search: Option<string>) {
    var key := SearchKey(search);
    key.None? || Contains(Lower(t.typeCode), key.value) || Contains(Lower(t.typeName), key.value)
  }

  /** The type's active flag agrees with the status filter (always, without a filter). */
  predicate MatchesStatus(t: InsuranceType, status: Option<string>) {
    var st := StatusFilter(status);
    st.None? || t.isActive == st.value
  }

  /** The row passes the search and the status filter of the query. */
  predicate Listed(t: InsuranceType, q: InsuranceQuery) {
    MatchesSearch(t, q.search) && MatchesStatus(t, q.status)
  }

  function ViewOfRow(e: (int, InsuranceType)): InsuranceView {
    ToView(e.0, e.1)
  }

  /** GetAllInsurances: the matching types, highest id first. */
  function ListInsurances(types: map<int, InsuranceType>, q: InsuranceQuery): (r: seq<InsuranceView>)
    ensures |r| <= |types|
  {
    MapSeq(RowsWhereDescending(types, Listed, q), ViewOfRow)
  }

  /** Every entry of the list is the projection of a stored type that passes the query. */
  lemma ListInsurancesSound(types: map<int, InsuranceType>, q: InsuranceQuery, i: int)
    requires 0 <= i < |ListInsurances(types, q)|
    ensures ListInsurances(types, q)[i].insuranceTypeId in types
    ensures ListInsurances(types, q)[i]
         == ToView(ListInsurances(types, q)[i].insuranceTypeId, types[ListInsurances(types, q)[i].insuranceTypeId])
    ensures Listed(types[ListInsurances(types, q)[i].insuranceTypeId], q)
  {
    var rows := RowsWhereDescending(types, Listed, q);
    assert ListInsurances(types, q)[i] == ToView(rows[i].0, rows[i].1);
  }

  /** Every stored type that passes the query is in the list. */
  lemma ListInsurancesComplete(types: map<int, InsuranceType>, q: InsuranceQuery, id: int)
    requires id in types && Listed(types[id], q)
    ensures ToView(id, types[id]) in ListInsurances(types, q)
  {
    var rows := RowsWhereDescending(types, Listed, q);
    assert (id, types[id]) in rows;
    var j :| 0 <= j < |rows| && rows[j] == (id, types[id]);
    assert ListInsurances(types, q)[j] == ToView(id, types[id]);
  }

  /** The list runs from the highest id to the lowest. */
  lemma ListInsurancesDescending(types: map<int, InsuranceType>, q: InsuranceQuery, i: int, j: int)
    requires 0 <= i < j < |ListInsurances(types, q)|
    ensures ListInsurances(types, q)[i].insuranceTypeId > ListInsurances(types, q)[j].insuranceTypeId
  {
    var rows := RowsWhereDescending(types, Listed, q);
    assert ListInsurances(types, q)[i] == ToView(rows[i].0, rows[i].1);
    assert ListInsurances(types, q)[j] == ToView(rows[j].0, rows[j].1);
  }

  /**
   * Filtering by "ACTIVE" and by "INACTIVE" splits the unfiltered list: every
   * listed type shows up under exactly one of the two statuses.
   */
  lemma StatusFiltersPartition(types: map<int, InsuranceType>, search: Option<string>)
    ensures |ListInsurances(types, InsuranceQuery(search, None))|
         == |ListInsurances(types, InsuranceQuery(search, Some("ACTIVE")))|
          + |ListInsurances(types, InsuranceQuery(search, Some("INACTIVE")))|
  {
    var ks := KeysDescending(types);
    var all, act, inact := InsuranceQuery(search, None), InsuranceQuery(search, Some("ACTIVE")),
                           InsuranceQuery(search, Some("INACTIVE"));
    forall k | k in types
      ensures Listed(types[k], all) <==> Listed(types[k], act) || Listed(types[k], inact)
      ensures !(Listed(types[k], act) && Listed(types[k], inact))
    {
      StatusSplitsRow(types[k], search);
    }
    RowsAtSplit(ks, types, Listed, all, act, inact);
  }

  /** One type passes the unfiltered query exactly when it passes one of the two status filters. */
  lemma StatusSplitsRow(t: InsuranceType, search: Option<string>)
    ensures Listed(t, InsuranceQuery(search, None))
        <==> Listed(t, InsuranceQuery(search, Some("ACTIVE"))) || Listed(t, InsuranceQuery(search, Some("INACTIVE")))
    ensures !(Listed(t, InsuranceQuery(search, Some("ACTIVE"))) && Listed(t, InsuranceQuery(search, Some("INACTIVE"))))
  {
    StatusFilterNames();
    assert MatchesStatus(t, None);
    assert MatchesStatus(t, Some("ACTIVE")) <==> t.isActive;
    assert MatchesStatus(t, Some("INACTIVE")) <==> !t.isActive;
  }

  /** "ACTIVE" and "INACTIVE" select the active and the inactive types. */
  lemma StatusFilterNames()
    ensures StatusFilter(Some("ACTIVE")) == Some(true)
    ensures StatusFilter(Some("INACTIVE")) == Some(false)
  {
    ActiveIsCanonical();
    SelectsActive("ACTIVE");
    InactiveIsCanonical();
    SelectsInactive("INACTIVE");
  }

  /** Any filter value that normalises to "ACTIVE" keeps the active types. */
  lemma SelectsActive(status: string)
    requires !IsBlank(Some(status)) && Upper(Trim(status)) == "ACTIVE"
    ensures StatusFilter(Some(status)) == Some(true)
  {
  }

  /** Any filter value that normalises to "INACTIVE" keeps the inactive types. */
  lemma SelectsInactive(status: string)
    requires !IsBlank(Some(status)) && Upper(Trim(status)) == "INACTIVE"
    ensures StatusFilter(Some(status)) == Some(false)
  {
  }

  lemma ActiveIsCanonical()
    ensures !IsBlank(Some("ACTIVE")) && Trim("ACTIVE") == "ACTIVE" && Upper("ACTIVE") == "ACTIVE"
  {
    assert !IsWhiteSpace("ACTIVE"[0]);
    ActiveIsTrimmed();
    UpperIsFixed("ACTIVE");
  }

  lemma ActiveIsTrimmed()
    ensures Trim("ACTIVE") == "ACTIVE"
  {
    TrimmedIsFixed("ACTIVE");
  }

  lemma InactiveIsCanonical()
    ensures !IsBlank(Some("INACTIVE")) && Trim("INACTIVE") == "INACTIVE" && Upper("INACTIVE") == "INACTIVE"
  {
    assert !IsWhiteSpace("INACTIVE"[0]);
    InactiveIsTrimmed();
    UpperIsFixed("INACTIVE");
  }

  lemma InactiveIsTrimmed()
    ensures Trim("INACTIVE") == "INACTIVE"
  {
    TrimmedIsFixed("INACTIVE");
  }

  /** GetInsuranceById. */
  function GetInsuranceById(types: map<int, InsuranceType>, id: int): (r: Response<InsuranceView>)
    ensures r.NotFound? <==> id !in types
    ensures r.NotFound? ==> r.message == MsgNotFound
    ensures r.Ok? ==> (r.value.insuranceTypeId == id && r.value.typeCode == types[id].typeCode
                       && (r.value.status == "ACTIVE" <==> types[id].isActive))
    ensures r.Ok? ==> (r.value.typeName == types[id].typeName && r.value.description == types[id].description
                       && r.value.baseRatePercent == types[id].baseRatePercent
                       && r.value.isActive == types[id].isActive && r.value.createdAt == types[id].createdAt
                       && (r.value.status == "INACTIVE" <==> !types[id].isActive))
  {
    if id in types then Ok(ToView(id, types[id])) else NotFound(MsgNotFound)
  }

  // ---------------------------------------------------------------- the table

  /** No two types share a TypeCode. */
  ghost predicate CodesUnique(types: map<int, InsuranceType>) {
    forall a, b :: a in types && b in types && types[a].typeCode == types[b].typeCode ==> a == b
  }

  ghost predicate CodeHeldBy(types: map<int, InsuranceType>, code: string, id: int) {
    id in types && types[id].typeCode == code
  }

  /** The row condition of the duplicate-code lookups. */
  predicate HasCode(t: InsuranceType, code: string) {
    t.typeCode == code
  }

  /** Writing a row whose code no other row holds keeps the codes unique. */
  lemma WriteKeepsCodesUnique(types: map<int, InsuranceType>, id: int, t: InsuranceType)
    requires CodesUnique(types)
    requires forall k :: k in types && k != id ==> types[k].typeCode != t.typeCode
    ensures CodesUnique(types[id := t])
  {
  }

  /** The fields of an update that carry a value replace the stored ones; the rest stay. */
  function Updated(t: InsuranceType, req: UpdateInsuranceRequest): InsuranceType {
    t.(typeCode := if IsBlank(req.typeCode) then t.typeCode else req.typeCode.value,
       typeName := if IsBlank(req.typeName) then t.typeName else req.typeName.value,
       description := if IsBlank(req.description) then t.description else req.description,
       baseRatePercent := req.baseRatePercent.GetOr(t.baseRatePercent),
       isActive := req.isActive.GetOr(t.isActive))
  }

  class InsuranceCatalogue {
    var types: map<int, InsuranceType>
    /** The identity value the next inserted row receives. */
    var nextId: int

    ghost predicate Valid()
      reads this
    {
      1 <= nextId
      && (forall id :: id in types ==> 1 <= id < nextId)
      && CodesUnique(types)
    }

    constructor ()
      ensures Valid() && types == map[] && nextId == 1
    {
      types := map[];
      nextId := 1;
    }

    /** CreateInsurance. */
    method Create(req: CreateInsuranceRequest, now: int) returns (r: Response<InsuranceSummary>)
      requires Valid()
      modifies this
      ensures Valid()
      ensures IsBlank(req.typeCode) || IsBlank(req.typeName) ==>
                r == BadRequest(MsgRequired) && types == old(types) && nextId == old(nextId)
      ensures !IsBlank(req.typeCode) && !IsBlank(req.typeName) && (exists k :: CodeHeldBy(old(types), req.typeCode.value, k)) ==>
                r == BadRequest(MsgCodeExists) && types == old(types) && nextId == old(nextId)
      ensures r.Ok? <==> !IsBlank(req.typeCode) && !IsBlank(req.typeName)
                         && forall k :: !CodeHeldBy(old(types), req.typeCode.value, k)
      ensures r.Ok? ==>
                var t := InsuranceType(req.typeCode.value, req.typeName.value, req.description,
                                       req.baseRatePercent.GetOr(DefaultBaseRatePercent), true, now);
                old(nextId) !in old(types)
                && types == old(types)[old(nextId) := t] && nextId == old(nextId) + 1
                && r.value == ToSummary(old(nextId), t) && r.value.status == "ACTIVE"
    {
      if IsBlank(req.typeCode) || IsBlank(req.typeName) {
        return BadRequest(MsgRequired);
      }
      var code := req.typeCode.value;
      var existing := FirstKeyWhere(types, HasCode, code);
      if existing.Some? {
        assert CodeHeldBy(types, code, existing.value);
        return BadRequest(MsgCodeExists);
      }
      var t := InsuranceType(code, req.typeName.value, req.description,
                             req.baseRatePercent.GetOr(DefaultBaseRatePercent), true, now);
      var id := nextId;
      types := types[id := t];
      nextId := nextId + 1;
      r := Ok(ToSummary(id, t));
    }

    /** UpdateInsurance: a new TypeCode must not belong to another type. */
    method Update(id: int, req: UpdateInsuranceRequest) returns (r: Response<InsuranceSummary>)
      requires Valid()
      modifies this
      ensures Valid() && nextId == old(nextId)
      ensures id !in old(types) ==> r == NotFound(MsgNotFound) && types == old(types)
      ensures id in old(types) && !IsBlank(req.typeCode) && req.typeCode.value != old(types)[id].typeCode
              && (exists k :: k != id && CodeHeldBy(old(types), req.typeCode.value, k)) ==>
                r == BadRequest(MsgCodeExists) && types == old(types)
      ensures r.Ok? ==> id in old(types) && types == old(types)[id := Updated(old(types)[id], req)]
                        && r.value == ToSummary(id, types[id])
      ensures !r.Ok? ==> types == old(types)
      ensures id in old(types) && (IsBlank(req.typeCode) || forall k :: k != id ==> !CodeHeldBy(old(types), req.typeCode.value, k))
              ==> r.Ok?
    {
      if id !in types {
        return NotFound(MsgNotFound);
      }
      var current := types[id];
      if !IsBlank(req.typeCode) && req.typeCode.value != current.typeCode {
        var code := req.typeCode.value;
        var other := FirstKeyWhere(types - {id}, HasCode, code);
        if other.Some? {
          assert CodeHeldBy(types, code, other.value);
          return BadRequest(MsgCodeExists);
        }
        assert forall k :: k != id ==> !CodeHeldBy(types, code, k) by {
          forall k | k != id && k in types ensures types[k].typeCode != code {
            assert k in types - {id};
          }
        }
      }
      var t := Updated(current, req);
      forall k | k in types && k != id ensures types[k].typeCode != t.typeCode {
        if t.typeCode != current.typeCode {
          assert !CodeHeldBy(types, t.typeCode, k);
        }
      }
      WriteKeepsCodesUnique(types, id, t);
      types := types[id := t];
      r := Ok(ToSummary(id, t));
    }

    /** DeactivateInsurance: a soft delete; a second call changes nothing. */
    method Deactivate(id: int) returns (r: Response<string>)
      requires Valid()
      modifies this
      ensures Valid() && nextId == old(nextId)
      ensures id !in old(types) ==> r == NotFound(MsgNotFound) && types == old(types)
      ensures id in old(types) ==> (r == Ok("Insurance type deactivated successfully")
                                    && types == old(types)[id := old(types)[id].(isActive := false)])
      ensures id in old(types) && !old(types)[id].isActive ==> types == old(types)
    {
      if id !in types {
        return NotFound(MsgNotFound);
      }
      types := types[id := types[id].(isActive := false)];
      r := Ok("Insurance type deactivated successfully");
    }

    /** DeleteInsurance: removes the row. */
    method Delete(id: int) returns (r: Response<string>)
      requires Valid()
      modifies this
      ensures Valid() && nextId == old(nextId)
      ensures id !in old(types) ==> r == NotFound(MsgNotFound) && types == old(types)
      ensures id in old(types) ==> r == Ok("Insurance type deleted successfully") && types == old(types) - {id}
    {
      if id !in types {
        return NotFound(MsgNotFound);
      }
      types := types - {id};
      r := Ok("Insurance type deleted successfully");
    }
  }
}
