/**
 * FaqController: the questions and answers of the public help page; admins
 * page through all of them, create, edit, delete and switch them on and off.
 */
module FaqManagement {
  import opened Common
  import opened Tables

  const MsgFaqNotFound := "FAQ not found"
  const MsgQuestionAnswerRequired := "Question and Answer are required"
  const MsgDeleted := "FAQ deleted"
  const MsgActivated := "FAQ activated"
  const MsgDeactivated := "FAQ deactivated"
  const DefaultPageSize := 20
  const DefaultPageNumber := 1

  /** An FAQ row; IsActive is a nullable column. */
  datatype Faq = Faq(question: Option<string>, answer: Option<string>, isActive: Option<bool>)

  // ---------------------------------------------------------------- reading

  /** Where(IsActive == true): a null IsActive is not public. */
  predicate IsPublic(f: Faq, u: ()) { f.isActive == Some(true) }

  predicate AnyFaq(f: Faq, u: ()) { true }

  datatype PublicFaq = PublicFaq(faqId: int, question: Option<string>, answer: Option<string>)

  function PublicFrom(rows: seq<(int, Faq)>): (r: seq<PublicFaq>)
    ensures |r| == |rows|
    ensures forall i :: 0 <= i < |r| ==> r[i] == PublicFaq(rows[i].0, rows[i].1.question, rows[i].1.answer)
  {
    if rows == [] then []
    else [PublicFaq(rows[0].0, rows[0].1.question, rows[0].1.answer)] + PublicFrom(rows[1..])
  }

  function PublicRows(faqs: map<int, Faq>): seq<(int, Faq)> {
    RowsWhere(faqs, IsPublic, ())
  }

  /** GetPublicFaqs: the active FAQs, ordered by FaqId. */
  function GetPublic(faqs: map<int, Faq>): (r: seq<PublicFaq>)
    ensures |r| <= |faqs|
  {
    PublicFrom(PublicRows(faqs))
  }

  /** Every public entry is a stored FAQ whose IsActive is true, shown with its question and answer. */
  lemma GetPublicSound(faqs: map<int, Faq>, i: int)
    requires 0 <= i < |GetPublic(faqs)|
    ensures GetPublic(faqs)[i].faqId in faqs
    ensures faqs[GetPublic(faqs)[i].faqId].isActive == Some(true)
    ensures GetPublic(faqs)[i].question == faqs[GetPublic(faqs)[i].faqId].question
    ensures GetPublic(faqs)[i].answer == faqs[GetPublic(faqs)[i].faqId].answer
  {
    var rows := PublicRows(faqs);
    assert rows[i].0 in faqs && rows[i].1 == faqs[rows[i].0] && IsPublic(rows[i].1, ());
  }

  /** Every FAQ whose IsActive is true is on the public page. */
  lemma GetPublicComplete(faqs: map<int, Faq>, id: int) returns (i: int)
    requires id in faqs && faqs[id].isActive == Some(true)
    ensures 0 <= i < |GetPublic(faqs)| && GetPublic(faqs)[i].faqId == id
  {
    var rows := PublicRows(faqs);
    InRowsWhere(faqs, IsPublic, (), (id, faqs[id]));
    i :| 0 <= i < |rows| && rows[i] == (id, faqs[id]);
    PublicFromAt(rows, i);
  }

  lemma PublicFromAt(rows: seq<(int, Faq)>, i: int)
    requires 0 <= i < |rows|
    ensures |PublicFrom(rows)| == |rows| && PublicFrom(rows)[i].faqId == rows[i].0
  {
  }

  /** The public page is in FaqId order. */
  lemma GetPublicOrdered(faqs: map<int, Faq>, i: int, j: int)
    requires 0 <= i < j < |GetPublic(faqs)|
    ensures GetPublic(faqs)[i].faqId < GetPublic(faqs)[j].faqId
  {
    var rows := PublicRows(faqs);
    assert rows[i].0 < rows[j].0;
  }

  /** GetAllFaqs: `total` counts every FAQ; `faqs` is one page of all of them in FaqId order. */
  datatype AdminPage = AdminPage(total: int, faqs: seq<(int, Faq)>)

  function AllRows(faqs: map<int, Faq>): seq<(int, Faq)> {
    RowsWhere(faqs, AnyFaq, ())
  }

  function GetAllAdmin(faqs: map<int, Faq>, pageSize: int, pageNumber: int): (r: AdminPage)
    ensures r.total == |faqs|
    ensures |r.faqs| <= Max(pageSize, 0)
  {
    AdminPage(|faqs|, Page(AllRows(faqs), pageNumber, pageSize))
  }

  /** Every row of a page is a stored FAQ, as stored. */
  lemma AdminPageSound(faqs: map<int, Faq>, pageSize: int, pageNumber: int, i: int)
    requires 0 <= i < |GetAllAdmin(faqs, pageSize, pageNumber).faqs|
    ensures GetAllAdmin(faqs, pageSize, pageNumber).faqs[i].0 in faqs
    ensures GetAllAdmin(faqs, pageSize, pageNumber).faqs[i].1 == faqs[GetAllAdmin(faqs, pageSize, pageNumber).faqs[i].0]
  {
    var all := AllRows(faqs);
    var k := PageAt(all, pageNumber, pageSize, i);
    assert GetAllAdmin(faqs, pageSize, pageNumber).faqs[i] == all[k];
  }

  /** A page is in FaqId order. */
  lemma AdminPageOrdered(faqs: map<int, Faq>, pageSize: int, pageNumber: int, i: int, j: int)
    requires 0 <= i < j < |GetAllAdmin(faqs, pageSize, pageNumber).faqs|
    ensures GetAllAdmin(faqs, pageSize, pageNumber).faqs[i].0 < GetAllAdmin(faqs, pageSize, pageNumber).faqs[j].0
  {
    AllRowsIncreasing(faqs);
    PageIncreasing(AllRows(faqs), pageNumber, pageSize, i, j);
  }

  lemma AllRowsIncreasing(faqs: map<int, Faq>)
    ensures forall a, b :: 0 <= a < b < |AllRows(faqs)| ==> AllRows(faqs)[a].0 < AllRows(faqs)[b].0
  {
  }

  /** With a positive page size every FAQ is on exactly the page its position gives: the pages cover the table. */
  lemma AdminPagesCoverAll(faqs: map<int, Faq>, pageSize: int, id: int) returns (pageNumber: int)
    requires pageSize > 0 && id in faqs
    ensures pageNumber >= 1
    ensures (id, faqs[id]) in GetAllAdmin(faqs, pageSize, pageNumber).faqs
  {
    var all := AllRows(faqs);
    assert (id, faqs[id]) in all;
    var i :| 0 <= i < |all| && all[i] == (id, faqs[id]);
    PageCovers(all, pageSize, i);
    pageNumber := i / pageSize + 1;
    assert GetAllAdmin(faqs, pageSize, pageNumber).faqs[i % pageSize] == all[i];
  }

  /** GetFaq: 404 for an unknown id. */
  function GetFaq(faqs: map<int, Faq>, id: int): (r: Response<Faq>)
    ensures r.NotFound? <==> id !in faqs
    ensures r.NotFound? ==> r.message == MsgFaqNotFound
    ensures r.Ok? ==> id in faqs && r.value == faqs[id]
  {
    if id in faqs then Ok(faqs[id]) else NotFound(MsgFaqNotFound)
  }

  // ---------------------------------------------------------------- writing

  datatype FaqRequest = FaqRequest(question: Option<string>, answer: Option<string>, isActive: Option<bool>)

  /** The FAQ a valid create request adds: IsActive defaults to true. */
  function NewFaq(req: FaqRequest): (r: Faq)
    ensures r.question == req.question && r.answer == req.answer
    ensures r.isActive.Some?
    ensures req.isActive.Some? ==> r.isActive == req.isActive
    ensures req.isActive.None? ==> r.isActive == Some(true)
  {
    Faq(req.question, req.answer, Some(req.isActive.GetOr(true)))
  }

  /** A new FAQ is public unless the request switched it off. */
  lemma NewFaqPublic(req: FaqRequest)
    ensures IsPublic(NewFaq(req), ()) <==> req.isActive != Some(false)
  {
    var f := NewFaq(req);
    match req.isActive
    case None =>
      assert f.isActive == Some(true);
    case Some(b) =>
      assert f.isActive == Some(b);
      assert IsPublic(f, ()) <==> b;
  }

  /** The FAQ after an update: a blank question or answer is ignored, an absent IsActive leaves it as it was. */
  function Edited(f: Faq, req: FaqRequest): Faq {
    Faq(if IsBlank(req.question) then f.question else req.question,
        if IsBlank(req.answer) then f.answer else req.answer,
        if req.isActive.Some? then req.isActive else f.isActive)
  }

  /** Only what the request supplies changes, and an empty request changes nothing. */
  lemma EditedFields(f: Faq, req: FaqRequest)
    ensures var e := Edited(f, req);
            (IsBlank(req.question) ==> e.question == f.question)
            && (!IsBlank(req.question) ==> e.question == req.question && !IsBlank(e.question))
            && (IsBlank(req.answer) ==> e.answer == f.answer)
            && (!IsBlank(req.answer) ==> e.answer == req.answer && !IsBlank(e.answer))
            && (req.isActive.None? ==> e.isActive == f.isActive)
            && (req.isActive.Some? ==> e.isActive == req.isActive)
    ensures Edited(f, FaqRequest(None, None, None)) == f
  {
  }

  /** Applying the same update twice is the same as applying it once. */
  lemma EditIdempotent(f: Faq, req: FaqRequest)
    ensures Edited(Edited(f, req), req) == Edited(f, req)
  {
  }

  /** `!IsActive` on a bool?: null stays null. */
  function Negated(v: Option<bool>): (r: Option<bool>)
    ensures r.None? <==> v.None?
    ensures r.Some? ==> r.value != v.value
  {
    match v
    case None => None
    case Some(b) => Some(!b)
  }

  function Toggled(f: Faq): Faq { f.(isActive := Negated(f.isActive)) }

  /** Toggling twice restores the FAQ. */
  lemma ToggleInvolution(f: Faq)
    ensures Toggled(Toggled(f)) == f
  {
  }

  /** A toggle moves an FAQ onto the public page exactly when it was switched off (null stays off). */
  lemma TogglePublic(f: Faq)
    ensures IsPublic(Toggled(f), ()) <==> f.isActive == Some(false)
    ensures f.isActive.None? ==> !IsPublic(Toggled(f), ())
  {
  }

  /** $"FAQ {(IsActive ?? false ? "activated" : "deactivated")}" for the value after the toggle. */
  function ToggleMessage(isActive: Option<bool>): (r: string)
    ensures r == MsgActivated <==> isActive == Some(true)
    ensures r == MsgDeactivated <==> isActive != Some(true)
  {
    "FAQ " + (if isActive.GetOr(false) then "activated" else "deactivated")
  }

  /** The FAQ table, with the identity counter the database keeps for FaqId. */
  class FaqDesk {
    var faqs: map<int, Faq>
    var nextFaqId: int

    ghost predicate Valid()
      reads this
    {
      1 <= nextFaqId && forall id :: id in faqs ==> 1 <= id < nextFaqId
    }

    constructor ()
      ensures Valid() && faqs == map[]
    {
      faqs := map[];
      nextFaqId := 1;
    }

    /** CreateFaq: 400 unless both question and answer are non-blank; otherwise the new FAQ's id. */
    method Create(req: FaqRequest) returns (r: Response<int>)
      requires Valid()
      modifies this
      ensures Valid()
      ensures r.Ok? <==> !IsBlank(req.question) && !IsBlank(req.answer)
      ensures !r.Ok? ==> r == BadRequest(MsgQuestionAnswerRequired) && faqs == old(faqs)
                         && nextFaqId == old(nextFaqId)
      ensures r.Ok? ==> r.value == old(nextFaqId) && r.value !in old(faqs)
                        && faqs == old(faqs)[r.value := NewFaq(req)] && nextFaqId == old(nextFaqId) + 1
    {
      if IsBlank(req.question) || IsBlank(req.answer) {
        return BadRequest(MsgQuestionAnswerRequired);
      }
      var id := nextFaqId;
      faqs := faqs[id := NewFaq(req)];
      nextFaqId := nextFaqId + 1;
      r := Ok(id);
    }

    /** UpdateFaq: 404 for an unknown id, otherwise the edited FAQ. */
    method Update(id: int, req: FaqRequest) returns (r: Response<Faq>)
      requires Valid()
      modifies this
      ensures Valid() && nextFaqId == old(nextFaqId)
      ensures id !in old(faqs) ==> r == NotFound(MsgFaqNotFound) && faqs == old(faqs)
      ensures id in old(faqs) ==> r == Ok(Edited(old(faqs)[id], req)) && faqs == old(faqs)[id := r.value]
    {
      if id !in faqs {
        return NotFound(MsgFaqNotFound);
      }
      var f := Edited(faqs[id], req);
      faqs := faqs[id := f];
      r := Ok(f);
    }

    /** DeleteFaq: 404 for an unknown id, otherwise exactly that FAQ is removed. */
    method Delete(id: int) returns (r: Response<string>)
      requires Valid()
      modifies this
      ensures Valid() && nextFaqId == old(nextFaqId)
      ensures id !in old(faqs) ==> r == NotFound(MsgFaqNotFound) && faqs == old(faqs)
      ensures id in old(faqs) ==> r == Ok(MsgDeleted) && faqs == old(faqs) - {id}
    {
      if id !in faqs {
        return NotFound(MsgFaqNotFound);
      }
      faqs := faqs - {id};
      r := Ok(MsgDeleted);
    }

    /** ToggleFaqStatus: 404 for an unknown id, otherwise IsActive is negated and the outcome reported. */
    method Toggle(id: int) returns (r: Response<(string, Faq)>)
      requires Valid()
      modifies this
      ensures Valid() && nextFaqId == old(nextFaqId)
      ensures id !in old(faqs) ==> r == NotFound(MsgFaqNotFound) && faqs == old(faqs)
      ensures id in old(faqs) ==>
                var f := Toggled(old(faqs)[id]);
                r == Ok((ToggleMessage(f.isActive), f)) && faqs == old(faqs)[id := f]
    {
      if id !in faqs {
        return NotFound(MsgFaqNotFound);
      }
      var f := Toggled(faqs[id]);
      faqs := faqs[id := f];
      r := Ok((ToggleMessage(f.isActive), f));
    }
  }
}
