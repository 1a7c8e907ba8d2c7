/**
 * TestimonialsController: testimonials of four or five stars are moderated
 * (Pending, then Published or Denied); the public site shows the Published
 * ones, newest first.
 */
module TestimonialsManagement {
  import opened Common
  import opened Tables
  import opened Entities

  const StatusPublished := "Published"
  const StatusPending := "Pending"
  const StatusDenied := "Denied"
  const MsgTestimonialNotFound := "Testimonial not found"
  const MsgFeedbackNotFound := "Feedback not found"
  const MsgLowRating := "Feedback must have rating >= 4 stars to create testimonial"
  const MsgAlreadyHasTestimonial := "Customer already has a testimonial"
  /** The lowest rating any testimonial list shows. */
  const MinRating := 4

  /** `a` may come before `b` in OrderByDescending(CreatedDate). */
  predicate NewestFirst(a: (int, Testimonial), b: (int, Testimonial)) {
    a.1.createdDate >= b.1.createdDate
  }

  lemma NewestFirstIsOrder()
    ensures Total(NewestFirst) && Transitive(NewestFirst)
  {
  }

  // ---------------------------------------------------------------- the public list

  /** $"\"{content}\"": the content between double quotes (a null content prints as nothing). */
  function Quoted(content: Option<string>): (r: string)
    ensures |r| == |content.GetOr("")| + 2
    ensures r[0] == '"' && r[|r| - 1] == '"'
    ensures r[1..|r| - 1] == content.GetOr("")
  {
    "\"" + content.GetOr("") + "\""
  }

  predicate IsPublished(t: Testimonial, u: ()) {
    t.status == Some(StatusPublished) && t.rating >= MinRating
  }

  /**
   * An entry of the public list. Its createdDate is the stored instant: the text
   * "MMM dd, yyyy" the controller renders from it is not modelled.
   */
  datatype PublishedTestimonial = PublishedTestimonial(
    testimonialId: int,
    customerName: Option<string>,
    customerAvatar: Option<string>,
    rating: int,
    content: string,
    createdDate: int,
    status: Option<string>)

  function PublishedOf(e: (int, Testimonial), customers: map<int, Customer>): PublishedTestimonial {
    PublishedTestimonial(e.0, CustomerNameOf(customers, e.1.customerId),
                         if e.1.customerId in customers then customers[e.1.customerId].avatar else None,
                         e.1.rating, Quoted(e.1.content), e.1.createdDate, e.1.status)
  }

  function PublishedRows(testimonials: map<int, Testimonial>): seq<(int, Testimonial)> {
    OrderedRowsWhere(testimonials, IsPublished, (), NewestFirst)
  }

  function PublishedFrom(rows: seq<(int, Testimonial)>, customers: map<int, Customer>): (r: seq<PublishedTestimonial>)
    ensures |r| == |rows|
    ensures forall i :: 0 <= i < |r| ==> r[i] == PublishedOf(rows[i], customers)
  {
    if rows == [] then [] else [PublishedOf(rows[0], customers)] + PublishedFrom(rows[1..], customers)
  }

  /** GetPublishedTestimonials (`total` is the length of the list). */
  function GetPublished(testimonials: map<int, Testimonial>, customers: map<int, Customer>)
    : (r: seq<PublishedTestimonial>)
    ensures |r| <= |testimonials|
    ensures |r| == |KeysWhere(testimonials, IsPublished, ())|
  {
    PublishedFrom(PublishedRows(testimonials), customers)
  }

  /**
   * Every published entry is the public view of a stored Published testimonial of
   * four stars or more: its customer's name and avatar, rating, quoted content and date.
   */
  lemma PublishedSound(testimonials: map<int, Testimonial>, customers: map<int, Customer>, i: int)
    requires 0 <= i < |GetPublished(testimonials, customers)|
    ensures GetPublished(testimonials, customers)[i].testimonialId in testimonials
    ensures testimonials[GetPublished(testimonials, customers)[i].testimonialId].status == Some(StatusPublished)
    ensures testimonials[GetPublished(testimonials, customers)[i].testimonialId].rating >= MinRating
    ensures GetPublished(testimonials, customers)[i].content
         == Quoted(testimonials[GetPublished(testimonials, customers)[i].testimonialId].content)
    ensures GetPublished(testimonials, customers)[i]
         == PublishedOf((GetPublished(testimonials, customers)[i].testimonialId,
                         testimonials[GetPublished(testimonials, customers)[i].testimonialId]), customers)
  {
    var rows := PublishedRows(testimonials);
    InOrderedRows(testimonials, IsPublished, (), NewestFirst, rows[i]);
  }

  /** Every stored Published testimonial of four stars or more is shown. */
  lemma PublishedComplete(testimonials: map<int, Testimonial>, customers: map<int, Customer>, id: int)
    requires id in testimonials
    requires testimonials[id].status == Some(StatusPublished) && testimonials[id].rating >= MinRating
    ensures exists i :: 0 <= i < |GetPublished(testimonials, customers)|
                        && GetPublished(testimonials, customers)[i].testimonialId == id
  {
    var i := PositionInOrderedRows(testimonials, IsPublished, (), NewestFirst, id);
    assert GetPublished(testimonials, customers)[i].testimonialId == id;
  }

  /** The newest testimonial comes first. */
  lemma PublishedNewestFirst(testimonials: map<int, Testimonial>, customers: map<int, Customer>, i: int, j: int)
    requires 0 <= i < j < |GetPublished(testimonials, customers)|
    ensures GetPublished(testimonials, customers)[i].createdDate >= GetPublished(testimonials, customers)[j].createdDate
  {
    var rows := PublishedRows(testimonials);
    NewestFirstIsOrder();
    OrderedRowsSorted(testimonials, IsPublished, (), NewestFirst);
    assert NewestFirst(rows[i], rows[j]);
  }

  // ---------------------------------------------------------------- the staff list

  /** The badge colour of a status. */
  function StatusColor(status: Option<string>): (r: string)
    ensures r == "purple" <==> status == Some(StatusPublished)
    ensures r == "yellow" <==> status == Some(StatusPending)
    ensures r == "red" <==> status != Some(StatusPublished) && status != Some(StatusPending)
  {
    if status == Some(StatusPublished) then "purple"
    else if status == Some(StatusPending) then "yellow"
    else "red"
  }

  /** An empty status or "all" shows every status; any other value must equal the row's. */
  predicate MatchesStatus(t: Testimonial, status: Option<string>) {
    IsNullOrEmpty(status) || status == Some("all") || t.status == status
  }

  predicate IsListed(t: Testimonial, status: Option<string>) {
    t.rating >= MinRating && MatchesStatus(t, status)
  }

  datatype TestimonialRow = TestimonialRow(
    stt: int,
    testimonialId: int,
    customerName: Option<string>,
    rating: int,
    content: Option<string>,
    createdDate: int,
    status: Option<string>,
    statusColor: string)

  function RowOf(stt: int, e: (int, Testimonial), customers: map<int, Customer>): TestimonialRow {
    TestimonialRow(stt, e.0, CustomerNameOf(customers, e.1.customerId), e.1.rating, e.1.content,
                   e.1.createdDate, e.1.status, StatusColor(e.1.status))
  }

  function RowsFrom(rows: seq<(int, Testimonial)>, customers: map<int, Customer>, first: int)
    : (r: seq<TestimonialRow>)
    ensures |r| == |rows|
    ensures forall i :: 0 <= i < |r| ==> r[i] == RowOf(first + i, rows[i], customers)
  {
    if rows == [] then [] else [RowOf(first, rows[0], customers)] + RowsFrom(rows[1..], customers, first + 1)
  }

  function ListedRows(testimonials: map<int, Testimonial>, status: Option<string>): seq<(int, Testimonial)> {
    OrderedRowsWhere(testimonials, IsListed, status, NewestFirst)
  }

  /** GetAllTestimonials: rows numbered 1..n (`total` is the length of the list). */
  function GetAll(testimonials: map<int, Testimonial>, customers: map<int, Customer>, status: Option<string>)
    : (r: seq<TestimonialRow>)
    ensures |r| <= |testimonials|
    ensures |r| == |KeysWhere(testimonials, IsListed, status)|
    ensures forall i :: 0 <= i < |r| ==> r[i].stt == i + 1
  {
    RowsFrom(ListedRows(testimonials, status), customers, 1)
  }

  /** Every row is a stored testimonial of four stars or more that passes the status filter. */
  lemma GetAllSound(testimonials: map<int, Testimonial>, customers: map<int, Customer>, status: Option<string>, i: int)
    requires 0 <= i < |GetAll(testimonials, customers, status)|
    ensures GetAll(testimonials, customers, status)[i].testimonialId in testimonials
    ensures IsListed(testimonials[GetAll(testimonials, customers, status)[i].testimonialId], status)
    ensures GetAll(testimonials, customers, status)[i]
         == RowOf(i + 1, (GetAll(testimonials, customers, status)[i].testimonialId,
                          testimonials[GetAll(testimonials, customers, status)[i].testimonialId]), customers)
  {
    var rows := ListedRows(testimonials, status);
    InOrderedRows(testimonials, IsListed, status, NewestFirst, rows[i]);
  }

  /** Every stored testimonial of four stars or more that passes the status filter is listed. */
  lemma GetAllComplete(testimonials: map<int, Testimonial>, customers: map<int, Customer>, status: Option<string>,
                       id: int)
    requires id in testimonials && IsListed(testimonials[id], status)
    ensures exists i :: 0 <= i < |GetAll(testimonials, customers, status)|
                        && GetAll(testimonials, customers, status)[i].testimonialId == id
  {
    var i := PositionInOrderedRows(testimonials, IsListed, status, NewestFirst, id);
    assert GetAll(testimonials, customers, status)[i].testimonialId == id;
  }

  /** The newest testimonial comes first. */
  lemma GetAllNewestFirst(testimonials: map<int, Testimonial>, customers: map<int, Customer>, status: Option<string>,
                          i: int, j: int)
    requires 0 <= i < j < |GetAll(testimonials, customers, status)|
    ensures GetAll(testimonials, customers, status)[i].createdDate
         >= GetAll(testimonials, customers, status)[j].createdDate
  {
    var rows := ListedRows(testimonials, status);
    NewestFirstIsOrder();
    OrderedRowsSorted(testimonials, IsListed, status, NewestFirst);
    assert NewestFirst(rows[i], rows[j]);
  }

  /** The published list is the "Published" view of the staff list. */
  lemma PublishedIsStaffView(testimonials: map<int, Testimonial>, t: Testimonial)
    ensures IsPublished(t, ()) <==> IsListed(t, Some(StatusPublished))
  {
  }

  /** The body of GetTestimonialDetail: the stored row with its customer, unnumbered and uncoloured. */
  datatype TestimonialDetail = TestimonialDetail(
    testimonialId: int,
    customerName: Option<string>,
    customerId: int,
    rating: int,
    content: Option<string>,
    createdDate: int,
    status: Option<string>)

  /** GetTestimonialDetail: any stored testimonial, whatever its status or rating; 404 for an unknown id. */
  function GetDetail(testimonials: map<int, Testimonial>, customers: map<int, Customer>, id: int)
    : (r: Response<TestimonialDetail>)
    ensures r.NotFound? <==> id !in testimonials
    ensures r.NotFound? ==> r.message == MsgTestimonialNotFound
    ensures r.Ok? ==> (r.value.testimonialId == id && r.value.content == testimonials[id].content
                       && r.value.status == testimonials[id].status)
    ensures r.Ok? ==> (r.value.customerId == testimonials[id].customerId
                       && r.value.customerName == CustomerNameOf(customers, testimonials[id].customerId)
                       && r.value.rating == testimonials[id].rating
                       && r.value.createdDate == testimonials[id].createdDate)
  {
    if id in testimonials then
      var t := testimonials[id];
      Ok(TestimonialDetail(id, CustomerNameOf(customers, t.customerId), t.customerId, t.rating, t.content,
                           t.createdDate, t.status))
    else NotFound(MsgTestimonialNotFound)
  }

  // ---------------------------------------------------------------- the table

  class TestimonialDesk {
    /** Customers and Feedback are read here, never written. */
    var customers: map<int, Customer>
    var feedbacks: map<int, Feedback>
    var testimonials: map<int, Testimonial>
    var nextTestimonialId: int

    ghost predicate Valid()
      reads this
    {
      1 <= nextTestimonialId && forall id :: id in testimonials ==> 1 <= id < nextTestimonialId
    }

    constructor (customers: map<int, Customer>, feedbacks: map<int, Feedback>)
      ensures Valid()
      ensures this.customers == customers && this.feedbacks == feedbacks && testimonials == map[]
    {
      this.customers := customers;
      this.feedbacks := feedbacks;
      testimonials := map[];
      nextTestimonialId := 1;
    }

    /** Sets Status on an existing testimonial; NotFound and no change otherwise. */
    method SetStatus(id: int, status: string) returns (r: Response<string>)
      requires Valid()
      modifies this
      ensures Valid() && customers == old(customers) && feedbacks == old(feedbacks)
      ensures nextTestimonialId == old(nextTestimonialId)
      ensures id !in old(testimonials) ==> r == NotFound(MsgTestimonialNotFound) && testimonials == old(testimonials)
      ensures id in old(testimonials) ==>
                r == Ok(status) && testimonials == old(testimonials)[id := old(testimonials)[id].(status := Some(status))]
    {
      if id !in testimonials {
        return NotFound(MsgTestimonialNotFound);
      }
      testimonials := testimonials[id := testimonials[id].(status := Some(status))];
      r := Ok(status);
    }

    /** ApproveTestimonial: Status becomes "Published". */
    method Approve(id: int) returns (r: Response<string>)
      requires Valid()
      modifies this
      ensures Valid() && customers == old(customers) && feedbacks == old(feedbacks)
      ensures nextTestimonialId == old(nextTestimonialId)
      ensures id !in old(testimonials) ==> r == NotFound(MsgTestimonialNotFound) && testimonials == old(testimonials)
      ensures id in old(testimonials) ==>
                r == Ok(StatusPublished)
                && testimonials == old(testimonials)[id := old(testimonials)[id].(status := Some(StatusPublished))]
    {
      r := SetStatus(id, StatusPublished);
    }

    /** RejectTestimonial: Status becomes "Denied". */
    method Reject(id: int) returns (r: Response<string>)
      requires Valid()
      modifies this
      ensures Valid() && customers == old(customers) && feedbacks == old(feedbacks)
      ensures nextTestimonialId == old(nextTestimonialId)
      ensures id !in old(testimonials) ==> r == NotFound(MsgTestimonialNotFound) && testimonials == old(testimonials)
      ensures id in old(testimonials) ==>
                r == Ok(StatusDenied)
                && testimonials == old(testimonials)[id := old(testimonials)[id].(status := Some(StatusDenied))]
    {
      r := SetStatus(id, StatusDenied);
    }

    /**
     * CreateTestimonialFromFeedback: a Pending copy of a feedback of four stars
     * or more, unless the customer already has a testimonial.
     */
    method CreateFromFeedback(feedbackId: int, now: int) returns (r: Response<int>)
      requires Valid()
      modifies this
      ensures Valid() && customers == old(customers) && feedbacks == old(feedbacks)
      ensures !r.Ok? ==> testimonials == old(testimonials) && nextTestimonialId == old(nextTestimonialId)
      ensures feedbackId !in feedbacks ==> r == NotFound(MsgFeedbackNotFound)
      ensures feedbackId in feedbacks && feedbacks[feedbackId].rating < MinRating ==> r == BadRequest(MsgLowRating)
      ensures feedbackId in feedbacks && feedbacks[feedbackId].rating >= MinRating
              && (exists k :: k in old(testimonials) && old(testimonials)[k].customerId == feedbacks[feedbackId].customerId)
              ==> r == BadRequest(MsgAlreadyHasTestimonial)
      ensures r.Ok? <==>
                feedbackId in feedbacks && feedbacks[feedbackId].rating >= MinRating
                && forall k :: k in old(testimonials) ==> old(testimonials)[k].customerId != feedbacks[feedbackId].customerId
      ensures r.Ok? ==>
                var f := feedbacks[feedbackId];
                r.value == old(nextTestimonialId) && old(nextTestimonialId) !in old(testimonials)
                && testimonials == old(testimonials)[r.value :=
                                     Testimonial(f.customerId, f.content, f.rating, Some(StatusPending), now)]
                && nextTestimonialId == old(nextTestimonialId) + 1
    {
      if feedbackId !in feedbacks {
        return NotFound(MsgFeedbackNotFound);
      }
      var f := feedbacks[feedbackId];
      if f.rating < MinRating {
        return BadRequest(MsgLowRating);
      }
      var existing := FirstKeyWhere(testimonials, TestimonialOf, f.customerId);
      if existing.Some? {
        return BadRequest(MsgAlreadyHasTestimonial);
      }
      var id := nextTestimonialId;
      testimonials := testimonials[id := Testimonial(f.customerId, f.content, f.rating, Some(StatusPending), now)];
      nextTestimonialId := nextTestimonialId + 1;
      r := Ok(id);
    }
  }
}
