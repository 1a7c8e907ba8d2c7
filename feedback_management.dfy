/**
 * FeedbackController: a customer leaves at most one feedback; a rating of
 * four or five stars also proposes a Pending testimonial. Staff list, pin and
 * read feedback.
 */
module FeedbackManagement {
  import opened Common
  import opened Tables
  import opened Entities

  const MsgInvalidCustomer := "Invalid customer ID"
  const MsgContentRequired := "Feedback content is required"
  const MsgRatingRange := "Rating must be between 1 and 5"
  const MsgCustomerNotFound := "Customer not found"
  const MsgAlreadySubmitted := "You already have a feedback. Delete the existing one to submit a new feedback."
  const MsgFeedbackNotFound := "Feedback not found"
  const MsgNoFeedback := "No feedback found"
  /** The lowest rating that proposes a testimonial. */
  const TestimonialRating := 4

  /** The body of SubmitFeedback; a missing body is None. */
  datatype FeedbackSubmit = FeedbackSubmit(customerId: int, content: Option<string>, rating: int)

  // ---------------------------------------------------------------- submit

  /** The message of the first check SubmitFeedback fails, in the controller's order; None when all pass. */
  function SubmitError(dto: Option<FeedbackSubmit>, customers: map<int, Customer>, feedbacks: map<int, Feedback>)
    : (r: Option<string>)
    ensures r == Some(MsgInvalidCustomer) <==> dto.None? || dto.value.customerId <= 0
    ensures r == Some(MsgContentRequired) <==>
              dto.Some? && dto.value.customerId > 0 && IsBlank(dto.value.content)
    ensures r == Some(MsgRatingRange) <==>
              dto.Some? && dto.value.customerId > 0 && !IsBlank(dto.value.content)
              && !(1 <= dto.value.rating <= 5)
    ensures r == Some(MsgCustomerNotFound) <==>
              dto.Some? && dto.value.customerId > 0 && !IsBlank(dto.value.content)
              && 1 <= dto.value.rating <= 5 && dto.value.customerId !in customers
    ensures r.None? <==>
              dto.Some? && dto.value.customerId > 0 && !IsBlank(dto.value.content)
              && 1 <= dto.value.rating <= 5 && dto.value.customerId in customers
              && forall k :: k in feedbacks ==> feedbacks[k].customerId != dto.value.customerId
    ensures r.Some? ==> r.value in {MsgInvalidCustomer, MsgContentRequired, MsgRatingRange,
                                    MsgCustomerNotFound, MsgAlreadySubmitted}
  {
    if dto.None? || dto.value.customerId <= 0 then Some(MsgInvalidCustomer)
    else if IsBlank(dto.value.content) then Some(MsgContentRequired)
    else if dto.value.rating < 1 || dto.value.rating > 5 then Some(MsgRatingRange)
    else if dto.value.customerId !in customers then Some(MsgCustomerNotFound)
    else if FirstKeyWhere(feedbacks, FeedbackOf, dto.value.customerId).Some? then Some(MsgAlreadySubmitted)
    else None
  }

  /** No two feedback rows belong to the same customer. */
  ghost predicate OneFeedbackPerCustomer(feedbacks: map<int, Feedback>) {
    forall a, b :: a in feedbacks && b in feedbacks && feedbacks[a].customerId == feedbacks[b].customerId ==> a == b
  }

  // ---------------------------------------------------------------- reads

  /** The body of the my-feedback endpoints: null fields where there is nothing to show. */
  datatype MyFeedback = MyFeedback(
    feedbackId: Option<int>,
    customerId: Option<int>,
    customerName: Option<string>,
    content: Option<string>,
    rating: Option<int>,
    createdDate: Option<int>,
    isPinned: bool,
    message: Option<string>)

  /** The body for a stored feedback row. */
  function FoundFeedback(id: int, f: Feedback, customers: map<int, Customer>): MyFeedback {
    MyFeedback(Some(id), Some(f.customerId), CustomerNameOf(customers, f.customerId), f.content,
               Some(f.rating), Some(f.createdDate), f.isPinned, None)
  }

  /**
   * GetMyFeedback: the customer's feedback (the lowest id when the store holds
   * several), or a body with null fields and "No feedback found"; always 200.
   */
  function GetMyFeedback(customers: map<int, Customer>, feedbacks: map<int, Feedback>, customerId: int)
    : (r: MyFeedback)
    ensures r.feedbackId.None? <==> forall k :: k in feedbacks ==> feedbacks[k].customerId != customerId
    ensures r.feedbackId.None? ==>
              r == MyFeedback(None, Some(customerId), None, None, None, None, false, Some(MsgNoFeedback))
    ensures r.feedbackId.Some? ==>
              var id := r.feedbackId.value;
              id in feedbacks && feedbacks[id].customerId == customerId
              && (forall k :: k in feedbacks && feedbacks[k].customerId == customerId ==> id <= k)
              && r.customerId == Some(customerId) && r.content == feedbacks[id].content
              && r.rating == Some(feedbacks[id].rating) && r.isPinned == feedbacks[id].isPinned
              && r.message.None?
    ensures r.feedbackId.Some? ==>
              var id := r.feedbackId.value;
              r.customerName == CustomerNameOf(customers, customerId)
              && r.createdDate == Some(feedbacks[id].createdDate)
  {
    var found := FirstKeyWhere(feedbacks, FeedbackOf, customerId);
    if found.None? then MyFeedback(None, Some(customerId), None, None, None, None, false, Some(MsgNoFeedback))
    else FoundFeedback(found.value, feedbacks[found.value], customers)
  }

  /**
   * GetMyFeedbackByUserId: first finds the user's customer profile; without
   * one the body says "Customer not found", without feedback it names the
   * customer and says "No feedback found"; always 200.
   */
  function GetMyFeedbackByUserId(customers: map<int, Customer>, feedbacks: map<int, Feedback>, userId: int)
    : (r: MyFeedback)
    ensures (forall c :: c in customers ==> customers[c].userId != Some(userId)) ==>
              r == MyFeedback(None, None, None, None, None, None, false, Some(MsgCustomerNotFound))
    ensures r.customerId.Some? <==> exists c :: c in customers && customers[c].userId == Some(userId)
    ensures r.customerId.Some? ==>
              var c := r.customerId.value;
              c in customers && customers[c].userId == Some(userId)
              && (forall k :: k in customers && customers[k].userId == Some(userId) ==> c <= k)
              && (r.feedbackId.None? <==> forall k :: k in feedbacks ==> feedbacks[k].customerId != c)
              && (r.feedbackId.None? ==> r.customerName == customers[c].customerName
                                         && r.message == Some(MsgNoFeedback))
              && (r.feedbackId.Some? ==> r == GetMyFeedback(customers, feedbacks, c))
  {
    var owner := FirstKeyWhere(customers, CustomerOfUser, userId);
    if owner.None? then
      MyFeedback(None, None, None, None, None, None, false, Some(MsgCustomerNotFound))
    else
      var c := owner.value;
      var found := FirstKeyWhere(feedbacks, FeedbackOf, c);
      if found.None? then
        MyFeedback(None, Some(c), customers[c].customerName, None, None, None, false, Some(MsgNoFeedback))
      else FoundFeedback(found.value, feedbacks[found.value], customers)
  }

  /** GetFeedbackDetail: 404 for an unknown id. */
  function GetFeedbackDetail(customers: map<int, Customer>, feedbacks: map<int, Feedback>, feedbackId: int)
    : (r: Response<MyFeedback>)
    ensures r.NotFound? <==> feedbackId !in feedbacks
    ensures r.NotFound? ==> r.message == MsgFeedbackNotFound
    ensures r.Ok? ==> (r.value.feedbackId == Some(feedbackId)
                       && r.value.customerId == Some(feedbacks[feedbackId].customerId)
                       && r.value.content == feedbacks[feedbackId].content
                       && r.value.isPinned == feedbacks[feedbackId].isPinned)
    ensures r.Ok? ==> (r.value.rating == Some(feedbacks[feedbackId].rating)
                       && r.value.createdDate == Some(feedbacks[feedbackId].createdDate)
                       && r.value.customerName == CustomerNameOf(customers, feedbacks[feedbackId].customerId)
                       && r.value.message.None?)
  {
    if feedbackId in feedbacks then Ok(FoundFeedback(feedbackId, feedbacks[feedbackId], customers))
    else NotFound(MsgFeedbackNotFound)
  }

  // ---------------------------------------------------------------- the staff list

  /** The query string of GetAllFeedbacks. */
  datatype FeedbackQuery = FeedbackQuery(ratingFilter: Option<int>, search: Option<string>, pinnedOnly: bool)

  /** Search: the customer's name or the content contains the text (ordinal); no search without text. */
  predicate MatchesSearch(f: Feedback, customers: map<int, Customer>, search: Option<string>) {
    IsNullOrEmpty(search)
    || (var name := CustomerNameOf(customers, f.customerId);
        (name.Some? && Contains(name.value, search.value))
        || (f.content.Some? && Contains(f.content.value, search.value)))
  }

  /** The row passes the rating, the search and the pinned filter. */
  predicate Kept(f: Feedback, a: (map<int, Customer>, FeedbackQuery)) {
    var (customers, q) := a;
    (q.ratingFilter.None? || f.rating == q.ratingFilter.value)
    && MatchesSearch(f, customers, q.search)
    && (!q.pinnedOnly || f.isPinned)
  }

  /** OrderByDescending(IsPinned).ThenByDescending(CreatedDate): `a` may come before `b`. */
  predicate PinnedThenNewest(a: (int, Feedback), b: (int, Feedback)) {
    (a.1.isPinned && !b.1.isPinned)
    || (a.1.isPinned == b.1.isPinned && a.1.createdDate >= b.1.createdDate)
  }

  lemma PinnedThenNewestIsOrder()
    ensures Total(PinnedThenNewest) && Transitive(PinnedThenNewest)
  {
  }

  datatype FeedbackRow = FeedbackRow(
    stt: int,
    feedbackId: int,
    customerName: Option<string>,
    rating: int,
    content: Option<string>,
    createdDate: int,
    isPinned: bool)

  datatype FeedbackList = FeedbackList(total: int, feedbacks: seq<FeedbackRow>)

  function RowOf(stt: int, e: (int, Feedback), customers: map<int, Customer>): FeedbackRow {
    FeedbackRow(stt, e.0, CustomerNameOf(customers, e.1.customerId), e.1.rating, e.1.content,
                e.1.createdDate, e.1.isPinned)
  }

  /** The rows GetAllFeedbacks returns, before numbering. */
  function ListedFeedbacks(feedbacks: map<int, Feedback>, customers: map<int, Customer>, q: FeedbackQuery)
    : seq<(int, Feedback)>
  {
    OrderedRowsWhere(feedbacks, Kept, (customers, q), PinnedThenNewest)
  }

  /** GetAllFeedbacks: `total` counts the rows, which are numbered 1..n. */
  function ListFeedbacks(feedbacks: map<int, Feedback>, customers: map<int, Customer>, q: FeedbackQuery)
    : (r: FeedbackList)
    ensures r.total == |r.feedbacks| <= |feedbacks|
    ensures r.total == |KeysWhere(feedbacks, Kept, (customers, q))|
    ensures forall i :: 0 <= i < |r.feedbacks| ==> r.feedbacks[i].stt == i + 1
  {
    var rows := ListedFeedbacks(feedbacks, customers, q);
    FeedbackList(|rows|, RowsFrom(rows, customers, 1))
  }

  /** Select((f, index) => ...) starting the numbering at `first`. */
  function RowsFrom(rows: seq<(int, Feedback)>, customers: map<int, Customer>, first: int): (r: seq<FeedbackRow>)
    ensures |r| == |rows|
    ensures forall i :: 0 <= i < |r| ==> r[i] == RowOf(first + i, rows[i], customers)
  {
    if rows == [] then [] else [RowOf(first, rows[0], customers)] + RowsFrom(rows[1..], customers, first + 1)
  }

  /** Every listed row shows a stored feedback that passes the filters. */
  lemma ListFeedbacksSound(feedbacks: map<int, Feedback>, customers: map<int, Customer>, q: FeedbackQuery, i: int)
    requires 0 <= i < |ListFeedbacks(feedbacks, customers, q).feedbacks|
    ensures ListFeedbacks(feedbacks, customers, q).feedbacks[i].feedbackId in feedbacks
    ensures ListFeedbacks(feedbacks, customers, q).feedbacks[i]
         == RowOf(i + 1, (ListFeedbacks(feedbacks, customers, q).feedbacks[i].feedbackId,
                          feedbacks[ListFeedbacks(feedbacks, customers, q).feedbacks[i].feedbackId]), customers)
    ensures Kept(feedbacks[ListFeedbacks(feedbacks, customers, q).feedbacks[i].feedbackId], (customers, q))
  {
    var rows := ListedFeedbacks(feedbacks, customers, q);
    InOrderedRows(feedbacks, Kept, (customers, q), PinnedThenNewest, rows[i]);
  }

  /** Every stored feedback that passes the filters is listed. */
  lemma ListFeedbacksComplete(feedbacks: map<int, Feedback>, customers: map<int, Customer>, q: FeedbackQuery, id: int)
    requires id in feedbacks && Kept(feedbacks[id], (customers, q))
    ensures exists i :: 0 <= i < |ListFeedbacks(feedbacks, customers, q).feedbacks|
                        && ListFeedbacks(feedbacks, customers, q).feedbacks[i].feedbackId == id
  {
    var i := PositionInOrderedRows(feedbacks, Kept, (customers, q), PinnedThenNewest, id);
    assert ListFeedbacks(feedbacks, customers, q).feedbacks[i].feedbackId == id;
  }

  /** Pinned rows come first, and within each group the newest comes first. */
  lemma ListFeedbacksOrder(feedbacks: map<int, Feedback>, customers: map<int, Customer>, q: FeedbackQuery,
                           i: int, j: int)
    requires 0 <= i < j < |ListFeedbacks(feedbacks, customers, q).feedbacks|
    ensures ListFeedbacks(feedbacks, customers, q).feedbacks[i].isPinned
            || !ListFeedbacks(feedbacks, customers, q).feedbacks[j].isPinned
    ensures ListFeedbacks(feedbacks, customers, q).feedbacks[i].isPinned
            == ListFeedbacks(feedbacks, customers, q).feedbacks[j].isPinned
            ==> ListFeedbacks(feedbacks, customers, q).feedbacks[i].createdDate
                >= ListFeedbacks(feedbacks, customers, q).feedbacks[j].createdDate
  {
    var rows := ListedFeedbacks(feedbacks, customers, q);
    PinnedThenNewestIsOrder();
    OrderedRowsSorted(feedbacks, Kept, (customers, q), PinnedThenNewest);
    assert PinnedThenNewest(rows[i], rows[j]);
  }

  // ---------------------------------------------------------------- the tables

  class FeedbackDesk {
    /** Customers is read here, never written. */
    var customers: map<int, Customer>
    var feedbacks: map<int, Feedback>
    var testimonials: map<int, Testimonial>
    var nextFeedbackId: int
    var nextTestimonialId: int

    ghost predicate Valid()
      reads this
    {
      1 <= nextFeedbackId && 1 <= nextTestimonialId
      && (forall id :: id in feedbacks ==> 1 <= id < nextFeedbackId)
      && (forall id :: id in testimonials ==> 1 <= id < nextTestimonialId)
      && OneFeedbackPerCustomer(feedbacks)
    }

    constructor (customers: map<int, Customer>)
      ensures Valid()
      ensures this.customers == customers && feedbacks == map[] && testimonials == map[]
    {
      this.customers := customers;
      feedbacks := map[];
      testimonials := map[];
      nextFeedbackId := 1;
      nextTestimonialId := 1;
    }

    /** SubmitFeedback: the new feedback's id, or the first failed check with nothing stored. */
    method Submit(dto: Option<FeedbackSubmit>, now: int) returns (r: Response<int>)
      requires Valid()
      modifies this
      ensures Valid() && customers == old(customers)
      ensures SubmitError(dto, old(customers), old(feedbacks)).Some? ==>
                r == BadRequest(SubmitError(dto, old(customers), old(feedbacks)).value)
                && feedbacks == old(feedbacks) && testimonials == old(testimonials)
                && nextFeedbackId == old(nextFeedbackId) && nextTestimonialId == old(nextTestimonialId)
      ensures r.Ok? <==> SubmitError(dto, old(customers), old(feedbacks)).None?
      ensures r.Ok? ==>
                var d := dto.value;
                r.value == old(nextFeedbackId) && old(nextFeedbackId) !in old(feedbacks)
                && feedbacks == old(feedbacks)[r.value := Feedback(d.customerId, d.content, d.rating, now, false)]
                && nextFeedbackId == old(nextFeedbackId) + 1
                && (d.rating >= TestimonialRating ==>
                      testimonials == old(testimonials)[old(nextTestimonialId) :=
                        Testimonial(d.customerId, d.content, d.rating, Some("Pending"), now)]
                      && nextTestimonialId == old(nextTestimonialId) + 1)
                && (d.rating < TestimonialRating ==>
                      testimonials == old(testimonials) && nextTestimonialId == old(nextTestimonialId))
    {
      var err := SubmitError(dto, customers, feedbacks);
      if err.Some? {
        return BadRequest(err.value);
      }
      var d := dto.value;
      var id := nextFeedbackId;
      feedbacks := feedbacks[id := Feedback(d.customerId, d.content, d.rating, now, false)];
      nextFeedbackId := nextFeedbackId + 1;
      if d.rating >= TestimonialRating {
        testimonials := testimonials[nextTestimonialId := Testimonial(d.customerId, d.content, d.rating, Some("Pending"), now)];
        nextTestimonialId := nextTestimonialId + 1;
      }
      r := Ok(id);
    }

    /**
     * DeleteFeedback: removes the feedback and the first testimonial of the
     * same customer; the customer may then submit again.
     */
    method Delete(feedbackId: int) returns (r: Response<string>)
      requires Valid()
      modifies this
      ensures Valid() && customers == old(customers)
      ensures nextFeedbackId == old(nextFeedbackId) && nextTestimonialId == old(nextTestimonialId)
      ensures feedbackId !in old(feedbacks) ==>
                r == NotFound(MsgFeedbackNotFound) && feedbacks == old(feedbacks) && testimonials == old(testimonials)
      ensures feedbackId in old(feedbacks) ==>
                var owner := old(feedbacks)[feedbackId].customerId;
                var first := FirstKeyWhere(old(testimonials), TestimonialOf, owner);
                r == Ok("Feedback deleted successfully")
                && feedbacks == old(feedbacks) - {feedbackId}
                && (first.Some? ==> testimonials == old(testimonials) - {first.value})
                && (first.None? ==> testimonials == old(testimonials))
                && (forall k :: k in feedbacks ==> feedbacks[k].customerId != owner)
    {
      if feedbackId !in feedbacks {
        return NotFound(MsgFeedbackNotFound);
      }
      var owner := feedbacks[feedbackId].customerId;
      var first := FirstKeyWhere(testimonials, TestimonialOf, owner);
      if first.Some? {
        testimonials := testimonials - {first.value};
      }
      feedbacks := feedbacks - {feedbackId};
      r := Ok("Feedback deleted successfully");
    }

    /** TogglePinFeedback: flips IsPinned, so two calls restore the row. */
    method TogglePin(feedbackId: int) returns (r: Response<(string, bool)>)
      requires Valid()
      modifies this
      ensures Valid() && customers == old(customers) && testimonials == old(testimonials)
      ensures nextFeedbackId == old(nextFeedbackId) && nextTestimonialId == old(nextTestimonialId)
      ensures feedbackId !in old(feedbacks) ==> r == NotFound(MsgFeedbackNotFound) && feedbacks == old(feedbacks)
      ensures feedbackId in old(feedbacks) ==>
                var f := old(feedbacks)[feedbackId];
                feedbacks == old(feedbacks)[feedbackId := f.(isPinned := !f.isPinned)]
                && r.Ok? && r.value.1 == !f.isPinned
                && r.value.0 == (if r.value.1 then "Feedback pinned successfully" else "Feedback unpinned successfully")
    {
      if feedbackId !in feedbacks {
        return NotFound(MsgFeedbackNotFound);
      }
      var f := feedbacks[feedbackId];
      feedbacks := feedbacks[feedbackId := f.(isPinned := !f.isPinned)];
      var pinned := !f.isPinned;
      r := Ok((if pinned then "Feedback pinned successfully" else "Feedback unpinned successfully", pinned));
    }
  }
}
