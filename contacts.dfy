/**
 * ContactsController: support tickets sent from the public contact form;
 * admins list them newest first and move them between statuses.
 *
 * A date is a DateTime tick count; DateTime.MinValue is tick 0.
 */
module ContactsManagement {
  import opened Common
  import opened Tables

  const MinDate := 0
  const MsgNameEmailRequired := "Name and Email are required"
  const MsgContactNotFound := "Contact not found"
  const DefaultName := "Unknown"
  const DefaultSubject := "Support Request"
  const DefaultCategory := "General Inquiry"
  const StatusOpen := "Open"
  const StatusResolved := "Resolved"

  /** A ticket as the controller reads and writes it. */
  datatype Contact = Contact(
    name: Option<string>,
    email: Option<string>,
    subject: Option<string>,
    message: Option<string>,
    createdDate: Option<int>,
    categoryId: Option<int>,
    status: Option<string>,
    userId: Option<int>)

  datatype ContactCategory = ContactCategory(categoryName: Option<string>)

  // ---------------------------------------------------------------- creating

  /** CreatedDate after CreateContact: a missing or MinValue date becomes `now`, any other is kept. */
  function Stamped(createdDate: Option<int>, now: int): (r: Option<int>)
    ensures createdDate.None? || createdDate == Some(MinDate) ==> r == Some(now)
    ensures createdDate.Some? && createdDate != Some(MinDate) ==> r == createdDate
  {
    if createdDate.None? || createdDate == Some(MinDate) then Some(now) else createdDate
  }

  /** Stamping an already stamped date changes nothing (when the clock is past MinValue). */
  lemma StampedIdempotent(createdDate: Option<int>, now: int, later: int)
    requires now != MinDate
    ensures Stamped(Stamped(createdDate, now), later) == Stamped(createdDate, now)
  {
  }

  /** Every stored ticket carries a real date. */
  lemma StampedIsSet(createdDate: Option<int>, now: int)
    requires now != MinDate
    ensures Stamped(createdDate, now).Some? && Stamped(createdDate, now) != Some(MinDate)
  {
  }

  // ---------------------------------------------------------------- the list

  /** OrderByDescending(CreatedDate): later dates first, tickets without a date last. */
  predicate NewestFirst(a: (int, Contact), b: (int, Contact)) {
    b.1.createdDate.None? || (a.1.createdDate.Some? && a.1.createdDate.value >= b.1.createdDate.value)
  }

  lemma NewestFirstIsOrder()
    ensures Total(NewestFirst) && Transitive(NewestFirst)
  {
  }

  predicate AnyContact(c: Contact, u: ()) { true }

  datatype ContactView = ContactView(
    contactId: int,
    customerName: string,
    email: string,
    subject: string,
    message: Option<string>,
    createdDate: Option<int>,
    categoryId: Option<int>,
    categoryName: Option<string>,
    status: string,
    isResolved: bool,
    userId: Option<int>)

  /** Category != null ? Category.CategoryName : "General Inquiry". */
  function CategoryNameOf(categories: map<int, ContactCategory>, categoryId: Option<int>): (r: Option<string>)
    ensures categoryId.None? || categoryId.value !in categories ==> r == Some(DefaultCategory)
    ensures categoryId.Some? && categoryId.value in categories ==> r == categories[categoryId.value].categoryName
  {
    if categoryId.Some? && categoryId.value in categories then categories[categoryId.value].categoryName
    else Some(DefaultCategory)
  }

  /** The projection of one ticket, with the list's defaults for missing values. */
  function ViewOf(e: (int, Contact), categories: map<int, ContactCategory>): ContactView {
    var c := e.1;
    ContactView(e.0, c.name.GetOr(DefaultName), c.email.GetOr(""), c.subject.GetOr(DefaultSubject), c.message,
                c.createdDate, c.categoryId, CategoryNameOf(categories, c.categoryId),
                c.status.GetOr(StatusOpen), c.status == Some(StatusResolved), c.userId)
  }

  /** A ticket without a status shows as open; IsResolved is exactly a shown status of "Resolved". */
  lemma ViewStatus(e: (int, Contact), categories: map<int, ContactCategory>)
    ensures e.1.status.None? ==> ViewOf(e, categories).status == StatusOpen && !ViewOf(e, categories).isResolved
    ensures ViewOf(e, categories).isResolved <==> ViewOf(e, categories).status == StatusResolved
    ensures e.1.name.None? ==> ViewOf(e, categories).customerName == DefaultName
    ensures e.1.name.Some? ==> ViewOf(e, categories).customerName == e.1.name.value
  {
  }

  function ViewsFrom(rows: seq<(int, Contact)>, categories: map<int, ContactCategory>): (r: seq<ContactView>)
    ensures |r| == |rows|
    ensures forall i :: 0 <= i < |r| ==> r[i] == ViewOf(rows[i], categories)
  {
    if rows == [] then [] else [ViewOf(rows[0], categories)] + ViewsFrom(rows[1..], categories)
  }

  function ListedRows(contacts: map<int, Contact>): seq<(int, Contact)> {
    OrderedRowsWhere(contacts, AnyContact, (), NewestFirst)
  }

  /** GetContacts: every ticket, newest first. */
  function GetContacts(contacts: map<int, Contact>, categories: map<int, ContactCategory>): (r: seq<ContactView>)
    ensures |r| == |contacts|
  {
    RowsWhereAll(contacts, AnyContact, ());
    ViewsFrom(ListedRows(contacts), categories)
  }

  /** Every entry is the view of a stored ticket. */
  lemma GetContactsSound(contacts: map<int, Contact>, categories: map<int, ContactCategory>, i: int)
    requires 0 <= i < |GetContacts(contacts, categories)|
    ensures GetContacts(contacts, categories)[i].contactId in contacts
    ensures GetContacts(contacts, categories)[i]
         == ViewOf((GetContacts(contacts, categories)[i].contactId,
                    contacts[GetContacts(contacts, categories)[i].contactId]), categories)
  {
    InOrderedRows(contacts, AnyContact, (), NewestFirst, ListedRows(contacts)[i]);
  }

  /** Every stored ticket is listed. */
  lemma GetContactsComplete(contacts: map<int, Contact>, categories: map<int, ContactCategory>, id: int)
    requires id in contacts
    ensures exists i :: 0 <= i < |GetContacts(contacts, categories)|
                        && GetContacts(contacts, categories)[i].contactId == id
  {
    var i := PositionInOrderedRows(contacts, AnyContact, (), NewestFirst, id);
    assert GetContacts(contacts, categories)[i].contactId == id;
  }

  /** Newer tickets come before older ones, and undated ones come last. */
  lemma GetContactsNewestFirst(contacts: map<int, Contact>, categories: map<int, ContactCategory>, i: int, j: int)
    requires 0 <= i < j < |GetContacts(contacts, categories)|
    ensures var list := GetContacts(contacts, categories);
            list[j].createdDate.None?
            || (list[i].createdDate.Some? && list[i].createdDate.value >= list[j].createdDate.value)
  {
    var rows := ListedRows(contacts);
    NewestFirstIsOrder();
    OrderedRowsSorted(contacts, AnyContact, (), NewestFirst);
    assert NewestFirst(rows[i], rows[j]);
  }

  // ---------------------------------------------------------------- the table

  /** The ticket table, with the identity counter the database keeps for ContactId. */
  class ContactDesk {
    var categories: map<int, ContactCategory>
    var contacts: map<int, Contact>
    var nextContactId: int

    ghost predicate Valid()
      reads this
    {
      1 <= nextContactId && forall id :: id in contacts ==> 1 <= id < nextContactId
    }

    constructor (categories: map<int, ContactCategory>)
      ensures Valid() && this.categories == categories && contacts == map[]
    {
      this.categories := categories;
      contacts := map[];
      nextContactId := 1;
    }

    /** CreateContact: 400 for a blank name or email; otherwise the ticket is stored, dated, and its id returned. */
    method Create(contact: Contact, now: int) returns (r: Response<int>)
      requires Valid()
      modifies this
      ensures Valid() && categories == old(categories)
      ensures r.Ok? <==> !IsBlank(contact.name) && !IsBlank(contact.email)
      ensures !r.Ok? ==> r == BadRequest(MsgNameEmailRequired) && contacts == old(contacts)
                         && nextContactId == old(nextContactId)
      ensures r.Ok? ==> r.value == old(nextContactId) && r.value !in old(contacts)
                        && contacts == old(contacts)[r.value := contact.(createdDate := Stamped(contact.createdDate, now))]
                        && nextContactId == old(nextContactId) + 1
    {
      var stamped := contact.(createdDate := Stamped(contact.createdDate, now));
      if IsBlank(stamped.name) || IsBlank(stamped.email) {
        return BadRequest(MsgNameEmailRequired);
      }
      var id := nextContactId;
      contacts := contacts[id := stamped];
      nextContactId := nextContactId + 1;
      r := Ok(id);
    }

    /** UpdateContactStatus: 404 for an unknown id; otherwise Status becomes the request's value, or "Open". */
    method UpdateStatus(id: int, status: Option<string>) returns (r: Response<string>)
      requires Valid()
      modifies this
      ensures Valid() && categories == old(categories) && nextContactId == old(nextContactId)
      ensures id !in old(contacts) ==> r == NotFound(MsgContactNotFound) && contacts == old(contacts)
      ensures id in old(contacts) ==>
                r == Ok(status.GetOr(StatusOpen))
                && contacts == old(contacts)[id := old(contacts)[id].(status := Some(status.GetOr(StatusOpen)))]
    {
      if id !in contacts {
        return NotFound(MsgContactNotFound);
      }
      var s := status.GetOr(StatusOpen);
      contacts := contacts[id := contacts[id].(status := Some(s))];
      r := Ok(s);
    }
  }

  /** After a status update the ticket shows as resolved exactly when "Resolved" was asked for. */
  lemma UpdatedStatusView(contacts: map<int, Contact>, categories: map<int, ContactCategory>, id: int,
                          status: Option<string>)
    requires id in contacts
    ensures var v := ViewOf((id, contacts[id].(status := Some(status.GetOr(StatusOpen)))), categories);
            v.status == status.GetOr(StatusOpen) && (v.isResolved <==> status == Some(StatusResolved))
  {
  }
}
