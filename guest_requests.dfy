/**
 * The guest-request review page of components/guest-requests.tsx: the search filter, the
 * edit form a request opens, the edits the form allows and the update request it sends.
 * The Name input is read-only, so the request always names the request being edited. A
 * field the record leaves out is the empty string.
 */
module GuestRequests {
  import opened Wrappers
  import opened Text
  import Seqs

  /** A guest request as the page receives it. */
  datatype Request = Request(name: string, email: string, phone: string, rsvp: string, guest: string, message: string)

  /** The edit form; it has the same fields. */
  type Form = Request

  // ---------------------------------------------------------------------
  // filteredRequests
  // ---------------------------------------------------------------------

  /** The lowercased name contains `query`, or a non-empty email or phone does in lowercase. */
  predicate Hit(r: Request, query: string) {
    Contains(Lower(r.name), query)
    || (r.email != "" && Contains(Lower(r.email), query))
    || (r.phone != "" && Contains(Lower(r.phone), query))
  }

  /** `filteredRequests`: everything for a blank search, otherwise the hits for the lowercased, untrimmed search. */
  function FilteredRequests(requests: seq<Request>, search: string): seq<Request> {
    if IsBlank(search) then requests else Seqs.Filter(requests, r => Hit(r, Lower(search)))
  }

  /** The view keeps the list order; a blank search shows all, any other shows exactly the hits. */
  lemma FilteredRequestsSpec(requests: seq<Request>, search: string)
    ensures Seqs.IsSubsequence(FilteredRequests(requests, search), requests)
    ensures IsBlank(search) ==> FilteredRequests(requests, search) == requests
    ensures !IsBlank(search) ==> forall i :: 0 <= i < |requests| ==>
      (requests[i] in FilteredRequests(requests, search) <==> Hit(requests[i], Lower(search)))
  {
    if IsBlank(search) {
      Seqs.IsSubsequenceRefl(requests);
    } else {
      var r := FilteredRequests(requests, search);
      forall i | 0 <= i < |requests| && requests[i] in r
        ensures Hit(requests[i], Lower(search))
      {
        var j :| 0 <= j < |r| && r[j] == requests[i];
      }
    }
  }

  // ---------------------------------------------------------------------
  // The form
  // ---------------------------------------------------------------------

  /** `handleEditClick(request)`: the email placeholder "Pending" shows as empty and a missing count as "1". */
  function StartEdit(r: Request): (f: Form)
    ensures f.name == r.name && f.phone == r.phone && f.rsvp == r.rsvp && f.message == r.message
    ensures f.email != "Pending" && f.guest != ""
  {
    Request(r.name,
            if r.email != "" && r.email != "Pending" then r.email else "",
            r.phone,
            r.rsvp,
            if r.guest != "" then r.guest else "1",
            r.message)
  }

  /** Saving an edit form unchanged and opening it again shows the same form. */
  lemma StartEditIdempotent(r: Request)
    ensures StartEdit(StartEdit(r)) == StartEdit(r)
  {
  }

  /** The inputs the form lets the admin change; Name is read-only. */
  datatype Input = EmailInput | PhoneInput | RsvpInput | GuestInput | MessageInput

  /** One `onChange` of an input. */
  function Edit(f: Form, input: Input, value: string): Form {
    match input
    case EmailInput => f.(email := value)
    case PhoneInput => f.(phone := value)
    case RsvpInput => f.(rsvp := value)
    case GuestInput => f.(guest := value)
    case MessageInput => f.(message := value)
  }

  /** A run of input changes, applied in order. */
  function EditAll(f: Form, edits: seq<(Input, string)>): Form
    decreases |edits|
  {
    if edits == [] then f else EditAll(Edit(f, edits[0].0, edits[0].1), edits[1..])
  }

  /** No run of input changes alters the name. */
  lemma {:induction false} EditAllKeepsName(f: Form, edits: seq<(Input, string)>)
    ensures EditAll(f, edits).name == f.name
    decreases |edits|
  {
    if edits != [] {
      EditAllKeepsName(Edit(f, edits[0].0, edits[0].1), edits[1..]);
    }
  }

  const NameRequired := "Name is required"

  /** `handleUpdateRequest`: the form is sent as the body, unless no request is being edited or the name is empty. */
  function UpdateRequest(editing: Option<Request>, f: Form): (r: Result<Form, string>)
    ensures r.Err? <==> editing.None? || f.name == ""
    ensures r.Err? ==> r.error == NameRequired
    ensures r.Ok? ==> r.value == f
  {
    if editing.None? || f.name == "" then Err(NameRequired) else Ok(f)
  }

  /**
   * Whatever the admin types, the update sent for a request with a name carries that
   * request's own name, so the server finds the request that was opened.
   */
  lemma UpdateNamesEditedRequest(r: Request, edits: seq<(Input, string)>)
    requires r.name != ""
    ensures UpdateRequest(Some(r), EditAll(StartEdit(r), edits)).Ok?
    ensures UpdateRequest(Some(r), EditAll(StartEdit(r), edits)).value.name == r.name
  {
    EditAllKeepsName(StartEdit(r), edits);
  }

  // ---------------------------------------------------------------------
  // The guest count
  // ---------------------------------------------------------------------

  /** `parseInt(request.Guest) || 1 guest(s)`, shown when the field is non-empty. */
  function ShownCount(r: Request): Option<int> {
    if r.guest != "" then Some(CountOf(r.guest)) else None
  }

  /** A shown count is never zero, and a written count reads back. */
  lemma ShownCountSpec(r: Request)
    ensures ShownCount(r).Some? ==> ShownCount(r).value != 0
    ensures forall n: int :: n != 0 ==> ShownCount(r.(guest := IntToString(n))) == Some(n)
  {
    forall n: int | n != 0
      ensures ShownCount(r.(guest := IntToString(n))) == Some(n)
    {
      CountOfIntToString(n);
    }
  }
}
