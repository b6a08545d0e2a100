/**
 * The admin guest table of components/guest-list-management.tsx: the search filter, the
 * edit form a guest opens, the name check before an add or an update, and the guest
 * count shown per row. A field the record leaves out is the empty string.
 */
module GuestListManagement {
  import opened Wrappers
  import opened Text
  import Seqs

  /** A guest record as the page receives it. */
  datatype Guest = Guest(name: string, email: string, rsvp: string, guest: string, message: string)

  /** The add/edit form; it has the same fields. */
  type Form = Guest

  // ---------------------------------------------------------------------
  // filteredGuests
  // ---------------------------------------------------------------------

  /** The lowercased name contains `query`, or the email is non-empty and its lowercase form contains it. */
  predicate Hit(g: Guest, query: string) {
    Contains(Lower(g.name), query) || (g.email != "" && Contains(Lower(g.email), query))
  }

  /** `filteredGuests`: everything for a blank search, otherwise the hits for the lowercased, untrimmed search. */
  function FilteredGuests(guests: seq<Guest>, search: string): seq<Guest> {
    if IsBlank(search) then guests else Seqs.Filter(guests, g => Hit(g, Lower(search)))
  }

  /** The view keeps the list order; a blank search shows all, any other shows exactly the hits. */
  lemma FilteredGuestsSpec(guests: seq<Guest>, search: string)
    ensures Seqs.IsSubsequence(FilteredGuests(guests, search), guests)
    ensures IsBlank(search) ==> FilteredGuests(guests, search) == guests
    ensures !IsBlank(search) ==> forall i :: 0 <= i < |guests| ==>
      (guests[i] in FilteredGuests(guests, search) <==> Hit(guests[i], Lower(search)))
  {
    if IsBlank(search) {
      Seqs.IsSubsequenceRefl(guests);
    } else {
      var r := FilteredGuests(guests, search);
      forall i | 0 <= i < |guests| && guests[i] in r
        ensures Hit(guests[i], Lower(search))
      {
        var j :| 0 <= j < |r| && r[j] == guests[i];
      }
    }
  }

  // ---------------------------------------------------------------------
  // The form
  // ---------------------------------------------------------------------

  /** `handleEditClick(guest)`: the email placeholder "Pending" shows as empty and a missing count as "1". */
  function StartEdit(g: Guest): (f: Form)
    ensures f.name == g.name && f.rsvp == g.rsvp && f.message == g.message
    ensures f.email != "Pending" && f.guest != ""
  {
    Guest(g.name,
          if g.email != "" && g.email != "Pending" then g.email else "",
          g.rsvp,
          if g.guest != "" then g.guest else "1",
          g.message)
  }

  /** Saving an edit form unchanged and opening it again shows the same form. */
  lemma StartEditIdempotent(g: Guest)
    ensures StartEdit(StartEdit(g)) == StartEdit(g)
  {
  }

  const NameRequired := "Name is required"

  /** `handleAddGuest`: the form is sent as it is, unless its name is empty. */
  function AddGuest(f: Form): (r: Result<Form, string>)
    ensures r.Err? <==> f.name == ""
    ensures r.Err? ==> r.error == NameRequired
    ensures r.Ok? ==> r.value == f
  {
    if f.name == "" then Err(NameRequired) else Ok(f)
  }

  /** The body of the update request: the guest's name before the edit, then the form. */
  datatype UpdateRequest = UpdateRequest(originalName: string, form: Form)

  /** `handleUpdateGuest`: refused with no guest being edited or an empty name. */
  function UpdateGuest(editing: Option<Guest>, f: Form): (r: Result<UpdateRequest, string>)
    ensures r.Err? <==> editing.None? || f.name == ""
    ensures r.Err? ==> r.error == NameRequired
    ensures r.Ok? ==> r.value.originalName == editing.value.name && r.value.form == f
  {
    if editing.None? || f.name == "" then Err(NameRequired) else Ok(UpdateRequest(editing.value.name, f))
  }

  /** An edit opened on a guest with a name and sent unchanged is accepted and names that guest. */
  lemma UnchangedEditAccepted(g: Guest)
    requires g.name != ""
    ensures UpdateGuest(Some(g), StartEdit(g)) == Ok(UpdateRequest(g.name, StartEdit(g)))
  {
  }

  // ---------------------------------------------------------------------
  // The guest count column
  // ---------------------------------------------------------------------

  /** `guest.Guest !== "" ? parseInt(String(guest.Guest)) || 1 : 1` */
  function ShownCount(g: Guest): int {
    if g.guest != "" then CountOf(g.guest) else 1
  }

  /** The column shows a non-zero count; the guard for an empty field changes nothing, and a written count reads back. */
  lemma ShownCountSpec(g: Guest)
    ensures ShownCount(g) == CountOf(g.guest) && ShownCount(g) != 0
    ensures forall n: int :: n != 0 ==> ShownCount(g.(guest := IntToString(n))) == n
  {
    forall n: int | n != 0
      ensures ShownCount(g.(guest := IntToString(n))) == n
    {
      CountOfIntToString(n);
    }
  }
}
