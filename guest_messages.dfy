/**
 * The guest-message wall of components/guest-messages.tsx: the guests who left a message,
 * the search over them, the guest count and Attending badge on each card, and the three
 * totals of the footer. A field the record leaves out is the empty string.
 */
module GuestMessages {
  import opened Wrappers
  import opened Text
  import Seqs

  /** A guest record as the page receives it. */
  datatype Guest = Guest(name: string, email: string, rsvp: string, guest: string, message: string)

  /** `guest.Message && guest.Message.trim()` */
  predicate HasMessage(g: Guest) {
    g.message != "" && !IsBlank(g.message)
  }

  /** `guestsWithMessages` */
  function WithMessages(guests: seq<Guest>): seq<Guest> {
    Seqs.Filter(guests, HasMessage)
  }

  /** The emptiness test adds nothing to the blank test: a guest is listed exactly when the message is not blank. */
  lemma HasMessageSpec(g: Guest)
    ensures HasMessage(g) <==> !IsBlank(g.message)
  {
  }

  /** The wall keeps the list order and holds exactly the guests whose message is not blank. */
  lemma WithMessagesSpec(guests: seq<Guest>)
    ensures Seqs.IsSubsequence(WithMessages(guests), guests)
    ensures forall i :: 0 <= i < |guests| ==> (guests[i] in WithMessages(guests) <==> !IsBlank(guests[i].message))
  {
    var r := WithMessages(guests);
    forall i | 0 <= i < |guests| && guests[i] in r
      ensures !IsBlank(guests[i].message)
    {
      var j :| 0 <= j < |r| && r[j] == guests[i];
    }
  }

  // ---------------------------------------------------------------------
  // filteredMessages
  // ---------------------------------------------------------------------

  /** The lowercased name or message contains `query`, or a non-empty email does in lowercase. */
  predicate Hit(g: Guest, query: string) {
    Contains(Lower(g.name), query)
    || Contains(Lower(g.message), query)
    || (g.email != "" && Contains(Lower(g.email), query))
  }

  /** `filteredMessages`: the listed guests, all of them for a blank search and otherwise the hits. */
  function FilteredMessages(guests: seq<Guest>, search: string): seq<Guest> {
    if IsBlank(search) then WithMessages(guests)
    else Seqs.Filter(WithMessages(guests), g => Hit(g, Lower(search)))
  }

  /**
   * The search only narrows the wall: it keeps the wall's order, shows the whole wall for
   * a blank search and otherwise exactly the listed guests that match, so the header's
   * "n of m messages" never has n above m.
   */
  lemma FilteredMessagesSpec(guests: seq<Guest>, search: string)
    ensures Seqs.IsSubsequence(FilteredMessages(guests, search), WithMessages(guests))
    ensures |FilteredMessages(guests, search)| <= |WithMessages(guests)|
    ensures IsBlank(search) ==> FilteredMessages(guests, search) == WithMessages(guests)
    ensures !IsBlank(search) ==> forall i :: 0 <= i < |guests| ==>
      (guests[i] in FilteredMessages(guests, search) <==> !IsBlank(guests[i].message) && Hit(guests[i], Lower(search)))
  {
    var w := WithMessages(guests);
    WithMessagesSpec(guests);
    if IsBlank(search) {
      Seqs.IsSubsequenceRefl(w);
    } else {
      var r := FilteredMessages(guests, search);
      forall i | 0 <= i < |guests| && guests[i] in r
        ensures !IsBlank(guests[i].message) && Hit(guests[i], Lower(search))
      {
        var j :| 0 <= j < |r| && r[j] == guests[i];
        assert r[j] in w;
      }
      forall i | 0 <= i < |guests| && !IsBlank(guests[i].message) && Hit(guests[i], Lower(search))
        ensures guests[i] in r
      {
        var j :| 0 <= j < |w| && w[j] == guests[i];
      }
    }
  }

  // ---------------------------------------------------------------------
  // A card
  // ---------------------------------------------------------------------

  /** `parseInt(guest.Guest) || 1`, shown when the field is non-empty. */
  function ShownCount(g: Guest): Option<int> {
    if g.guest != "" then Some(CountOf(g.guest)) else None
  }

  /** A shown count is never zero, and a written count reads back. */
  lemma ShownCountSpec(g: Guest)
    ensures ShownCount(g).Some? ==> ShownCount(g).value != 0
    ensures forall n: int :: n != 0 ==> ShownCount(g.(guest := IntToString(n))) == Some(n)
  {
    forall n: int | n != 0
      ensures ShownCount(g.(guest := IntToString(n))) == Some(n)
    {
      CountOfIntToString(n);
    }
  }

  /** The email shown on a card: none for an empty field or the placeholder "Pending". */
  function ShownEmail(g: Guest): (e: Option<string>)
    ensures e.Some? <==> g.email != "" && g.email != "Pending"
    ensures e.Some? ==> e.value == g.email
  {
    if g.email != "" && g.email != "Pending" then Some(g.email) else None
  }

  // ---------------------------------------------------------------------
  // The footer
  // ---------------------------------------------------------------------

  /** `g.RSVP === "Yes"`: the Attending badge and the "From Attending Guests" total. */
  predicate Attending(g: Guest) {
    g.rsvp == "Yes"
  }

  /** `!g.RSVP || g.RSVP.trim() === ""`: the "From Pending RSVPs" total. */
  predicate Pending(g: Guest) {
    g.rsvp == "" || IsBlank(g.rsvp)
  }

  /** The three footer totals: messages, messages from attending guests, messages from pending RSVPs. */
  function Totals(guests: seq<Guest>): (int, int, int) {
    var w := WithMessages(guests);
    (|w|, Seqs.Count(w, Attending), Seqs.Count(w, Pending))
  }

  /** No guest is both attending and pending, so the two smaller totals never add up to more than the first. */
  lemma TotalsSpec(guests: seq<Guest>)
    ensures Totals(guests).1 + Totals(guests).2 <= Totals(guests).0
  {
    forall g: Guest
      ensures !(Attending(g) && Pending(g))
    {
      if Attending(g) {
        assert g.rsvp[0] == 'Y';
        BlankIffAllSpace(g.rsvp);
      }
    }
    Seqs.CountDisjoint2(WithMessages(guests), Attending, Pending);
  }
}
