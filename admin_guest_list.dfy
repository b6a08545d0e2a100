/**
 * The admin invitation list of components/improved-guest-list.tsx: the filtered view,
 * its statistics, the add/edit form and the CSV download. The form is a record and its
 * handlers are pure transitions; the download is the loop that appends one line per
 * guest.
 */
module AdminGuestList {
  import opened Wrappers
  import opened Text
  import opened GuestModel
  import opened Roster
  import Seqs

  // ---------------------------------------------------------------------
  // The filtered view
  // ---------------------------------------------------------------------

  datatype StatusFilter = AllStatuses | OnlyStatus(status: string)

  datatype VipFilter = AllVip | OnlyVip(isVip: bool)

  predicate SomeCompanionContains(cs: seq<Companion>, term: string) {
    exists i :: 0 <= i < |cs| && Contains(Lower(cs[i].name), Lower(term))
  }

  /** The search box: never a request; the name, the role or a companion's name contains the term. */
  predicate MatchesSearch(g: Guest, term: string) {
    g.status != "request"
    && (Contains(Lower(g.name), Lower(term))
        || Contains(Lower(g.role), Lower(term))
        || SomeCompanionContains(g.companions, term))
  }

  predicate Shown(g: Guest, term: string, statusFilter: StatusFilter, vipFilter: VipFilter) {
    MatchesSearch(g, term)
    && (statusFilter.AllStatuses? || g.status == statusFilter.status)
    && (vipFilter.AllVip? || g.isVip == vipFilter.isVip)
  }

  /** `filteredGuests` */
  function FilteredGuests(guests: seq<Guest>, term: string, statusFilter: StatusFilter, vipFilter: VipFilter): seq<Guest> {
    Seqs.Filter(guests, g => Shown(g, term, statusFilter, vipFilter))
  }

  /**
   * The view keeps the list order, never shows a request, and shows a guest exactly
   * when the search, the status filter and the VIP filter all accept it.
   */
  lemma FilteredGuestsSpec(guests: seq<Guest>, term: string, statusFilter: StatusFilter, vipFilter: VipFilter)
    ensures var r := FilteredGuests(guests, term, statusFilter, vipFilter);
      && Seqs.IsSubsequence(r, guests)
      && (forall i :: 0 <= i < |r| ==> r[i].status != "request")
      && (forall i :: 0 <= i < |guests| ==>
            (guests[i] in r <==> Shown(guests[i], term, statusFilter, vipFilter)))
  {
    var r := FilteredGuests(guests, term, statusFilter, vipFilter);
    forall i | 0 <= i < |guests| && guests[i] in r
      ensures Shown(guests[i], term, statusFilter, vipFilter)
    {
      var j :| 0 <= j < |r| && r[j] == guests[i];
    }
  }

  /** With both filters on "all" and an empty search, every guest but the requests is shown. */
  lemma EmptySearchShowsAllButRequests(guests: seq<Guest>)
    ensures forall i :: 0 <= i < |guests| ==>
      (guests[i] in FilteredGuests(guests, "", AllStatuses, AllVip) <==> guests[i].status != "request")
  {
    FilteredGuestsSpec(guests, "", AllStatuses, AllVip);
    forall i | 0 <= i < |guests|
      ensures Contains(Lower(guests[i].name), Lower(""))
    {
    }
  }

  // ---------------------------------------------------------------------
  // Statistics
  // ---------------------------------------------------------------------

  datatype Stats = Stats(total: nat, confirmed: nat, pending: nat, declined: nat, vip: nat, totalPax: int)

  /** `filteredGuests.reduce((sum, g) => sum + g.allowedGuests, 0)` */
  function TotalPax(gs: seq<Guest>): int {
    if gs == [] then 0 else TotalPax(gs[..|gs| - 1]) + gs[|gs| - 1].allowedGuests
  }

  predicate IsConfirmed(g: Guest) { g.status == "confirmed" }
  predicate IsPending(g: Guest) { g.status == "pending" }
  predicate IsDeclined(g: Guest) { g.status == "declined" }
  predicate IsVip(g: Guest) { g.isVip }

  /** `stats` */
  function StatsOf(gs: seq<Guest>): Stats {
    Stats(|gs|,
          Seqs.Count(gs, IsConfirmed),
          Seqs.Count(gs, IsPending),
          Seqs.Count(gs, IsDeclined),
          Seqs.Count(gs, IsVip),
          TotalPax(gs))
  }

  /** The three answer counts and the VIP count never exceed the number of guests shown. */
  lemma StatsBounded(gs: seq<Guest>)
    ensures var s := StatsOf(gs);
      s.confirmed + s.pending + s.declined <= s.total && s.vip <= s.total
  {
    Seqs.CountDisjoint3(gs, IsConfirmed, IsPending, IsDeclined);
  }

  /** When every guest is allowed at least one seat, there are at least as many seats as guests. */
  lemma {:induction false} TotalPaxAtLeastTotal(gs: seq<Guest>)
    requires forall i :: 0 <= i < |gs| ==> gs[i].allowedGuests >= 1
    ensures TotalPax(gs) >= |gs|
  {
    if gs != [] {
      TotalPaxAtLeastTotal(gs[..|gs| - 1]);
    }
  }

  // ---------------------------------------------------------------------
  // The add/edit form
  // ---------------------------------------------------------------------

  datatype AdminForm = AdminForm(
    editing: Option<Guest>,
    name: string,
    role: string,
    email: string,
    contact: string,
    message: string,
    allowedGuests: int,
    companions: seq<Companion>,
    tableNumber: string,
    isVip: bool,
    status: string,
    addedBy: string)

  /** `resetForm` */
  const EmptyAdminForm := AdminForm(None, "", "", "", "", "", 1, [], "", false, "pending", "")

  /** The form's companion slots match its allowance. */
  predicate Synced(f: AdminForm) {
    |f.companions| == Max0(f.allowedGuests - 1)
  }

  /**
   * A new allowance, followed by the sync effect, which depends on the allowance alone
   * and therefore runs only when the value changes.
   */
  function WithAllowance(f: AdminForm, allowed: int): AdminForm {
    if allowed == f.allowedGuests then f
    else f.(allowedGuests := allowed, companions := Resized(f.companions, allowed - 1))
  }

  /** The allowed-pax input: `parseInt(value) || 1`. */
  function SetAllowedGuests(f: AdminForm, input: string): AdminForm {
    WithAllowance(f, CountOf(input))
  }

  /**
   * An empty, non-numeric or zero entry becomes one seat; any other entry is read as
   * `parseInt` reads it, and a synchronised form stays synchronised with the kept
   * companions first.
   */
  lemma SetAllowedGuestsSpec(f: AdminForm, input: string)
    requires Synced(f)
    ensures var r := SetAllowedGuests(f, input);
      && (ParseInt(input) == None || ParseInt(input) == Some(0) ==> r.allowedGuests == 1)
      && (ParseInt(input).Some? && ParseInt(input).value != 0 ==> r.allowedGuests == ParseInt(input).value)
      && Synced(r)
      && (forall i :: 0 <= i < |r.companions| && i < |f.companions| ==> r.companions[i] == f.companions[i])
      && r.editing == f.editing && r.name == f.name
  {
  }

  /** Typing a number and then the previous one back restores the companion slots when the first change added slots. */
  lemma RaiseThenRestore(f: AdminForm, allowed: int)
    requires Synced(f) && allowed >= f.allowedGuests
    ensures WithAllowance(WithAllowance(f, allowed), f.allowedGuests) == f
  {
    if allowed != f.allowedGuests {
      ResizedTwice(f.companions, allowed - 1, f.allowedGuests - 1);
    }
  }

  /** `handleEdit`: load the guest into the form; the sync effect runs if the allowance changed. */
  function StartEdit(f: AdminForm, g: Guest): AdminForm {
    var loaded := AdminForm(Some(g), g.name, g.role, g.email, g.contact, g.message,
                            f.allowedGuests, g.companions, g.tableNumber, g.isVip, g.status, g.addedBy);
    WithAllowance(loaded, g.allowedGuests)
  }

  /** What `handleSubmit` hands to the page: an update of the edited guest, or a new guest without id. */
  datatype Submission = UpdateGuest(guest: Guest) | AddGuest(data: Guest)

  /**
   * `handleSubmit`: the form fields spread over the edited guest, or a new record; the
   * creation time is the edited guest's own when it has one, and `now` otherwise.
   */
  function Submit(f: AdminForm, now: string): Submission {
    var createdAt := if f.editing.Some? && f.editing.value.createdAt != "" then f.editing.value.createdAt else now;
    match f.editing
    case Some(e) =>
      UpdateGuest(e.(name := f.name, role := f.role, email := f.email, contact := f.contact,
                     message := f.message, allowedGuests := f.allowedGuests, companions := f.companions,
                     tableNumber := f.tableNumber, isVip := f.isVip, status := f.status,
                     addedBy := f.addedBy, createdAt := createdAt))
    case None =>
      AddGuest(Guest("", f.name, f.role, f.email, f.contact, f.message, f.allowedGuests,
                     f.companions, f.tableNumber, f.isVip, f.status, f.addedBy, createdAt, ""))
  }

  /**
   * Opening a guest and saving it unchanged gives the guest back: same id, same fields,
   * and the original creation time when there was one. A guest whose companion list
   * does not match its allowance comes back resized.
   */
  lemma EditRoundTrip(f: AdminForm, g: Guest, now: string)
    ensures var s := Submit(StartEdit(f, g), now);
      && s.UpdateGuest?
      && s.guest.id == g.id
      && s.guest.createdAt == (if g.createdAt != "" then g.createdAt else now)
      && (|g.companions| == Max0(g.allowedGuests - 1) ==>
            s.guest == g.(createdAt := if g.createdAt != "" then g.createdAt else now))
  {
    if g.allowedGuests != f.allowedGuests {
      ResizedNoop(g.companions);
    }
  }

  // ---------------------------------------------------------------------
  // CSV download
  // ---------------------------------------------------------------------

  /** The header line's column names, in export order. */
  const CsvColumns: seq<string> :=
    ["Name", "Role", "Email", "Contact", "Status", "Allowed Guests", "Table", "VIP", "Added By", "Companions"]

  const CsvHeader := JoinWith(CsvColumns, ",") + "\n"

  function BoolText(b: bool): string {
    if b then "true" else "false"
  }

  function CompanionText(c: Companion): string {
    c.name + " (" + c.relationship + ")"
  }

  /** `companions.map(c => `${c.name} (${c.relationship})`).join('; ')` */
  function CompanionsText(cs: seq<Companion>): string {
    JoinWith(Seqs.Map(cs, CompanionText), "; ")
  }

  function Quoted(s: string): string {
    "\"" + s + "\""
  }

  /** The ten fields of a line: every one but the allowance wrapped in quotes, as written. */
  function CsvFields(g: Guest): seq<string> {
    [Quoted(g.name), Quoted(g.role), Quoted(g.email), Quoted(g.contact), Quoted(g.status),
     IntToString(g.allowedGuests), Quoted(g.tableNumber), Quoted(BoolText(g.isVip)),
     Quoted(g.addedBy), Quoted(CompanionsText(g.companions))]
  }

  function CsvLine(g: Guest): string {
    JoinWith(CsvFields(g), ",") + "\n"
  }

  function CsvLines(gs: seq<Guest>): string {
    if gs == [] then "" else CsvLines(gs[..|gs| - 1]) + CsvLine(gs[|gs| - 1])
  }

  lemma CsvLinesPrefix(gs: seq<Guest>, i: nat)
    requires i < |gs|
    ensures CsvLines(gs[..i + 1]) == CsvLines(gs[..i]) + CsvLine(gs[i])
  {
    assert gs[..i + 1][..i] == gs[..i];
  }

  /** `handleExportCSV`: the header, then one line appended per shown guest. */
  method ExportCsv(filtered: seq<Guest>) returns (csv: string)
    ensures csv == CsvHeader + CsvLines(filtered)
  {
    csv := CsvHeader;
    for i := 0 to |filtered|
      invariant csv == CsvHeader + CsvLines(filtered[..i])
    {
      CsvLinesPrefix(filtered, i);
      Seqs.AppendAssoc(CsvHeader, CsvLines(filtered[..i]), CsvLine(filtered[i]));
      csv := csv + CsvLine(filtered[i]);
    }
    assert filtered[..|filtered|] == filtered;
  }

  predicate NoNewline(s: string) {
    forall i :: 0 <= i < |s| ==> s[i] != '\n'
  }

  lemma {:induction false} NoNewlineOccurrences(s: string)
    requires NoNewline(s)
    ensures Occurrences(s, '\n') == 0
  {
    if s != [] {
      NoNewlineOccurrences(s[..|s| - 1]);
    }
  }

  /** A text without line breaks followed by one line break holds exactly one. */
  lemma OneLine(s: string)
    requires NoNewline(s)
    ensures Occurrences(s + "\n", '\n') == 1
  {
    NoNewlineOccurrences(s);
    OccurrencesConcat(s, "\n", '\n');
  }

  lemma {:induction false} JoinWithNoNewline(parts: seq<string>, sep: string)
    requires NoNewline(sep) && forall i :: 0 <= i < |parts| ==> NoNewline(parts[i])
    ensures NoNewline(JoinWith(parts, sep))
  {
    if |parts| > 1 {
      JoinWithNoNewline(parts[..|parts| - 1], sep);
    }
  }

  lemma IntToStringNoNewline(n: int)
    ensures NoNewline(IntToString(n))
  {
    NatToStringDigits(if n < 0 then -n else n);
  }

  /** The exported fields of a guest hold no line break. */
  predicate LineSafe(g: Guest) {
    && NoNewline(g.name) && NoNewline(g.role) && NoNewline(g.email) && NoNewline(g.contact)
    && NoNewline(g.status) && NoNewline(g.tableNumber) && NoNewline(g.addedBy)
    && NoNewline(CompanionsText(g.companions))
  }

  /** A guest with no line break in any exported field gives exactly one line. */
  lemma CsvLineIsOneLine(g: Guest)
    requires LineSafe(g)
    ensures Occurrences(CsvLine(g), '\n') == 1
  {
    CsvFieldsNoNewline(g);
    JoinWithNoNewline(CsvFields(g), ",");
    OneLine(JoinWith(CsvFields(g), ","));
  }

  lemma CsvFieldsNoNewline(g: Guest)
    requires LineSafe(g)
    ensures forall i :: 0 <= i < |CsvFields(g)| ==> NoNewline(CsvFields(g)[i])
  {
    IntToStringNoNewline(g.allowedGuests);
    QuotedNoNewline(g.name);
    QuotedNoNewline(g.role);
    QuotedNoNewline(g.email);
    QuotedNoNewline(g.contact);
    QuotedNoNewline(g.status);
    QuotedNoNewline(g.tableNumber);
    QuotedNoNewline(BoolText(g.isVip));
    QuotedNoNewline(g.addedBy);
    QuotedNoNewline(CompanionsText(g.companions));
  }

  lemma QuotedNoNewline(s: string)
    requires NoNewline(s)
    ensures NoNewline(Quoted(s))
  {
  }

  lemma CsvHeaderIsOneLine()
    ensures Occurrences(CsvHeader, '\n') == 1
  {
    JoinWithNoNewline(CsvColumns, ",");
    OneLine(JoinWith(CsvColumns, ","));
  }

  /** The download holds one header line plus exactly one line per shown guest. */
  lemma {:induction false} CsvLineCount(gs: seq<Guest>)
    requires forall i :: 0 <= i < |gs| ==> LineSafe(gs[i])
    ensures Occurrences(CsvHeader + CsvLines(gs), '\n') == 1 + |gs|
  {
    if gs == [] {
      assert CsvHeader + CsvLines(gs) == CsvHeader;
      CsvHeaderIsOneLine();
    } else {
      var init := gs[..|gs| - 1];
      CsvLineCount(init);
      CsvLineIsOneLine(gs[|gs| - 1]);
      Seqs.AppendAssoc(CsvHeader, CsvLines(init), CsvLine(gs[|gs| - 1]));
      OccurrencesConcat(CsvHeader + CsvLines(init), CsvLine(gs[|gs| - 1]), '\n');
    }
  }
}
