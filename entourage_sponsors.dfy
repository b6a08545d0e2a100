/**
 * The entourage and principal-sponsor page of components/entourage-sponsors.tsx: the two
 * search filters, the checks before a request is sent, and the request bodies. An update
 * names its target by the key the record had when the edit was opened: `originalName`
 * for a member, the original pair for a sponsor couple. The bodies are the request types
 * of the two sheet stores, so the page's requests can be run against them.
 */
module EntourageSponsors {
  import opened Wrappers
  import opened Text
  import opened Cells
  import Seqs
  import EntourageSheet
  import SponsorSheet

  /** An entourage member as the page receives it. */
  datatype Member = Member(name: string, roleCategory: string, roleTitle: string, email: string)

  /** A sponsor couple as the page receives it. */
  datatype Sponsor = Sponsor(male: string, female: string)

  // ---------------------------------------------------------------------
  // The filters
  // ---------------------------------------------------------------------

  predicate MemberHit(m: Member, query: string) {
    Contains(Lower(m.name), query)
    || Contains(Lower(m.roleTitle), query)
    || Contains(Lower(m.roleCategory), query)
    || (m.email != "" && Contains(Lower(m.email), query))
  }

  predicate SponsorHit(s: Sponsor, query: string) {
    Contains(Lower(s.male), query) || Contains(Lower(s.female), query)
  }

  /** `filteredEntourage` */
  function FilteredEntourage(members: seq<Member>, search: string): seq<Member> {
    if IsBlank(search) then members else Seqs.Filter(members, m => MemberHit(m, Lower(search)))
  }

  /** `filteredSponsors` */
  function FilteredSponsors(sponsors: seq<Sponsor>, search: string): seq<Sponsor> {
    if IsBlank(search) then sponsors else Seqs.Filter(sponsors, s => SponsorHit(s, Lower(search)))
  }

  /** The member view keeps the list order; a blank search shows all, any other exactly the hits. */
  lemma FilteredEntourageSpec(members: seq<Member>, search: string)
    ensures Seqs.IsSubsequence(FilteredEntourage(members, search), members)
    ensures IsBlank(search) ==> FilteredEntourage(members, search) == members
    ensures !IsBlank(search) ==> forall i :: 0 <= i < |members| ==>
      (members[i] in FilteredEntourage(members, search) <==> MemberHit(members[i], Lower(search)))
  {
    if IsBlank(search) {
      Seqs.IsSubsequenceRefl(members);
    } else {
      var r := FilteredEntourage(members, search);
      forall i | 0 <= i < |members| && members[i] in r
        ensures MemberHit(members[i], Lower(search))
      {
        var j :| 0 <= j < |r| && r[j] == members[i];
      }
    }
  }

  /** The sponsor view keeps the list order; a blank search shows all, any other exactly the hits. */
  lemma FilteredSponsorsSpec(sponsors: seq<Sponsor>, search: string)
    ensures Seqs.IsSubsequence(FilteredSponsors(sponsors, search), sponsors)
    ensures IsBlank(search) ==> FilteredSponsors(sponsors, search) == sponsors
    ensures !IsBlank(search) ==> forall i :: 0 <= i < |sponsors| ==>
      (sponsors[i] in FilteredSponsors(sponsors, search) <==> SponsorHit(sponsors[i], Lower(search)))
  {
    if IsBlank(search) {
      Seqs.IsSubsequenceRefl(sponsors);
    } else {
      var r := FilteredSponsors(sponsors, search);
      forall i | 0 <= i < |sponsors| && sponsors[i] in r
        ensures SponsorHit(sponsors[i], Lower(search))
      {
        var j :| 0 <= j < |r| && r[j] == sponsors[i];
      }
    }
  }

  // ---------------------------------------------------------------------
  // Requests
  // ---------------------------------------------------------------------

  const NameRequired := "Name is required"
  const SponsorNameRequired := "At least one sponsor name is required"

  /** The body of an add or update request for a member, with `originalName` when there is one. */
  function MemberBody(originalName: Option<string>, form: Member): EntourageSheet.MemberInput {
    EntourageSheet.MemberInput(originalName, Some(form.name), Some(form.roleCategory), Some(form.roleTitle), Some(form.email))
  }

  /** `handleAddEntourage`: refused when the form has no name. */
  function AddMember(form: Member): (r: Result<EntourageSheet.MemberInput, string>)
    ensures r.Err? <==> form.name == ""
    ensures r.Err? ==> r.error == NameRequired
    ensures r.Ok? ==> !Missing(r.value.name) && r.value.originalName.None?
  {
    if form.name == "" then Err(NameRequired) else Ok(MemberBody(None, form))
  }

  /** `handleUpdateEntourage`: refused with no member being edited or no name; the body names the edited member. */
  function UpdateMember(editing: Option<Member>, form: Member): (r: Result<EntourageSheet.MemberInput, string>)
    ensures r.Err? <==> editing.None? || form.name == ""
    ensures r.Err? ==> r.error == NameRequired
    ensures r.Ok? ==> r.value.originalName == Some(editing.value.name) && !Missing(r.value.name)
  {
    if editing.None? || form.name == "" then Err(NameRequired) else Ok(MemberBody(Some(editing.value.name), form))
  }

  /** `handleAddSponsor`: refused when both names are empty. */
  function AddSponsor(form: Sponsor): (r: Result<SponsorSheet.SponsorInput, string>)
    ensures r.Err? <==> form.male == "" && form.female == ""
    ensures r.Err? ==> r.error == SponsorNameRequired
    ensures r.Ok? ==> !(Missing(r.value.male) && Missing(r.value.female))
  {
    if form.male == "" && form.female == "" then Err(SponsorNameRequired)
    else Ok(SponsorSheet.SponsorInput(None, None, Some(form.male), Some(form.female)))
  }

  /** `handleUpdateSponsor`: nothing is sent with no couple being edited; the body names the edited couple. */
  function UpdateSponsor(editing: Option<Sponsor>, form: Sponsor): (r: Option<SponsorSheet.SponsorInput>)
    ensures r.Some? <==> editing.Some?
    ensures r.Some? ==> r.value.originalMale == Some(editing.value.male) && r.value.originalFemale == Some(editing.value.female)
  {
    match editing
    case None => None
    case Some(e) => Some(SponsorSheet.SponsorInput(Some(e.male), Some(e.female), Some(form.male), Some(form.female)))
  }

  /** The checks on the page are the stores' first checks: a request the page sends passes the store's name check. */
  lemma PageChecksMatchStores(m: Member, s: Sponsor, rows: seq<Row>, srows: seq<Row>)
    ensures AddMember(m).Ok? ==> EntourageSheet.CreateError(rows, AddMember(m).value) != Some(EntourageSheet.NameRequired)
    ensures AddSponsor(s).Ok? ==> SponsorSheet.CreateError(srows, AddSponsor(s).value) != Some(SponsorSheet.NameRequired)
  {
  }

  // ---------------------------------------------------------------------
  // An update finds the row the edit was opened on
  // ---------------------------------------------------------------------

  /** The page's record of a member read from a row whose Name cell is text. */
  function MemberOfRow(row: Row): Member
    requires At(row, EntourageSheet.NameCol).Str?
  {
    Member(At(row, EntourageSheet.NameCol).s, TextOrEmpty(At(row, EntourageSheet.RoleCategoryCol)),
           TextOrEmpty(At(row, EntourageSheet.RoleTitleCol)), TextOrEmpty(At(row, EntourageSheet.EmailCol)))
  }

  /**
   * With unique names, the update for a member opened from row `k` finds row `k`, whatever
   * the form holds.
   */
  lemma UpdateMemberFindsRow(rows: seq<Row>, k: nat, form: Member)
    requires EntourageSheet.NamesUnique(rows) && k < |rows| && At(rows[k], EntourageSheet.NameCol).Str?
    requires form.name != ""
    ensures EntourageSheet.FindName(rows, Field(UpdateMember(Some(MemberOfRow(rows[k])), form).value.originalName)) == Some(k)
  {
    var name := EntourageSheet.Key(rows[k]);
    assert Field(Some(MemberOfRow(rows[k]).name)) == name;
    EntourageSheet.FindNameUnique(rows, k);
  }

  /** The page's record of a couple read from a row whose two cells are text. */
  function SponsorOfRow(row: Row): Sponsor
    requires At(row, SponsorSheet.MaleCol).Str? && At(row, SponsorSheet.FemaleCol).Str?
  {
    Sponsor(At(row, SponsorSheet.MaleCol).s, At(row, SponsorSheet.FemaleCol).s)
  }

  /**
   * With unique pairs, the update for a listed couple opened from row `k` passes every check
   * of the store and overwrites row `k`, whatever the form holds.
   */
  lemma UpdateSponsorFindsRow(rows: seq<Row>, k: nat, form: Sponsor)
    requires SponsorSheet.PairsUnique(rows) && k < |rows|
    requires At(rows[k], SponsorSheet.MaleCol).Str? && At(rows[k], SponsorSheet.FemaleCol).Str?
    requires SponsorSheet.Listed(rows[k])
    ensures var body := UpdateSponsor(Some(SponsorOfRow(rows[k])), form).value;
      SponsorSheet.UpdateError(rows, body).None? && SponsorSheet.FindPair(rows, SponsorSheet.OriginalPair(body)) == Some(k)
  {
    var body := UpdateSponsor(Some(SponsorOfRow(rows[k])), form).value;
    var p := SponsorSheet.PairOf(rows[k]);
    assert SponsorSheet.OriginalPair(body) == p;
    SponsorSheet.FindPairUnique(rows, k);
  }
}
