/**
 * The PrincipalSponsors sheet (google-apps-script/principal-sponsor-management.js): one
 * row per sponsor couple, MalePrincipalSponsor in column A and FemalePrincipalSponsor in
 * column B. A row is found by the trimmed text of both cells together. Creating refuses a
 * pair some row already holds; updating overwrites the first matching row without that
 * check, so it can leave two rows with the same pair.
 */
module SponsorSheet {
  import opened Wrappers
  import opened Text
  import opened Cells
  import Seqs

  const Columns := 2

  const MaleCol := 0
  const FemaleCol := 1

  predicate WellFormed(rows: seq<Row>) {
    forall i :: 0 <= i < |rows| ==> |rows[i]| == Columns
  }

  // ---------------------------------------------------------------------
  // Reading: getAllPrincipalSponsors
  // ---------------------------------------------------------------------

  /** A sponsor object as the web app returns it; each name keeps its cell's own value. */
  datatype Sponsor = Sponsor(male: Cell, female: Cell)

  /** `row => row[0] || row[1]`: a row is listed unless both of its names are empty. */
  predicate Listed(row: Row) {
    Truthy(At(row, MaleCol)) || Truthy(At(row, FemaleCol))
  }

  function RowToSponsor(row: Row): Sponsor {
    Sponsor(OrEmpty(At(row, MaleCol)), OrEmpty(At(row, FemaleCol)))
  }

  /** `getAllPrincipalSponsors(sheet)`: the rows with a name, in sheet order, as sponsor objects. */
  function AllSponsors(rows: seq<Row>): seq<Sponsor> {
    Seqs.Map(Seqs.Filter(rows, Listed), RowToSponsor)
  }

  /** One sponsor object per listed row, each with at least one name, and an empty sheet lists nobody. */
  lemma AllSponsorsSpec(rows: seq<Row>)
    ensures |AllSponsors(rows)| == Seqs.Count(rows, Listed)
    ensures forall i :: 0 <= i < |AllSponsors(rows)| ==>
      (Truthy(AllSponsors(rows)[i].male) || Truthy(AllSponsors(rows)[i].female))
    ensures AllSponsors([]) == []
  {
    var listed := Seqs.Filter(rows, Listed);
    forall i | 0 <= i < |AllSponsors(rows)|
      ensures Truthy(AllSponsors(rows)[i].male) || Truthy(AllSponsors(rows)[i].female)
    {
      assert Listed(listed[i]);
    }
  }

  /** A row added at the end shows up at the end of the list exactly when it holds a name. */
  lemma AllSponsorsSnoc(rows: seq<Row>, row: Row)
    ensures AllSponsors(rows + [row]) == AllSponsors(rows) + (if Listed(row) then [RowToSponsor(row)] else [])
  {
    Seqs.FilterSnoc(rows, row, Listed);
  }

  // ---------------------------------------------------------------------
  // Pairs
  // ---------------------------------------------------------------------

  /** The trimmed names of a couple, male first. */
  datatype Pair = Pair(male: string, female: string)

  /** `[row[0].toString().trim(), row[1].toString().trim()]`: the pair the scans compare against. */
  function PairOf(row: Row): Pair {
    Pair(Trim(CellText(At(row, MaleCol))), Trim(CellText(At(row, FemaleCol))))
  }

  /** The row test of the scans: both trimmed names equal those of `p`. */
  function Holds(p: Pair): Row -> bool {
    (row: Row) => PairOf(row) == p
  }

  /** The first row holding pair `p`, as the scan for `rowIndex` finds it. */
  function FindPair(rows: seq<Row>, p: Pair): (k: Option<nat>)
    ensures k.Some? ==> k.value < |rows|
  {
    Seqs.FindFrom(rows, Holds(p), 0)
  }

  /** `FindPair` answers with the first row holding `p`, and with `None` when no row holds it. */
  lemma FindPairSpec(rows: seq<Row>, p: Pair)
    ensures FindPair(rows, p).Some? ==> PairOf(rows[FindPair(rows, p).value]) == p
    ensures FindPair(rows, p).Some? ==> forall j :: 0 <= j < FindPair(rows, p).value ==> PairOf(rows[j]) != p
    ensures FindPair(rows, p).None? ==> forall j :: 0 <= j < |rows| ==> PairOf(rows[j]) != p
  {
    Seqs.FindFromSpec(rows, Holds(p), 0);
  }

  /** No two rows hold the same trimmed pair. */
  predicate PairsUnique(rows: seq<Row>) {
    forall i, j :: 0 <= i < j < |rows| ==> PairOf(rows[i]) != PairOf(rows[j])
  }

  /** With unique pairs, looking up the pair a row holds finds that row. */
  lemma FindPairUnique(rows: seq<Row>, k: nat)
    requires PairsUnique(rows) && k < |rows|
    ensures FindPair(rows, PairOf(rows[k])) == Some(k)
  {
    forall j | 0 <= j < k
      ensures !Holds(PairOf(rows[k]))(rows[j])
    {
      assert PairOf(rows[j]) != PairOf(rows[k]);
    }
    Seqs.FindFromFirst(rows, Holds(PairOf(rows[k])), 0, k);
  }

  // ---------------------------------------------------------------------
  // Requests
  // ---------------------------------------------------------------------

  /** The fields of a request body; `None` is a field the request leaves out. */
  datatype SponsorInput = SponsorInput(
    originalMale: Option<string>,
    originalFemale: Option<string>,
    male: Option<string>,
    female: Option<string>)

  /** The trimmed new pair of a request. */
  function NewPair(data: SponsorInput): Pair {
    Pair(Field(data.male), Field(data.female))
  }

  /** The trimmed pair an update looks for. */
  function OriginalPair(data: SponsorInput): Pair {
    Pair(Field(data.originalMale), Field(data.originalFemale))
  }

  /** The two cells create and update write. */
  function SponsorRow(p: Pair): (r: Row)
    ensures |r| == Columns
  {
    [Str(p.male), Str(p.female)]
  }

  /** A written row is found under the pair it was written with. */
  lemma SponsorRowPair(data: SponsorInput)
    ensures PairOf(SponsorRow(NewPair(data))) == NewPair(data)
  {
    TrimIdempotent(Given(data.male));
    TrimIdempotent(Given(data.female));
  }

  const NameRequired := "At least one sponsor name is required"
  const PairExists := "Principal sponsor pair already exists"
  const OriginalRequired := "Original sponsor information is required for update"
  const NoSponsors := "No principal sponsors found"
  const DeletionInfoRequired := "Sponsor information is required for deletion"

  function NotFound(p: Pair): string {
    "Principal sponsor not found: " + p.male + " & " + p.female
  }

  /** The error `createPrincipalSponsor` throws, if any. */
  function CreateError(rows: seq<Row>, data: SponsorInput): (e: Option<string>)
    ensures e.None? <==> !(Missing(data.male) && Missing(data.female)) && FindPair(rows, NewPair(data)).None?
  {
    if Missing(data.male) && Missing(data.female) then Some(NameRequired)
    else if FindPair(rows, NewPair(data)).Some? then Some(PairExists)
    else None
  }

  /** The error `updatePrincipalSponsor` throws, if any, in the order the checks run. */
  function UpdateError(rows: seq<Row>, data: SponsorInput): (e: Option<string>)
    ensures e.None? <==> (!(Missing(data.originalMale) && Missing(data.originalFemale))
      && FindPair(rows, OriginalPair(data)).Some?)
  {
    if Missing(data.originalMale) && Missing(data.originalFemale) then Some(OriginalRequired)
    else if rows == [] then Some(NoSponsors)
    else if FindPair(rows, OriginalPair(data)).None? then Some(NotFound(OriginalPair(data)))
    else None
  }

  /** The error `deletePrincipalSponsor` throws, if any, in the order the checks run. */
  function DeleteError(rows: seq<Row>, data: SponsorInput): (e: Option<string>)
    ensures e.None? <==> !(Missing(data.male) && Missing(data.female)) && FindPair(rows, NewPair(data)).Some?
  {
    if Missing(data.male) && Missing(data.female) then Some(DeletionInfoRequired)
    else if rows == [] then Some(NoSponsors)
    else if FindPair(rows, NewPair(data)).None? then Some(NotFound(NewPair(data)))
    else None
  }

  // ---------------------------------------------------------------------
  // Pairs stay unique under create and delete, not under update
  // ---------------------------------------------------------------------

  /** A create that goes through keeps the pairs unique. */
  lemma CreateKeepsPairsUnique(rows: seq<Row>, data: SponsorInput)
    requires PairsUnique(rows) && CreateError(rows, data).None?
    ensures PairsUnique(rows + [SponsorRow(NewPair(data))])
  {
    FindPairSpec(rows, NewPair(data));
    SponsorRowPair(data);
    var r := rows + [SponsorRow(NewPair(data))];
    forall i, j | 0 <= i < j < |r|
      ensures PairOf(r[i]) != PairOf(r[j])
    {
      if j < |rows| {
        assert r[i] == rows[i] && r[j] == rows[j];
      } else {
        assert r[i] == rows[i];
      }
    }
  }

  /** A delete keeps the pairs unique. */
  lemma DeleteKeepsPairsUnique(rows: seq<Row>, k: nat)
    requires PairsUnique(rows) && k < |rows|
    ensures PairsUnique(Seqs.Without(rows, k))
  {
    var r := Seqs.Without(rows, k);
    forall i, j | 0 <= i < j < |r|
      ensures PairOf(r[i]) != PairOf(r[j])
    {
      var i', j' := if i < k then i else i + 1, if j < k then j else j + 1;
      assert r[i] == rows[i'] && r[j] == rows[j'];
    }
  }

  /** With unique pairs, a delete removes the pair entirely: deleting it again is refused. */
  lemma DeleteRemovesPair(rows: seq<Row>, data: SponsorInput)
    requires PairsUnique(rows) && DeleteError(rows, data).None?
    ensures DeleteError(Seqs.Without(rows, FindPair(rows, NewPair(data)).value), data).Some?
  {
    var k := FindPair(rows, NewPair(data)).value;
    FindPairSpec(rows, NewPair(data));
    var r := Seqs.Without(rows, k);
    forall i | 0 <= i < |r|
      ensures PairOf(r[i]) != NewPair(data)
    {
      if i < k {
        assert r[i] == rows[i];
      } else {
        assert r[i] == rows[i + 1];
        assert PairOf(rows[k]) != PairOf(rows[i + 1]);
      }
    }
    FindPairSpec(r, NewPair(data));
  }

  /** The update's checks never look at the new pair: renaming to any pair at all is accepted or refused alike. */
  lemma UpdateIgnoresNewPair(rows: seq<Row>, data: SponsorInput, male: Option<string>, female: Option<string>)
    ensures UpdateError(rows, data.(male := male, female := female)) == UpdateError(rows, data)
  {
  }

  /** So an update that renames a couple to the pair of another row goes through and leaves two rows with that pair. */
  lemma UpdateMayDuplicate(rows: seq<Row>, data: SponsorInput, i: nat)
    requires UpdateError(rows, data).None?
    requires i < |rows| && i != FindPair(rows, OriginalPair(data)).value && PairOf(rows[i]) == NewPair(data)
    ensures !PairsUnique(rows[FindPair(rows, OriginalPair(data)).value := SponsorRow(NewPair(data))])
  {
    var k := FindPair(rows, OriginalPair(data)).value;
    var r := rows[k := SponsorRow(NewPair(data))];
    SponsorRowPair(data);
    assert PairOf(r[k]) == PairOf(r[i]);
    if i < k {
      assert !(PairOf(r[i]) != PairOf(r[k]));
    } else {
      assert !(PairOf(r[k]) != PairOf(r[i]));
    }
  }

  /** A created couple with at least one non-blank name is listed last. */
  lemma ReadAfterCreate(rows: seq<Row>, data: SponsorInput)
    ensures AllSponsors(rows + [SponsorRow(NewPair(data))]) == AllSponsors(rows)
      + (if NewPair(data).male != "" || NewPair(data).female != ""
         then [Sponsor(Str(NewPair(data).male), Str(NewPair(data).female))] else [])
  {
    AllSponsorsSnoc(rows, SponsorRow(NewPair(data)));
  }

  // ---------------------------------------------------------------------
  // The sheet
  // ---------------------------------------------------------------------

  class SponsorTable {
    /** Rows 2 and below. */
    var rows: seq<Row>

    ghost predicate Valid()
      reads this
    {
      WellFormed(rows)
    }

    constructor (rows: seq<Row>)
      requires WellFormed(rows)
      ensures Valid() && this.rows == rows
    {
      this.rows := rows;
    }

    /** The scan for `rowIndex`: the first row whose trimmed pair is `p`. */
    method FindSponsor(p: Pair) returns (k: Option<nat>)
      ensures k == FindPair(rows, p)
    {
      var i := 0;
      while i < |rows|
        invariant 0 <= i <= |rows|
        invariant FindPair(rows, p) == Seqs.FindFrom(rows, Holds(p), i)
      {
        if PairOf(rows[i]) == p {
          return Some(i);
        }
        i := i + 1;
      }
      return None;
    }

    /** `createPrincipalSponsor(sheet, data)`: one row appended, unless both names are missing or the pair is taken. */
    method Create(data: SponsorInput) returns (r: Result<Pair, string>)
      requires Valid()
      modifies this
      ensures Valid()
      ensures r.Err? <==> CreateError(old(rows), data).Some?
      ensures r.Err? ==> r.error == CreateError(old(rows), data).value && rows == old(rows)
      ensures r.Ok? ==> r.value == NewPair(data) && rows == old(rows) + [SponsorRow(NewPair(data))]
    {
      if Missing(data.male) && Missing(data.female) {
        return Err(NameRequired);
      }
      var p := NewPair(data);
      var k := FindSponsor(p);
      if k.Some? {
        return Err(PairExists);
      }
      rows := rows + [SponsorRow(p)];
      r := Ok(p);
    }

    /** `updatePrincipalSponsor(sheet, data)`: both cells of the row found by the original pair overwritten. */
    method Update(data: SponsorInput) returns (r: Result<Pair, string>)
      requires Valid()
      modifies this
      ensures Valid()
      ensures r.Err? <==> UpdateError(old(rows), data).Some?
      ensures r.Err? ==> r.error == UpdateError(old(rows), data).value && rows == old(rows)
      ensures r.Ok? ==> (r.value == NewPair(data) &&
        rows == old(rows)[FindPair(old(rows), OriginalPair(data)).value := SponsorRow(NewPair(data))])
    {
      if Missing(data.originalMale) && Missing(data.originalFemale) {
        return Err(OriginalRequired);
      }
      if rows == [] {
        return Err(NoSponsors);
      }
      var k := FindSponsor(OriginalPair(data));
      if k.None? {
        return Err(NotFound(OriginalPair(data)));
      }
      rows := rows[k.value := SponsorRow(NewPair(data))];
      r := Ok(NewPair(data));
    }

    /** `deletePrincipalSponsor(sheet, data)`: the first row holding the pair removed. */
    method Delete(data: SponsorInput) returns (r: Result<(), string>)
      requires Valid()
      modifies this
      ensures Valid()
      ensures r.Err? <==> DeleteError(old(rows), data).Some?
      ensures r.Err? ==> r.error == DeleteError(old(rows), data).value && rows == old(rows)
      ensures r.Ok? ==> rows == Seqs.Without(old(rows), FindPair(old(rows), NewPair(data)).value)
    {
      if Missing(data.male) && Missing(data.female) {
        return Err(DeletionInfoRequired);
      }
      if rows == [] {
        return Err(NoSponsors);
      }
      var k := FindSponsor(NewPair(data));
      if k.None? {
        return Err(NotFound(NewPair(data)));
      }
      rows := Seqs.Without(rows, k.value);
      r := Ok(());
    }
  }
}
