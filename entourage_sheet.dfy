/**
 * The Entourage sheet (google-apps-script/entourage-management.js): one row per member
 * holding Name, RoleCategory, RoleTitle and Email, found by the trimmed text of its Name
 * cell. The class's `rows` are the data rows below the header. Creating and renaming
 * refuse a name another row already holds, so names that start out unique stay unique.
 */
module EntourageSheet {
  import opened Wrappers
  import opened Text
  import opened Cells
  import Seqs

  const Columns := 4

  const NameCol := 0
  const RoleCategoryCol := 1
  const RoleTitleCol := 2
  const EmailCol := 3

  predicate WellFormed(rows: seq<Row>) {
    forall i :: 0 <= i < |rows| ==> |rows[i]| == Columns
  }

  // ---------------------------------------------------------------------
  // Reading: getAllEntourageMembers
  // ---------------------------------------------------------------------

  /** A member object as the web app returns it; each field keeps its cell's own value. */
  datatype Member = Member(name: Cell, roleCategory: Cell, roleTitle: Cell, email: Cell)

  /** `row => row[0]`: a row is listed when its Name cell is truthy. */
  predicate Named(row: Row) {
    Truthy(At(row, NameCol))
  }

  function RowToMember(row: Row): Member {
    Member(OrEmpty(At(row, NameCol)), OrEmpty(At(row, RoleCategoryCol)),
           OrEmpty(At(row, RoleTitleCol)), OrEmpty(At(row, EmailCol)))
  }

  /** `getAllEntourageMembers(sheet)`: the named rows, in sheet order, as member objects. */
  function AllMembers(rows: seq<Row>): seq<Member> {
    Seqs.Map(Seqs.Filter(rows, Named), RowToMember)
  }

  /** One member per named row, each with a name, and an empty sheet lists nobody. */
  lemma AllMembersSpec(rows: seq<Row>)
    ensures |AllMembers(rows)| == Seqs.Count(rows, Named)
    ensures forall i :: 0 <= i < |AllMembers(rows)| ==> Truthy(AllMembers(rows)[i].name)
    ensures AllMembers([]) == []
  {
    var named := Seqs.Filter(rows, Named);
    forall i | 0 <= i < |AllMembers(rows)|
      ensures Truthy(AllMembers(rows)[i].name)
    {
      assert Named(named[i]);
    }
  }

  /** A row added at the end shows up at the end of the list exactly when it is named. */
  lemma AllMembersSnoc(rows: seq<Row>, row: Row)
    ensures AllMembers(rows + [row]) == AllMembers(rows) + (if Named(row) then [RowToMember(row)] else [])
  {
    Seqs.FilterSnoc(rows, row, Named);
  }

  // ---------------------------------------------------------------------
  // Names
  // ---------------------------------------------------------------------

  /** `row[0].toString().trim()`: the name the scripts compare against. */
  function Key(row: Row): string {
    Trim(CellText(At(row, NameCol)))
  }

  /** The row test of the scans: the row's trimmed name is `name`. */
  function Holds(name: string): Row -> bool {
    (row: Row) => Key(row) == name
  }

  /** The first row holding `name`, as the scan for `rowIndex` finds it. */
  function FindName(rows: seq<Row>, name: string): (k: Option<nat>)
    ensures k.Some? ==> k.value < |rows|
  {
    Seqs.FindFrom(rows, Holds(name), 0)
  }

  /** `FindName` answers with the first row holding `name`, and with `None` when no row holds it. */
  lemma FindNameSpec(rows: seq<Row>, name: string)
    ensures FindName(rows, name).Some? ==> Key(rows[FindName(rows, name).value]) == name
    ensures FindName(rows, name).Some? ==> forall j :: 0 <= j < FindName(rows, name).value ==> Key(rows[j]) != name
    ensures FindName(rows, name).None? ==> forall j :: 0 <= j < |rows| ==> Key(rows[j]) != name
  {
    Seqs.FindFromSpec(rows, Holds(name), 0);
  }

  /** No two rows hold the same trimmed name. */
  predicate NamesUnique(rows: seq<Row>) {
    forall i, j :: 0 <= i < j < |rows| ==> Key(rows[i]) != Key(rows[j])
  }

  /** With unique names, looking up the name a row holds finds that row. */
  lemma FindNameUnique(rows: seq<Row>, k: nat)
    requires NamesUnique(rows) && k < |rows|
    ensures FindName(rows, Key(rows[k])) == Some(k)
  {
    forall j | 0 <= j < k
      ensures !Holds(Key(rows[k]))(rows[j])
    {
      assert Key(rows[j]) != Key(rows[k]);
    }
    Seqs.FindFromFirst(rows, Holds(Key(rows[k])), 0, k);
  }

  /** Some row other than row `k` holds `name`. */
  predicate TakenElsewhere(rows: seq<Row>, name: string, k: nat) {
    Seqs.AnyExceptFrom(rows, Holds(name), k, 0)
  }

  lemma TakenElsewhereSpec(rows: seq<Row>, name: string, k: nat)
    ensures TakenElsewhere(rows, name, k) <==> exists i :: 0 <= i < |rows| && i != k && Key(rows[i]) == name
  {
    Seqs.AnyExceptFromSpec(rows, Holds(name), k, 0);
  }

  // ---------------------------------------------------------------------
  // Requests
  // ---------------------------------------------------------------------

  /** The fields of a request body; `None` is a field the request leaves out. */
  datatype MemberInput = MemberInput(
    originalName: Option<string>,
    name: Option<string>,
    roleCategory: Option<string>,
    roleTitle: Option<string>,
    email: Option<string>)

  /** The four cells `createEntourageMember` and `updateEntourageMember` write. */
  function MemberRow(data: MemberInput): (r: Row)
    ensures |r| == Columns
  {
    [Str(Field(data.name)), Str(Field(data.roleCategory)), Str(Field(data.roleTitle)), Str(Field(data.email))]
  }

  /** A written row is found under the request's trimmed name. */
  lemma MemberRowKey(data: MemberInput)
    ensures Key(MemberRow(data)) == Field(data.name)
  {
    TrimIdempotent(Given(data.name));
  }

  const NameRequired := "Name is required"
  const NameExists := "Entourage member with this name already exists"
  const OriginalNameRequired := "Original name is required for update"
  const NoMembers := "No entourage members found"
  const NameTaken := "Another entourage member with this name already exists"
  const NameRequiredForDeletion := "Name is required for deletion"

  function NotFound(name: string): string {
    "Entourage member not found: " + name
  }

  /** The error `createEntourageMember` throws, if any. */
  function CreateError(rows: seq<Row>, data: MemberInput): (e: Option<string>)
    ensures e.None? <==> !Missing(data.name) && FindName(rows, Field(data.name)).None?
  {
    if Missing(data.name) then Some(NameRequired)
    else if FindName(rows, Field(data.name)).Some? then Some(NameExists)
    else None
  }

  /** The error `updateEntourageMember` throws, if any, in the order the checks run. */
  function UpdateError(rows: seq<Row>, data: MemberInput): (e: Option<string>)
    ensures e.None? ==> (!Missing(data.originalName) && !Missing(data.name)
      && FindName(rows, Field(data.originalName)).Some?)
  {
    if Missing(data.originalName) then Some(OriginalNameRequired)
    else if Missing(data.name) then Some(NameRequired)
    else if rows == [] then Some(NoMembers)
    else match FindName(rows, Field(data.originalName))
      case None => Some(NotFound(Field(data.originalName)))
      case Some(k) =>
        if Field(data.originalName) != Field(data.name) && TakenElsewhere(rows, Field(data.name), k) then Some(NameTaken)
        else None
  }

  /** The error `deleteEntourageMember` throws, if any. */
  function DeleteError(rows: seq<Row>, data: MemberInput): (e: Option<string>)
    ensures e.None? <==> !Missing(data.name) && FindName(rows, Field(data.name)).Some?
  {
    if Missing(data.name) then Some(NameRequiredForDeletion)
    else if rows == [] then Some(NoMembers)
    else if FindName(rows, Field(data.name)).None? then Some(NotFound(Field(data.name)))
    else None
  }

  // ---------------------------------------------------------------------
  // Names stay unique
  // ---------------------------------------------------------------------

  /** A create that goes through keeps the names unique. */
  lemma CreateKeepsNamesUnique(rows: seq<Row>, data: MemberInput)
    requires NamesUnique(rows) && CreateError(rows, data).None?
    ensures NamesUnique(rows + [MemberRow(data)])
  {
    FindNameSpec(rows, Field(data.name));
    MemberRowKey(data);
    var r := rows + [MemberRow(data)];
    forall i, j | 0 <= i < j < |r|
      ensures Key(r[i]) != Key(r[j])
    {
      if j < |rows| {
        assert r[i] == rows[i] && r[j] == rows[j];
      } else {
        assert r[i] == rows[i];
      }
    }
  }

  /** An update that goes through keeps the names unique. */
  lemma UpdateKeepsNamesUnique(rows: seq<Row>, data: MemberInput)
    requires NamesUnique(rows) && UpdateError(rows, data).None?
    ensures NamesUnique(rows[FindName(rows, Field(data.originalName)).value := MemberRow(data)])
  {
    var k := FindName(rows, Field(data.originalName)).value;
    FindNameSpec(rows, Field(data.originalName));
    TakenElsewhereSpec(rows, Field(data.name), k);
    MemberRowKey(data);
    var r := rows[k := MemberRow(data)];
    forall i | 0 <= i < |rows| && i != k
      ensures Key(rows[i]) != Field(data.name)
    {
      if Field(data.originalName) == Field(data.name) {
        if i < k {
          assert Key(rows[i]) != Key(rows[k]);
        } else {
          assert Key(rows[k]) != Key(rows[i]);
        }
      }
    }
    forall i, j | 0 <= i < j < |r|
      ensures Key(r[i]) != Key(r[j])
    {
      if i != k && j != k {
        assert r[i] == rows[i] && r[j] == rows[j];
      }
    }
  }

  /** A delete that goes through keeps the names unique. */
  lemma DeleteKeepsNamesUnique(rows: seq<Row>, k: nat)
    requires NamesUnique(rows) && k < |rows|
    ensures NamesUnique(Seqs.Without(rows, k))
  {
    var r := Seqs.Without(rows, k);
    forall i, j | 0 <= i < j < |r|
      ensures Key(r[i]) != Key(r[j])
    {
      var i', j' := if i < k then i else i + 1, if j < k then j else j + 1;
      assert r[i] == rows[i'] && r[j] == rows[j'];
    }
  }

  /** With unique names, a delete removes the name entirely: deleting it again is refused. */
  lemma DeleteRemovesName(rows: seq<Row>, data: MemberInput)
    requires NamesUnique(rows) && DeleteError(rows, data).None?
    ensures DeleteError(Seqs.Without(rows, FindName(rows, Field(data.name)).value), data).Some?
  {
    var k := FindName(rows, Field(data.name)).value;
    FindNameSpec(rows, Field(data.name));
    var r := Seqs.Without(rows, k);
    forall i | 0 <= i < |r|
      ensures Key(r[i]) != Field(data.name)
    {
      if i < k {
        assert r[i] == rows[i];
      } else {
        assert r[i] == rows[i + 1];
        assert Key(rows[k]) != Key(rows[i + 1]);
      }
    }
    FindNameSpec(r, Field(data.name));
  }

  /** A created member is listed last, unless its trimmed name is empty, which hides it. */
  lemma ReadAfterCreate(rows: seq<Row>, data: MemberInput)
    ensures AllMembers(rows + [MemberRow(data)])
      == AllMembers(rows) + (if Field(data.name) != "" then [RowToMember(MemberRow(data))] else [])
  {
    AllMembersSnoc(rows, MemberRow(data));
  }

  // ---------------------------------------------------------------------
  // The sheet
  // ---------------------------------------------------------------------

  class EntourageTable {
    /** Rows 2 and below. */
    var rows: seq<Row>

    ghost predicate Valid()
      reads this
    {
      WellFormed(rows)
    }

    constructor (rows: seq<Row>)
      requires WellFormed(rows)
      ensures Valid() && this.rows == rows
    {
      this.rows := rows;
    }

    /** The scan for `rowIndex`: the first row whose trimmed name is `name`. */
    method FindMember(name: string) returns (k: Option<nat>)
      ensures k == FindName(rows, name)
    {
      var i := 0;
      while i < |rows|
        invariant 0 <= i <= |rows|
        invariant FindName(rows, name) == Seqs.FindFrom(rows, Holds(name), i)
      {
        if Key(rows[i]) == name {
          return Some(i);
        }
        i := i + 1;
      }
      return None;
    }

    /** The rename check's scan: some row other than row `k` holds `name`. */
    method NameTakenElsewhere(name: string, k: nat) returns (taken: bool)
      ensures taken <==> TakenElsewhere(rows, name, k)
    {
      for i := 0 to |rows|
        invariant TakenElsewhere(rows, name, k) == Seqs.AnyExceptFrom(rows, Holds(name), k, i)
      {
        if i != k && Key(rows[i]) == name {
          return true;
        }
      }
      return false;
    }

    /** `createEntourageMember(sheet, data)`: one row appended, unless the name is missing or taken. */
    method Create(data: MemberInput) returns (r: Result<Member, string>)
      requires Valid()
      modifies this
      ensures Valid()
      ensures r.Err? <==> CreateError(old(rows), data).Some?
      ensures r.Err? ==> r.error == CreateError(old(rows), data).value && rows == old(rows)
      ensures r.Ok? ==> r.value == RowToMember(MemberRow(data)) && rows == old(rows) + [MemberRow(data)]
    {
      if Missing(data.name) {
        return Err(NameRequired);
      }
      var k := FindMember(Field(data.name));
      if k.Some? {
        return Err(NameExists);
      }
      rows := rows + [MemberRow(data)];
      r := Ok(RowToMember(MemberRow(data)));
    }

    /** `updateEntourageMember(sheet, data)`: the four cells of the row found by `originalName` overwritten. */
    method Update(data: MemberInput) returns (r: Result<Member, string>)
      requires Valid()
      modifies this
      ensures Valid()
      ensures r.Err? <==> UpdateError(old(rows), data).Some?
      ensures r.Err? ==> r.error == UpdateError(old(rows), data).value && rows == old(rows)
      ensures r.Ok? ==> (r.value == RowToMember(MemberRow(data)) &&
        rows == old(rows)[FindName(old(rows), Field(data.originalName)).value := MemberRow(data)])
    {
      if Missing(data.originalName) {
        return Err(OriginalNameRequired);
      }
      if Missing(data.name) {
        return Err(NameRequired);
      }
      if rows == [] {
        return Err(NoMembers);
      }
      var k := FindMember(Field(data.originalName));
      if k.None? {
        return Err(NotFound(Field(data.originalName)));
      }
      if Field(data.originalName) != Field(data.name) {
        var taken := NameTakenElsewhere(Field(data.name), k.value);
        if taken {
          return Err(NameTaken);
        }
      }
      rows := rows[k.value := MemberRow(data)];
      r := Ok(RowToMember(MemberRow(data)));
    }

    /** `deleteEntourageMember(sheet, data)`: the first row holding the name removed. */
    method Delete(data: MemberInput) returns (r: Result<string, string>)
      requires Valid()
      modifies this
      ensures Valid()
      ensures r.Err? <==> DeleteError(old(rows), data).Some?
      ensures r.Err? ==> r.error == DeleteError(old(rows), data).value && rows == old(rows)
      ensures r.Ok? ==> rows == Seqs.Without(old(rows), FindName(old(rows), Field(data.name)).value)
    {
      if Missing(data.name) {
        return Err(NameRequiredForDeletion);
      }
      if rows == [] {
        return Err(NoMembers);
      }
      var k := FindMember(Field(data.name));
      if k.None? {
        return Err(NotFound(Field(data.name)));
      }
      rows := Seqs.Without(rows, k.value);
      r := Ok(Field(data.name));
    }
  }
}
