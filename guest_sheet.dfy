/**
 * The Guests sheet behind the web app (google-apps-script/guest-management.js): a
 * header row and one 14-cell row per guest, read by `doGet` and changed by
 * `createGuest`, `updateGuest`, `deleteGuest` and `bulkImportGuests`. The sheet is a
 * class whose `rows` are the data rows below the header; the UUID and the ISO
 * timestamp each request would draw are parameters.
 */
module GuestSheet {
  import opened Wrappers
  import opened Text
  import opened Cells
  import opened GuestModel
  import opened CompanionJson
  import Csv
  import Seqs

  // ---------------------------------------------------------------------
  // Layout
  // ---------------------------------------------------------------------

  const Columns := 14

  const IdCol := 0
  const NameCol := 1
  const RoleCol := 2
  const EmailCol := 3
  const ContactCol := 4
  const MessageCol := 5
  const AllowedGuestsCol := 6
  const CompanionsCol := 7
  const TableNumberCol := 8
  const IsVipCol := 9
  const StatusCol := 10
  const AddedByCol := 11
  const CreatedAtCol := 12
  const UpdatedAtCol := 13

  /** Row 1 as `initializeGuestSheet()` writes it. */
  const Headers: Row := [Str("ID"), Str("Name"), Str("Role"), Str("Email"), Str("Contact"), Str("Message"),
    Str("AllowedGuests"), Str("Companions"), Str("TableNumber"), Str("IsVip"), Str("Status"), Str("AddedBy"),
    Str("CreatedAt"), Str("UpdatedAt")]

  predicate WellFormed(rows: seq<Row>) {
    forall i :: 0 <= i < |rows| ==> |rows[i]| == Columns
  }

  // ---------------------------------------------------------------------
  // Reading: doGet
  // ---------------------------------------------------------------------

  /** A row counts as a guest when its ID cell is truthy. */
  predicate HasId(row: Row) {
    Truthy(At(row, IdCol))
  }

  /** `row[7] ? JSON.parse(row[7]) : []`, with a parse error caught as `[]`. */
  function ReadCompanions(c: Cell): seq<Companion> {
    if Truthy(c) then DecodeCompanions(CellText(c)).GetOr([]) else []
  }

  /** The guest object `doGet` builds from one row. */
  function RowToGuest(row: Row): (g: Guest)
    ensures g.allowedGuests != 0
    ensures g.status != ""
    ensures g.isVip <==> At(row, IsVipCol) == Bool(true) || At(row, IsVipCol) == Str("TRUE")
    ensures !Truthy(At(row, StatusCol)) ==> g.status == "pending"
    ensures !Truthy(At(row, AllowedGuestsCol)) ==> g.allowedGuests == 1
  {
    var status := if Truthy(At(row, StatusCol)) then CellText(At(row, StatusCol)) else "pending";
    Guest(CellText(At(row, IdCol)), CellText(At(row, NameCol)), CellText(At(row, RoleCol)),
          TextOrEmpty(At(row, EmailCol)), TextOrEmpty(At(row, ContactCol)), TextOrEmpty(At(row, MessageCol)),
          CellCount(At(row, AllowedGuestsCol)), ReadCompanions(At(row, CompanionsCol)),
          TextOrEmpty(At(row, TableNumberCol)), IsChecked(At(row, IsVipCol)), status,
          TextOrEmpty(At(row, AddedByCol)), TextOrEmpty(At(row, CreatedAtCol)), TextOrEmpty(At(row, UpdatedAtCol)))
  }

  /** `doGet`: the rows with an ID, in sheet order, as guest objects. */
  function ReadGuests(rows: seq<Row>): seq<Guest> {
    Seqs.Map(Seqs.Filter(rows, HasId), RowToGuest)
  }

  /**
   * Rows without an ID are skipped and every other row gives one guest, in sheet
   * order.
   */
  lemma {:induction false} ReadGuestsSpec(rows: seq<Row>)
    ensures |ReadGuests(rows)| == Seqs.Count(rows, HasId)
    ensures forall i :: 0 <= i < |rows| && !HasId(rows[i]) ==> ReadGuests(rows + [rows[i]]) == ReadGuests(rows)
    ensures ReadGuests([]) == []
  {
    forall i | 0 <= i < |rows| && !HasId(rows[i])
      ensures ReadGuests(rows + [rows[i]]) == ReadGuests(rows)
    {
      Seqs.FilterSnoc(rows, rows[i], HasId);
    }
  }

  /** Appending a row with an ID adds exactly its guest at the end of what `doGet` returns. */
  lemma ReadGuestsSnoc(rows: seq<Row>, row: Row)
    ensures ReadGuests(rows + [row]) == ReadGuests(rows) + (if HasId(row) then [RowToGuest(row)] else [])
  {
    Seqs.FilterSnoc(rows, row, HasId);
  }

  // ---------------------------------------------------------------------
  // createGuest
  // ---------------------------------------------------------------------

  /**
   * The fields of a create or update request. `None` is a field the request leaves
   * out; `allowedGuests` is the text of whatever value was sent, and `isVip` the JSON
   * value sent.
   */
  datatype GuestInput = GuestInput(
    id: Option<string>,
    name: Option<string>,
    role: Option<string>,
    email: Option<string>,
    contact: Option<string>,
    message: Option<string>,
    allowedGuests: Option<string>,
    companions: Option<seq<Companion>>,
    tableNumber: Option<string>,
    isVip: Option<Cell>,
    status: Option<string>,
    addedBy: Option<string>)

  /** `parseInt(x) || 1` of a request value. */
  function AllowedOf(o: Option<string>): (n: int)
    ensures n != 0
  {
    CountOf(Given(o))
  }

  function StatusOrPending(o: Option<string>): (s: string)
    ensures s != ""
  {
    if Missing(o) then "pending" else o.value
  }

  const RequiredFieldsError := "Name and role are required fields"

  /** `createGuest`'s required-field check fails: the request has no name or no role. */
  predicate Refused(data: GuestInput) {
    Missing(data.name) || Missing(data.role)
  }

  /** The row `createGuest` appends. */
  function NewGuestRow(data: GuestInput, id: string, timestamp: string): (r: Result<Row, string>)
    ensures r.Err? <==> Refused(data)
    ensures r.Err? ==> r.error == RequiredFieldsError
    ensures r.Ok? ==> (|r.value| == Columns && r.value[IdCol] == Str(id)
      && r.value[CreatedAtCol] == r.value[UpdatedAtCol] == Str(timestamp))
  {
    if Refused(data) then Err(RequiredFieldsError) else Ok(GuestCells(data, id, timestamp))
  }

  /** The row `createGuest` appends, column by column. */
  function GuestCells(data: GuestInput, id: string, timestamp: string): (r: Row)
    requires !Refused(data)
    ensures |r| == Columns
  {
    seq(Columns, c requires 0 <= c < Columns => GuestCell(data, id, timestamp, c))
  }

  /** The cell `createGuest` writes in column `c`. */
  function GuestCell(data: GuestInput, id: string, timestamp: string, c: nat): Cell
    requires !Refused(data)
  {
    match c
    case 0 => Str(id)
    case 1 => Str(Trim(data.name.value))
    case 2 => Str(Trim(data.role.value))
    case 3 => Str(Trim(Given(data.email)))
    case 4 => Str(Trim(Given(data.contact)))
    case 5 => Str(Trim(Given(data.message)))
    case 6 => Num(AllowedOf(data.allowedGuests))
    case 7 => Str(EncodeCompanions(data.companions.GetOr([])))
    case 8 => Str(Trim(Given(data.tableNumber)))
    case 9 => Bool(data.isVip == Some(Bool(true)))
    case 10 => Str(StatusOrPending(data.status))
    case 11 => Str(Trim(Given(data.addedBy)))
    case _ => Str(timestamp)
  }

  /** The cells of the appended row that a later repair pass inspects. */
  lemma NewGuestRowCells(data: GuestInput, id: string, timestamp: string)
    requires !Missing(data.name) && !Missing(data.role)
    ensures NewGuestRow(data, id, timestamp).Ok?
    ensures var r := NewGuestRow(data, id, timestamp).value;
      && r[RoleCol] == Str(Trim(data.role.value))
      && r[AllowedGuestsCol] == Num(AllowedOf(data.allowedGuests))
      && r[CompanionsCol] == Str(EncodeCompanions(data.companions.GetOr([])))
      && r[StatusCol] == Str(StatusOrPending(data.status))
  {
  }

  /** The guest object `createGuest` answers with: the text fields as sent, untrimmed. */
  function CreatedGuest(data: GuestInput, id: string, timestamp: string): Guest {
    Guest(id, Given(data.name), Given(data.role), Given(data.email), Given(data.contact), Given(data.message),
          AllowedOf(data.allowedGuests), data.companions.GetOr([]), Given(data.tableNumber),
          data.isVip == Some(Bool(true)), StatusOrPending(data.status), Given(data.addedBy), timestamp, timestamp)
  }

  /** A guest with its free-text fields trimmed, as `createGuest` stores them. */
  function TrimmedGuest(g: Guest): Guest {
    g.(name := Trim(g.name), role := Trim(g.role), email := Trim(g.email), contact := Trim(g.contact),
       message := Trim(g.message), tableNumber := Trim(g.tableNumber), addedBy := Trim(g.addedBy))
  }

  /** `doGet`'s reading of a full row, column by column. */
  lemma RowToGuestOfRow(row: Row)
    requires |row| == Columns
    ensures RowToGuest(row) == Guest(
      CellText(row[IdCol]), CellText(row[NameCol]), CellText(row[RoleCol]),
      TextOrEmpty(row[EmailCol]), TextOrEmpty(row[ContactCol]), TextOrEmpty(row[MessageCol]),
      CellCount(row[AllowedGuestsCol]), ReadCompanions(row[CompanionsCol]),
      TextOrEmpty(row[TableNumberCol]), IsChecked(row[IsVipCol]),
      if Truthy(row[StatusCol]) then CellText(row[StatusCol]) else "pending",
      TextOrEmpty(row[AddedByCol]), TextOrEmpty(row[CreatedAtCol]), TextOrEmpty(row[UpdatedAtCol]))
  {
  }

  /**
   * What `doGet` reads back from a created row: the guest `createGuest` answered with,
   * its companions recovered from their JSON text and its free-text fields trimmed.
   */
  lemma ReadCreatedRow(data: GuestInput, id: string, timestamp: string)
    requires NewGuestRow(data, id, timestamp).Ok? && id != ""
    ensures HasId(NewGuestRow(data, id, timestamp).value)
    ensures RowToGuest(NewGuestRow(data, id, timestamp).value) == TrimmedGuest(CreatedGuest(data, id, timestamp))
  {
    var companions := data.companions.GetOr([]);
    DecodeEncodedCompanions(companions);
    var row := NewGuestRow(data, id, timestamp).value;
    RowToGuestOfRow(row);
    var g, want := RowToGuest(row), TrimmedGuest(CreatedGuest(data, id, timestamp));
    assert row[IdCol] == Str(id) && g.id == want.id;
    assert row[NameCol] == Str(Trim(data.name.value)) && g.name == want.name;
    assert row[RoleCol] == Str(Trim(data.role.value)) && g.role == want.role;
    assert row[EmailCol] == Str(Trim(Given(data.email))) && g.email == want.email;
    assert row[ContactCol] == Str(Trim(Given(data.contact))) && g.contact == want.contact;
    assert row[MessageCol] == Str(Trim(Given(data.message))) && g.message == want.message;
    assert row[AllowedGuestsCol] == Num(AllowedOf(data.allowedGuests)) && g.allowedGuests == want.allowedGuests;
    assert row[CompanionsCol] == Str(EncodeCompanions(companions)) && g.companions == want.companions;
    assert row[TableNumberCol] == Str(Trim(Given(data.tableNumber))) && g.tableNumber == want.tableNumber;
    assert row[IsVipCol] == Bool(data.isVip == Some(Bool(true))) && g.isVip == want.isVip;
    assert row[StatusCol] == Str(StatusOrPending(data.status)) && g.status == want.status;
    assert row[AddedByCol] == Str(Trim(Given(data.addedBy))) && g.addedBy == want.addedBy;
    assert g.createdAt == want.createdAt && g.updatedAt == want.updatedAt;
  }

  /** A guest created through `createGuest` is found by `doGet` at the end of the list. */
  lemma ReadAfterCreate(rows: seq<Row>, data: GuestInput, id: string, timestamp: string)
    requires NewGuestRow(data, id, timestamp).Ok? && id != ""
    ensures ReadGuests(rows + [NewGuestRow(data, id, timestamp).value])
      == ReadGuests(rows) + [TrimmedGuest(CreatedGuest(data, id, timestamp))]
  {
    ReadCreatedRow(data, id, timestamp);
    ReadGuestsSnoc(rows, NewGuestRow(data, id, timestamp).value);
  }

  // ---------------------------------------------------------------------
  // updateGuest
  // ---------------------------------------------------------------------

  /** `if (data.x !== undefined) sheet.getRange(rowIndex, col + 1).setValue(v)` */
  function Write(row: Row, col: nat, v: Option<Cell>): (r: Row)
    requires col < |row|
    ensures |r| == |row|
    ensures forall j :: 0 <= j < |row| ==> r[j] == if j == col then v.GetOr(row[j]) else row[j]
  {
    match v
    case None => row
    case Some(c) => row[col := c]
  }

  function TrimmedCell(o: Option<string>): Option<Cell> {
    match o
    case None => None
    case Some(s) => Some(Str(Trim(s)))
  }

  /** The writes of `updateGuest` to the matched row, in the order the script makes them. */
  function PatchRow(row: Row, data: GuestInput, timestamp: string): (r: Row)
    requires |row| == Columns
    ensures |r| == Columns
  {
    var r := Write(row, NameCol, TrimmedCell(data.name));
    var r := Write(r, RoleCol, TrimmedCell(data.role));
    var r := Write(r, EmailCol, TrimmedCell(data.email));
    var r := Write(r, ContactCol, TrimmedCell(data.contact));
    var r := Write(r, MessageCol, TrimmedCell(data.message));
    var r := Write(r, AllowedGuestsCol, ParsedAllowed(data.allowedGuests));
    var r := Write(r, CompanionsCol, CompanionsCell(data.companions));
    var r := Write(r, TableNumberCol, TrimmedCell(data.tableNumber));
    var r := Write(r, IsVipCol, VipCell(data.isVip));
    var r := Write(r, StatusCol, StatusCell(data.status));
    var r := Write(r, AddedByCol, TrimmedCell(data.addedBy));
    r[UpdatedAtCol := Str(timestamp)]
  }

  function ParsedAllowed(o: Option<string>): Option<Cell> {
    if o.Some? then Some(Num(AllowedOf(o))) else None
  }

  function CompanionsCell(o: Option<seq<Companion>>): Option<Cell> {
    if o.Some? then Some(Str(EncodeCompanions(o.value))) else None
  }

  function VipCell(o: Option<Cell>): Option<Cell> {
    if o.Some? then Some(Bool(o == Some(Bool(true)))) else None
  }

  function StatusCell(o: Option<string>): Option<Cell> {
    if o.Some? then Some(Str(o.value)) else None
  }

  /**
   * The patch keeps the ID and CreatedAt cells, always refreshes UpdatedAt, and writes
   * each field the request carries: text trimmed (the status as sent), the allowance as
   * `parseInt || 1`, the companions as JSON and the VIP flag as `=== true`. A field the
   * request leaves out keeps its cell.
   */
  lemma PatchRowSpec(row: Row, data: GuestInput, timestamp: string)
    requires |row| == Columns
    ensures var r := PatchRow(row, data, timestamp);
      && r[IdCol] == row[IdCol]
      && r[NameCol] == TrimmedCell(data.name).GetOr(row[NameCol])
      && r[RoleCol] == TrimmedCell(data.role).GetOr(row[RoleCol])
      && r[EmailCol] == TrimmedCell(data.email).GetOr(row[EmailCol])
      && r[ContactCol] == TrimmedCell(data.contact).GetOr(row[ContactCol])
      && r[MessageCol] == TrimmedCell(data.message).GetOr(row[MessageCol])
      && r[AllowedGuestsCol] == ParsedAllowed(data.allowedGuests).GetOr(row[AllowedGuestsCol])
      && r[CompanionsCol] == CompanionsCell(data.companions).GetOr(row[CompanionsCol])
      && r[TableNumberCol] == TrimmedCell(data.tableNumber).GetOr(row[TableNumberCol])
      && r[IsVipCol] == VipCell(data.isVip).GetOr(row[IsVipCol])
      && r[StatusCol] == StatusCell(data.status).GetOr(row[StatusCol])
      && r[AddedByCol] == TrimmedCell(data.addedBy).GetOr(row[AddedByCol])
      && r[CreatedAtCol] == row[CreatedAtCol]
      && r[UpdatedAtCol] == Str(timestamp)
  {
  }

  /** A request that carries no field still refreshes UpdatedAt and changes nothing else. */
  lemma EmptyPatch(row: Row, data: GuestInput, timestamp: string)
    requires |row| == Columns
    requires data.name.None? && data.role.None? && data.email.None? && data.contact.None?
    requires data.message.None? && data.allowedGuests.None? && data.companions.None?
    requires data.tableNumber.None? && data.isVip.None? && data.status.None? && data.addedBy.None?
    ensures PatchRow(row, data, timestamp) == row[UpdatedAtCol := Str(timestamp)]
  {
  }

  /** Sending the same update twice leaves the row as one send with the later timestamp does. */
  lemma PatchRowTwice(row: Row, data: GuestInput, t1: string, t2: string)
    requires |row| == Columns
    ensures PatchRow(PatchRow(row, data, t1), data, t2) == PatchRow(row, data, t2)
  {
    var once := PatchRow(row, data, t1);
    PatchRowSpec(row, data, t1);
    PatchRowSpec(once, data, t2);
    PatchRowSpec(row, data, t2);
    forall i | 0 <= i < Columns
      ensures PatchRow(once, data, t2)[i] == PatchRow(row, data, t2)[i]
    {
      assert i == 0 || i == 1 || i == 2 || i == 3 || i == 4 || i == 5 || i == 6
        || i == 7 || i == 8 || i == 9 || i == 10 || i == 11 || i == 12 || i == 13;
    }
  }

  /** The first data row whose ID, as a string, equals `id`. */
  function FindRow(rows: seq<Row>, id: string): (k: Option<nat>)
    ensures k.Some? ==> k.value < |rows| && CellText(At(rows[k.value], IdCol)) == id
    ensures k.Some? ==> forall j :: 0 <= j < k.value ==> CellText(At(rows[j], IdCol)) != id
    ensures k.None? ==> forall j :: 0 <= j < |rows| ==> CellText(At(rows[j], IdCol)) != id
  {
    Seqs.FindIndex(rows, (row: Row) => CellText(At(row, IdCol)) == id)
  }

  const IdRequiredForUpdate := "Guest ID is required for update"
  const IdRequiredForDeletion := "Guest ID is required for deletion"
  /** `getRange(2, 1, 0, 1)` on a sheet with no data row throws. */
  const EmptyRangeError := "The number of rows in the range must be at least 1."

  function NotFoundError(id: string): string {
    "Guest not found with ID: " + id
  }

  /** The error `updateGuest` or `deleteGuest` throws for `id`, if any. */
  function LookupError(rows: seq<Row>, id: Option<string>, idRequired: string): (e: Option<string>)
    ensures e.None? <==> !Missing(id) && FindRow(rows, id.value).Some?
  {
    if Missing(id) then Some(idRequired)
    else if rows == [] then Some(EmptyRangeError)
    else if FindRow(rows, id.value).None? then Some(NotFoundError(id.value))
    else None
  }

  /** Deleting the first row with an ID removes exactly one row with that ID. */
  lemma WithoutCount(rows: seq<Row>, id: string)
    requires FindRow(rows, id).Some?
    ensures var p := (row: Row) => CellText(At(row, IdCol)) == id;
      Seqs.Count(Seqs.Without(rows, FindRow(rows, id).value), p) + 1 == Seqs.Count(rows, p)
  {
    var k := FindRow(rows, id).value;
    var p := (row: Row) => CellText(At(row, IdCol)) == id;
    assert rows == rows[..k] + ([rows[k]] + rows[k + 1..]);
    Seqs.CountSplit(rows[..k], [rows[k]] + rows[k + 1..], p);
    Seqs.CountSplit([rows[k]], rows[k + 1..], p);
    Seqs.CountSplit(rows[..k], rows[k + 1..], p);
  }

  // ---------------------------------------------------------------------
  // bulkImportGuests
  // ---------------------------------------------------------------------

  datatype ImportError = ImportError(index: nat, guest: string, error: string)

  datatype ImportResults = ImportResults(success: nat, failed: nat, errors: seq<ImportError>)

  const GuestsRequiredError := "guests array is required for bulk import"

  /** The rows the import appends for its first `n` requests, in request order, for those that pass `createGuest`'s check. */
  function ImportedRows(guests: seq<GuestInput>, ids: seq<string>, stamps: seq<string>, n: nat): (r: seq<Row>)
    requires |ids| == |stamps| == |guests| && n <= |guests|
    ensures |r| <= n
    ensures WellFormed(r)
  {
    if n == 0 then []
    else
      var before := ImportedRows(guests, ids, stamps, n - 1);
      match NewGuestRow(guests[n - 1], ids[n - 1], stamps[n - 1])
      case Ok(row) => before + [row]
      case Err(_) => before
  }

  /** One entry per refused request among the first `n`, with its position and `guestData.name || 'Unknown'`. */
  function ImportErrors(guests: seq<GuestInput>, n: nat): (r: seq<ImportError>)
    requires n <= |guests|
    ensures |r| <= n
  {
    if n == 0 then []
    else
      var before := ImportErrors(guests, n - 1);
      var g := guests[n - 1];
      if Refused(g) then
        before + [ImportError(n - 1, ReportedName(g), "Error: " + RequiredFieldsError)]
      else before
  }

  /** Every recorded error points at a refused request, in the order of the requests. */
  lemma {:induction false} ImportErrorsSound(guests: seq<GuestInput>, n: nat)
    requires n <= |guests|
    ensures forall j :: 0 <= j < |ImportErrors(guests, n)| ==>
      ImportErrors(guests, n)[j].index < n && Refused(guests[ImportErrors(guests, n)[j].index])
    ensures forall j, k :: 0 <= j < k < |ImportErrors(guests, n)| ==>
      ImportErrors(guests, n)[j].index < ImportErrors(guests, n)[k].index
  {
    if n != 0 {
      ImportErrorsSound(guests, n - 1);
    }
  }

  /** Every refused request is listed. */
  lemma {:induction false} ImportErrorsComplete(guests: seq<GuestInput>, n: nat, i: nat)
    requires i < n <= |guests| && Refused(guests[i])
    ensures exists j :: 0 <= j < |ImportErrors(guests, n)| && ImportErrors(guests, n)[j].index == i
  {
    if i < n - 1 {
      ImportErrorsComplete(guests, n - 1, i);
      var j :| 0 <= j < |ImportErrors(guests, n - 1)| && ImportErrors(guests, n - 1)[j].index == i;
      assert ImportErrors(guests, n)[j] == ImportErrors(guests, n - 1)[j];
    } else {
      assert ImportErrors(guests, n)[|ImportErrors(guests, n - 1)|].index == i;
    }
  }

  /** The name an import error reports: `guestData.name || 'Unknown'`. */
  function ReportedName(g: GuestInput): string {
    if Missing(g.name) then "Unknown" else g.name.value
  }

  /** The import's counts: every request either succeeds or is listed as failed. */
  lemma {:induction false} ImportCounts(guests: seq<GuestInput>, ids: seq<string>, stamps: seq<string>, n: nat)
    requires |ids| == |stamps| == |guests| && n <= |guests|
    ensures |ImportedRows(guests, ids, stamps, n)| + |ImportErrors(guests, n)| == n
  {
    if n != 0 {
      ImportCounts(guests, ids, stamps, n - 1);
      if Refused(guests[n - 1]) {
        assert ImportedRows(guests, ids, stamps, n) == ImportedRows(guests, ids, stamps, n - 1);
      } else {
        assert ImportErrors(guests, n) == ImportErrors(guests, n - 1);
      }
    }
  }

  // ---------------------------------------------------------------------
  // getGuestStatistics
  // ---------------------------------------------------------------------

  datatype GuestStatistics = GuestStatistics(
    total: nat,
    confirmed: nat,
    pending: nat,
    declined: nat,
    request: nat,
    vip: nat,
    totalPax: int,
    byAddedBy: seq<(string, nat)>)

  const NoStatistics := GuestStatistics(0, 0, 0, 0, 0, 0, 0, [])

  /** `row[10] || 'pending'` */
  function StatusOf(row: Row): string {
    if Truthy(At(row, StatusCol)) then CellText(At(row, StatusCol)) else "pending"
  }

  /** `row[11] || 'Unknown'` */
  function AddedByOf(row: Row): string {
    if Truthy(At(row, AddedByCol)) then CellText(At(row, AddedByCol)) else "Unknown"
  }

  predicate DistinctKeys(tally: seq<(string, nat)>) {
    forall i, j :: 0 <= i < j < |tally| ==> tally[i].0 != tally[j].0
  }

  function TallySum(tally: seq<(string, nat)>): nat {
    if tally == [] then 0 else tally[0].1 + TallySum(tally[1..])
  }

  /** The keys of a tally. */
  function Keys(tally: seq<(string, nat)>): set<string> {
    set p | p in tally :: p.0
  }

  /** `byAddedBy[key] = (byAddedBy[key] || 0) + 1`, the object kept as an association list of its entries. */
  function Bump(tally: seq<(string, nat)>, key: string): (r: seq<(string, nat)>)
    ensures TallySum(r) == TallySum(tally) + 1
  {
    if tally == [] then [(key, 1)]
    else if tally[0].0 == key then [(key, tally[0].1 + 1)] + tally[1..]
    else [tally[0]] + Bump(tally[1..], key)
  }

  /** A bump adds its key to the tally's keys, and keeps the keys distinct. */
  lemma {:induction false} BumpKeys(tally: seq<(string, nat)>, key: string)
    ensures Keys(Bump(tally, key)) == Keys(tally) + {key}
    ensures DistinctKeys(tally) ==> DistinctKeys(Bump(tally, key))
  {
    if tally != [] {
      HeadKeys(tally);
      if tally[0].0 == key {
        HeadKeys(Bump(tally, key));
        assert Bump(tally, key)[1..] == tally[1..];
      } else {
        BumpKeys(tally[1..], key);
        HeadKeys(Bump(tally, key));
        assert Bump(tally, key)[1..] == Bump(tally[1..], key);
      }
    }
  }

  /** A non-empty tally's keys are its first key and the keys after it; it is distinct when its tail is and the first key does not recur. */
  lemma HeadKeys(tally: seq<(string, nat)>)
    requires tally != []
    ensures Keys(tally) == {tally[0].0} + Keys(tally[1..])
    ensures DistinctKeys(tally) <==> (DistinctKeys(tally[1..]) && tally[0].0 !in Keys(tally[1..]))
  {
    assert tally == [tally[0]] + tally[1..];
    if DistinctKeys(tally[1..]) && tally[0].0 !in Keys(tally[1..]) {
      forall i, j | 0 <= i < j < |tally|
        ensures tally[i].0 != tally[j].0
      {
        if i == 0 {
          assert tally[j] in tally[1..];
        } else {
          assert tally[i] == tally[1..][i - 1] && tally[j] == tally[1..][j - 1];
        }
      }
    }
    if DistinctKeys(tally) {
      forall p | p in tally[1..]
        ensures p.0 != tally[0].0
      {
        var k :| 0 <= k < |tally[1..]| && tally[1..][k] == p;
        assert tally[k + 1] == p;
      }
    }
  }

  /** One iteration of the statistics loop. */
  function Tally(stats: GuestStatistics, row: Row): GuestStatistics {
    if !HasId(row) then stats
    else
      var status := StatusOf(row);
      stats.(total := stats.total + 1,
             confirmed := stats.confirmed + (if status == "confirmed" then 1 else 0),
             pending := stats.pending + (if status == "pending" then 1 else 0),
             declined := stats.declined + (if status == "declined" then 1 else 0),
             request := stats.request + (if status == "request" then 1 else 0),
             vip := stats.vip + (if IsChecked(At(row, IsVipCol)) then 1 else 0),
             totalPax := stats.totalPax + CellCount(At(row, AllowedGuestsCol)),
             byAddedBy := Bump(stats.byAddedBy, AddedByOf(row)))
  }

  /**
   * The statistics of the data rows: the status counts never exceed the guests counted,
   * and the per-author counts, one entry per author, add up to exactly that many.
   */
  function StatisticsOf(rows: seq<Row>): (s: GuestStatistics)
    ensures s.confirmed + s.pending + s.declined + s.request <= s.total
    ensures s.vip <= s.total
    ensures TallySum(s.byAddedBy) == s.total
    ensures DistinctKeys(s.byAddedBy)
  {
    if rows == [] then NoStatistics
    else
      var before := StatisticsOf(rows[..|rows| - 1]);
      BumpKeys(before.byAddedBy, AddedByOf(rows[|rows| - 1]));
      Tally(before, rows[|rows| - 1])
  }

  /** Only rows with an ID are counted. */
  lemma {:induction false} StatisticsTotal(rows: seq<Row>)
    ensures StatisticsOf(rows).total == Seqs.Count(rows, HasId)
  {
    if rows != [] {
      var n := |rows| - 1;
      StatisticsTotal(rows[..n]);
      assert rows == rows[..n] + [rows[n]];
      Seqs.CountSplit(rows[..n], [rows[n]], HasId);
    }
  }

  // ---------------------------------------------------------------------
  // The sheet
  // ---------------------------------------------------------------------

  class GuestTable {
    /** Row 1. */
    var header: Row
    /** Rows 2 and below. */
    var rows: seq<Row>

    ghost predicate Valid()
      reads this
    {
      |header| == Columns && WellFormed(rows)
    }

    constructor (header: Row, rows: seq<Row>)
      requires |header| == Columns && WellFormed(rows)
      ensures Valid() && this.header == header && this.rows == rows
    {
      this.header := header;
      this.rows := rows;
    }

    /** `createGuest(sheet, data)` */
    method CreateGuest(data: GuestInput, id: string, timestamp: string) returns (r: Result<Guest, string>)
      requires Valid()
      modifies this
      ensures Valid() && header == old(header)
      ensures r.Err? <==> NewGuestRow(data, id, timestamp).Err?
      ensures r.Err? ==> r.error == RequiredFieldsError
      ensures r.Ok? ==> r.value == CreatedGuest(data, id, timestamp)
      ensures rows == old(rows) + (if r.Ok? then [NewGuestRow(data, id, timestamp).value] else [])
    {
      var row := NewGuestRow(data, id, timestamp);
      if row.Err? {
        return Err(row.error);
      }
      rows := rows + [row.value];
      r := Ok(CreatedGuest(data, id, timestamp));
    }

    /** The search loop `updateGuest` and `deleteGuest` share. */
    method FindGuestRow(id: string) returns (rowIndex: Option<nat>)
      ensures rowIndex == FindRow(rows, id)
    {
      rowIndex := None;
      var i := 0;
      while i < |rows|
        invariant 0 <= i <= |rows|
        invariant forall j :: 0 <= j < i ==> CellText(At(rows[j], IdCol)) != id
      {
        if CellText(At(rows[i], IdCol)) == id {
          rowIndex := Some(i);
          break;
        }
        i := i + 1;
      }
      if rowIndex.None? {
        assert FindRow(rows, id).None?;
      }
    }

    /** `updateGuest(sheet, data)`: the first row with the ID is patched; any error leaves the sheet as it was. */
    method UpdateGuest(data: GuestInput, timestamp: string) returns (r: Result<string, string>)
      requires Valid()
      modifies this
      ensures Valid() && header == old(header)
      ensures r.Err? <==> LookupError(old(rows), data.id, IdRequiredForUpdate).Some?
      ensures r.Err? ==> r.error == LookupError(old(rows), data.id, IdRequiredForUpdate).value && rows == old(rows)
      ensures r.Ok? ==> (r.value == data.id.value &&
        var k := FindRow(old(rows), data.id.value).value;
        rows == old(rows)[k := PatchRow(old(rows)[k], data, timestamp)])
    {
      var e := LookupError(rows, data.id, IdRequiredForUpdate);
      if e.Some? {
        return Err(e.value);
      }
      var k := FindGuestRow(data.id.value);
      rows := rows[k.value := PatchRow(rows[k.value], data, timestamp)];
      r := Ok(data.id.value);
    }

    /** `deleteGuest(sheet, data)`: the first row with the ID is removed; any error leaves the sheet as it was. */
    method DeleteGuest(data: GuestInput) returns (r: Result<string, string>)
      requires Valid()
      modifies this
      ensures Valid() && header == old(header)
      ensures r.Err? <==> LookupError(old(rows), data.id, IdRequiredForDeletion).Some?
      ensures r.Err? ==> r.error == LookupError(old(rows), data.id, IdRequiredForDeletion).value && rows == old(rows)
      ensures r.Ok? ==> (r.value == data.id.value &&
        rows == Seqs.Without(old(rows), FindRow(old(rows), data.id.value).value))
    {
      var e := LookupError(rows, data.id, IdRequiredForDeletion);
      if e.Some? {
        return Err(e.value);
      }
      var k := FindGuestRow(data.id.value);
      rows := Seqs.Without(rows, k.value);
      r := Ok(data.id.value);
    }

    /** One turn of the import loop: `createGuest` for the i-th request, and its error when it is refused. */
    method ImportOne(gs: seq<GuestInput>, ids: seq<string>, stamps: seq<string>, i: nat,
                     ghost before: seq<Row>, success: nat, failed: nat, errors: seq<ImportError>)
      returns (success': nat, failed': nat, errors': seq<ImportError>)
      requires Valid() && i < |gs| && |ids| == |stamps| == |gs|
      requires rows == before + ImportedRows(gs, ids, stamps, i)
      requires errors == ImportErrors(gs, i) && failed == |errors|
      requires success == |ImportedRows(gs, ids, stamps, i)|
      modifies this
      ensures Valid() && header == old(header)
      ensures rows == before + ImportedRows(gs, ids, stamps, i + 1)
      ensures errors' == ImportErrors(gs, i + 1) && failed' == |errors'|
      ensures success' == |ImportedRows(gs, ids, stamps, i + 1)|
    {
      var r := CreateGuest(gs[i], ids[i], stamps[i]);
      success', failed', errors' := success, failed, errors;
      if r.Ok? {
        Seqs.AppendAssoc(before, ImportedRows(gs, ids, stamps, i), [NewGuestRow(gs[i], ids[i], stamps[i]).value]);
        success' := success + 1;
      } else {
        failed' := failed + 1;
        errors' := errors + [ImportError(i, ReportedName(gs[i]), "Error: " + r.error)];
      }
    }

    /**
     * `bulkImportGuests(sheet, data)`: `createGuest` for each request in turn, counting
     * successes and recording failures. `ids[i]` and `stamps[i]` are the UUID and the
     * time the i-th `createGuest` would draw.
     */
    method BulkImport(guests: Option<seq<GuestInput>>, ids: seq<string>, stamps: seq<string>)
      returns (r: Result<ImportResults, string>)
      requires Valid()
      requires guests.Some? ==> |ids| == |stamps| == |guests.value|
      modifies this
      ensures Valid() && header == old(header)
      ensures r.Err? <==> guests.None?
      ensures r.Err? ==> r.error == GuestsRequiredError && rows == old(rows)
      ensures r.Ok? ==>
        && rows == old(rows) + ImportedRows(guests.value, ids, stamps, |guests.value|)
        && r.value.errors == ImportErrors(guests.value, |guests.value|)
        && r.value.success == |ImportedRows(guests.value, ids, stamps, |guests.value|)|
        && r.value.failed == |ImportErrors(guests.value, |guests.value|)|
    {
      if guests.None? {
        return Err(GuestsRequiredError);
      }
      var success, failed, errors := ImportAll(guests.value, ids, stamps);
      r := Ok(ImportResults(success, failed, errors));
    }

    /** The loop of `bulkImportGuests` over the submitted guests. */
    method ImportAll(gs: seq<GuestInput>, ids: seq<string>, stamps: seq<string>)
      returns (success: nat, failed: nat, errors: seq<ImportError>)
      requires Valid() && |ids| == |stamps| == |gs|
      modifies this
      ensures Valid() && header == old(header)
      ensures rows == old(rows) + ImportedRows(gs, ids, stamps, |gs|)
      ensures errors == ImportErrors(gs, |gs|) && failed == |errors|
      ensures success == |ImportedRows(gs, ids, stamps, |gs|)|
    {
      success, failed, errors := 0, 0, [];
      for i := 0 to |gs|
        invariant Valid() && header == old(header)
        invariant rows == old(rows) + ImportedRows(gs, ids, stamps, i)
        invariant errors == ImportErrors(gs, i) && failed == |errors|
        invariant success == |ImportedRows(gs, ids, stamps, i)|
      {
        success, failed, errors := ImportOne(gs, ids, stamps, i, old(rows), success, failed, errors);
      }
    }

    /** `getGuestStatistics()`: the loop over the data rows. */
    method GetGuestStatistics() returns (stats: GuestStatistics)
      ensures stats == StatisticsOf(rows)
    {
      stats := NoStatistics;
      for i := 0 to |rows|
        invariant stats == StatisticsOf(rows[..i])
      {
        assert rows[..i + 1][..i] == rows[..i];
        stats := Tally(stats, rows[i]);
      }
      assert rows[..|rows|] == rows;
    }

    /**
     * `exportGuestsToCSV()`: every row, the header included, as one CSV record; an error
     * when there is no data row.
     */
    method ExportGuestsToCsv() returns (r: Result<string, string>)
      requires Valid()
      ensures rows == [] <==> r.Err?
      ensures r.Ok? ==> r.value == Csv.EncodeTable(Seqs.Map([header] + rows, RowText))
    {
      if rows == [] {
        return Err("No guests to export");
      }
      var data := [header] + rows;
      var csv := "";
      for i := 0 to |data|
        invariant csv == Csv.EncodeTable(Seqs.Map(data[..i], RowText))
      {
        assert Seqs.Map(data[..i + 1], RowText) == Seqs.Map(data[..i], RowText) + [RowText(data[i])];
        Csv.EncodeTableSnoc(Seqs.Map(data[..i], RowText), RowText(data[i]));
        csv := csv + Csv.EncodeRecord(RowText(data[i]));
      }
      assert data[..|data|] == data;
      r := Ok(csv);
    }
  }

  /** The export read back with the line-feed CSV reader gives the text of every cell of every row. */
  lemma ExportRoundTrip(header: Row, rows: seq<Row>)
    requires |header| == Columns && WellFormed(rows)
    ensures Csv.ParseTable(Csv.EncodeTable(Seqs.Map([header] + rows, RowText))) == Some(Seqs.Map([header] + rows, RowText))
  {
    var texts := Seqs.Map([header] + rows, RowText);
    assert forall i :: 0 <= i < |texts| ==> |texts[i]| == Columns;
    Csv.ParseEncodedTable(texts);
  }
}
