/**
 * google-apps-script/migration-helper.js: moving guests from the old five-column
 * OldGuests sheet (Name, Email, RSVP, Guest count, Message) into the Guests sheet,
 * previewing that move, checking its result and repairing common problems in the
 * Guests sheet. The UUID and the timestamp each `createGuest` call draws are
 * parameters (`ids[i]`, `stamps[i]` for the i-th old row).
 */
module Migration {
  import opened Wrappers
  import opened Text
  import opened Cells
  import opened GuestModel
  import opened GuestSheet
  import opened CompanionJson
  import Seqs

  // ---------------------------------------------------------------------
  // One old row
  // ---------------------------------------------------------------------

  const OldNameCol := 0
  const OldEmailCol := 1
  const OldRsvpCol := 2
  const OldGuestCountCol := 3
  const OldMessageCol := 4

  /** `!name || name.toString().trim() === ''`: a row the migration skips. */
  predicate IsBlankRow(row: Row) {
    !Truthy(At(row, OldNameCol)) || Trim(CellText(At(row, OldNameCol))) == ""
  }

  predicate Migratable(row: Row) {
    !IsBlankRow(row)
  }

  /** The statuses `fixMigrationIssues` accepts. */
  const ValidStatuses := ["pending", "confirmed", "declined", "request"]

  /** The new status for an RSVP cell; the comparisons are strict, so only text cells match. */
  function MigratedStatus(rsvp: Cell): (s: string)
    ensures s in ValidStatuses
    ensures s == "confirmed" ==> rsvp.Str? && Lower(rsvp.s) == "yes"
    ensures s == "declined" ==> rsvp.Str? && Lower(rsvp.s) == "no"
  {
    if rsvp == Str("Yes") || rsvp == Str("yes") || rsvp == Str("YES") then "confirmed"
    else if rsvp == Str("No") || rsvp == Str("no") || rsvp == Str("NO") then "declined"
    else "pending"
  }

  /** The status `previewMigration` announces: only `Yes` and `No` are recognised. */
  function PreviewStatus(rsvp: Cell): string {
    if rsvp == Str("Yes") then "confirmed" else if rsvp == Str("No") then "declined" else "pending"
  }

  /** The preview announces the status the migration writes, except for the other spellings of yes and no. */
  lemma PreviewDisagreement(rsvp: Cell)
    ensures PreviewStatus(rsvp) != MigratedStatus(rsvp)
      <==> rsvp in {Str("yes"), Str("YES"), Str("no"), Str("NO")}
  {
  }

  /** The slot the migration reserves for each companion, to be filled in by hand. */
  const Placeholder := Companion("", "Companion")

  function Placeholders(allowed: int): seq<Companion> {
    seq(Max0(allowed - 1), _ => Placeholder)
  }

  /** The placeholder loop: one empty companion for each allowed person after the guest. */
  method PlaceholderCompanions(allowed: int) returns (companions: seq<Companion>)
    ensures |companions| == Max0(allowed - 1)
    ensures forall k :: 0 <= k < |companions| ==> companions[k] == Placeholder
    ensures companions == Placeholders(allowed)
  {
    companions := [];
    var i := 1;
    while i < allowed
      invariant i == 1 || 1 < i <= allowed
      invariant |companions| == i - 1
      invariant forall k :: 0 <= k < |companions| ==> companions[k] == Placeholder
    {
      companions := companions + [Placeholder];
      i := i + 1;
    }
  }

  /** The number of companions `previewMigration` announces, `allowedGuests - 1`. */
  function PreviewCompanionCount(row: Row): int {
    CellCount(At(row, OldGuestCountCol)) - 1
  }

  /** The preview announces as many companions as the migration reserves exactly when the count is positive. */
  lemma PreviewCompanions(row: Row)
    ensures PreviewCompanionCount(row) == |Placeholders(CellCount(At(row, OldGuestCountCol)))|
      <==> CellCount(At(row, OldGuestCountCol)) >= 1
  {
  }

  /** `x ? x.toString().trim() : ''` */
  function TrimmedOrEmpty(c: Cell): string {
    if Truthy(c) then Trim(CellText(c)) else ""
  }

  /** The `guestData` built from one old row. `allowedGuests` is sent as a number, which `createGuest` reads as its text. */
  function GuestDataOf(row: Row): GuestInput {
    var allowed := CellCount(At(row, OldGuestCountCol));
    GuestInput(
      None,
      Some(Trim(CellText(At(row, OldNameCol)))),
      Some("Guest"),
      Some(TrimmedOrEmpty(At(row, OldEmailCol))),
      Some(""),
      Some(TrimmedOrEmpty(At(row, OldMessageCol))),
      Some(IntToString(allowed)),
      Some(Placeholders(allowed)),
      Some(""),
      Some(Bool(false)),
      Some(MigratedStatus(At(row, OldRsvpCol))),
      Some("Migration"))
  }

  /** `createGuest`'s required-field check fails on the data built from `row`. */
  predicate Rejected(row: Row) {
    Refused(GuestDataOf(row))
  }

  lemma NotRejected(row: Row)
    requires Migratable(row)
    ensures !Rejected(row)
  {
  }

  lemma AcceptedRow(row: Row, id: string, timestamp: string)
    requires !Rejected(row)
    ensures NewGuestRow(GuestDataOf(row), id, timestamp).Ok?
  {
  }

  /** Every old row with a name passes the required-field check. */
  lemma Accepted(row: Row, id: string, timestamp: string)
    requires Migratable(row)
    ensures !Rejected(row) && NewGuestRow(GuestDataOf(row), id, timestamp).Ok?
  {
    NotRejected(row);
    AcceptedRow(row, id, timestamp);
  }

  /** The guest the migration means to create from an old row. */
  function MigratedGuest(row: Row, id: string, timestamp: string): Guest {
    var allowed := CellCount(At(row, OldGuestCountCol));
    Guest(id, Trim(CellText(At(row, OldNameCol))), "Guest", TrimmedOrEmpty(At(row, OldEmailCol)), "",
          TrimmedOrEmpty(At(row, OldMessageCol)), allowed, Placeholders(allowed), "", false,
          MigratedStatus(At(row, OldRsvpCol)), "Migration", timestamp, timestamp)
  }

  /**
   * An old row with a name passes `createGuest`'s required-field check, and `doGet` reads
   * the row it appends as the guest the migration means: the same allowance, one empty
   * placeholder per companion, the mapped status, role `Guest` and added by `Migration`.
   */
  lemma MigratedRowRead(row: Row, id: string, timestamp: string)
    requires Migratable(row) && id != ""
    ensures NewGuestRow(GuestDataOf(row), id, timestamp).Ok?
    ensures RowToGuest(NewGuestRow(GuestDataOf(row), id, timestamp).value) == MigratedGuest(row, id, timestamp)
  {
    NotRejected(row);
    ReadCreatedRow(GuestDataOf(row), id, timestamp);
    MigratedGuestIsCreated(row, id, timestamp);
  }

  /** The guest `createGuest` makes of the migration's `guestData`, with its fields trimmed. */
  lemma MigratedGuestIsCreated(row: Row, id: string, timestamp: string)
    ensures TrimmedGuest(CreatedGuest(GuestDataOf(row), id, timestamp)) == MigratedGuest(row, id, timestamp)
  {
    var allowed := CellCount(At(row, OldGuestCountCol));
    ParseIntOfIntToString(allowed);
    assert AllowedOf(GuestDataOf(row).allowedGuests) == allowed;
    TrimIdempotent(CellText(At(row, OldNameCol)));
    TrimmedOrEmptyTrimmed(At(row, OldEmailCol));
    TrimmedOrEmptyTrimmed(At(row, OldMessageCol));
    TrimNoop("Guest");
    TrimNoop("Migration");
    TrimNoop("");
  }

  lemma TrimmedOrEmptyTrimmed(c: Cell)
    ensures Trim(TrimmedOrEmpty(c)) == TrimmedOrEmpty(c)
  {
    TrimIdempotent(CellText(c));
    TrimNoop("");
  }

  // ---------------------------------------------------------------------
  // migrateGuestsToNewSystem
  // ---------------------------------------------------------------------

  /** `error.toString()` of `sheet.appendRow` on a null sheet. */
  const NullSheetError := "TypeError: Cannot read properties of null (reading 'appendRow')"
  const OldSheetMissingError := "Error: Old guests sheet not found. Please rename your existing guest sheet to \"OldGuests\""
  const NoGuestsMessage := "No guests to migrate"
  const CompletedMessage := "Migration completed"

  /** An entry of `errorDetails`: the sheet row (old index + 2), the name cell and the error text. */
  datatype MigrationError = MigrationError(row: int, name: Cell, error: string)

  datatype MigrationReport = MigrationReport(message: string, migrated: nat, errors: nat, errorDetails: seq<MigrationError>)

  /**
   * The `errorDetails` the loop collects over `rows`. `createGuest`'s required-field check
   * passes for every row with a name (`Accepted`), so the only failure left is the
   * `appendRow` call on a null sheet.
   */
  function MigrationErrors(rows: seq<Row>, hasSheet: bool): seq<MigrationError> {
    if rows == [] then []
    else
      var k := |rows| - 1;
      MigrationErrors(rows[..k], hasSheet)
        + (if Migratable(rows[k]) && !hasSheet then [MigrationError(k + 2, At(rows[k], OldNameCol), NullSheetError)] else [])
  }

  /** `successCount` after the loop over `rows`. */
  function MigratedCount(rows: seq<Row>, hasSheet: bool): nat {
    if rows == [] then 0
    else
      var k := |rows| - 1;
      MigratedCount(rows[..k], hasSheet) + (if Migratable(rows[k]) && hasSheet then 1 else 0)
  }

  /** The rows the loop appends to a Guests sheet. */
  function MigratedRows(rows: seq<Row>, ids: seq<string>, stamps: seq<string>): seq<Row>
    requires |ids| == |stamps| == |rows|
  {
    if rows == [] then []
    else
      var k := |rows| - 1;
      MigratedRows(rows[..k], ids[..k], stamps[..k])
        + (if !Migratable(rows[k]) then []
           else match NewGuestRow(GuestDataOf(rows[k]), ids[k], stamps[k])
             case Ok(row) => [row]
             case Err(_) => [])
  }

  /** The answer of the migration for the old data rows `rows`. */
  function Report(rows: seq<Row>, hasSheet: bool): MigrationReport {
    if rows == [] then MigrationReport(NoGuestsMessage, 0, 0, [])
    else MigrationReport(CompletedMessage, MigratedCount(rows, hasSheet),
                         |MigrationErrors(rows, hasSheet)|, MigrationErrors(rows, hasSheet))
  }

  lemma CountSnoc(rows: seq<Row>)
    requires rows != []
    ensures Seqs.Count(rows, Migratable)
      == Seqs.Count(rows[..|rows| - 1], Migratable) + (if Migratable(rows[|rows| - 1]) then 1 else 0)
  {
    var k := |rows| - 1;
    assert rows == rows[..k] + [rows[k]];
    Seqs.CountSplit(rows[..k], [rows[k]], Migratable);
  }

  /** With a Guests sheet to write to, every old row with a name is migrated and none fails. */
  lemma {:induction false} MigrationWithSheet(rows: seq<Row>)
    ensures MigratedCount(rows, true) == Seqs.Count(rows, Migratable)
    ensures MigrationErrors(rows, true) == []
  {
    if rows != [] {
      MigrationWithSheet(rows[..|rows| - 1]);
      CountSnoc(rows);
    }
  }

  /** One new Guests row for every old row with a name. */
  lemma {:induction false} MigratedRowsCount(rows: seq<Row>, ids: seq<string>, stamps: seq<string>)
    requires |ids| == |stamps| == |rows|
    ensures |MigratedRows(rows, ids, stamps)| == Seqs.Count(rows, Migratable)
  {
    if rows != [] {
      var k := |rows| - 1;
      MigratedRowsCount(rows[..k], ids[..k], stamps[..k]);
      CountSnoc(rows);
      if Migratable(rows[k]) {
        Accepted(rows[k], ids[k], stamps[k]);
      }
    }
  }

  /**
   * As written, with no Guests sheet at the start: nothing is migrated, and every old row
   * with a name is reported as an error, all of them the null-sheet failure.
   */
  lemma {:induction false} MigrationWithoutSheet(rows: seq<Row>)
    ensures MigratedCount(rows, false) == 0
    ensures |MigrationErrors(rows, false)| == Seqs.Count(rows, Migratable)
    ensures forall i :: 0 <= i < |MigrationErrors(rows, false)| ==> MigrationErrors(rows, false)[i].error == NullSheetError
  {
    if rows != [] {
      MigrationWithoutSheet(rows[..|rows| - 1]);
      CountSnoc(rows);
    }
  }

  /** One named guest and no Guests sheet: the as-written migration reports it as an error and migrates nobody. */
  lemma MissingSheetLosesGuest()
    ensures var r := Report([[Str("Ana"), Str(""), Str("Yes"), Num(2), Str("")]], false);
      r.migrated == 0 && r.errors == 1 && r.errorDetails[0].error == NullSheetError
  {
    var rows: seq<Row> := [[Str("Ana"), Str(""), Str("Yes"), Num(2), Str("")]];
    assert Migratable(rows[0]);
    assert rows[..0] == [];
  }

  lemma PrefixSnoc<T>(s: seq<T>, i: nat)
    requires i < |s|
    ensures s[..i + 1][..i] == s[..i] && s[..i + 1][i] == s[i]
  {
  }

  /** The migration's spec functions over one more old row, when that row is blank. */
  lemma SkipStep(rows: seq<Row>, ids: seq<string>, stamps: seq<string>, i: nat, hasSheet: bool)
    requires i < |rows| && |ids| == |stamps| == |rows| && !Migratable(rows[i])
    ensures MigratedCount(rows[..i + 1], hasSheet) == MigratedCount(rows[..i], hasSheet)
    ensures MigrationErrors(rows[..i + 1], hasSheet) == MigrationErrors(rows[..i], hasSheet)
    ensures MigratedRows(rows[..i + 1], ids[..i + 1], stamps[..i + 1]) == MigratedRows(rows[..i], ids[..i], stamps[..i])
  {
    PrefixSnoc(rows, i);
    PrefixSnoc(ids, i);
    PrefixSnoc(stamps, i);
  }

  /** ... when the row has a name and there is no sheet to write to. */
  lemma NullSheetStep(rows: seq<Row>, i: nat)
    requires i < |rows| && Migratable(rows[i])
    ensures MigratedCount(rows[..i + 1], false) == MigratedCount(rows[..i], false)
    ensures MigrationErrors(rows[..i + 1], false)
      == MigrationErrors(rows[..i], false) + [MigrationError(i + 2, At(rows[i], OldNameCol), NullSheetError)]
  {
    PrefixSnoc(rows, i);
  }

  /** ... when the row has a name and is written to a sheet. */
  lemma SheetStep(rows: seq<Row>, ids: seq<string>, stamps: seq<string>, i: nat)
    requires i < |rows| && |ids| == |stamps| == |rows| && Migratable(rows[i])
    ensures MigratedCount(rows[..i + 1], true) == MigratedCount(rows[..i], true) + 1
    ensures MigrationErrors(rows[..i + 1], true) == MigrationErrors(rows[..i], true)
    ensures MigratedRows(rows[..i + 1], ids[..i + 1], stamps[..i + 1])
      == MigratedRows(rows[..i], ids[..i], stamps[..i]) + [NewGuestRow(GuestDataOf(rows[i]), ids[i], stamps[i]).value]
  {
    PrefixSnoc(rows, i);
    PrefixSnoc(ids, i);
    PrefixSnoc(stamps, i);
    Accepted(rows[i], ids[i], stamps[i]);
  }

  /** The `guestData` the loop builds for an old row, its companions made by the placeholder loop. */
  method BuildGuestData(row: Row) returns (data: GuestInput)
    ensures data == GuestDataOf(row)
  {
    var allowed := CellCount(At(row, OldGuestCountCol));
    var companions := PlaceholderCompanions(allowed);
    data := GuestInput(None, Some(Trim(CellText(At(row, OldNameCol)))), Some("Guest"),
      Some(TrimmedOrEmpty(At(row, OldEmailCol))), Some(""), Some(TrimmedOrEmpty(At(row, OldMessageCol))),
      Some(IntToString(allowed)), Some(companions), Some(""), Some(Bool(false)),
      Some(MigratedStatus(At(row, OldRsvpCol))), Some("Migration"));
  }

  /** `createGuest(newSheet, guestData)` for an old row with a name, on a sheet that exists. */
  method MigrateToSheet(rows: seq<Row>, newSheet: GuestTable, ids: seq<string>, stamps: seq<string>, i: nat,
                        data: GuestInput, ghost before: seq<Row>, migrated: nat)
    returns (newMigrated: nat)
    requires i < |rows| && |ids| == |stamps| == |rows| && Migratable(rows[i]) && data == GuestDataOf(rows[i])
    requires migrated == MigratedCount(rows[..i], true)
    requires newSheet.Valid() && newSheet.rows == before + MigratedRows(rows[..i], ids[..i], stamps[..i])
    modifies newSheet
    ensures newMigrated == MigratedCount(rows[..i + 1], true)
    ensures MigrationErrors(rows[..i + 1], true) == MigrationErrors(rows[..i], true)
    ensures newSheet.Valid() && newSheet.header == old(newSheet.header)
    ensures newSheet.rows == before + MigratedRows(rows[..i + 1], ids[..i + 1], stamps[..i + 1])
  {
    NotRejected(rows[i]);
    SheetStep(rows, ids, stamps, i);
    Seqs.AppendAssoc(before, MigratedRows(rows[..i], ids[..i], stamps[..i]), [NewGuestRow(data, ids[i], stamps[i]).value]);
    var created := newSheet.CreateGuest(data, ids[i], stamps[i]);
    if created.Ok? {
      newMigrated := migrated + 1;
    } else {
      // `createGuest` refuses no row with a name (`Accepted`).
      assert false;
    }
  }

  /** The loop of `migrateGuestsToNewSystem`, writing through `newSheet`, which may be null. */
  method MigrateRows(rows: seq<Row>, newSheet: GuestTable?, ids: seq<string>, stamps: seq<string>)
    returns (migrated: nat, errors: seq<MigrationError>)
    requires |ids| == |stamps| == |rows|
    requires newSheet != null ==> newSheet.Valid()
    modifies newSheet
    ensures migrated == MigratedCount(rows, newSheet != null)
    ensures errors == MigrationErrors(rows, newSheet != null)
    ensures newSheet != null ==> (newSheet.Valid() && newSheet.header == old(newSheet.header)
      && newSheet.rows == old(newSheet.rows) + MigratedRows(rows, ids, stamps))
  {
    migrated, errors := 0, [];
    for i := 0 to |rows|
      invariant migrated == MigratedCount(rows[..i], newSheet != null)
      invariant errors == MigrationErrors(rows[..i], newSheet != null)
      invariant newSheet != null ==> (newSheet.Valid() && newSheet.header == old(newSheet.header)
        && newSheet.rows == old(newSheet.rows) + MigratedRows(rows[..i], ids[..i], stamps[..i]))
    {
      if IsBlankRow(rows[i]) {
        SkipStep(rows, ids, stamps, i, newSheet != null);
        continue;
      }
      var data := BuildGuestData(rows[i]);
      if newSheet == null {
        // `createGuest` passes its required-field check, then `appendRow` on null throws.
        NotRejected(rows[i]);
        NullSheetStep(rows, i);
        var e := if Refused(data) then "Error: " + RequiredFieldsError else NullSheetError;
        errors := errors + [MigrationError(i + 2, At(rows[i], OldNameCol), e)];
      } else {
        migrated := MigrateToSheet(rows, newSheet, ids, stamps, i, data, old(newSheet.rows), migrated);
      }
    }
    assert rows[..|rows|] == rows && ids[..|rows|] == ids && stamps[..|rows|] == stamps;
  }

  /**
   * `migrateGuestsToNewSystem()` as written. `oldRows` are the OldGuests data rows, `None`
   * when that sheet is missing; `guests` is the Guests sheet, null when missing. When it is
   * missing, `initializeGuestSheet()` creates one, returned as `sheet`, but the loop still
   * writes through the null it looked up first.
   */
  method MigrateGuestsToNewSystem(oldRows: Option<seq<Row>>, guests: GuestTable?, ids: seq<string>, stamps: seq<string>)
    returns (r: Result<MigrationReport, string>, sheet: GuestTable?)
    requires guests != null ==> guests.Valid()
    requires oldRows.Some? ==> |ids| == |stamps| == |oldRows.value|
    modifies guests
    ensures r.Err? <==> oldRows.None?
    ensures r.Err? ==> r.error == OldSheetMissingError && sheet == guests
    ensures r.Ok? ==> r.value == Report(oldRows.value, guests != null) && sheet != null && sheet.Valid()
    ensures r.Ok? && guests != null ==> sheet == guests && sheet.rows == old(guests.rows) + MigratedRows(oldRows.value, ids, stamps)
    ensures r.Ok? && guests == null ==> fresh(sheet) && sheet.rows == []
  {
    if oldRows.None? {
      return Err(OldSheetMissingError), guests;
    }
    if guests == null {
      sheet := new GuestTable(Headers, []);
    } else {
      sheet := guests;
    }
    var rows := oldRows.value;
    if rows == [] {
      return Ok(MigrationReport(NoGuestsMessage, 0, 0, [])), sheet;
    }
    var migrated, errors := MigrateRows(rows, guests, ids, stamps);
    r := Ok(MigrationReport(CompletedMessage, migrated, |errors|, errors));
  }

  /** `migrateGuestsToNewSystem()` writing to the sheet `initializeGuestSheet()` created, as evidently intended. */
  method MigrateGuestsFixed(oldRows: Option<seq<Row>>, guests: GuestTable?, ids: seq<string>, stamps: seq<string>)
    returns (r: Result<MigrationReport, string>, sheet: GuestTable?)
    requires guests != null ==> guests.Valid()
    requires oldRows.Some? ==> |ids| == |stamps| == |oldRows.value|
    modifies guests
    ensures r.Err? <==> oldRows.None?
    ensures r.Err? ==> r.error == OldSheetMissingError && sheet == guests
    ensures r.Ok? ==> r.value == Report(oldRows.value, true) && sheet != null && sheet.Valid()
    ensures r.Ok? ==> r.value.migrated == Seqs.Count(oldRows.value, Migratable) && r.value.errors == 0
    ensures r.Ok? ==> sheet.rows == (if guests == null then [] else old(guests.rows)) + MigratedRows(oldRows.value, ids, stamps)
    ensures r.Ok? && guests != null ==> sheet == guests
    ensures r.Ok? && guests == null ==> fresh(sheet)
  {
    if oldRows.None? {
      return Err(OldSheetMissingError), guests;
    }
    if guests == null {
      sheet := new GuestTable(Headers, []);
    } else {
      sheet := guests;
    }
    var rows := oldRows.value;
    MigrationWithSheet(rows);
    if rows == [] {
      return Ok(MigrationReport(NoGuestsMessage, 0, 0, [])), sheet;
    }
    var migrated, errors := MigrateRows(rows, sheet, ids, stamps);
    r := Ok(MigrationReport(CompletedMessage, migrated, |errors|, errors));
  }

  // ---------------------------------------------------------------------
  // verifyMigration
  // ---------------------------------------------------------------------

  const SheetsMissingError := "Error: Could not find required sheets"

  datatype VerifyReport = VerifyReport(oldCount: int, newCount: int, emptyCompanions: nat)

  /** `!comp.name || comp.name.trim() === ''` */
  predicate UnnamedCompanion(c: Companion) {
    c.name == "" || Trim(c.name) == ""
  }

  /** The unnamed companions of one Guests row; a cell that is not a companion array adds none. */
  function EmptyCompanionsOf(row: Row): nat {
    var c := At(row, CompanionsCol);
    if c.Str? && c.s != "" then
      match DecodeCompanions(c.s)
      case Some(cs) => Seqs.Count(cs, UnnamedCompanion)
      case None => 0
    else 0
  }

  function EmptyCompanions(rows: seq<Row>): nat {
    if rows == [] then 0 else EmptyCompanions(rows[..|rows| - 1]) + EmptyCompanionsOf(rows[|rows| - 1])
  }

  /** A migrated row holds one unnamed companion for every allowed person after the guest. */
  lemma MigratedEmptyCompanions(row: Row, id: string, timestamp: string)
    requires Migratable(row)
    ensures NewGuestRow(GuestDataOf(row), id, timestamp).Ok?
    ensures EmptyCompanionsOf(NewGuestRow(GuestDataOf(row), id, timestamp).value)
      == Max0(CellCount(At(row, OldGuestCountCol)) - 1)
  {
    var cs := Placeholders(CellCount(At(row, OldGuestCountCol)));
    MigratedRowCells(row, id, timestamp);
    var r := NewGuestRow(GuestDataOf(row), id, timestamp).value;
    EncodedUnnamedCount(r, cs);
  }

  /** A Companions cell written from companions that all lack a name counts every one of them. */
  lemma EncodedUnnamedCount(r: Row, cs: seq<Companion>)
    requires |r| == Columns && r[CompanionsCol] == Str(EncodeCompanions(cs))
    requires forall k :: 0 <= k < |cs| ==> UnnamedCompanion(cs[k])
    ensures EmptyCompanionsOf(r) == |cs|
  {
    DecodeEncodedCompanions(cs);
    Seqs.FilterAll(cs, UnnamedCompanion);
  }

  /** `verifyMigration()`: both sheets must exist, and the Guests sheet must have a data row. */
  method VerifyMigration(oldRows: Option<seq<Row>>, guests: GuestTable?) returns (r: Result<VerifyReport, string>)
    ensures (oldRows.None? || guests == null) ==> r == Err(SheetsMissingError)
    ensures (oldRows.Some? && guests != null && guests.rows == []) ==> r == Err("Exception: " + EmptyRangeError)
    ensures (oldRows.Some? && guests != null && guests.rows != []) ==>
      r == Ok(VerifyReport(|oldRows.value|, |guests.rows|, EmptyCompanions(guests.rows)))
  {
    if oldRows.None? || guests == null {
      return Err(SheetsMissingError);
    }
    var rows := guests.rows;
    if rows == [] {
      return Err("Exception: " + EmptyRangeError);
    }
    var empty := 0;
    for i := 0 to |rows|
      invariant empty == EmptyCompanions(rows[..i])
    {
      assert rows[..i + 1][..i] == rows[..i];
      empty := empty + EmptyCompanionsOf(rows[i]);
    }
    assert rows[..|rows|] == rows;
    r := Ok(VerifyReport(|oldRows.value|, |rows|, empty));
  }

  // ---------------------------------------------------------------------
  // fixMigrationIssues
  // ---------------------------------------------------------------------

  /** `!row[2] || row[2].toString().trim() === ''`: an empty or blank role. */
  predicate RoleNeedsFix(c: Cell) {
    !Truthy(c) || Trim(CellText(c)) == ""
  }

  /** `!validStatuses.includes(row[10])`: a strict comparison, so only text cells are valid. */
  predicate StatusNeedsFix(c: Cell) {
    !(c.Str? && c.s in ValidStatuses)
  }

  /**
   * `!row[6] || parseInt(row[6]) < 1`, with `parseInt` of a number cell being the number
   * itself (`AllowedNeedsFixIsParseInt`): an unparsable count compares false and is kept.
   */
  predicate AllowedNeedsFix(c: Cell) {
    match c
    case Num(n) => n < 1
    case Str(s) => s == "" || (ParseInt(s).Some? && ParseInt(s).value < 1)
    case Bool(b) => !b
  }

  lemma AllowedNeedsFixIsParseInt(c: Cell)
    ensures AllowedNeedsFix(c) <==> !Truthy(c) || (ParseInt(CellText(c)).Some? && ParseInt(CellText(c)).value < 1)
  {
    match c
    case Num(n) => ParseCellNumber(n);
    case Str(_) =>
    case Bool(b) => ParseIntOfWord(CellText(c));
  }

  /** A non-empty Companions cell that `JSON.parse` refuses; numbers and booleans parse. */
  predicate CompanionsNeedFix(c: Cell) {
    c.Str? && c.s != "" && DecodeCompanions(c.s).None?
  }

  predicate NeedsFix(row: Row) {
    RoleNeedsFix(At(row, RoleCol)) || StatusNeedsFix(At(row, StatusCol))
      || AllowedNeedsFix(At(row, AllowedGuestsCol)) || CompanionsNeedFix(At(row, CompanionsCol))
  }

  function FixRole(c: Cell): Cell {
    if RoleNeedsFix(c) then Str("Guest") else c
  }

  function FixStatus(c: Cell): Cell {
    if StatusNeedsFix(c) then Str("pending") else c
  }

  function FixAllowed(c: Cell): Cell {
    if AllowedNeedsFix(c) then Num(1) else c
  }

  function FixCompanions(c: Cell): Cell {
    if CompanionsNeedFix(c) then Str("[]") else c
  }

  // Each repair leaves a cell that needs no repair, and keeps a cell that needed none.

  lemma RoleFixed(c: Cell)
    ensures !RoleNeedsFix(FixRole(c)) && (!RoleNeedsFix(c) ==> FixRole(c) == c)
  {
    TrimNoop("Guest");
  }

  lemma StatusFixed(c: Cell)
    ensures !StatusNeedsFix(FixStatus(c)) && (!StatusNeedsFix(c) ==> FixStatus(c) == c)
  {
  }

  lemma AllowedFixed(c: Cell)
    ensures !AllowedNeedsFix(FixAllowed(c)) && (!AllowedNeedsFix(c) ==> FixAllowed(c) == c)
  {
  }

  lemma CompanionsFixed(c: Cell)
    ensures !CompanionsNeedFix(FixCompanions(c)) && (!CompanionsNeedFix(c) ==> FixCompanions(c) == c)
  {
    assert DecodeCompanions("[]") == Some([]);
  }

  /** The row after the four repairs `fixMigrationIssues` writes. */
  function FixRow(row: Row): (r: Row)
    requires |row| == Columns
  {
    row[RoleCol := FixRole(row[RoleCol])][AllowedGuestsCol := FixAllowed(row[AllowedGuestsCol])]
       [CompanionsCol := FixCompanions(row[CompanionsCol])][StatusCol := FixStatus(row[StatusCol])]
  }

  /** The four inspected cells of a repaired row. */
  lemma FixRowCells(row: Row)
    requires |row| == Columns
    ensures |FixRow(row)| == Columns
    ensures At(FixRow(row), RoleCol) == FixRole(row[RoleCol])
    ensures At(FixRow(row), StatusCol) == FixStatus(row[StatusCol])
    ensures At(FixRow(row), AllowedGuestsCol) == FixAllowed(row[AllowedGuestsCol])
    ensures At(FixRow(row), CompanionsCol) == FixCompanions(row[CompanionsCol])
  {
  }

  /** A repaired row needs no further repair. */
  lemma FixRowValid(row: Row)
    requires |row| == Columns
    ensures |FixRow(row)| == Columns && !NeedsFix(FixRow(row))
  {
    FixRowCells(row);
    RoleFixed(row[RoleCol]);
    StatusFixed(row[StatusCol]);
    AllowedFixed(row[AllowedGuestsCol]);
    CompanionsFixed(row[CompanionsCol]);
  }

  lemma FixRowIdentity(row: Row)
    requires |row| == Columns
    requires FixRole(row[RoleCol]) == row[RoleCol] && FixStatus(row[StatusCol]) == row[StatusCol]
    requires FixAllowed(row[AllowedGuestsCol]) == row[AllowedGuestsCol] && FixCompanions(row[CompanionsCol]) == row[CompanionsCol]
    ensures FixRow(row) == row
  {
  }

  /** A row that needs no repair is left as it was. */
  lemma FixRowNoop(row: Row)
    requires |row| == Columns && !NeedsFix(row)
    ensures FixRow(row) == row
  {
    assert At(row, RoleCol) == row[RoleCol] && At(row, StatusCol) == row[StatusCol];
    assert At(row, AllowedGuestsCol) == row[AllowedGuestsCol] && At(row, CompanionsCol) == row[CompanionsCol];
    RoleFixed(row[RoleCol]);
    StatusFixed(row[StatusCol]);
    AllowedFixed(row[AllowedGuestsCol]);
    CompanionsFixed(row[CompanionsCol]);
    FixRowIdentity(row);
  }

  /** Only the Role, Status, AllowedGuests and Companions cells are ever written. */
  lemma FixRowFrame(row: Row)
    requires |row| == Columns
    ensures forall j :: (0 <= j < Columns && j != RoleCol && j != StatusCol && j != AllowedGuestsCol && j != CompanionsCol
      ==> FixRow(row)[j] == row[j])
  {
  }

  /** Repairing twice is repairing once. */
  lemma FixRowIdempotent(row: Row)
    requires |row| == Columns
    ensures FixRow(FixRow(row)) == FixRow(row)
  {
    FixRowValid(row);
    FixRowNoop(FixRow(row));
  }

  /** `parseInt` of a number's text gives the number back, so a nonzero allowance survives `createGuest`. */
  lemma AllowedOfText(n: int)
    requires n != 0
    ensures AllowedOf(Some(IntToString(n))) == n
  {
    ParseIntOfIntToString(n);
  }

  /** The cells `createGuest` writes for a migrated row that `fixMigrationIssues` inspects. */
  lemma MigratedRowCells(row: Row, id: string, timestamp: string)
    requires Migratable(row)
    ensures NewGuestRow(GuestDataOf(row), id, timestamp).Ok?
    ensures var r := NewGuestRow(GuestDataOf(row), id, timestamp).value;
      var allowed := CellCount(At(row, OldGuestCountCol));
      && r[RoleCol] == Str("Guest")
      && r[StatusCol] == Str(MigratedStatus(At(row, OldRsvpCol)))
      && r[AllowedGuestsCol] == Num(allowed)
      && r[CompanionsCol] == Str(EncodeCompanions(Placeholders(allowed)))
  {
    NotRejected(row);
    NewGuestRowCells(GuestDataOf(row), id, timestamp);
    AllowedOfText(CellCount(At(row, OldGuestCountCol)));
    TrimNoop("Guest");
  }

  /** A migrated row needs a repair exactly when its old guest count was below one. */
  lemma MigratedRowNeedsFix(row: Row, id: string, timestamp: string)
    requires Migratable(row)
    ensures NewGuestRow(GuestDataOf(row), id, timestamp).Ok?
    ensures NeedsFix(NewGuestRow(GuestDataOf(row), id, timestamp).value)
      <==> CellCount(At(row, OldGuestCountCol)) < 1
  {
    var allowed := CellCount(At(row, OldGuestCountCol));
    MigratedRowCells(row, id, timestamp);
    var r := NewGuestRow(GuestDataOf(row), id, timestamp).value;
    CreatedRowNeedsFix(r, MigratedStatus(At(row, OldRsvpCol)), allowed, Placeholders(allowed));
  }

  /** A row with role `Guest`, a valid status and well-formed companions needs a repair only for its allowance. */
  lemma CreatedRowNeedsFix(r: Row, status: string, allowed: int, cs: seq<Companion>)
    requires |r| == Columns && status in ValidStatuses
    requires r[RoleCol] == Str("Guest") && r[StatusCol] == Str(status)
    requires r[AllowedGuestsCol] == Num(allowed) && r[CompanionsCol] == Str(EncodeCompanions(cs))
    ensures NeedsFix(r) <==> allowed < 1
  {
    TrimNoop("Guest");
    assert !RoleNeedsFix(At(r, RoleCol));
    DecodeEncodedCompanions(cs);
    assert !CompanionsNeedFix(At(r, CompanionsCol));
  }

  /** After a repair pass no row needs repair, so a second pass counts none. */
  lemma {:induction false} SecondPassFixesNothing(rows: seq<Row>)
    requires forall i :: 0 <= i < |rows| ==> !NeedsFix(rows[i])
    ensures Seqs.Count(rows, NeedsFix) == 0
  {
    if rows != [] {
      SecondPassFixesNothing(rows[1..]);
    }
  }

  /**
   * `fixMigrationIssues()`: every data row of the Guests sheet repaired, and the number of
   * rows that needed a repair. A missing sheet is left alone.
   */
  method FixMigrationIssues(guests: GuestTable?) returns (fixedCount: nat)
    requires guests != null ==> guests.Valid()
    modifies guests
    ensures guests == null ==> fixedCount == 0
    ensures guests != null ==> (guests.Valid() && guests.header == old(guests.header)
      && guests.rows == FixAll(old(guests.rows))
      && fixedCount == Seqs.Count(old(guests.rows), NeedsFix))
  {
    if guests == null {
      return 0;
    }
    var data := guests.rows;
    fixedCount := 0;
    for i := 0 to |data|
      invariant guests.Valid() && guests.header == old(guests.header)
      invariant guests.rows == FixedUpTo(data, i)
      invariant fixedCount == Seqs.Count(data[..i], NeedsFix)
    {
      Seqs.CountSnoc(data, i, NeedsFix);
      FixedUpToStep(data, i);
      fixedCount := FixOne(guests, data, i, fixedCount);
    }
    FixedUpToAll(data);
    assert data[..|data|] == data;
  }

  /** One row of `fixMigrationIssues()`: its repairs written back, and the count raised when it needed any. */
  method FixOne(guests: GuestTable, data: seq<Row>, i: nat, count: nat) returns (newCount: nat)
    requires guests.Valid() && i < |data| == |guests.rows| && |data[i]| == Columns
    modifies guests
    ensures guests.Valid() && guests.header == old(guests.header)
    ensures guests.rows == old(guests.rows)[i := FixRow(data[i])]
    ensures newCount == count + (if NeedsFix(data[i]) then 1 else 0)
  {
    guests.rows := guests.rows[i := FixRow(data[i])];
    newCount := count;
    if NeedsFix(data[i]) {
      newCount := newCount + 1;
    }
  }

  /** Every row repaired. */
  function FixAll(rows: seq<Row>): (r: seq<Row>)
    requires WellFormed(rows)
    ensures |r| == |rows|
  {
    seq(|rows|, i requires 0 <= i < |rows| => FixRow(rows[i]))
  }

  /** The sheet after the repair loop has passed its first `i` rows. */
  function FixedUpTo(rows: seq<Row>, i: nat): seq<Row>
    requires WellFormed(rows) && i <= |rows|
  {
    FixAll(rows[..i]) + rows[i..]
  }

  lemma FixedUpToStep(rows: seq<Row>, i: nat)
    requires WellFormed(rows) && i < |rows|
    ensures FixedUpTo(rows, i)[i := FixRow(rows[i])] == FixedUpTo(rows, i + 1)
  {
    var a, b := FixedUpTo(rows, i)[i := FixRow(rows[i])], FixedUpTo(rows, i + 1);
    assert |a| == |b|;
    forall j | 0 <= j < |a|
      ensures a[j] == b[j]
    {
      if j < i {
        assert rows[..i][j] == rows[j] == rows[..i + 1][j];
      } else if j > i {
        assert rows[i..][j - i] == rows[j] == rows[i + 1..][j - i - 1];
      }
    }
  }

  lemma FixedUpToAll(rows: seq<Row>)
    requires WellFormed(rows)
    ensures FixedUpTo(rows, |rows|) == FixAll(rows)
  {
    assert rows[..|rows|] == rows;
    assert rows[|rows|..] == [];
  }

  /** A second `fixMigrationIssues()` right after the first repairs nothing. */
  lemma FixTwice(rows: seq<Row>)
    requires WellFormed(rows)
    ensures Seqs.Count(FixAll(rows), NeedsFix) == 0
  {
    var fixed := FixAll(rows);
    forall i | 0 <= i < |fixed|
      ensures !NeedsFix(fixed[i])
    {
      FixRowValid(rows[i]);
    }
    SecondPassFixesNothing(fixed);
  }
}
