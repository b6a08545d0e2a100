/**
 * The WeddingDetails sheet (google-apps-script/wedding-details-single-row.js): row 1
 * holds 26 headers and row 2 holds every wedding detail, one per column. `rows` are the
 * sheet's rows from row 1 down, so `rows[1]` is row 2. An update writes the 26 trimmed
 * request fields across row 2, a read gives them back, a delete clears them, and the
 * headers are put in place first whenever cell A1 is empty.
 */
module WeddingDetails {
  import opened Wrappers
  import opened Text
  import opened Cells

  /** The number of detail columns. */
  const Width := 26

  /** Row 1, column by column. */
  const Headers: seq<string> := [
    "Bride Full Name", "Bride Nickname", "Groom Full Name", "Groom Nickname",
    "Wedding Date", "Wedding Venue", "Wedding Tagline", "Theme", "Hashtag",
    "Ceremony Venue", "Ceremony Address", "Ceremony Time", "Ceremony Google Maps URL",
    "Reception Venue", "Reception Address", "Reception Time", "Reception Google Maps URL",
    "About the Bride", "About the Groom", "Shared Love Story",
    "Dress Code Theme", "Dress Code Note", "RSVP Deadline",
    "Bride Phone", "Groom Phone", "Contact Email"]

  /** The request field, as a path into the request body, that each column of row 2 holds. */
  const Fields: seq<string> := [
    "couple.bride", "couple.brideNickname", "couple.groom", "couple.groomNickname",
    "wedding.date", "wedding.venue", "wedding.tagline", "theme", "hashtag",
    "ceremony.venue", "ceremony.address", "ceremony.time", "ceremony.googleMapsUrl",
    "reception.venue", "reception.address", "reception.time", "reception.googleMapsUrl",
    "narratives.bride", "narratives.groom", "narratives.shared",
    "dressCode.theme", "dressCode.note", "details.rsvp.deadline",
    "contact.bridePhone", "contact.groomPhone", "contact.email"]

  /** A request body: the text at each field path the request carries. */
  type Body = map<string, string>

  function Lookup(body: Body, path: string): Option<string> {
    if path in body then Some(body[path]) else None
  }

  // ---------------------------------------------------------------------
  // Writing cells
  // ---------------------------------------------------------------------

  /** `getRange(r, 1, 1, |cells|).setValues([cells])` on one row: the first columns replaced, the rest kept. */
  function Overwrite(row: Row, cells: Row): (r: Row)
    ensures |r| == if |row| > |cells| then |row| else |cells|
    ensures forall c :: 0 <= c < |cells| ==> r[c] == cells[c]
    ensures forall c :: |cells| <= c < |row| ==> r[c] == row[c]
  {
    cells + (if |row| > |cells| then row[|cells|..] else [])
  }

  /** The same write on row `i + 1` of the sheet; a row just below the last one is added. */
  function WriteRow(rows: seq<Row>, i: nat, cells: Row): (r: seq<Row>)
    requires i <= |rows|
    ensures |r| == if i < |rows| then |rows| else |rows| + 1
    ensures r[i] == Overwrite(if i < |rows| then rows[i] else [], cells)
    ensures forall j :: 0 <= j < |rows| && j != i ==> r[j] == rows[j]
  {
    if i < |rows| then rows[i := Overwrite(rows[i], cells)] else rows + [Overwrite([], cells)]
  }

  /** `getLastRow() === 0 || getRange(1, 1).getValue() === ''` */
  predicate HeadersMissing(rows: seq<Row>) {
    rows == [] || At(rows[0], 0) == Empty
  }

  function HeaderRow(): (r: Row)
    ensures |r| == Width
  {
    seq(Width, c requires 0 <= c < Width => Str(Headers[c]))
  }

  /** The sheet after the header check that update, read and initialize begin with. */
  function WithHeaders(rows: seq<Row>): seq<Row> {
    if HeadersMissing(rows) then WriteRow(rows, 0, HeaderRow()) else rows
  }

  /** After the check row 1 exists and starts with a header; only row 1 may have changed. */
  lemma WithHeadersSpec(rows: seq<Row>)
    ensures |WithHeaders(rows)| == if rows == [] then 1 else |rows|
    ensures !HeadersMissing(WithHeaders(rows))
    ensures HeadersMissing(rows) ==> WithHeaders(rows)[0][..Width] == HeaderRow()
    ensures forall j :: 1 <= j < |rows| ==> WithHeaders(rows)[j] == rows[j]
  {
    if HeadersMissing(rows) {
      var r := WithHeaders(rows);
      assert r[0][0] == Str("Bride Full Name");
      assert r[0][..Width] == HeaderRow();
    }
  }

  // ---------------------------------------------------------------------
  // update
  // ---------------------------------------------------------------------

  /** `(body.x?.y || '').toString().trim()` for the field of column `c`. */
  function FieldText(body: Body, c: nat): string
    requires c < Width
  {
    Field(Lookup(body, Fields[c]))
  }

  /** The 26 values the update writes across row 2. */
  function DataRow(body: Body): (r: Row)
    ensures |r| == Width
  {
    seq(Width, c requires 0 <= c < Width => Str(FieldText(body, c)))
  }

  /** The sheet after `doPost` with `action: 'update'`. */
  function Updated(rows: seq<Row>, body: Body): seq<Row> {
    WithHeadersSpec(rows);
    WriteRow(WithHeaders(rows), 1, DataRow(body))
  }

  /**
   * The update writes the 26 trimmed fields, in column order, across row 2 and leaves the
   * cells after them and every row below alone; row 1 changes only when it lacked headers.
   */
  lemma UpdatedSpec(rows: seq<Row>, body: Body)
    ensures |Updated(rows, body)| == if |rows| <= 1 then 2 else |rows|
    ensures forall c :: 0 <= c < Width ==> Updated(rows, body)[1][c] == Str(FieldText(body, c))
    ensures |rows| >= 2 ==> (|Updated(rows, body)[1]| == if |rows[1]| > Width then |rows[1]| else Width)
    ensures |rows| >= 2 ==> forall c :: Width <= c < |rows[1]| ==> Updated(rows, body)[1][c] == rows[1][c]
    ensures forall j :: 2 <= j < |rows| ==> Updated(rows, body)[j] == rows[j]
    ensures Updated(rows, body)[0] == WithHeaders(rows)[0]
  {
    WithHeadersSpec(rows);
  }

  // ---------------------------------------------------------------------
  // doGet
  // ---------------------------------------------------------------------

  /** `values`: row 2's first 26 cells when row 2 exists, 26 empty strings otherwise. */
  function Values(rows: seq<Row>): (v: seq<Cell>)
    ensures |v| == Width
  {
    if |rows| >= 2 then seq(Width, c requires 0 <= c < Width => At(rows[1], c))
    else seq(Width, c requires 0 <= c < Width => Empty)
  }

  /** The details object `doGet` answers with, field by field in column order: `values[c] || ''`. */
  function Details(rows: seq<Row>): (d: seq<Cell>)
    ensures |d| == Width
  {
    seq(Width, c requires 0 <= c < Width => OrEmpty(Values(rows)[c]))
  }

  /** Every field of the details object is empty while the sheet has no row 2. */
  lemma DetailsWithoutRow2(rows: seq<Row>)
    requires |rows| < 2
    ensures forall c :: 0 <= c < Width ==> Details(rows)[c] == Empty
  {
  }

  /** Putting the headers in place does not change what is read. */
  lemma DetailsWithHeaders(rows: seq<Row>)
    ensures Details(WithHeaders(rows)) == Details(rows)
  {
    WithHeadersSpec(rows);
    if |rows| >= 2 {
      assert WithHeaders(rows)[1] == rows[1];
    }
    assert Values(WithHeaders(rows)) == Values(rows);
  }

  /** A read after an update gives back each trimmed field of the update, in its place. */
  lemma ReadAfterUpdate(rows: seq<Row>, body: Body)
    ensures forall c :: 0 <= c < Width ==> Details(Updated(rows, body))[c] == Str(FieldText(body, c))
  {
    UpdatedSpec(rows, body);
  }

  // ---------------------------------------------------------------------
  // delete and initialize
  // ---------------------------------------------------------------------

  function EmptyRow(): (r: Row)
    ensures |r| == Width
  {
    seq(Width, c requires 0 <= c < Width => Empty)
  }

  /** `getRange(2, 1, 1, 26).clearContent()` when row 2 exists. */
  function Cleared(rows: seq<Row>): seq<Row> {
    if |rows| >= 2 then WriteRow(rows, 1, EmptyRow()) else rows
  }

  /** A read after a delete gives an empty string in every field; the rows other than row 2 are kept. */
  lemma ReadAfterDelete(rows: seq<Row>)
    ensures |Cleared(rows)| == |rows|
    ensures forall j :: 0 <= j < |rows| && j != 1 ==> Cleared(rows)[j] == rows[j]
    ensures forall c :: 0 <= c < Width ==> Details(Cleared(rows))[c] == Empty
  {
  }

  /** `initializeWeddingDetails()`: the headers, then a row 2 of empty strings when there is none. */
  function Initialized(rows: seq<Row>): seq<Row> {
    var h := WithHeaders(rows);
    WithHeadersSpec(rows);
    if |h| < 2 then WriteRow(h, 1, EmptyRow()) else h
  }

  /** Initializing keeps an existing row 2 and otherwise leaves a sheet that reads as all empty. */
  lemma InitializedSpec(rows: seq<Row>)
    ensures |rows| >= 2 ==> |Initialized(rows)| == |rows| && Initialized(rows)[1..] == rows[1..]
    ensures |rows| < 2 ==> |Initialized(rows)| == 2 && forall c :: 0 <= c < Width ==> Details(Initialized(rows))[c] == Empty
    ensures !HeadersMissing(Initialized(rows))
  {
    WithHeadersSpec(rows);
    if |rows| >= 2 {
      assert Initialized(rows)[1..] == rows[1..];
    }
  }

  // ---------------------------------------------------------------------
  // The sheet
  // ---------------------------------------------------------------------

  const UpdatedMessage := "Wedding details updated successfully"
  const ClearedMessage := "Wedding details cleared successfully"
  const InitializedMessage := "Wedding details initialized"
  const InvalidAction := "Invalid action. Use \"update\", \"delete\", or \"initialize\"."

  class DetailsSheet {
    /** Row 1 (the headers) and below. */
    var rows: seq<Row>

    constructor (rows: seq<Row>)
      ensures this.rows == rows
    {
      this.rows := rows;
    }

    /** `doPost(e)`: the action's write, or an error and no write for any other action. */
    method Post(action: Option<string>, body: Body) returns (r: Result<string, string>)
      modifies this
      ensures action == Some("update") ==> r == Ok(UpdatedMessage) && rows == Updated(old(rows), body)
      ensures action == Some("delete") ==> r == Ok(ClearedMessage) && rows == Cleared(old(rows))
      ensures action == Some("initialize") ==> r == Ok(InitializedMessage) && rows == Initialized(old(rows))
      ensures action !in {Some("update"), Some("delete"), Some("initialize")} ==>
        r == Err(InvalidAction) && rows == old(rows)
    {
      if action == Some("update") {
        rows := Updated(rows, body);
        r := Ok(UpdatedMessage);
      } else if action == Some("delete") {
        rows := Cleared(rows);
        r := Ok(ClearedMessage);
      } else if action == Some("initialize") {
        rows := Initialized(rows);
        r := Ok(InitializedMessage);
      } else {
        r := Err(InvalidAction);
      }
    }

    /** `doGet(e)`: the headers put in place if missing, then row 2 read as the details object. */
    method Get() returns (details: seq<Cell>)
      modifies this
      ensures rows == WithHeaders(old(rows))
      ensures details == Details(old(rows))
    {
      DetailsWithHeaders(rows);
      rows := WithHeaders(rows);
      details := Details(rows);
    }
  }
}
