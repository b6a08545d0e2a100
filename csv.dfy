/**
 * The CSV text of the sheet-side export (google-apps-script/guest-management.js,
 * `exportGuestsToCSV`): a cell is wrapped in double quotes when it holds a comma,
 * a double quote or a line feed, with each inner quote doubled, as section 2, rules 6
 * and 7, of RFC 4180 ask. Cells are joined by commas and each record ends with a line
 * feed. The reader here ends a record at a line feed and keeps a carriage return
 * as data (RFC 4180 ends records with CRLF); the round trip shows it reads every
 * cell back.
 */
module Csv {
  import opened Wrappers
  import opened Text
  import Seqs

  predicate NeedsQuotes(s: string) {
    ',' in s || '"' in s || '\n' in s
  }

  /** `s.replace(/"/g, '""')` */
  function DoubleQuotes(s: string): string {
    if s == [] then []
    else (if s[0] == '"' then "\"\"" else [s[0]]) + DoubleQuotes(s[1..])
  }

  /** One cell of the export. */
  function EscapeCell(s: string): (r: string)
    ensures !NeedsQuotes(s) ==> r == s
    ensures NeedsQuotes(s) ==> |r| >= 2 && r[0] == '"' && r[|r| - 1] == '"'
  {
    if NeedsQuotes(s) then "\"" + DoubleQuotes(s) + "\"" else s
  }

  /** `row.map(escape).join(',') + '\n'` */
  function EncodeRecord(cells: seq<string>): string {
    JoinWith(Seqs.Map(cells, EscapeCell), ",") + "\n"
  }

  function EncodeTable(rows: seq<seq<string>>): string {
    if rows == [] then "" else EncodeRecord(rows[0]) + EncodeTable(rows[1..])
  }

  // ---------------------------------------------------------------------
  // A reader for records ended by a line feed
  // ---------------------------------------------------------------------

  /** A field without quotes runs up to the next comma or line feed. */
  function ParseUnquoted(s: string): (r: (string, string))
    ensures |r.1| <= |s|
  {
    if s == [] || s[0] == ',' || s[0] == '\n' then ([], s)
    else
      var (f, rest) := ParseUnquoted(s[1..]);
      ([s[0]] + f, rest)
  }

  /** The body of a quoted field, after its opening quote: a doubled quote is one quote, a single one ends it. */
  function ParseQuoted(s: string): (r: Option<(string, string)>)
    ensures r.Some? ==> |r.value.1| < |s|
  {
    if s == [] then None
    else if s[0] == '"' then
      if |s| >= 2 && s[1] == '"' then
        match ParseQuoted(s[2..])
        case None => None
        case Some((f, rest)) => Some((['"'] + f, rest))
      else Some(([], s[1..]))
    else
      match ParseQuoted(s[1..])
      case None => None
      case Some((f, rest)) => Some(([s[0]] + f, rest))
  }

  function ParseField(s: string): (r: Option<(string, string)>)
    ensures r.Some? ==> |r.value.1| <= |s|
  {
    if s != [] && s[0] == '"' then ParseQuoted(s[1..]) else Some(ParseUnquoted(s))
  }

  /** The fields of one record up to and including its line feed, and the text after it. */
  function ParseRecord(s: string): (r: Option<(seq<string>, string)>)
    ensures r.Some? ==> |r.value.1| < |s|
    decreases |s|
  {
    match ParseField(s)
    case None => None
    case Some((f, rest)) =>
      if rest != [] && rest[0] == '\n' then Some(([f], rest[1..]))
      else if rest != [] && rest[0] == ',' then
        match ParseRecord(rest[1..])
        case None => None
        case Some((fs, after)) => Some(([f] + fs, after))
      else None
  }

  function ParseTable(s: string): Option<seq<seq<string>>>
    decreases |s|
  {
    if s == [] then Some([])
    else match ParseRecord(s)
      case None => None
      case Some((row, rest)) =>
        match ParseTable(rest)
        case None => None
        case Some(rows) => Some([row] + rows)
  }

  /** What may follow a field in the export: the next field's comma or the record's line feed. */
  predicate FieldEnd(rest: string) {
    rest != [] && (rest[0] == ',' || rest[0] == '\n')
  }

  lemma {:induction false} ParseUnquotedPlain(c: string, rest: string)
    requires !NeedsQuotes(c) && FieldEnd(rest)
    ensures ParseUnquoted(c + rest) == (c, rest)
  {
    if c != [] {
      assert (c + rest)[1..] == c[1..] + rest;
      ParseUnquotedPlain(c[1..], rest);
      assert [c[0]] + c[1..] == c;
    } else {
      assert c + rest == rest;
    }
  }

  lemma {:induction false} ParseQuotedDoubled(c: string, rest: string)
    requires FieldEnd(rest)
    ensures ParseQuoted(DoubleQuotes(c) + "\"" + rest) == Some((c, rest))
  {
    var s := DoubleQuotes(c) + "\"" + rest;
    if c == [] {
      assert s == "\"" + rest && s[1..] == rest;
    } else {
      var tail := DoubleQuotes(c[1..]) + "\"" + rest;
      ParseQuotedDoubled(c[1..], rest);
      if c[0] == '"' {
        assert s == "\"\"" + tail && s[2..] == tail;
      } else {
        assert s == [c[0]] + tail && s[1..] == tail;
      }
      assert [c[0]] + c[1..] == c;
    }
  }

  /** A field that opens with a quote is read as a quoted body. */
  lemma QuotedField(t: string)
    ensures ParseField("\"" + t) == ParseQuoted(t)
  {
    assert ("\"" + t)[1..] == t;
  }

  /** A field that does not open with a quote is read as an unquoted field. */
  lemma UnquotedField(t: string)
    requires t == [] || t[0] != '"'
    ensures ParseField(t) == Some(ParseUnquoted(t))
  {
  }

  /** A cell written by the export, followed by a comma or a line feed, is read back exactly. */
  lemma ParseEscapedCell(c: string, rest: string)
    requires FieldEnd(rest)
    ensures ParseField(EscapeCell(c) + rest) == Some((c, rest))
  {
    if NeedsQuotes(c) {
      var d := DoubleQuotes(c);
      Seqs.AppendAssoc("\"" + d, "\"", rest);
      Seqs.AppendAssoc("\"", d, "\"" + rest);
      Seqs.AppendAssoc(d, "\"", rest);
      QuotedField(d + "\"" + rest);
      ParseQuotedDoubled(c, rest);
    } else {
      ParseUnquotedPlain(c, rest);
      if c != [] {
        assert (c + rest)[0] == c[0];
      }
      UnquotedField(c + rest);
    }
  }

  lemma {:induction false} ParseEncodedFields(cells: seq<string>, rest: string)
    requires cells != []
    ensures ParseRecord(JoinWith(Seqs.Map(cells, EscapeCell), ",") + "\n" + rest) == Some((cells, rest))
  {
    var m := Seqs.Map(cells, EscapeCell);
    if |cells| == 1 {
      assert JoinWith(m, ",") == EscapeCell(cells[0]);
      assert EscapeCell(cells[0]) + "\n" + rest == EscapeCell(cells[0]) + ("\n" + rest);
      ParseEscapedCell(cells[0], "\n" + rest);
      assert ("\n" + rest)[1..] == rest;
      assert [cells[0]] == cells;
    } else {
      JoinWithCons(m, ",");
      assert m[1..] == Seqs.Map(cells[1..], EscapeCell);
      var tail := JoinWith(m[1..], ",") + "\n" + rest;
      assert JoinWith(m, ",") + "\n" + rest == EscapeCell(cells[0]) + ("," + tail);
      ParseEscapedCell(cells[0], "," + tail);
      assert ("," + tail)[1..] == tail;
      ParseEncodedFields(cells[1..], rest);
      assert [cells[0]] + cells[1..] == cells;
    }
  }

  /** A record with at least one cell, followed by anything, is read back as the same cells. */
  lemma ParseEncodedRecord(cells: seq<string>, rest: string)
    requires cells != []
    ensures ParseRecord(EncodeRecord(cells) + rest) == Some((cells, rest))
  {
    ParseEncodedFields(cells, rest);
  }

  /** Reading the export with the line-feed reader gives back every row and every cell. */
  lemma {:induction false} ParseEncodedTable(rows: seq<seq<string>>)
    requires forall i :: 0 <= i < |rows| ==> rows[i] != []
    ensures ParseTable(EncodeTable(rows)) == Some(rows)
  {
    if rows != [] {
      ParseEncodedRecord(rows[0], EncodeTable(rows[1..]));
      ParseEncodedTable(rows[1..]);
      assert [rows[0]] + rows[1..] == rows;
    }
  }

  /** The export of `rows` followed by one more row is the export with that row's record appended. */
  lemma {:induction false} EncodeTableSnoc(rows: seq<seq<string>>, row: seq<string>)
    ensures EncodeTable(rows + [row]) == EncodeTable(rows) + EncodeRecord(row)
  {
    if rows == [] {
      assert rows + [row] == [row];
      assert [row][1..] == [];
    } else {
      assert (rows + [row])[1..] == rows[1..] + [row];
      EncodeTableSnoc(rows[1..], row);
    }
  }
}
