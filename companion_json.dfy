/**
 * The Companions cell of the guest sheet holds `JSON.stringify(companions)`: an array
 * of `{"name": …, "relationship": …}` objects written without whitespace. The encoder
 * below is that serialisation; the decoder reads it back, as `JSON.parse` does for
 * every text the encoder can produce.
 */
module CompanionJson {
  import opened Wrappers
  import opened GuestModel
  import Seqs

  // ---------------------------------------------------------------------
  // Strings
  // ---------------------------------------------------------------------

  function HexDigit(d: nat): (c: char)
    requires d < 16
  {
    if d < 10 then ('0' as int + d) as char else ('a' as int + d - 10) as char
  }

  /** How `JSON.stringify` writes one character inside a string literal. */
  function EscapeChar(c: char): (r: string)
    ensures r != [] && r[0] != '"'
    ensures r[0] == '\\' <==> (c == '"' || c == '\\' || c as int < 0x20)
  {
    if c == '"' then "\\\""
    else if c == '\\' then "\\\\"
    else if c as int == 8 then "\\b"
    else if c as int == 9 then "\\t"
    else if c as int == 10 then "\\n"
    else if c as int == 12 then "\\f"
    else if c as int == 13 then "\\r"
    else if c as int < 0x20 then "\\u00" + [HexDigit(c as int / 16), HexDigit(c as int % 16)]
    else [c]
  }

  function EscapeString(s: string): string {
    if s == [] then [] else EscapeChar(s[0]) + EscapeString(s[1..])
  }

  function HexValue(c: char): (r: Option<nat>)
    ensures r.Some? ==> r.value < 16
  {
    if '0' <= c <= '9' then Some(c as int - '0' as int)
    else if 'a' <= c <= 'f' then Some(c as int - 'a' as int + 10)
    else if 'A' <= c <= 'F' then Some(c as int - 'A' as int + 10)
    else None
  }

  /** The four hex digits of a `\uXXXX` escape as a character; a lone surrogate is refused. */
  function UnicodeEscape(h: string): Option<char>
    requires |h| == 4
  {
    match (HexValue(h[0]), HexValue(h[1]), HexValue(h[2]), HexValue(h[3]))
    case (Some(a), Some(b), Some(c), Some(d)) =>
      var v := ((a * 16 + b) * 16 + c) * 16 + d;
      if 0xD800 <= v < 0xE000 then None else Some(v as char)
    case _ => None
  }

  /**
   * One character of a string literal's body, escaped or not, and the text after it.
   * The closing quote and raw control characters are not characters of the body.
   */
  function DecodeChar(s: string): (r: Option<(char, string)>)
    ensures r.Some? ==> |r.value.1| < |s|
  {
    if s == [] || s[0] == '"' || s[0] as int < 0x20 then None
    else if s[0] != '\\' then Some((s[0], s[1..]))
    else if |s| < 2 then None
    else if s[1] == '"' then Some(('"', s[2..]))
    else if s[1] == '\\' then Some(('\\', s[2..]))
    else if s[1] == '/' then Some(('/', s[2..]))
    else if s[1] == 'b' then Some((8 as char, s[2..]))
    else if s[1] == 't' then Some((9 as char, s[2..]))
    else if s[1] == 'n' then Some((10 as char, s[2..]))
    else if s[1] == 'f' then Some((12 as char, s[2..]))
    else if s[1] == 'r' then Some((13 as char, s[2..]))
    else if s[1] == 'u' && |s| >= 6 then
      match UnicodeEscape(s[2..6])
      case Some(c) => Some((c, s[6..]))
      case None => None
    else None
  }

  /** The body of a string literal up to its closing quote: the string, and the text after the quote. */
  function DecodeStringBody(s: string): (r: Option<(string, string)>)
    ensures r.Some? ==> |r.value.1| < |s|
    decreases |s|
  {
    if s != [] && s[0] == '"' then Some(([], s[1..]))
    else match DecodeChar(s)
      case None => None
      case Some((c, rest)) =>
        match DecodeStringBody(rest)
        case None => None
        case Some((t, after)) => Some(([c] + t, after))
  }

  lemma DecodeEscapedChar(c: char, more: string)
    ensures DecodeChar(EscapeChar(c) + more) == Some((c, more))
  {
    var e := EscapeChar(c);
    var s := e + more;
    if c as int < 0x20 && c as int != 8 && c as int != 9 && c as int != 10 && c as int != 12 && c as int != 13 {
      var h := s[2..6];
      assert h == ['0', '0', HexDigit(c as int / 16), HexDigit(c as int % 16)];
      assert s[6..] == more;
    } else if c == '"' || c == '\\' || c as int < 0x20 {
      assert |e| == 2 && s[2..] == more;
    } else {
      assert |e| == 1 && s[1..] == more;
    }
  }

  lemma {:induction false} DecodeEscapedString(t: string, rest: string)
    ensures DecodeStringBody(EscapeString(t) + "\"" + rest) == Some((t, rest))
  {
    var s := EscapeString(t) + "\"" + rest;
    if t == [] {
      assert s == "\"" + rest;
      assert s[1..] == rest;
    } else {
      var tail := EscapeString(t[1..]) + "\"" + rest;
      assert s == EscapeChar(t[0]) + tail;
      DecodeEscapedChar(t[0], tail);
      DecodeEscapedString(t[1..], rest);
      assert [t[0]] + t[1..] == t;
    }
  }

  // ---------------------------------------------------------------------
  // The companion list
  // ---------------------------------------------------------------------

  const NameKey := "{\"name\":\""
  const RelationshipKey := "\",\"relationship\":\""

  function EncodeCompanion(c: Companion): string {
    NameKey + EscapeString(c.name) + RelationshipKey + EscapeString(c.relationship) + "\"}"
  }

  function EncodeElements(cs: seq<Companion>): string {
    if cs == [] then ""
    else if |cs| == 1 then EncodeCompanion(cs[0])
    else EncodeCompanion(cs[0]) + "," + EncodeElements(cs[1..])
  }

  /** `JSON.stringify(companions)` */
  function EncodeCompanions(cs: seq<Companion>): (r: string)
    ensures |r| >= 2 && r[0] == '[' && r[|r| - 1] == ']'
  {
    "[" + EncodeElements(cs) + "]"
  }

  /** `s` with the literal `lit` removed from its front, if it starts with it. */
  function Expect(s: string, lit: string): (r: Option<string>)
    ensures r.Some? ==> |r.value| == |s| - |lit|
  {
    if lit <= s then Some(s[|lit|..]) else None
  }

  function DecodeCompanion(s: string): (r: Option<(Companion, string)>)
    ensures r.Some? ==> |r.value.1| < |s|
  {
    match Expect(s, NameKey)
    case None => None
    case Some(s1) =>
      match DecodeStringBody(s1)
      case None => None
      case Some((name, s2)) =>
        match Expect(s2, RelationshipKey[1..])
        case None => None
        case Some(s3) =>
          match DecodeStringBody(s3)
          case None => None
          case Some((relationship, s4)) =>
            match Expect(s4, "}")
            case None => None
            case Some(s5) => Some((Companion(name, relationship), s5))
  }

  /** The elements of a non-empty array and its closing bracket, which must end the text. */
  function DecodeElements(s: string): Option<seq<Companion>>
    decreases |s|
  {
    match DecodeCompanion(s)
    case None => None
    case Some((c, rest)) =>
      if rest == "]" then Some([c])
      else if rest != [] && rest[0] == ',' then
        match DecodeElements(rest[1..])
        case None => None
        case Some(cs) => Some([c] + cs)
      else None
  }

  /** `JSON.parse(cell)` for a companion array; `None` is a parse error. */
  function DecodeCompanions(s: string): Option<seq<Companion>> {
    if s == "[]" then Some([])
    else match Expect(s, "[")
      case None => None
      case Some(rest) => DecodeElements(rest)
  }

  lemma ExpectPrefix(lit: string, t: string)
    ensures Expect(lit + t, lit) == Some(t)
  {
    assert lit <= lit + t;
  }

  /** `DecodeCompanion` step by step: the name key, the name, the relationship key, the relationship, the brace. */
  lemma DecodeCompanionSteps(s: string, s1: string, s2: string, s3: string, s4: string, rest: string, c: Companion)
    requires Expect(s, NameKey) == Some(s1)
    requires DecodeStringBody(s1) == Some((c.name, s2))
    requires Expect(s2, RelationshipKey[1..]) == Some(s3)
    requires DecodeStringBody(s3) == Some((c.relationship, s4))
    requires Expect(s4, "}") == Some(rest)
    ensures DecodeCompanion(s) == Some((c, rest))
  {
  }

  lemma CompanionTextParts(a: string, b: string, rest: string)
    ensures NameKey + a + RelationshipKey + b + "\"}" + rest
      == NameKey + (a + "\"" + (RelationshipKey[1..] + (b + "\"" + ("}" + rest))))
  {
    assert RelationshipKey == "\"" + RelationshipKey[1..];
  }

  /** The encoding of a companion, cut where the decoder's steps meet. */
  lemma EncodeCompanionParts(c: Companion, rest: string)
    ensures EncodeCompanion(c) + rest
      == NameKey + (EscapeString(c.name) + "\"" + (RelationshipKey[1..] + (EscapeString(c.relationship) + "\"" + ("}" + rest))))
  {
    CompanionTextParts(EscapeString(c.name), EscapeString(c.relationship), rest);
  }

  lemma DecodeEncodedCompanion(c: Companion, rest: string)
    ensures DecodeCompanion(EncodeCompanion(c) + rest) == Some((c, rest))
  {
    var s4 := "}" + rest;
    var s3 := EscapeString(c.relationship) + "\"" + s4;
    var s2 := RelationshipKey[1..] + s3;
    var s1 := EscapeString(c.name) + "\"" + s2;
    EncodeCompanionParts(c, rest);
    ExpectPrefix(NameKey, s1);
    DecodeEscapedString(c.name, s2);
    ExpectPrefix(RelationshipKey[1..], s3);
    DecodeEscapedString(c.relationship, s4);
    ExpectPrefix("}", rest);
    DecodeCompanionSteps(EncodeCompanion(c) + rest, s1, s2, s3, s4, rest, c);
  }

  /** A companion followed by the closing bracket ends the array. */
  lemma DecodeLastElement(s: string, c: Companion)
    requires DecodeCompanion(s) == Some((c, "]"))
    ensures DecodeElements(s) == Some([c])
  {
  }

  /** A companion followed by a comma and the decodable rest of the array. */
  lemma DecodeNextElement(s: string, c: Companion, t: string, cs: seq<Companion>)
    requires DecodeCompanion(s) == Some((c, "," + t))
    requires DecodeElements(t) == Some(cs)
    ensures DecodeElements(s) == Some([c] + cs)
  {
    assert ("," + t)[1..] == t;
  }

  lemma ConcatRight(a: string, b: string, c: string, d: string)
    ensures a + b + c + d == a + (b + (c + d))
  {
  }

  /** An array of one companion reads back. */
  lemma DecodeEncodedSingle(c: Companion)
    ensures DecodeElements(EncodeElements([c]) + "]") == Some([c])
  {
    DecodeEncodedCompanion(c, "]");
    DecodeLastElement(EncodeCompanion(c) + "]", c);
  }

  /** The encoding of two or more companions: the first, a comma, the others. */
  lemma EncodeElementsCons(cs: seq<Companion>)
    requires |cs| >= 2
    ensures EncodeElements(cs) + "]" == EncodeCompanion(cs[0]) + ("," + (EncodeElements(cs[1..]) + "]"))
  {
    ConcatRight(EncodeCompanion(cs[0]), ",", EncodeElements(cs[1..]), "]");
  }

  /** A longer array reads back when its tail does. */
  lemma DecodeEncodedCons(cs: seq<Companion>, s: string)
    requires |cs| >= 2
    requires s == EncodeCompanion(cs[0]) + ("," + (EncodeElements(cs[1..]) + "]"))
    requires DecodeElements(EncodeElements(cs[1..]) + "]") == Some(cs[1..])
    ensures DecodeElements(s) == Some(cs)
  {
    var tail := EncodeElements(cs[1..]) + "]";
    DecodeEncodedCompanion(cs[0], "," + tail);
    DecodeNextElement(s, cs[0], tail, cs[1..]);
    Seqs.HeadTail(cs);
  }

  lemma {:induction false} DecodeEncodedElements(cs: seq<Companion>)
    requires cs != []
    ensures DecodeElements(EncodeElements(cs) + "]") == Some(cs)
  {
    if |cs| == 1 {
      DecodeEncodedSingle(cs[0]);
      assert [cs[0]] == cs;
    } else {
      DecodeEncodedElements(cs[1..]);
      EncodeElementsCons(cs);
      DecodeEncodedCons(cs, EncodeElements(cs) + "]");
    }
  }

  /** `JSON.parse(JSON.stringify(companions))` gives the companions back. */
  lemma DecodeEncodedCompanions(cs: seq<Companion>)
    ensures DecodeCompanions(EncodeCompanions(cs)) == Some(cs)
  {
    if cs != [] {
      var e := EncodeCompanions(cs);
      assert e == "[" + (EncodeElements(cs) + "]");
      assert |EncodeElements(cs)| >= |NameKey|;
      DecodeEncodedElements(cs);
    }
  }
}
