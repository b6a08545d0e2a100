/**
 * The string primitives the application leans on, restricted to ASCII:
 * `toLowerCase`, `trim`, `includes`, `parseInt(x) || 1` and `String(n)`.
 * Whitespace is what JavaScript's `\s` and `trim` treat as such within ASCII:
 * the space and the control characters 9 to 13.
 */
module Text {
  import opened Wrappers

  predicate IsSpace(c: char) {
    c == ' ' || 9 <= c as int <= 13
  }

  predicate IsUpper(c: char) {
    'A' <= c <= 'Z'
  }

  /** A character of the regular-expression class `\w`. */
  predicate IsWordChar(c: char) {
    'a' <= c <= 'z' || 'A' <= c <= 'Z' || '0' <= c <= '9' || c == '_'
  }

  function LowerChar(c: char): (r: char)
    ensures !IsUpper(r)
    ensures IsWordChar(c) <==> IsWordChar(r)
    ensures IsSpace(c) <==> IsSpace(r)
  {
    if IsUpper(c) then (c as int + 32) as char else c
  }

  /** `s.toLowerCase()` on ASCII text. */
  function Lower(s: string): (r: string)
    ensures |r| == |s|
    ensures forall i :: 0 <= i < |s| ==> r[i] == LowerChar(s[i])
  {
    seq(|s|, i requires 0 <= i < |s| => LowerChar(s[i]))
  }

  /** Drops the leading whitespace; what is left is a suffix of `s`. */
  function TrimStart(s: string): (r: string)
    ensures |r| <= |s|
    ensures r == [] || !IsSpace(r[0])
  {
    if s != [] && IsSpace(s[0]) then TrimStart(s[1..]) else s
  }

  /** Drops the trailing whitespace; what is left is a prefix of `s`. */
  function TrimEnd(s: string): (r: string)
    ensures |r| <= |s|
    ensures r == [] || !IsSpace(r[|r| - 1])
  {
    if s != [] && IsSpace(s[|s| - 1]) then TrimEnd(s[..|s| - 1]) else s
  }

  /** `TrimStart` keeps a suffix of `s`. */
  lemma {:induction false} TrimStartIsSuffix(s: string)
    ensures TrimStart(s) == s[|s| - |TrimStart(s)|..]
  {
    if s != [] && IsSpace(s[0]) {
      TrimStartIsSuffix(s[1..]);
    }
  }

  /** `TrimEnd` keeps a prefix of `s`. */
  lemma {:induction false} TrimEndIsPrefix(s: string)
    ensures TrimEnd(s) == s[..|TrimEnd(s)|]
  {
    if s != [] && IsSpace(s[|s| - 1]) {
      TrimEndIsPrefix(s[..|s| - 1]);
    }
  }

  /** Everything `TrimStart` drops is whitespace. */
  lemma {:induction false} TrimStartDropsSpaces(s: string)
    ensures forall i :: 0 <= i < |s| - |TrimStart(s)| ==> IsSpace(s[i])
  {
    if s != [] && IsSpace(s[0]) {
      TrimStartIsSuffix(s[1..]);
      TrimStartDropsSpaces(s[1..]);
      assert forall i :: 1 <= i < |s| - |TrimStart(s)| ==> s[i] == s[1..][i - 1];
    }
  }

  /** Everything `TrimEnd` drops is whitespace. */
  lemma {:induction false} TrimEndDropsSpaces(s: string)
    ensures forall i :: |TrimEnd(s)| <= i < |s| ==> IsSpace(s[i])
  {
    if s != [] && IsSpace(s[|s| - 1]) {
      TrimEndDropsSpaces(s[..|s| - 1]);
    }
  }

  /** `s.trim()` */
  function Trim(s: string): (r: string)
    ensures |r| <= |s|
  {
    TrimEnd(TrimStart(s))
  }

  /** The trimmed string neither starts nor ends with whitespace. */
  lemma TrimEnds(s: string)
    ensures Trim(s) == [] || (!IsSpace(Trim(s)[0]) && !IsSpace(Trim(s)[|Trim(s)| - 1]))
  {
    TrimEndIsPrefix(TrimStart(s));
  }

  /** The trimmed string is the slice of `s` that starts after the leading whitespace. */
  lemma TrimIsSlice(s: string)
    ensures var a := |s| - |TrimStart(s)|; a + |Trim(s)| <= |s| && Trim(s) == s[a..a + |Trim(s)|]
  {
    TrimStartIsSuffix(s);
    TrimEndIsPrefix(TrimStart(s));
  }

  /** A string with no whitespace at either end is left alone by `trim`. */
  lemma TrimNoop(s: string)
    requires s == [] || (!IsSpace(s[0]) && !IsSpace(s[|s| - 1]))
    ensures Trim(s) == s
  {
  }

  lemma TrimIdempotent(s: string)
    ensures Trim(Trim(s)) == Trim(s)
  {
    TrimEnds(s);
    TrimNoop(Trim(s));
  }

  /** `x || ''` for an optional text field of a request. */
  function Given(o: Option<string>): string {
    o.GetOr("")
  }

  /** `(data.x || '').toString().trim()`: the trimmed text of a request field, empty when absent. */
  function Field(o: Option<string>): string {
    Trim(Given(o))
  }

  /** `!data.x`: the request field is absent or empty. */
  predicate Missing(o: Option<string>) {
    o.None? || o.value == ""
  }

  /** `!s.trim()`: the string holds nothing but whitespace. */
  predicate IsBlank(s: string) {
    Trim(s) == []
  }

  lemma BlankIffAllSpace(s: string)
    ensures IsBlank(s) <==> forall i :: 0 <= i < |s| ==> IsSpace(s[i])
  {
    var t := TrimStart(s);
    TrimStartIsSuffix(s);
    if forall i :: 0 <= i < |s| ==> IsSpace(s[i]) {
      assert t == [];
    }
    if IsBlank(s) {
      // Everything TrimEnd drops is whitespace, and `t` does not start with any, so `t` is empty.
      TrimEndDropsSpaces(t);
      assert t == [];
      TrimStartDropsSpaces(s);
    }
  }

  /** `s.includes(q)` */
  predicate Contains(s: string, q: string)
    decreases |s|
  {
    q <= s || (s != [] && Contains(s[1..], q))
  }

  lemma ContainsAt(s: string, q: string, i: nat)
    requires i + |q| <= |s| && s[i..i + |q|] == q
    ensures Contains(s, q)
    decreases i
  {
    if i > 0 {
      assert s[1..][i - 1..i - 1 + |q|] == q;
      ContainsAt(s[1..], q, i - 1);
    }
  }

  /** How many times `c` occurs in `s`. */
  function Occurrences(s: string, c: char): nat {
    if s == [] then 0 else (if s[|s| - 1] == c then 1 else 0) + Occurrences(s[..|s| - 1], c)
  }

  lemma {:induction false} OccurrencesConcat(s: string, t: string, c: char)
    ensures Occurrences(s + t, c) == Occurrences(s, c) + Occurrences(t, c)
    decreases |t|
  {
    if t == [] {
      assert s + t == s;
    } else {
      assert (s + t)[..|s + t| - 1] == s + t[..|t| - 1];
      OccurrencesConcat(s, t[..|t| - 1], c);
    }
  }

  /** `Math.max(0, n)` */
  function Max0(n: int): nat {
    if n < 0 then 0 else n
  }

  // ---------------------------------------------------------------------
  // parseInt and String(n)
  // ---------------------------------------------------------------------

  predicate IsDigitIn(c: char, base: nat) {
    if base == 16 then '0' <= c <= '9' || 'a' <= c <= 'f' || 'A' <= c <= 'F'
    else '0' <= c <= '9'
  }

  function DigitValue(c: char): nat {
    if '0' <= c <= '9' then c as int - '0' as int
    else if 'a' <= c <= 'f' then c as int - 'a' as int + 10
    else if 'A' <= c <= 'F' then c as int - 'A' as int + 10
    else 0
  }

  /** The longest prefix of `s` made of digits of the given base. */
  function LeadingDigits(s: string, base: nat): string {
    if s != [] && IsDigitIn(s[0], base) then [s[0]] + LeadingDigits(s[1..], base) else []
  }

  function DigitsValue(ds: string, base: nat): nat {
    if ds == [] then 0 else DigitsValue(ds[..|ds| - 1], base) * base + DigitValue(ds[|ds| - 1])
  }

  /**
   * The digits after the sign: an optional `0x`/`0X` prefix switches to base 16, then
   * the longest run of digits is read. `None` when there is no digit at all.
   */
  function ParseMagnitude(u: string): Option<nat> {
    var hex := |u| >= 2 && u[0] == '0' && (u[1] == 'x' || u[1] == 'X');
    var base := if hex then 16 else 10;
    var ds := LeadingDigits(if hex then u[2..] else u, base);
    if ds == [] then None else Some(DigitsValue(ds, base))
  }

  /**
   * `parseInt(s)` with no radix: leading whitespace, an optional sign, then the
   * magnitude. `None` is NaN.
   */
  function ParseInt(s: string): Option<int> {
    var t := TrimStart(s);
    var signed := t != [] && (t[0] == '-' || t[0] == '+');
    match ParseMagnitude(if signed then t[1..] else t)
    case None => None
    case Some(m) => Some(if signed && t[0] == '-' then -(m as int) else m)
  }

  /** A string that starts with a letter is not a number: `parseInt("true")` is NaN. */
  lemma ParseIntOfWord(s: string)
    ensures s != [] && 'a' <= s[0] <= 'z' ==> ParseInt(s) == None
  {
    if s != [] && 'a' <= s[0] <= 'z' {
      assert TrimStart(s) == s;
    }
  }

  /** `parseInt(x) || 1`: NaN and 0 are falsy, so both give 1; every other value is kept. */
  function IntOrOne(p: Option<int>): (r: int)
    ensures r != 0
    ensures p.Some? && p.value != 0 ==> r == p.value
  {
    if p.None? || p.value == 0 then 1 else p.value
  }

  /** `parseInt(s) || 1`: the count a text field stands for, 1 when it holds no number or 0. */
  function CountOf(s: string): (n: int)
    ensures n != 0
    ensures s == "" ==> n == 1
  {
    IntOrOne(ParseInt(s))
  }

  function DigitChar(d: nat): char
    requires d < 10
  {
    ('0' as int + d) as char
  }

  function NatToString(n: nat): (r: string)
    ensures r != []
  {
    if n < 10 then [DigitChar(n)] else NatToString(n / 10) + [DigitChar(n % 10)]
  }

  lemma {:induction false} NatToStringDigits(n: nat)
    ensures forall i :: 0 <= i < |NatToString(n)| ==> '0' <= NatToString(n)[i] <= '9'
  {
    if n >= 10 {
      NatToStringDigits(n / 10);
    }
  }

  /** `String(n)` for an integer `n`. */
  function IntToString(n: int): (r: string)
    ensures r != [] && (r[0] == '-' || '0' <= r[0] <= '9')
  {
    NatToStringDigits(if n < 0 then -n else n);
    if n < 0 then "-" + NatToString(-n) else NatToString(n)
  }

  lemma {:induction false} NatToStringValue(n: nat)
    ensures DigitsValue(NatToString(n), 10) == n
  {
    if n >= 10 {
      var r := NatToString(n);
      assert r[..|r| - 1] == NatToString(n / 10);
      NatToStringValue(n / 10);
    }
  }

  lemma {:induction false} LeadingDigitsAll(s: string, base: nat)
    requires forall i :: 0 <= i < |s| ==> IsDigitIn(s[i], base)
    ensures LeadingDigits(s, base) == s
  {
    if s != [] {
      LeadingDigitsAll(s[1..], base);
    }
  }

  lemma ParseMagnitudeOfDigits(digits: string)
    requires digits != [] && forall i :: 0 <= i < |digits| ==> '0' <= digits[i] <= '9'
    ensures ParseMagnitude(digits) == Some(DigitsValue(digits, 10))
  {
    LeadingDigitsAll(digits, 10);
  }

  /** `parseInt` of text that starts with `-` and no whitespace. */
  lemma ParseIntNegative(s: string)
    requires s != [] && s[0] == '-'
    ensures ParseInt(s) == match ParseMagnitude(s[1..]) case None => None case Some(m) => Some(-(m as int))
  {
    assert TrimStart(s) == s;
  }

  /** `parseInt` of text that starts with a decimal digit. */
  lemma ParseIntUnsigned(s: string)
    requires s != [] && '0' <= s[0] <= '9'
    ensures ParseInt(s) == match ParseMagnitude(s) case None => None case Some(m) => Some(m as int)
  {
    assert TrimStart(s) == s;
  }

  lemma ParseIntOfNatToString(n: nat)
    ensures ParseInt(NatToString(n)) == Some(n)
  {
    var s := NatToString(n);
    NatToStringDigits(n);
    ParseIntUnsigned(s);
    ParseMagnitudeOfDigits(s);
    NatToStringValue(n);
    assert ParseMagnitude(s) == Some(n);
  }

  lemma ParseIntOfNegatedNatToString(n: nat)
    ensures ParseInt("-" + NatToString(n)) == Some(-(n as int))
  {
    var digits := NatToString(n);
    var s := "-" + digits;
    NatToStringDigits(n);
    assert s[1..] == digits;
    ParseIntNegative(s);
    ParseMagnitudeOfDigits(digits);
    NatToStringValue(n);
    assert ParseMagnitude(s[1..]) == Some(n);
  }

  /** `parseInt(String(n)) == n`: printing an integer and parsing it back gives the integer. */
  lemma ParseIntOfIntToString(n: int)
    ensures ParseInt(IntToString(n)) == Some(n)
  {
    if n < 0 {
      ParseIntOfNegatedNatToString(-n);
    } else {
      ParseIntOfNatToString(n);
    }
  }

  /** A non-zero count written out is read back as itself. */
  lemma CountOfIntToString(n: int)
    requires n != 0
    ensures CountOf(IntToString(n)) == n
  {
    ParseIntOfIntToString(n);
  }

  /** `parts.join(sep)` */
  function JoinWith(parts: seq<string>, sep: string): string {
    if parts == [] then ""
    else if |parts| == 1 then parts[0]
    else JoinWith(parts[..|parts| - 1], sep) + sep + parts[|parts| - 1]
  }

  /** `[a, ...rest].join(sep)` is `a + sep + rest.join(sep)` when `rest` is not empty. */
  lemma {:induction false} JoinWithCons(parts: seq<string>, sep: string)
    requires |parts| >= 2
    ensures JoinWith(parts, sep) == parts[0] + sep + JoinWith(parts[1..], sep)
  {
    var n := |parts|;
    if n > 2 {
      JoinWithCons(parts[..n - 1], sep);
      assert parts[..n - 1][1..] == parts[1..][..n - 2];
    } else {
      assert parts[1..] == [parts[1]];
    }
  }
}
