/**
 * The name normaliser of the RSVP lookup (components/sections/guest-list.tsx):
 * lower-case, drop every character that is neither a word character nor
 * whitespace, collapse each run of whitespace to one space, trim.
 */
module Names {
  import opened Text
  import Seqs

  predicate IsWordOrSpace(c: char) {
    IsWordChar(c) || IsSpace(c)
  }

  /** `.replace(/[^\w\s]/g, '')` */
  function KeepWordAndSpace(s: string): (r: string)
    ensures forall i :: 0 <= i < |r| ==> IsWordOrSpace(r[i])
  {
    Seqs.Filter(s, IsWordOrSpace)
  }

  /** `.replace(/\s+/g, ' ')`: every maximal run of whitespace becomes one space. */
  function CollapseSpaces(s: string): (r: string)
    ensures s == [] <==> r == []
    ensures s != [] ==> (IsSpace(s[0]) <==> r[0] == ' ') && (IsSpace(s[0]) <==> IsSpace(r[0]))
    ensures forall i :: 0 <= i < |r| - 1 ==> !(IsSpace(r[i]) && IsSpace(r[i + 1]))
    ensures (forall i :: 0 <= i < |s| ==> IsWordOrSpace(s[i])) ==>
              forall i :: 0 <= i < |r| ==> r[i] == ' ' || IsWordChar(r[i])
    ensures (forall i :: 0 <= i < |s| ==> !IsUpper(s[i])) ==> forall i :: 0 <= i < |r| ==> !IsUpper(r[i])
    decreases |s|
  {
    if s == [] then []
    else if IsSpace(s[0]) then
      TrimStartIsSuffix(s[1..]);
      [' '] + CollapseSpaces(TrimStart(s[1..]))
    else [s[0]] + CollapseSpaces(s[1..])
  }

  /** `normalizeName` */
  function NormalizeName(name: string): string {
    Trim(CollapseSpaces(KeepWordAndSpace(Lower(name))))
  }

  /**
   * The shape of every normalised name: lower-case word characters separated by
   * single spaces, with no space at either end.
   */
  predicate IsNormalName(r: string) {
    (forall i :: 0 <= i < |r| ==> r[i] == ' ' || (IsWordChar(r[i]) && !IsUpper(r[i])))
    && (r == [] || (r[0] != ' ' && r[|r| - 1] != ' '))
    && (forall i :: 0 <= i < |r| - 1 ==> !(r[i] == ' ' && r[i + 1] == ' '))
  }

  /** Trimming collapsed, lower-case word-and-space text yields a normalised name. */
  lemma TrimCollapsedIsNormal(c: string)
    requires forall i :: 0 <= i < |c| ==> c[i] == ' ' || (IsWordChar(c[i]) && !IsUpper(c[i]))
    requires forall i :: 0 <= i < |c| - 1 ==> !(IsSpace(c[i]) && IsSpace(c[i + 1]))
    ensures IsNormalName(Trim(c))
  {
    var r := Trim(c);
    TrimIsSlice(c);
    var a := |c| - |TrimStart(c)|;
    forall i | 0 <= i < |r|
      ensures r[i] == ' ' || (IsWordChar(r[i]) && !IsUpper(r[i]))
    {
      assert r[i] == c[a + i];
    }
    forall i | 0 <= i < |r| - 1
      ensures !(r[i] == ' ' && r[i + 1] == ' ')
    {
      assert r[i] == c[a + i] && r[i + 1] == c[a + i + 1];
    }
  }

  lemma NormalizeNameIsNormal(name: string)
    ensures IsNormalName(NormalizeName(name))
  {
    var k := KeepWordAndSpace(Lower(name));
    assert forall i :: 0 <= i < |k| ==> !IsUpper(k[i]);
    var c := CollapseSpaces(k);
    TrimCollapsedIsNormal(c);
  }

  /** A string with no two adjacent whitespace characters, whose only whitespace is the space, is left alone. */
  lemma {:induction false} CollapseSpacesNoop(s: string)
    requires forall i :: 0 <= i < |s| ==> !IsSpace(s[i]) || s[i] == ' '
    requires forall i :: 0 <= i < |s| - 1 ==> !(s[i] == ' ' && s[i + 1] == ' ')
    ensures CollapseSpaces(s) == s
  {
    if s != [] {
      if IsSpace(s[0]) {
        assert TrimStart(s[1..]) == s[1..];
      }
      CollapseSpacesNoop(s[1..]);
    }
  }

  /** A normalised name is its own normal form. */
  lemma NormalizeNameFixpoint(r: string)
    requires IsNormalName(r)
    ensures NormalizeName(r) == r
  {
    assert Lower(r) == r;
    Seqs.FilterAll(r, IsWordOrSpace);
    CollapseSpacesNoop(r);
    TrimNoop(r);
  }

  /** `normalizeName(normalizeName(x)) == normalizeName(x)` */
  lemma NormalizeNameIdempotent(name: string)
    ensures NormalizeName(NormalizeName(name)) == NormalizeName(name)
  {
    NormalizeNameIsNormal(name);
    NormalizeNameFixpoint(NormalizeName(name));
  }
}
