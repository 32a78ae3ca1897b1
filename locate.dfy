/** Finding the nonce placeholder in the serialized event, and the kernel's
    textual substitution of a nonce into that serialization. */
module Locate {
  import opened Encoding

  /** p occurs in s starting at index i. */
  predicate OccursAt<T(==)>(s: seq<T>, p: seq<T>, i: int)
  {
    0 <= i && i + |p| <= |s| && s[i..i + |p|] == p
  }

  /** The first occurrence of p in s at or after index i, -1 when none. */
  function IndexFrom<T(==)>(s: seq<T>, p: seq<T>, i: nat): (r: int)
    decreases |s| - i
    ensures r == -1 || (i <= r && OccursAt(s, p, r))
    ensures forall j :: i <= j && (r == -1 || j < r) ==> !OccursAt(s, p, j)
  {
    if i + |p| > |s| then -1
    else if s[i..i + |p|] == p then i
    else IndexFrom(s, p, i + 1)
  }

  /** `bytes.Index(s, p)`: the first index at which p occurs in s, -1 when
      it does not occur at all. */
  function IndexOf<T(==)>(s: seq<T>, p: seq<T>): (r: int)
    ensures r == -1 <==> forall j :: !OccursAt(s, p, j)
    ensures r >= 0 ==> OccursAt(s, p, r) && forall j :: j < r ==> !OccursAt(s, p, j)
  {
    IndexFrom(s, p, 0)
  }

  /** The kernel's step: write v over s at offset off (nothing else changes). */
  function Substitute<T>(s: seq<T>, off: nat, v: seq<T>): (r: seq<T>)
    requires off + |v| <= |s|
    ensures |r| == |s|
    ensures r[off..off + |v|] == v
    ensures forall j :: 0 <= j < |s| && !(off <= j < off + |v|) ==> r[j] == s[j]
  {
    s[..off] + v + s[off + |v|..]
  }

  /** Substituting the text that is already there changes nothing. */
  lemma SubstituteSame<T>(s: seq<T>, off: nat, v: seq<T>)
    requires OccursAt(s, v, off)
    ensures Substitute(s, off, v) == s
  {
    assert s == s[..off] + s[off..off + |v|] + s[off + |v|..];
  }

  /** An occurrence of a + b + c is an occurrence of a, then of b, then
      of c. */
  lemma OccursParts<T>(s: seq<T>, a: seq<T>, b: seq<T>, c: seq<T>, i: int)
    requires OccursAt(s, a + b + c, i)
    ensures OccursAt(s, a, i)
    ensures OccursAt(s, b, i + |a|)
    ensures OccursAt(s, c, i + |a| + |b|)
  {
    var ab := a + b;
    var p := ab + c;
    var t := s[i..i + |p|];
    assert t == p;
    assert p[..|ab|] == ab && p[|ab|..] == c;
    assert ab[..|a|] == a && ab[|a|..] == b;
    assert s[i..i + |a|] == t[..|a|] == a;
    assert s[i + |a|..i + |a| + |b|] == t[|a|..|ab|] == ab[|a|..] == b;
    assert s[i + |a| + |b|..i + |a| + |b| + |c|] == t[|ab|..] == c;
  }

  // ---------------------------------------------------------------------
  // Text to bytes
  // ---------------------------------------------------------------------

  predicate IsAscii(s: string)
  {
    forall i :: 0 <= i < |s| ==> s[i] as int < 128
  }

  /** Go's `[]byte(s)` for an ASCII string. */
  function Ascii(s: string): (b: seq<Byte>)
    requires IsAscii(s)
    ensures |b| == |s| && forall i :: 0 <= i < |s| ==> b[i] == s[i] as int
  {
    seq(|s|, i requires 0 <= i < |s| => s[i] as int)
  }

  lemma AsciiConcat(a: string, b: string)
    requires IsAscii(a) && IsAscii(b)
    ensures IsAscii(a + b) && Ascii(a + b) == Ascii(a) + Ascii(b)
  {
  }

  /** Occurrences are the same in the text and in its bytes. */
  lemma AsciiOccurs(s: string, p: string, j: int)
    requires IsAscii(s) && IsAscii(p)
    ensures OccursAt(Ascii(s), Ascii(p), j) <==> OccursAt(s, p, j)
  {
    if 0 <= j && j + |p| <= |s| {
      if Ascii(s)[j..j + |p|] == Ascii(p) {
        forall k | 0 <= k < |p| ensures s[j + k] == p[k] {
          assert Ascii(s)[j + k] == Ascii(p)[k];
        }
        assert s[j..j + |p|] == p;
      }
      if s[j..j + |p|] == p {
        forall k | 0 <= k < |p| ensures Ascii(s)[j + k] == Ascii(p)[k] {
          assert s[j + k] == p[k];
        }
        assert Ascii(s)[j..j + |p|] == Ascii(p);
      }
    }
  }

  lemma AsciiIndexOf(s: string, p: string)
    requires IsAscii(s) && IsAscii(p)
    ensures IndexOf(Ascii(s), Ascii(p)) == IndexOf(s, p)
  {
    forall j ensures OccursAt(Ascii(s), Ascii(p), j) <==> OccursAt(s, p, j) {
      AsciiOccurs(s, p, j);
    }
  }

  lemma AsciiInjective(a: string, b: string)
    requires IsAscii(a) && IsAscii(b) && Ascii(a) == Ascii(b)
    ensures a == b
  {
    assert forall i :: 0 <= i < |a| ==> a[i] as int == Ascii(a)[i];
  }

  // ---------------------------------------------------------------------
  // The placeholder's offset
  // ---------------------------------------------------------------------

  /** How main.go:898-899 locates the placeholder: the FIRST occurrence of
      its digits anywhere in the serialization. */
  function PlaceholderOffset(serialized: seq<Byte>, placeholder: seq<Byte>): int
  {
    IndexOf(serialized, placeholder)
  }

  /** The text of a nonce tag up to its value in NIP-01's compact JSON. */
  const Quote: string := "\""
  const NonceMarker: string := "[" + Quote + "nonce" + Quote + "," + Quote

  lemma MarkerAscii()
    ensures IsAscii(NonceMarker) && IsAscii(Quote) && |NonceMarker| == 10
  {
  }

  /** The corrected locator: the offset of the placeholder where it is the
      value of a nonce tag, found as the first occurrence of
      `["nonce","<placeholder>"`; -1 when there is none. */
  function NonceValueOffset(serialized: seq<Byte>, placeholder: seq<Byte>): (r: int)
    ensures r == -1 || r >= 10
    ensures r >= 0 ==> OccursAt(serialized, placeholder, r)
    ensures r >= 0 ==> OccursAt(serialized, Ascii(NonceMarker), r - 10)
    ensures r >= 0 ==> OccursAt(serialized, Ascii(Quote), r + |placeholder|)
    ensures r == -1 <==> forall j :: !OccursAt(serialized, Ascii(NonceMarker) + placeholder + Ascii(Quote), j)
  {
    MarkerAscii();
    var marker := Ascii(NonceMarker);
    var m := IndexOf(serialized, marker + placeholder + Ascii(Quote));
    if m < 0 then -1
    else
      OccursParts(serialized, marker, placeholder, Ascii(Quote), m);
      m + 10
  }

  /** Which of the two locators a search uses: main.go:898-899 as written
      (`FirstOccurrence`), or the corrected one (`NonceValue`). */
  datatype Locator = FirstOccurrence | NonceValue

  /** The placeholder's offset under either locator. Both return -1 or an
      occurrence of the placeholder; the locator as written returns -1
      exactly when the placeholder occurs nowhere, and otherwise its first
      occurrence. */
  function LocatePlaceholder(l: Locator, serialized: seq<Byte>, placeholder: seq<Byte>): (r: int)
    ensures r == -1 || OccursAt(serialized, placeholder, r)
    ensures l.FirstOccurrence? ==> (r == -1 <==> forall j :: !OccursAt(serialized, placeholder, j))
    ensures l.FirstOccurrence? && r >= 0 ==> forall j :: j < r ==> !OccursAt(serialized, placeholder, j)
    ensures l.NonceValue? ==>
      (r == -1 <==> forall j :: !OccursAt(serialized, Ascii(NonceMarker) + placeholder + Ascii(Quote), j))
  {
    match l
    case FirstOccurrence => PlaceholderOffset(serialized, placeholder)
    case NonceValue => NonceValueOffset(serialized, placeholder)
  }
}
