/**
 * The string operations the inbound-message processor and the CSV import
 * rely on: ASCII case mapping, Python's `str.strip()`, and substring search.
 */
module Text {

  /** The characters Python's `str.isspace()` accepts, i.e. those `strip()` removes. */
  predicate IsSpace(c: char) {
    c == ' ' || ('\t' <= c <= '\r') || ('\U{1C}' <= c <= '\U{1F}') || c == '\U{85}' || c == '\U{A0}'
    || c == '\U{1680}' || ('\U{2000}' <= c <= '\U{200A}') || c == '\U{2028}' || c == '\U{2029}'
    || c == '\U{202F}' || c == '\U{205F}' || c == '\U{3000}'
  }

  /** A word none of whose characters is whitespace. */
  predicate NoSpace(w: string) {
    forall k :: 0 <= k < |w| ==> !IsSpace(w[k])
  }

  /** A character outside the ASCII range (the Hebrew letters, for one). */
  predicate NonAscii(c: char) {
    c > '\U{7F}'
  }

  function UpperChar(c: char): char {
    if 'a' <= c <= 'z' then (c as int - 32) as char else c
  }

  function LowerChar(c: char): char {
    if 'A' <= c <= 'Z' then (c as int + 32) as char else c
  }

  /**
   * ASCII upper-casing: the length is kept, a non-ASCII character is never
   * touched, every character keeps its letter (the same once lower-cased),
   * and no lower-case ASCII letter is left.
   */
  function Upper(s: string): (r: string)
    ensures |r| == |s|
    ensures forall k :: 0 <= k < |s| && NonAscii(s[k]) ==> r[k] == s[k]
    ensures forall k :: 0 <= k < |r| ==> !('a' <= r[k] <= 'z')
    ensures forall k :: 0 <= k < |s| ==> LowerChar(r[k]) == LowerChar(s[k])
  {
    seq(|s|, k requires 0 <= k < |s| => UpperChar(s[k]))
  }

  /**
   * ASCII lower-casing: the length is kept, a non-ASCII character is never
   * touched, every character keeps its letter (the same once upper-cased),
   * and no upper-case ASCII letter is left.
   */
  function Lower(s: string): (r: string)
    ensures |r| == |s|
    ensures forall k :: 0 <= k < |s| && NonAscii(s[k]) ==> r[k] == s[k]
    ensures forall k :: 0 <= k < |r| ==> !('A' <= r[k] <= 'Z')
    ensures forall k :: 0 <= k < |s| ==> UpperChar(r[k]) == UpperChar(s[k])
  {
    seq(|s|, k requires 0 <= k < |s| => LowerChar(s[k]))
  }

  /** The contract of `Upper` pins it down: any string meeting it is `Upper(s)`. */
  lemma UpperIsDetermined(s: string, r: string)
    requires |r| == |s|
    requires forall k :: 0 <= k < |r| ==> !('a' <= r[k] <= 'z')
    requires forall k :: 0 <= k < |s| ==> LowerChar(r[k]) == LowerChar(s[k])
    ensures r == Upper(s)
  {
    forall k | 0 <= k < |s|
      ensures r[k] == Upper(s)[k]
    {
      var u := Upper(s)[k];
      assert LowerChar(u) == LowerChar(s[k]) == LowerChar(r[k]);
    }
  }

  /** Upper-casing never touches a non-ASCII character, and maps no other character onto one. */
  lemma UpperCharNonAscii(c: char, d: char)
    requires UpperChar(c) == UpperChar(d) && NonAscii(c)
    ensures c == d
  {
  }

  /** The index of the first non-whitespace character of `s` at or after `i`, or `|s|`. */
  function SkipSpaces(s: string, i: nat): (n: nat)
    requires i <= |s|
    ensures i <= n <= |s|
    ensures forall j :: i <= j < n ==> IsSpace(s[j])
    ensures n < |s| ==> !IsSpace(s[n])
    decreases |s| - i
  {
    if i < |s| && IsSpace(s[i]) then SkipSpaces(s, i + 1) else i
  }

  /** The end of `s[lo..hi]` once the whitespace it ends with is dropped. */
  function TrimEnd(s: string, lo: nat, hi: nat): (n: nat)
    requires lo <= hi <= |s|
    ensures lo <= n <= hi
    ensures forall j :: n <= j < hi ==> IsSpace(s[j])
    ensures lo < n ==> !IsSpace(s[n - 1])
    decreases hi
  {
    if lo < hi && IsSpace(s[hi - 1]) then TrimEnd(s, lo, hi - 1) else hi
  }

  /** The number of whitespace characters `s` starts with. */
  function LeadingSpaces(s: string): (n: nat)
    ensures n <= |s|
    ensures forall j :: 0 <= j < n ==> IsSpace(s[j])
    ensures n < |s| ==> !IsSpace(s[n])
  {
    SkipSpaces(s, 0)
  }

  /** A slice of a slice is a slice of the original. */
  lemma SliceOfSlice(s: string, lo: nat, hi: nat, i: nat, j: nat)
    requires lo <= hi <= |s| && i <= j <= hi - lo
    ensures s[lo..hi][i..j] == s[lo + i..lo + j]
  {
    var u := s[lo..hi];
    assert forall k :: 0 <= k < j - i ==> u[i..j][k] == u[i + k] == s[lo + i + k];
  }

  /**
   * Python's `s.strip()`: the slice of `s` that is left once the leading and
   * trailing whitespace is removed. Everything cut off is whitespace, and what
   * is left neither starts nor ends with whitespace.
   */
  function Strip(s: string): (r: string)
    ensures LeadingSpaces(s) + |r| <= |s|
    ensures r == s[LeadingSpaces(s)..LeadingSpaces(s) + |r|]
    ensures forall j :: LeadingSpaces(s) + |r| <= j < |s| ==> IsSpace(s[j])
    ensures |r| > 0 ==> !IsSpace(r[0]) && !IsSpace(r[|r| - 1])
  {
    var a := LeadingSpaces(s);
    s[a..TrimEnd(s, a, |s|)]
  }

  /** `w` occurs in `s` starting at index `i`. */
  predicate OccursAt(s: string, w: string, i: int) {
    0 <= i && i + |w| <= |s| && s[i..i + |w|] == w
  }

  /** Python's `w in s` for strings, stated as "some occurrence exists". */
  ghost predicate Occurs(s: string, w: string) {
    exists i :: OccursAt(s, w, i)
  }

  /** Substring search from index `i` on: some window `s[k..k + |w|]`, `k >= i`, equals `w`. */
  predicate ContainsFrom(s: string, w: string, i: nat)
    decreases |s| - i
  {
    i + |w| <= |s| && (s[i..i + |w|] == w || ContainsFrom(s, w, i + 1))
  }

  /** Python's `w in s`. */
  predicate Contains(s: string, w: string) {
    ContainsFrom(s, w, 0)
  }

  /** Every match the search finds is a real occurrence. */
  lemma {:induction false} ContainsFindsOccurrence(s: string, w: string, i: nat)
    requires ContainsFrom(s, w, i)
    ensures Occurs(s, w)
    decreases |s| - i
  {
    if s[i..i + |w|] == w {
      assert OccursAt(s, w, i);
    } else {
      ContainsFindsOccurrence(s, w, i + 1);
    }
  }

  /** The search misses no occurrence at or after its starting index. */
  lemma {:induction false} OccurrenceFound(s: string, w: string, i: nat, k: int)
    requires OccursAt(s, w, k) && i <= k
    ensures ContainsFrom(s, w, i)
    decreases k - i
  {
    if i < k {
      OccurrenceFound(s, w, i + 1, k);
    }
  }

  lemma ContainsIsOccurs(s: string, w: string)
    ensures Contains(s, w) <==> Occurs(s, w)
  {
    if Contains(s, w) {
      ContainsFindsOccurrence(s, w, 0);
    }
    if Occurs(s, w) {
      var k :| OccursAt(s, w, k);
      OccurrenceFound(s, w, 0, k);
    }
  }

  /**
   * Stripping cannot create or destroy an occurrence of a non-empty word that
   * has no whitespace in it: such an occurrence never touches the stripped ends.
   */
  lemma StripKeepsOccurrences(s: string, w: string)
    requires |w| > 0 && NoSpace(w)
    ensures Occurs(Strip(s), w) <==> Occurs(s, w)
  {
    if Occurs(Strip(s), w) {
      var i :| OccursAt(Strip(s), w, i);
      OccurrenceInStrip(s, w, i);
    }
    if Occurs(s, w) {
      var i :| OccursAt(s, w, i);
      OccurrenceOutsideStrip(s, w, i);
    }
  }

  lemma OccurrenceInStrip(s: string, w: string, i: int)
    requires OccursAt(Strip(s), w, i)
    ensures OccursAt(s, w, LeadingSpaces(s) + i)
  {
    var a := LeadingSpaces(s);
    OccurrenceInSlice(s, a, a + |Strip(s)|, w, i);
  }

  lemma OccurrenceInSlice(s: string, lo: nat, hi: nat, w: string, i: int)
    requires lo <= hi <= |s| && OccursAt(s[lo..hi], w, i)
    ensures OccursAt(s, w, lo + i)
  {
    SliceOfSlice(s, lo, hi, i, i + |w|);
  }

  lemma OccurrenceOutsideStrip(s: string, w: string, i: int)
    requires |w| > 0 && NoSpace(w)
    requires OccursAt(s, w, i)
    ensures LeadingSpaces(s) <= i && OccursAt(Strip(s), w, i - LeadingSpaces(s))
  {
    OccurrenceBetweenSpaces(s, w, i, LeadingSpaces(s), LeadingSpaces(s) + |Strip(s)|);
  }

  /**
   * An occurrence of a word without whitespace lies inside any slice
   * that only whitespace surrounds.
   */
  lemma OccurrenceBetweenSpaces(s: string, w: string, i: int, lo: nat, hi: nat)
    requires |w| > 0 && NoSpace(w) && OccursAt(s, w, i)
    requires lo <= hi <= |s|
    requires forall j :: 0 <= j < lo ==> IsSpace(s[j])
    requires forall j :: hi <= j < |s| ==> IsSpace(s[j])
    ensures lo <= i && OccursAt(s[lo..hi], w, i - lo)
  {
    OccurrenceEnds(s, w, i);
    assert !IsSpace(s[i]) && !IsSpace(s[i + |w| - 1]);
    SliceOfSlice(s, lo, hi, i - lo, i - lo + |w|);
  }

  /** An occurrence starts with the word's first character and ends with its last. */
  lemma OccurrenceEnds(s: string, w: string, i: int)
    requires |w| > 0 && OccursAt(s, w, i)
    ensures s[i] == w[0] && s[i + |w| - 1] == w[|w| - 1]
  {
    assert s[i] == s[i..i + |w|][0];
    assert s[i + |w| - 1] == s[i..i + |w|][|w| - 1];
  }

  /**
   * A word made only of non-ASCII characters occurs in `s` exactly where it
   * occurs in any `t` with the same upper-cased form.
   */
  lemma NonAsciiOccurrenceIgnoresCase(s: string, t: string, w: string)
    requires Upper(s) == Upper(t)
    requires forall k :: 0 <= k < |w| ==> NonAscii(w[k])
    ensures Occurs(s, w) ==> Occurs(t, w)
  {
    if Occurs(s, w) {
      var i :| OccursAt(s, w, i);
      assert |s| == |t| by {
        assert |Upper(s)| == |s| && |Upper(t)| == |t|;
      }
      forall k | 0 <= k < |w|
        ensures t[i + k] == w[k]
      {
        assert s[i + k] == w[k];
        assert Upper(s)[i + k] == Upper(t)[i + k];
        UpperCharNonAscii(s[i + k], t[i + k]);
      }
      assert t[i..i + |w|] == w;
      assert OccursAt(t, w, i);
    }
  }
}
