/** The Python string operations the report generator relies on:
    `startswith`, `lstrip`, `strip`, substring search and `split(sep)[0]`.
    Strings are sequences of code points, as Python's `unicode` is. */
module PyStrings {
  import opened Wrappers

  /** Python 2.7's `unicode.isspace`, the test `strip` and `lstrip` use
      (the Unicode 5.2 table, which still counts U+180E as a space). */
  predicate IsSpace(c: char) {
    var n := c as int;
    || n == 0x20
    || (0x09 <= n <= 0x0D)
    || (0x1C <= n <= 0x1F)
    || n == 0x85 || n == 0xA0 || n == 0x1680 || n == 0x180E
    || (0x2000 <= n <= 0x200A)
    || n == 0x2028 || n == 0x2029 || n == 0x202F || n == 0x205F || n == 0x3000
  }

  /** `t` occurs in `s` starting at index `i`. */
  predicate OccursAt(s: string, t: string, i: nat) {
    i + |t| <= |s| && s[i..i + |t|] == t
  }

  /** Python's `t in s`. */
  predicate Contains(s: string, t: string) {
    exists i: nat :: i <= |s| && OccursAt(s, t, i)
  }

  /** An occurrence inside a slice is an occurrence in the whole string. */
  lemma OccursInSlice(s: string, r: string, a: nat, t: string, k: nat)
    requires OccursAt(s, r, a) && OccursAt(r, t, k)
    ensures OccursAt(s, t, a + k)
  {
    assert r == s[a..a + |r|];
    forall m | 0 <= m < |t|
      ensures s[a + k..a + k + |t|][m] == t[m]
    {
      assert r[k + m] == s[a + k + m];
    }
  }

  /** Slices of slices are slices. */
  lemma OccursInChain(s: string, r: string, h: string, t: string, a: nat, b: nat)
    requires OccursAt(s, r, a) && OccursAt(r, h, 0) && OccursAt(h, t, b)
    ensures OccursAt(s, t, a + b)
  {
    OccursInSlice(s, r, a, h, 0);
    OccursInSlice(s, h, a, t, b);
  }

  lemma SuffixOccurs(s: string, r: string)
    requires |r| <= |s| && r == s[|s| - |r|..]
    ensures OccursAt(s, r, |s| - |r|)
  {
  }

  lemma PrefixOccurs(s: string, r: string)
    requires r <= s
    ensures OccursAt(s, r, 0)
  {
    assert s[..|r|] == r;
  }

  /** A slice of a string without `t` has no `t` either. */
  lemma NoOccurrenceInSlice(s: string, r: string, a: nat, t: string)
    requires OccursAt(s, r, a) && !Contains(s, t)
    ensures !Contains(r, t)
  {
    if Contains(r, t) {
      var k: nat :| OccursAt(r, t, k);
      OccursInSlice(s, r, a, t, k);
    }
  }

  /** `s.lstrip()`: drops the leading whitespace and nothing else. */
  function LStrip(s: string): (r: string)
    ensures |r| <= |s| && r == s[|s| - |r|..]
    ensures forall i :: 0 <= i < |s| - |r| ==> IsSpace(s[i])
    ensures r == [] || !IsSpace(r[0])
  {
    if s != [] && IsSpace(s[0]) then LStrip(s[1..]) else s
  }

  /** `s.rstrip()`: drops the trailing whitespace and nothing else. */
  function RStrip(s: string): (r: string)
    ensures |r| <= |s| && r == s[..|r|]
    ensures forall i :: |r| <= i < |s| ==> IsSpace(s[i])
    ensures r == [] || !IsSpace(r[|r| - 1])
  {
    if s != [] && IsSpace(s[|s| - 1]) then RStrip(s[..|s| - 1]) else s
  }

  /** `s.strip()`: the slice of `s` left after dropping the whitespace at
      both ends; it begins and ends with a non-space character. */
  function Strip(s: string): (r: string)
    ensures r == [] || (!IsSpace(r[0]) && !IsSpace(r[|r| - 1]))
    ensures OccursAt(s, r, |s| - |LStrip(s)|)
    ensures forall i :: 0 <= i < |s| - |LStrip(s)| ==> IsSpace(s[i])
    ensures forall i :: |s| - |LStrip(s)| + |r| <= i < |s| ==> IsSpace(s[i])
  {
    var l := LStrip(s);
    var r := RStrip(l);
    assert s[|s| - |l|..|s| - |l| + |r|] == l[..|r|];
    r
  }

  /** The first index at or after `i` where `t` occurs in `s`, if any. */
  function FindFrom(s: string, t: string, i: nat): (r: Option<nat>)
    requires i <= |s|
    ensures r.Some? ==> i <= r.value && OccursAt(s, t, r.value)
    ensures forall j: nat :: i <= j && (r.None? || j < r.value) ==> !OccursAt(s, t, j)
    decreases |s| - i
  {
    if OccursAt(s, t, i) then Some(i)
    else if i == |s| then None
    else FindFrom(s, t, i + 1)
  }

  /** A prefix that ends before the first occurrence of `t` holds no `t`. */
  lemma NoOccurrenceBefore(s: string, t: string, j: nat)
    requires t != [] && j <= |s|
    requires forall k: nat :: k < j ==> !OccursAt(s, t, k)
    ensures !Contains(s[..j], t)
  {
    if Contains(s[..j], t) {
      var k: nat :| OccursAt(s[..j], t, k);
      OccursInSlice(s, s[..j], 0, t, k);
    }
  }

  /** `s.split(sep)[0]`: the text before the first occurrence of `sep`, or
      all of `s` when there is none. The result is a prefix of `s` without
      `sep`, and `sep` follows it unless it is the whole string. */
  function SplitHead(s: string, sep: string): (r: string)
    requires sep != []
    ensures r <= s
    ensures !Contains(r, sep)
    ensures forall k: nat :: k < |r| ==> !OccursAt(s, sep, k)
    ensures r == s || OccursAt(s, sep, |r|)
  {
    match FindFrom(s, sep, 0)
    case None => s
    case Some(j) =>
      NoOccurrenceBefore(s, sep, j);
      s[..j]
  }

  /** `SplitHead` cuts at the first occurrence of the separator. */
  lemma SplitHeadAt(s: string, sep: string, j: nat)
    requires sep != [] && OccursAt(s, sep, j)
    requires forall k: nat :: k < j ==> !OccursAt(s, sep, k)
    ensures SplitHead(s, sep) == s[..j]
  {
  }
}
