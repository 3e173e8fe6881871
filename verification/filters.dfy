/** The custom template filters `slugify` and `replace`
    (`custom_filters` in finishline.py). */
module Filters {

  predicate IsUpperAscii(c: char) {
    'A' <= c <= 'Z'
  }

  /** `c.lower()` on the ASCII letters; every other character is kept. */
  function LowerChar(c: char): (r: char)
    ensures !IsUpperAscii(r)
    ensures IsUpperAscii(c) ==> r as int == c as int + 32
    ensures !IsUpperAscii(c) ==> r == c
  {
    if IsUpperAscii(c) then (c as int + 32) as char else c
  }

  /** `s.lower()`. */
  function Lower(s: string): (r: string)
    ensures |r| == |s|
    ensures forall i :: 0 <= i < |r| ==> !IsUpperAscii(r[i])
    ensures forall i :: 0 <= i < |s| && IsUpperAscii(s[i]) ==> r[i] as int == s[i] as int + 32
    ensures forall i :: 0 <= i < |s| && !IsUpperAscii(s[i]) ==> r[i] == s[i]
  {
    seq(|s|, i requires 0 <= i < |s| => LowerChar(s[i]))
  }

  /** `s.replace(from, to)` for one character replaced by another. */
  function ReplaceChar(s: string, from: char, to: char): (r: string)
    ensures |r| == |s|
    ensures forall i :: 0 <= i < |s| ==> r[i] == (if s[i] == from then to else s[i])
    ensures from != to ==> forall i :: 0 <= i < |r| ==> r[i] != from
  {
    seq(|s|, i requires 0 <= i < |s| => if s[i] == from then to else s[i])
  }

  /** The `slugify` filter: lower-case, spaces to hyphens. The slug is as
      long as the input and holds no space and no upper-case letter; every
      other character is the input's, lower-cased. */
  function Slugify(s: string): (r: string)
    ensures |r| == |s|
    ensures forall i :: 0 <= i < |r| ==> r[i] != ' ' && !IsUpperAscii(r[i])
    ensures forall i :: 0 <= i < |s| ==> r[i] == if s[i] == ' ' then '-' else LowerChar(s[i])
  {
    ReplaceChar(Lower(s), ' ', '-')
  }

  /** A slug is its own slug. */
  lemma SlugifyIdempotent(s: string)
    ensures Slugify(Slugify(s)) == Slugify(s)
  {
    var t := Slugify(s);
    forall i | 0 <= i < |t|
      ensures Slugify(t)[i] == t[i]
    {
    }
  }

  /** The strings `slugify` leaves alone are exactly those without spaces
      and upper-case letters. */
  lemma SlugifyFixedPoints(s: string)
    ensures Slugify(s) == s <==> forall i :: 0 <= i < |s| ==> s[i] != ' ' && !IsUpperAscii(s[i])
  {
    if forall i :: 0 <= i < |s| ==> s[i] != ' ' && !IsUpperAscii(s[i]) {
      forall i | 0 <= i < |s|
        ensures Slugify(s)[i] == s[i]
      {
      }
    }
  }

  /** `unit * n`: `n` copies of `unit` one after the other. */
  function Repeat(unit: string, n: nat): (r: string)
    ensures |r| == n * |unit|
    ensures unit == [] ==> r == []
    ensures forall i :: 0 <= i < |r| ==> r[i] == unit[i % |unit|]
  {
    if n == 0 || unit == [] then []
    else
      var rest := Repeat(unit, n - 1);
      RepeatStep(unit, rest, n);
      unit + rest
  }

  /** One more copy in front keeps the string periodic. */
  lemma RepeatStep(unit: string, rest: string, n: nat)
    requires unit != [] && n >= 1 && |rest| == (n - 1) * |unit|
    requires forall i :: 0 <= i < |rest| ==> rest[i] == unit[i % |unit|]
    ensures |unit + rest| == n * |unit|
    ensures forall i :: 0 <= i < |unit + rest| ==> (unit + rest)[i] == unit[i % |unit|]
  {
    Distribute(n, 1, |unit|);
    forall i | 0 <= i < |unit + rest|
      ensures (unit + rest)[i] == unit[i % |unit|]
    {
      if i >= |unit| {
        ModAfterOnePeriod(i, |unit|);
        assert (unit + rest)[i] == rest[i - |unit|];
      } else {
        ModUnique(i, |unit|, 0, i);
      }
    }
  }

  lemma ModAfterOnePeriod(i: int, m: int)
    requires 0 < m <= i
    ensures (i - m) % m == i % m
  {
    var q, r := (i - m) / m, (i - m) % m;
    assert i - m == q * m + r;
    assert i == (q + 1) * m + r;
    ModUnique(i, m, q + 1, r);
  }

  lemma ModUnique(i: int, m: int, q: int, r: int)
    requires 0 <= r < m && i == q * m + r
    ensures i % m == r
  {
    var q', r' := i / m, i % m;
    assert q' * m + r' == q * m + r;
    if q > q' {
      Distribute(q, q', m);
      MulGrows(q - q', m);
    } else if q < q' {
      Distribute(q', q, m);
      MulGrows(q' - q, m);
    }
  }

  lemma Distribute(a: int, b: int, m: int)
    ensures (a - b) * m == a * m - b * m
  {
  }

  lemma {:induction false} MulGrows(a: int, m: int)
    requires a >= 1 && m > 0
    ensures a * m >= m
    decreases a
  {
    if a > 1 {
      MulGrows(a - 1, m);
      Distribute(a, 1, m);
    }
  }

  /** The `replace` filter, which masks a string: `char` repeated once per
      character of `string`. */
  function Replace(s: string, ch: string): (r: string)
    ensures |r| == |s| * |ch|
    ensures forall i :: 0 <= i < |r| ==> r[i] == ch[i % |ch|]
  {
    Repeat(ch, |s|)
  }
}
