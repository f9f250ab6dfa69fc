/** Character classes and the string operations the scraper applies to the
    text of page elements.

    Python's `str.strip`, `str.lower`, `str.isdigit` and the regular
    expression classes `\s` and `\d` also act on non-ASCII characters. This
    model restricts them to ASCII: a non-ASCII character is neither
    whitespace nor a digit, and lower-casing leaves it unchanged. */
module Text {

  /** Python whitespace (`str.isspace`, `\s`) among ASCII characters:
      space, tab, line feed, vertical tab, form feed, carriage return and
      the four separators 0x1C to 0x1F. */
  predicate IsSpace(c: char) {
    c == ' ' || 9 <= c as int <= 13 || 28 <= c as int <= 31
  }

  predicate IsDigit(c: char) {
    '0' <= c <= '9'
  }

  predicate IsUpper(c: char) {
    'A' <= c <= 'Z'
  }

  predicate IsLower(c: char) {
    'a' <= c <= 'z'
  }

  /** One character of Python's `str.lower()`. */
  function LowerChar(c: char): char {
    if IsUpper(c) then (c as int + 32) as char else c
  }

  /** Python's `str.lower()`: no capital letter is left, each capital
      becomes its small letter, and every other character is kept. */
  function Lower(s: string): (r: string)
    ensures |r| == |s|
    ensures forall k | 0 <= k < |r| :: !IsUpper(r[k])
    ensures forall k | 0 <= k < |s| && IsUpper(s[k]) :: IsLower(r[k]) && r[k] as int == s[k] as int + 32
    ensures forall k | 0 <= k < |s| && !IsUpper(s[k]) :: r[k] == s[k]
  {
    seq(|s|, i requires 0 <= i < |s| => LowerChar(s[i]))
  }

  /** No whitespace at either end. */
  predicate Trimmed(s: string) {
    s == [] || (!IsSpace(s[0]) && !IsSpace(s[|s| - 1]))
  }

  predicate NoSpace(s: string) {
    forall k | 0 <= k < |s| :: !IsSpace(s[k])
  }

  /** Cutting a sequence at `i` and gluing the parts back gives it back. */
  lemma SplitAt<T>(s: seq<T>, i: nat)
    requires i <= |s|
    ensures s == s[..i] + s[i..]
  {
  }

  /** A prefix one element longer is the prefix and that element. */
  lemma Snoc<T>(s: seq<T>, i: nat)
    requires i < |s|
    ensures s[..i + 1] == s[..i] + [s[i]]
  {
  }

  /** Concatenation is associative. */
  lemma Assoc<T>(x: seq<T>, y: seq<T>, z: seq<T>)
    ensures x + y + z == x + (y + z)
  {
  }

  /** Re-associating a concatenation of four parts. */
  lemma Glue<T>(u: seq<T>, a: seq<T>, x: seq<T>, b: seq<T>, y: seq<T>, c: seq<T>, d: seq<T>)
    requires u == a + x && x == b + y && y == c + d
    ensures u == a + b + c + d
  {
  }

  // ---------------------------------------------------------------------
  // Filtering: a comprehension `"".join(c for c in s if p(c))`, and also
  // a chain of `replace(x, "")` calls for one-character strings x.
  // ---------------------------------------------------------------------

  /** The elements of `s` that satisfy `p`, in their original order. */
  function Filter<T>(p: T -> bool, s: seq<T>): (r: seq<T>)
    ensures |r| <= |s|
    ensures forall k | 0 <= k < |r| :: p(r[k])
    decreases |s|
  {
    if s == [] then []
    else (if p(s[0]) then [s[0]] else []) + Filter(p, s[1..])
  }

  /** Filtering distributes over concatenation: together with the one-element
      case this pins `Filter` down as "keep exactly the elements satisfying
      `p`, in order". */
  lemma {:induction false} FilterAppend<T>(p: T -> bool, a: seq<T>, b: seq<T>)
    ensures Filter(p, a + b) == Filter(p, a) + Filter(p, b)
    decreases |a|
  {
    if a == [] {
      assert a + b == b;
    } else {
      assert (a + b)[0] == a[0];
      assert (a + b)[1..] == a[1..] + b;
      FilterAppend(p, a[1..], b);
    }
  }

  /** An element kept by a filter survives it. */
  lemma {:induction false} FilterKeeps<T>(p: T -> bool, s: seq<T>, x: T)
    requires x in s && p(x)
    ensures x in Filter(p, s)
    decreases |s|
  {
    FilterAppend(p, s[..1], s[1..]);
    assert s == s[..1] + s[1..];
    if s[0] != x {
      FilterKeeps(p, s[1..], x);
    } else {
      FilterSingle(p, s[0]);
      assert s[..1] == [s[0]];
    }
  }

  lemma FilterAppend4<T>(p: T -> bool, a: seq<T>, b: seq<T>, c: seq<T>, d: seq<T>)
    ensures Filter(p, a + b + c + d) == Filter(p, a) + Filter(p, b) + Filter(p, c) + Filter(p, d)
  {
    FilterAppend(p, a + b + c, d);
    FilterAppend(p, a + b, c);
    FilterAppend(p, a, b);
  }

  lemma FilterSingle<T>(p: T -> bool, x: T)
    ensures Filter(p, [x]) == if p(x) then [x] else []
  {
    assert [x][1..] == [];
  }

  /** Nothing is dropped when every element already satisfies `p`. */
  lemma {:induction false} FilterKeepsAll<T>(p: T -> bool, s: seq<T>)
    requires forall k | 0 <= k < |s| :: p(s[k])
    ensures Filter(p, s) == s
    decreases |s|
  {
    if s != [] {
      FilterKeepsAll(p, s[1..]);
    }
  }

  /** The filter is empty exactly when no element satisfies `p`. */
  lemma {:induction false} FilterEmpty<T>(p: T -> bool, s: seq<T>)
    ensures Filter(p, s) == [] <==> forall k | 0 <= k < |s| :: !p(s[k])
    decreases |s|
  {
    if s != [] {
      FilterEmpty(p, s[1..]);
      assert forall k | 1 <= k < |s| :: s[k] == s[1..][k - 1];
    }
  }

  /** Two predicates that agree on the elements of `s` keep the same elements. */
  lemma {:induction false} FilterCongruent<T>(p: T -> bool, q: T -> bool, s: seq<T>)
    requires forall k | 0 <= k < |s| :: p(s[k]) == q(s[k])
    ensures Filter(p, s) == Filter(q, s)
    decreases |s|
  {
    if s != [] {
      FilterCongruent(p, q, s[1..]);
    }
  }

  /** Filtering by a narrower predicate after a wider one is filtering by the
      narrower one alone. */
  lemma {:induction false} FilterOfFilter<T>(p: T -> bool, q: T -> bool, s: seq<T>)
    requires forall k | 0 <= k < |s| :: p(s[k]) ==> q(s[k])
    ensures Filter(p, Filter(q, s)) == Filter(p, s)
    decreases |s|
  {
    if s != [] {
      FilterOfFilter(p, q, s[1..]);
      var head := if q(s[0]) then [s[0]] else [];
      FilterAppend(p, head, Filter(q, s[1..]));
      FilterSingle(p, s[0]);
    }
  }

  // ---------------------------------------------------------------------
  // Python's str.strip() with no argument.
  // ---------------------------------------------------------------------

  /** Number of whitespace characters at the front of `s`. */
  function LeadingSpaces(s: string): (n: nat)
    ensures n <= |s|
    ensures forall k | 0 <= k < n :: IsSpace(s[k])
    ensures n < |s| ==> !IsSpace(s[n])
    decreases |s|
  {
    if s == [] || !IsSpace(s[0]) then 0 else 1 + LeadingSpaces(s[1..])
  }

  /** A whitespace prefix followed by a non-space character (or the end) is
      the leading whitespace. */
  lemma LeadingSpacesIs(s: string, n: nat)
    requires n <= |s|
    requires forall k | 0 <= k < n :: IsSpace(s[k])
    requires n < |s| ==> !IsSpace(s[n])
    ensures LeadingSpaces(s) == n
  {
  }

  /** Number of whitespace characters at the back of `s`. */
  function TrailingSpaces(s: string): (n: nat)
    ensures n <= |s|
    ensures forall k | |s| - n <= k < |s| :: IsSpace(s[k])
    ensures n < |s| ==> !IsSpace(s[|s| - n - 1])
    decreases |s|
  {
    if s == [] || !IsSpace(s[|s| - 1]) then 0 else 1 + TrailingSpaces(s[..|s| - 1])
  }

  /** `s.strip()`: the infix of `s` that starts after the leading whitespace
      and has no whitespace at either end; everything outside it is
      whitespace, so every other character of `s` is kept. */
  function Strip(s: string): (r: string)
    ensures Trimmed(r)
    ensures LeadingSpaces(s) + |r| <= |s|
    ensures r == s[LeadingSpaces(s)..LeadingSpaces(s) + |r|]
    ensures forall k | 0 <= k < |s| && !IsSpace(s[k]) :: LeadingSpaces(s) <= k < LeadingSpaces(s) + |r|
  {
    var i := LeadingSpaces(s);
    var t := s[i..];
    var m := TrailingSpaces(t);
    var r := t[..|t| - m];
    assert |r| == |t| - m && i + |r| <= |s|;
    assert r == s[i..i + |r|];
    assert r != [] ==> r[0] == s[i] && r[|r| - 1] == t[|t| - m - 1];
    assert forall k | i + |r| <= k < |s| :: s[k] == t[k - i] && |t| - m <= k - i;
    r
  }

  /** Stripping text that has no whitespace at either end changes nothing. */
  lemma StripTrimmed(s: string)
    requires Trimmed(s)
    ensures Strip(s) == s
  {
    if s != [] {
      assert LeadingSpaces(s) == 0;
    }
  }

  /** Stripping twice is stripping once. */
  lemma StripIdempotent(s: string)
    ensures Strip(Strip(s)) == Strip(s)
  {
    StripTrimmed(Strip(s));
  }

  predicate AllSpaces(s: string) {
    forall k | 0 <= k < |s| :: IsSpace(s[k])
  }

  /** `s` is its stripped text with whitespace on either side. */
  lemma StripSplit(s: string)
    ensures var i, r := LeadingSpaces(s), Strip(s);
      && s == s[..i] + r + s[i + |r|..]
      && AllSpaces(s[..i])
      && AllSpaces(s[i + |r|..])
  {
    var i := LeadingSpaces(s);
    var r := Strip(s);
    SliceConcat(s, i, i + |r|, r);
    StripBackSpaces(s, i, r);
    assert AllSpaces(s[..i]) by {
      assert forall k | 0 <= k < i :: s[..i][k] == s[k];
    }
  }

  /** A sequence is its prefix, an infix and the rest. */
  lemma SliceConcat<T>(s: seq<T>, i: nat, j: nat, r: seq<T>)
    requires i <= j <= |s| && r == s[i..j]
    ensures s == s[..i] + r + s[j..]
  {
    assert s[..j] == s[..i] + r;
    SplitAt(s, j);
  }

  /** What `Strip` cuts off at the back is whitespace. */
  lemma StripBackSpaces(s: string, i: nat, r: string)
    requires i == LeadingSpaces(s) && r == Strip(s)
    ensures AllSpaces(s[i + |r|..])
  {
    var j := i + |r|;
    forall k | 0 <= k < |s| - j
      ensures IsSpace(s[j..][k])
    {
      assert s[j..][k] == s[j + k];
      assert !(i <= j + k < j);
    }
  }

  /** Whitespace is never kept by a filter that rejects whitespace, so such a
      filter gives the same result before and after stripping. */
  lemma StripThenFilter(p: char -> bool, s: string)
    requires forall c :: IsSpace(c) ==> !p(c)
    ensures Filter(p, Strip(s)) == Filter(p, s)
  {
    StripSplit(s);
    var i := LeadingSpaces(s);
    var r := Strip(s);
    var front, back := s[..i], s[i + |r|..];
    FilterEmpty(p, front);
    FilterEmpty(p, back);
    FilterAround(p, front, r, back);
  }

  /** Parts that the filter drops entirely do not change its result. */
  lemma FilterAround<T>(p: T -> bool, front: seq<T>, r: seq<T>, back: seq<T>)
    requires Filter(p, front) == [] && Filter(p, back) == []
    ensures Filter(p, front + r + back) == Filter(p, r)
  {
    FilterAppend(p, front + r, back);
    FilterAppend(p, front, r);
    assert [] + Filter(p, r) + [] == Filter(p, r);
  }



}
