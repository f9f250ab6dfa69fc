/** Digit runs and number parsing: the regular-expression search `\d+`,
    Python's `int()` on a digit run and Python's `float()` on a cleaned price.
    Only ASCII digits are digits here. */
module Numbers {
  import opened Wrappers
  import opened Text

  predicate AllDigits(s: string) {
    forall k | 0 <= k < |s| :: IsDigit(s[k])
  }

  predicate HasDigit(s: string) {
    exists k | 0 <= k < |s| :: IsDigit(s[k])
  }

  function Pow10(n: nat): (p: nat)
    ensures p >= 1
  {
    if n == 0 then 1 else 10 * Pow10(n - 1)
  }

  /** Length of the run of digits at the front of `s`. */
  function LeadingDigits(s: string): (n: nat)
    ensures n <= |s|
    ensures AllDigits(s[..n])
    ensures n < |s| ==> !IsDigit(s[n])
    decreases |s|
  {
    if s == [] || !IsDigit(s[0]) then 0
    else
      var m := LeadingDigits(s[1..]);
      assert s[..m + 1] == [s[0]] + s[1..][..m];
      1 + m
  }

  /** Python's `int()` on a run of ASCII digits (leading zeros allowed): a
      number below ten to the power of the run's length. */
  function DigitsValue(s: string): (v: nat)
    requires AllDigits(s)
    ensures v < Pow10(|s|)
    decreases |s|
  {
    if s == [] then 0
    else
      var front := DigitsValue(s[..|s| - 1]);
      var digit := s[|s| - 1] as int - '0' as int;
      assert front * 10 + digit <= (Pow10(|s| - 1) - 1) * 10 + 9;
      front * 10 + digit
  }

  /** `(i, j)` delimits the first maximal run of digits of `s`. */
  predicate IsFirstDigitRun(s: string, i: nat, j: nat) {
    && i < j <= |s|
    && (forall k | 0 <= k < i :: !IsDigit(s[k]))
    && (forall k | i <= k < j :: IsDigit(s[k]))
    && (j < |s| ==> !IsDigit(s[j]))
  }

  /** `re.search(r"\d+", s)`: the span of the first maximal run of digits,
      or `None` when `s` holds no digit. */
  function FirstDigitRun(s: string): (r: Option<(nat, nat)>)
    ensures r.None? <==> !HasDigit(s)
    ensures r.Some? ==> IsFirstDigitRun(s, r.value.0, r.value.1)
    decreases |s|
  {
    if s == [] then None
    else if IsDigit(s[0]) then
      var n := LeadingDigits(s);
      assert forall k | 0 <= k < n :: s[k] == s[..n][k];
      Some((0, n))
    else
      match FirstDigitRun(s[1..])
      case None => None
      case Some((i, j)) =>
        assert forall k | 1 <= k < |s| :: s[k] == s[1..][k - 1];
        Some((i + 1, j + 1))
  }

  /** The first run is unique: any span with its defining property is the one
      `FirstDigitRun` returns. */
  lemma FirstDigitRunUnique(s: string, i: nat, j: nat)
    requires IsFirstDigitRun(s, i, j)
    ensures FirstDigitRun(s) == Some((i, j))
  {
    var r := FirstDigitRun(s);
    assert r.Some? by {
      assert IsDigit(s[i]);
    }
    var (i', j') := r.value;
    assert IsDigit(s[i]) && IsDigit(s[i']);
    assert i' == i;
    assert j < |s| ==> !IsDigit(s[j]);
    assert j' < |s| ==> !IsDigit(s[j']);
    assert j' == j;
  }

  // ---------------------------------------------------------------------
  // Python's float() on text.
  // ---------------------------------------------------------------------

  /** A decimal number `(-1)^negative * significand * 10^exponent`, the exact
      value a float literal denotes (before Python rounds it to a binary
      double). */
  datatype Decimal = Decimal(negative: bool, significand: nat, exponent: int)

  function Value(d: Decimal): real {
    var magnitude :=
      if d.exponent >= 0 then (d.significand * Pow10(d.exponent)) as real
      else d.significand as real / Pow10(-d.exponent) as real;
    if d.negative then -magnitude else magnitude
  }

  /** Length (0 or 1) of an optional leading sign. */
  function SignLength(s: string): (n: nat)
    ensures n <= |s|
    ensures n == 1 <==> |s| > 0 && (s[0] == '+' || s[0] == '-')
  {
    if |s| > 0 && (s[0] == '+' || s[0] == '-') then 1 else 0
  }

  /** The mantissa of a float literal at the front of `u`: integer digits,
      an optional dot, fraction digits (only after a dot), and what follows. */
  function ScanMantissa(u: string): (r: (string, bool, string, string))
    ensures u == r.0 + (if r.1 then "." else "") + r.2 + r.3
    ensures AllDigits(r.0) && AllDigits(r.2) && (!r.1 ==> r.2 == [])
    ensures r.3 != [] ==> !IsDigit(r.3[0]) && (!r.1 ==> r.3[0] != '.')
  {
    var n := LeadingDigits(u);
    var ints, afterInt := u[..n], u[n..];
    SplitAt(u, n);
    if |afterInt| > 0 && afterInt[0] == '.' then
      var fracText := afterInt[1..];
      var m := LeadingDigits(fracText);
      var frac, rest := fracText[..m], fracText[m..];
      SplitAt(fracText, m);
      SplitAt(afterInt, 1);
      assert afterInt[..1] == ".";
      Glue(u, ints, afterInt, ".", fracText, frac, rest);
      (ints, true, frac, rest)
    else
      assert u == ints + "" + "" + afterInt;
      (ints, false, "", afterInt)
  }

  /** The exponent part of a float literal: empty (exponent 0), or `e`/`E`,
      an optional sign and at least one digit, with nothing after. */
  function ParseExponent(s: string): (r: Option<int>)
    ensures s != [] && s[0] != 'e' && s[0] != 'E' ==> r.None?
  {
    if s == [] then Some(0)
    else if s[0] != 'e' && s[0] != 'E' then None
    else
      var u := s[1..];
      var n := SignLength(u);
      var digits := u[n..];
      if digits != [] && AllDigits(digits) then
        var v: int := DigitsValue(digits);
        Some(if n == 1 && u[0] == '-' then -v else v)
      else None
  }

  lemma AllDigitsAppend(a: string, b: string)
    requires AllDigits(a) && AllDigits(b)
    ensures AllDigits(a + b)
  {
    assert forall k | |a| <= k < |a + b| :: (a + b)[k] == b[k - |a|];
  }

  /** An unsigned float literal: mantissa and optional exponent. */
  function ParseUnsigned(u: string): Option<Decimal> {
    var (ints, _, frac, rest) := ScanMantissa(u);
    if ints + frac == [] then None
    else
      match ParseExponent(rest)
      case None => None
      case Some(e) =>
        AllDigitsAppend(ints, frac);
        Some(Decimal(false, DigitsValue(ints + frac), e - |frac|))
  }

  /** A float literal with an optional sign and no surrounding whitespace. */
  function ParseSigned(t: string): Option<Decimal> {
    var k := SignLength(t);
    match ParseUnsigned(t[k..])
    case None => None
    case Some(d) => Some(d.(negative := k == 1 && t[0] == '-'))
  }

  /** Python's `float(s)` over decimal literals: surrounding whitespace
      (`IsFloatSpace`), an optional sign, a mantissa `digits [. digits]`
      or `. digits` with at least one digit, and an optional exponent. `None` stands for the
      `ValueError` Python raises; a result is the exact decimal the literal
      denotes. */
  function ParseFloat(s: string): Option<Decimal> {
    ParseSigned(FloatStrip(s))
  }

  /** Whitespace `float()` removes around its argument. CPython strips only
      space, tab, line feed, vertical tab, form feed and carriage return
      there: the separators 0x1C to 0x1F, which `str.strip()` removes, make
      the conversion fail. */
  predicate IsFloatSpace(c: char) {
    c == ' ' || 9 <= c as int <= 13
  }

  /** Number of `float()` whitespace characters at the front of `s`. */
  function FloatLead(s: string): (n: nat)
    ensures n <= |s|
    ensures forall k | 0 <= k < n :: IsFloatSpace(s[k])
    ensures n < |s| ==> !IsFloatSpace(s[n])
    decreases |s|
  {
    if s == [] || !IsFloatSpace(s[0]) then 0 else 1 + FloatLead(s[1..])
  }

  /** Number of `float()` whitespace characters at the back of `s`. */
  function FloatTrail(s: string): (n: nat)
    ensures n <= |s|
    ensures forall k | |s| - n <= k < |s| :: IsFloatSpace(s[k])
    ensures n < |s| ==> !IsFloatSpace(s[|s| - n - 1])
    decreases |s|
  {
    if s == [] || !IsFloatSpace(s[|s| - 1]) then 0 else 1 + FloatTrail(s[..|s| - 1])
  }

  /** The text `float()` reads: `s` without the `float()` whitespace at
      either end. Every character outside it is such whitespace. */
  function FloatStrip(s: string): (r: string)
    ensures r == [] || (!IsFloatSpace(r[0]) && !IsFloatSpace(r[|r| - 1]))
    ensures FloatLead(s) + |r| <= |s|
    ensures r == s[FloatLead(s)..FloatLead(s) + |r|]
    ensures forall k | 0 <= k < |s| && !(FloatLead(s) <= k < FloatLead(s) + |r|) :: IsFloatSpace(s[k])
  {
    var i := FloatLead(s);
    var t := s[i..];
    var r := t[..|t| - FloatTrail(t)];
    FloatStripSpan(s, i, t, r);
    r
  }

  /** The span `FloatStrip` keeps, and what lies outside it. */
  lemma FloatStripSpan(s: string, i: nat, t: string, r: string)
    requires i == FloatLead(s) && t == s[i..]
    requires r == t[..|t| - FloatTrail(t)]
    ensures i + |r| <= |s| && r == s[i..i + |r|]
    ensures r == [] || (!IsFloatSpace(r[0]) && !IsFloatSpace(r[|r| - 1]))
    ensures forall k | 0 <= k < |s| && !(i <= k < i + |r|) :: IsFloatSpace(s[k])
  {
    var m := FloatTrail(t);
    SliceOfSuffix(s, i, t, |t| - m, r);
    FloatStripEnds(s, i, t, m, r);
    SuffixFloatSpace(s, i, t, m);
    forall k | 0 <= k < |s| && !(i <= k < i + |r|)
      ensures IsFloatSpace(s[k])
    {
      if i <= k {
        assert i + |t| - m <= k;
      }
    }
  }

  /** Neither end of the kept span is `float()` whitespace. */
  lemma FloatStripEnds(s: string, i: nat, t: string, m: nat, r: string)
    requires i == FloatLead(s) && t == s[i..] && m == FloatTrail(t)
    requires r == t[..|t| - m]
    ensures r == [] || (!IsFloatSpace(r[0]) && !IsFloatSpace(r[|r| - 1]))
  {
    if r != [] {
      assert r[0] == t[0] == s[i];
      assert r[|r| - 1] == t[|t| - m - 1];
    }
  }

  /** A prefix of a suffix of `s` is a slice of `s`. */
  lemma SliceOfSuffix(s: string, i: nat, t: string, n: nat, r: string)
    requires i <= |s| && t == s[i..] && n <= |t| && r == t[..n]
    ensures i + n <= |s| && |r| == n && r == s[i..i + n]
  {
  }

  /** Whitespace at the back of a suffix of `s` is whitespace at the back of `s`. */
  lemma SuffixFloatSpace(s: string, i: nat, t: string, m: nat)
    requires i <= |s| && t == s[i..] && m <= |t|
    requires forall j | |t| - m <= j < |t| :: IsFloatSpace(t[j])
    ensures forall k | i + |t| - m <= k < |s| :: IsFloatSpace(s[k])
  {
    forall k | i + |t| - m <= k < |s|
      ensures IsFloatSpace(s[k])
    {
      assert s[k] == t[k - i];
    }
  }

  /** Text without `float()` whitespace at either end is read as it is. */
  lemma FloatStripNoop(s: string)
    requires s == [] || (!IsFloatSpace(s[0]) && !IsFloatSpace(s[|s| - 1]))
    ensures FloatStrip(s) == s
  {
    if s != [] {
      assert FloatLead(s) == 0;
      assert !IsFloatSpace(s[|s| - 1]);
    }
  }

  /** Characters that can occur in text `float()` accepts, in this model. */
  predicate IsFloatChar(c: char) {
    IsDigit(c) || c == '.' || c == '+' || c == '-' || c == 'e' || c == 'E' || IsFloatSpace(c)
  }

  predicate AllFloatChars(s: string) {
    forall k | 0 <= k < |s| :: IsFloatChar(s[k])
  }

  lemma FloatCharsAppend(a: string, b: string)
    requires AllFloatChars(a) && AllFloatChars(b)
    ensures AllFloatChars(a + b)
  {
    assert forall k | |a| <= k < |a + b| :: (a + b)[k] == b[k - |a|];
  }

  lemma ExponentFloatChars(s: string)
    requires ParseExponent(s).Some?
    ensures AllFloatChars(s)
  {
    if s != [] {
      var u := s[1..];
      var n := SignLength(u);
      assert s == [s[0]] + u[..n] + u[n..];
      FloatCharsAppend([s[0]], u[..n]);
      FloatCharsAppend([s[0]] + u[..n], u[n..]);
    }
  }

  lemma UnsignedFloatChars(u: string)
    requires ParseUnsigned(u).Some?
    ensures AllFloatChars(u)
  {
    var (ints, dot, frac, rest) := ScanMantissa(u);
    var dotText := if dot then "." else "";
    ExponentFloatChars(rest);
    FloatCharsAppend(ints, dotText);
    FloatCharsAppend(ints + dotText, frac);
    FloatCharsAppend(ints + dotText + frac, rest);
  }

  lemma SignedFloatChars(t: string)
    requires ParseSigned(t).Some?
    ensures AllFloatChars(t)
  {
    var k := SignLength(t);
    var u := t[k..];
    UnsignedFloatChars(u);
    SignFloatChars(t, k);
    SplitAt(t, k);
    FloatCharsAppend(t[..k], u);
  }

  /** The sign at the front of a literal is made of float characters. */
  lemma SignFloatChars(t: string, k: nat)
    requires k == SignLength(t)
    ensures AllFloatChars(t[..k])
  {
    if k == 1 {
      assert t[..k][0] == t[0];
    }
  }

  /** Every text `float()` accepts is made only of digits, dots, signs,
      exponent letters and whitespace: any other leftover character (a
      comma, a currency sign) makes the conversion fail. */
  lemma ParseFloatAlphabet(s: string)
    requires ParseFloat(s).Some?
    ensures AllFloatChars(s)
  {
    var t := FloatStrip(s);
    SignedFloatChars(t);
    var a := FloatLead(s);
    forall k | 0 <= k < |s|
      ensures IsFloatChar(s[k])
    {
      if a <= k < a + |t| {
        assert s[k] == t[k - a];
      }
    }
  }

  predicate IsDot(c: char) {
    c == '.'
  }

  predicate IsDigitOrDot(c: char) {
    IsDigit(c) || c == '.'
  }

  /** A run of digits at the front whose end is not a digit is the leading run. */
  lemma LeadingDigitsIs(s: string, n: nat)
    requires n <= |s|
    requires forall k | 0 <= k < n :: IsDigit(s[k])
    requires n < |s| ==> !IsDigit(s[n])
    ensures LeadingDigits(s) == n
  {
    var m := LeadingDigits(s);
    assert m < |s| ==> !IsDigit(s[m]);
    assert m > 0 ==> s[..m][m - 1] == s[m - 1];
    assert forall k | 0 <= k < m :: s[..m][k] == s[k];
  }

  lemma ParseTrimmed(s: string)
    requires Trimmed(s)
    ensures ParseFloat(s) == ParseSigned(s)
  {
    FloatStripNoop(s);
  }

  lemma ParseNoSign(s: string)
    requires s == [] || (s[0] != '+' && s[0] != '-')
    ensures ParseSigned(s) == ParseUnsigned(s)
  {
    assert SignLength(s) == 0;
    assert s[0..] == s;
  }

  /** On text with no surrounding whitespace and no sign, `float()` reads an
      unsigned literal. */
  lemma ParsePlain(s: string)
    requires Trimmed(s) && (s == [] || (s[0] != '+' && s[0] != '-'))
    ensures ParseFloat(s) == ParseUnsigned(s)
  {
    ParseTrimmed(s);
    ParseNoSign(s);
  }

  /** Where the digits and dots of a digits-and-dots text fall in its scan. */
  lemma ScanCounts(s: string)
    requires forall k | 0 <= k < |s| :: IsDigitOrDot(s[k])
    ensures var (ints, dot, frac, rest) := ScanMantissa(s);
      && |Filter(IsDigit, s)| == |ints| + |frac| + |Filter(IsDigit, rest)|
      && |Filter(IsDot, s)| == (if dot then 1 else 0) + |Filter(IsDot, rest)|
      && (rest != [] ==> rest[0] == '.' && dot)
  {
    var (ints, dot, frac, rest) := ScanMantissa(s);
    var dotText := if dot then "." else "";
    FilterAppend4(IsDot, ints, dotText, frac, rest);
    FilterAppend4(IsDigit, ints, dotText, frac, rest);
    FilterEmpty(IsDot, ints);
    FilterEmpty(IsDot, frac);
    FilterKeepsAll(IsDigit, ints);
    FilterKeepsAll(IsDigit, frac);
    assert Filter(IsDigit, dotText) == [] && Filter(IsDot, dotText) == dotText;
    if rest != [] {
      assert s[|s| - |rest|] == rest[0];
    }
  }

  lemma LeadingDotCounts(rest: string)
    requires rest != [] && rest[0] == '.'
    ensures |Filter(IsDot, rest)| >= 1
  {
    SplitAt(rest, 1);
    FilterAppend(IsDot, rest[..1], rest[1..]);
    assert Filter(IsDot, rest[..1]) == ".";
  }

  lemma UnsignedSucceeds(u: string)
    ensures var (ints, _, frac, rest) := ScanMantissa(u);
      ParseUnsigned(u).Some? <==> ints + frac != [] && ParseExponent(rest).Some?
  {
  }

  /** On text made only of digits and dots, `float()` succeeds exactly when
      there is at least one digit and at most one dot. */
  lemma DigitsAndDotsParse(s: string)
    requires forall k | 0 <= k < |s| :: IsDigitOrDot(s[k])
    ensures ParseFloat(s).Some? <==> (|Filter(IsDigit, s)| >= 1 && |Filter(IsDot, s)| <= 1)
  {
    DigitsAndDotsPlain(s);
    UnsignedSucceeds(s);
    ScanCounts(s);
    var rest := ScanMantissa(s).3;
    if rest != [] {
      LeadingDotCounts(rest);
    }
  }

  /** Text of digits and dots has no surrounding whitespace and no sign. */
  lemma DigitsAndDotsPlain(s: string)
    requires forall k | 0 <= k < |s| :: IsDigitOrDot(s[k])
    ensures ParseFloat(s) == ParseUnsigned(s)
  {
    if s != [] {
      assert IsDigitOrDot(s[0]) && IsDigitOrDot(s[|s| - 1]);
    }
    ParsePlain(s);
  }

  lemma ScanFixedPoint(a: string, b: string)
    requires AllDigits(a) && AllDigits(b)
    ensures ScanMantissa(a + "." + b) == (a, true, b, "")
  {
    var s := a + "." + b;
    LeadingDigitsIs(s, |a|);
    assert s[..|a|] == a;
    assert s[|a|..] == "." + b;
    assert s[|a|..][1..] == b;
    LeadingDigitsIs(b, |b|);
    assert b[..|b|] == b && b[|b|..] == "";
  }

  lemma UnsignedOfScan(u: string)
    requires var (ints, _, frac, rest) := ScanMantissa(u); ints + frac != [] && rest == []
    ensures var (ints, _, frac, _) := ScanMantissa(u);
      AllDigits(ints + frac) && ParseUnsigned(u) == Some(Decimal(false, DigitsValue(ints + frac), -|frac|))
  {
    var (ints, _, frac, _) := ScanMantissa(u);
    AllDigitsAppend(ints, frac);
  }

  /** A plain fixed-point literal `a.b` denotes `ab * 10^-|b|`. */
  lemma FixedPointValue(a: string, b: string)
    requires AllDigits(a) && AllDigits(b) && a + b != []
    ensures AllDigits(a + b)
    ensures ParseFloat(a + "." + b) == Some(Decimal(false, DigitsValue(a + b), -|b|))
  {
    AllDigitsAppend(a, b);
    var s := a + "." + b;
    FixedPointPlain(s, a, b);
    ParsePlain(s);
    ScanFixedPoint(a, b);
    UnsignedOfScan(s);
  }

  /** A fixed-point literal has no surrounding whitespace and no sign. */
  lemma FixedPointPlain(s: string, a: string, b: string)
    requires AllDigits(a) && AllDigits(b) && s == a + "." + b
    ensures Trimmed(s) && s[0] != '+' && s[0] != '-'
  {
    if a != [] { assert s[0] == a[0]; } else { assert s[0] == '.'; }
    if b != [] { assert s[|s| - 1] == b[|b| - 1]; } else { assert s[|s| - 1] == '.'; }
  }

  /** Appending a digit multiplies the value by ten and adds the digit. */
  lemma DigitsValueSnoc(s: string, c: char)
    requires AllDigits(s) && IsDigit(c)
    ensures AllDigits(s + [c])
    ensures DigitsValue(s + [c]) == DigitsValue(s) * 10 + (c as int - '0' as int)
  {
    assert (s + [c])[..|s|] == s;
  }

  /** The value of a digit text read in two parts: the front part shifted
      left by the length of the back part, plus the back part. */
  lemma {:induction false} DigitsValueAppend(a: string, b: string)
    requires AllDigits(a) && AllDigits(b)
    ensures AllDigits(a + b)
    ensures DigitsValue(a + b) == DigitsValue(a) * Pow10(|b|) + DigitsValue(b)
    decreases |b|
  {
    AllDigitsAppend(a, b);
    if b == [] {
      assert a + b == a;
    } else {
      var front, c := b[..|b| - 1], b[|b| - 1];
      SplitLast(a, b);
      DigitsValueAppend(a, front);
      DigitsValueSnoc(a + front, c);
      DigitsValueSnoc(front, c);
      assert Pow10(|b|) == Pow10(|front|) * 10;
      ShiftDigit(DigitsValue(a), Pow10(|front|), DigitsValue(front), c as int - '0' as int);
    }
  }

  /** A non-empty digit text is its front and its last digit. */
  lemma SplitLast(a: string, b: string)
    requires AllDigits(b) && b != []
    ensures b == b[..|b| - 1] + [b[|b| - 1]] && AllDigits(b[..|b| - 1]) && IsDigit(b[|b| - 1])
    ensures a + b == (a + b[..|b| - 1]) + [b[|b| - 1]]
  {
    assert b == b[..|b| - 1] + [b[|b| - 1]];
  }

  lemma ShiftDigit(x: int, p: int, f: int, d: int)
    ensures (x * p + f) * 10 + d == x * (p * 10) + (f * 10 + d)
  {
  }

  /** A single digit is worth its own value. */
  lemma DigitsValueOne(c: char)
    requires IsDigit(c)
    ensures AllDigits([c]) && DigitsValue([c]) == c as int - '0' as int
  {
    assert [c][..0] == [];
  }

  /** The value written "5177" is 5177. */
  lemma DigitsValueExample(d: string)
    requires d == "5177"
    ensures AllDigits(d) && DigitsValue(d) == 5177
  {
    DigitsValueSnoc("", '5');
    assert "" + ['5'] == "5";
    DigitsValueSnoc("5", '1');
    assert "5" + ['1'] == "51";
    DigitsValueSnoc("51", '7');
    assert "51" + ['7'] == "517";
    DigitsValueSnoc("517", '7');
    assert "517" + ['7'] == d;
  }

  /** A price as the site prints it parses to its exact decimal. */
  lemma PriceParseExample(s: string, a: string, b: string)
    requires a == "51" && b == "77" && s == a + "." + b
    ensures ParseFloat(s) == Some(Decimal(false, 5177, -2))
  {
    DigitsValueExample(a + b);
    FixedPointOf(s, a, b, 5177);
  }

  /** A fixed-point literal whose digits have the value `v`. */
  lemma FixedPointOf(s: string, a: string, b: string, v: nat)
    requires AllDigits(a) && AllDigits(b) && a + b != [] && s == a + "." + b
    requires AllDigits(a + b) && DigitsValue(a + b) == v
    ensures ParseFloat(s) == Some(Decimal(false, v, -|b|))
  {
    FixedPointValue(a, b);
  }

  /** That decimal is the number 51.77. */
  lemma PriceValueExample(d: Decimal)
    requires d == Decimal(false, 5177, -2)
    ensures Value(d) == 51.77
  {
    assert Pow10(2) == 100;
  }

  /** A comma is not part of a float literal. */
  lemma CommaExample(s: string)
    requires s == "51,77"
    ensures ParseFloat(s) == None
  {
    assert !IsFloatChar(s[2]);
    if ParseFloat(s).Some? {
      ParseFloatAlphabet(s);
    }
  }

  /** The separator 0x1C is whitespace to `str.strip()` but not to
      `float()`: stripping removes it, while `float()` rejects the text. */
  lemma SeparatorExample(s: string)
    requires s == "\U{1C}1"
    ensures Strip(s) == "1"
    ensures ParseFloat(s) == None
  {
    LeadingSpacesIs(s, 1);
    assert s[1..] == "1";
    assert !IsFloatChar(s[0]);
    if ParseFloat(s).Some? {
      ParseFloatAlphabet(s);
    }
  }

  /** A text with a dot at position `i` keeps at least one dot. */
  lemma HasDot(s: string, i: nat)
    requires i < |s| && s[i] == '.'
    ensures |Filter(IsDot, s)| >= 1
  {
    FilterEmpty(IsDot, s);
  }

  /** A text with two dots keeps at least two. */
  lemma HasTwoDots(s: string, i: nat, j: nat)
    requires i < j < |s| && s[i] == '.' && s[j] == '.'
    ensures |Filter(IsDot, s)| >= 2
  {
    SplitAt(s, j);
    FilterAppend(IsDot, s[..j], s[j..]);
    HasDot(s[..j], i);
    HasDot(s[j..], 0);
  }

  /** A second dot is rejected. */
  lemma TwoDotsExample(s: string)
    requires s == "1.2.3"
    ensures ParseFloat(s) == None
  {
    assert forall k | 0 <= k < |s| :: IsDigitOrDot(s[k]);
    DigitsAndDotsParse(s);
    HasTwoDots(s, 1, 3);
  }
}
