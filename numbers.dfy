/**
 * The two number scanners the corpus normaliser runs over free-text cells:
 * `re.findall(r'(\d+)', s)` for experience and `re.findall(r'(\d+(?:\.\d+)?)', s)`
 * for salary, and the values `int(...)` / `float(...)` give the tokens they find.
 * Digits are the ASCII digits; values are exact (integers and rationals).
 */
module Numbers {
  import opened Text

  predicate AllDigits(s: string) {
    forall k :: 0 <= k < |s| ==> IsDigit(s[k])
  }

  predicate NoDigits(s: string) {
    forall k :: 0 <= k < |s| ==> !IsDigit(s[k])
  }

  /** The length of the run of digits that starts `s`. */
  function LeadingDigits(s: string): (n: nat)
    ensures n <= |s| && AllDigits(s[..n]) && (n == |s| || !IsDigit(s[n]))
  {
    if s == [] || !IsDigit(s[0]) then 0
    else
      var m := LeadingDigits(s[1..]);
      assert s[..m + 1] == [s[0]] + s[1..][..m];
      1 + m
  }

  /** A run of digits followed by anything that does not go on with a digit. */
  lemma {:induction false} LeadingDigitsOf(d: string, rest: string)
    requires AllDigits(d) && (rest == [] || !IsDigit(rest[0]))
    ensures LeadingDigits(d + rest) == |d|
  {
    if d != [] {
      assert (d + rest)[1..] == d[1..] + rest;
      LeadingDigitsOf(d[1..], rest);
    }
  }

  // ---------------------------------------------------------------------------
  // `\d+`

  /** `re.findall(r'(\d+)', s)`: the maximal runs of digits, left to right. */
  function DigitRuns(s: string): (r: seq<string>)
    ensures forall k :: 0 <= k < |r| ==> r[k] != [] && AllDigits(r[k])
    decreases |s|
  {
    if s == [] then []
    else if !IsDigit(s[0]) then DigitRuns(s[1..])
    else
      var n := LeadingDigits(s);
      [s[..n]] + DigitRuns(s[n..])
  }

  /** A string without digits has no runs. */
  lemma {:induction false} DigitRunsNone(s: string)
    requires NoDigits(s)
    ensures DigitRuns(s) == []
  {
    if s != [] {
      DigitRunsNone(s[1..]);
    }
  }

  /** A run of digits at the front is the first match, and scanning resumes after it. */
  lemma DigitRunsLead(d: string, rest: string)
    requires d != [] && AllDigits(d) && (rest == [] || !IsDigit(rest[0]))
    ensures DigitRuns(d + rest) == [d] + DigitRuns(rest)
  {
    var s := d + rest;
    LeadingDigitsOf(d, rest);
    assert s[..|d|] == d && s[|d|..] == rest;
  }

  /** A character that is not a digit is skipped. */
  lemma DigitRunsSkip(c: char, rest: string)
    requires !IsDigit(c)
    ensures DigitRuns([c] + rest) == DigitRuns(rest)
  {
    assert ([c] + rest)[1..] == rest;
  }

  /** Lower-casing the text first changes no digit run. */
  lemma {:induction false} DigitRunsLower(s: string)
    ensures DigitRuns(Lower(s)) == DigitRuns(s)
    decreases |s|
  {
    var t := Lower(s);
    if s != [] {
      LowerKeepsDigits(s);
      if !IsDigit(s[0]) {
        assert t[1..] == Lower(s[1..]);
        DigitRunsLower(s[1..]);
      } else {
        var n := LeadingDigits(s);
        LeadingDigitsOf(s[..n], s[n..]);
        assert s == s[..n] + s[n..];
        assert t[..n] == s[..n];
        assert t == t[..n] + Lower(s[n..]);
        LeadingDigitsOf(t[..n], Lower(s[n..]));
        assert t[n..] == Lower(s[n..]);
        DigitRunsLower(s[n..]);
      }
    }
  }

  /** Lower-casing keeps digits, points and non-digits where they are. */
  lemma LowerKeepsDigits(s: string)
    ensures |Lower(s)| == |s|
    ensures forall k :: 0 <= k < |s| ==> (IsDigit(Lower(s)[k]) <==> IsDigit(s[k]))
    ensures forall k :: 0 <= k < |s| ==> (Lower(s)[k] == '.' <==> s[k] == '.')
    ensures forall k :: 0 <= k < |s| && (IsDigit(s[k]) || s[k] == '.') ==> Lower(s)[k] == s[k]
  {
  }

  // ---------------------------------------------------------------------------
  // values

  function DigitValue(c: char): nat
    requires IsDigit(c)
  {
    (c as int) - ('0' as int)
  }

  /** `int(t)` for a run of digits (leading zeros allowed). */
  function Value(t: string): nat
    requires AllDigits(t)
    decreases |t|
  {
    if t == [] then 0 else 10 * Value(t[..|t| - 1]) + DigitValue(t[|t| - 1])
  }

  function DigitChar(d: nat): (c: char)
    requires d < 10
    ensures IsDigit(c) && DigitValue(c) == d
  {
    ((('0' as int) + d) as char)
  }

  /** `str(n)`: the decimal digits of `n`, which read back as `n`. */
  function Render(n: nat): (r: string)
    ensures r != [] && AllDigits(r) && Value(r) == n
    decreases n
  {
    if n < 10 then [DigitChar(n)]
    else
      var r := Render(n / 10) + [DigitChar(n % 10)];
      assert r[..|r| - 1] == Render(n / 10);
      r
  }

  // ---------------------------------------------------------------------------
  // `\d+(?:\.\d+)?`

  /** The length of the `\d+(?:\.\d+)?` match at the start of `s`. */
  function NumberLength(s: string): (n: nat)
    requires s != [] && IsDigit(s[0])
    ensures 0 < n <= |s|
  {
    var i := LeadingDigits(s);
    if i + 1 < |s| && s[i] == '.' && IsDigit(s[i + 1]) then i + 1 + LeadingDigits(s[i + 1..]) else i
  }

  /** A decimal literal: digits, then optionally a point and more digits. */
  predicate IsDecimal(t: string) {
    var i := LeadingDigits(t);
    0 < i && (i == |t| || (t[i] == '.' && i + 1 < |t| && AllDigits(t[i + 1..])))
  }

  lemma NumberIsDecimal(s: string)
    requires s != [] && IsDigit(s[0])
    ensures IsDecimal(s[..NumberLength(s)])
  {
    var i := LeadingDigits(s);
    var n := NumberLength(s);
    var t := s[..n];
    assert t == s[..i] + s[i..n];
    if n == i {
      LeadingDigitsOf(s[..i], []);
      assert t == s[..i] + [];
    } else {
      LeadingDigitsOf(s[..i], s[i..n]);
      assert t[i + 1..] == s[i + 1..][..LeadingDigits(s[i + 1..])];
    }
  }

  /** `re.findall(r'(\d+(?:\.\d+)?)', s)`: the decimal literals, left to right. */
  function DecimalTokens(s: string): (r: seq<string>)
    ensures forall k :: 0 <= k < |r| ==> IsDecimal(r[k])
    decreases |s|
  {
    if s == [] then []
    else if !IsDigit(s[0]) then DecimalTokens(s[1..])
    else
      var n := NumberLength(s);
      NumberIsDecimal(s);
      [s[..n]] + DecimalTokens(s[n..])
  }

  function Pow10(k: nat): (p: nat)
    ensures p >= 1
  {
    if k == 0 then 1 else 10 * Pow10(k - 1)
  }

  /** `float(t)` for a decimal literal, exactly: the whole part plus the digits after the point. */
  function DecimalValue(t: string): (v: real)
    requires IsDecimal(t)
    ensures v >= 0.0
  {
    var i := LeadingDigits(t);
    Value(t[..i]) as real + (if i == |t| then 0.0 else Value(t[i + 1..]) as real / Pow10(|t| - i - 1) as real)
  }

  /** A run of digits reads back as the integer it spells. */
  lemma DecimalValueOfDigits(d: string)
    requires d != [] && AllDigits(d)
    ensures IsDecimal(d) && DecimalValue(d) == Value(d) as real
  {
    LeadingDigitsOf(d, []);
    assert d + [] == d && d[..|d|] == d;
  }

  lemma {:induction false} DecimalTokensNone(s: string)
    requires NoDigits(s)
    ensures DecimalTokens(s) == []
  {
    if s != [] {
      DecimalTokensNone(s[1..]);
    }
  }

  /** Digits at the front that no point-and-digit follows are the first literal. */
  lemma DecimalTokensLead(d: string, rest: string)
    requires d != [] && AllDigits(d)
    requires rest == [] || (!IsDigit(rest[0]) && rest[0] != '.')
    ensures DecimalTokens(d + rest) == [d] + DecimalTokens(rest)
  {
    var s := d + rest;
    LeadingDigitsOf(d, rest);
    assert s[..|d|] == d && s[|d|..] == rest;
  }

  /**
   * Nothing at the front of `rest` can continue a literal that ends just before it:
   * no digit, and no point followed by a digit.
   */
  predicate EndsLiteral(rest: string) {
    rest == [] || (!IsDigit(rest[0]) && (rest[0] == '.' ==> |rest| == 1 || !IsDigit(rest[1])))
  }

  /** A decimal literal at the front, with nothing after it that continues it, is the first match. */
  lemma DecimalTokensOfLiteral(t: string, rest: string)
    requires IsDecimal(t) && EndsLiteral(rest)
    ensures DecimalTokens(t + rest) == [t] + DecimalTokens(rest)
  {
    var i := LeadingDigits(t);
    if i == |t| {
      assert t[..i] == t;
      var s := t + rest;
      LeadingDigitsOf(t, rest);
      assert s[..|t|] == t && s[|t|..] == rest;
      DecimalTokensUnfold(s);
    } else {
      var a, b := t[..i], t[i + 1..];
      assert t == a + "." + b;
      DecimalTokensFraction(a, b, rest);
    }
  }

  /** A stretch of text without digits is skipped whole. */
  lemma {:induction false} DecimalTokensSkipAll(sep: string, rest: string)
    requires NoDigits(sep)
    ensures DecimalTokens(sep + rest) == DecimalTokens(rest)
    decreases |sep|
  {
    if sep != [] {
      assert sep + rest == [sep[0]] + (sep[1..] + rest);
      DecimalTokensSkip(sep[0], sep[1..] + rest);
      DecimalTokensSkipAll(sep[1..], rest);
    } else {
      assert sep + rest == rest;
    }
  }

  /** A stretch of text without digits holds no digit run. */
  lemma {:induction false} DigitRunsSkipAll(sep: string, rest: string)
    requires NoDigits(sep)
    ensures DigitRuns(sep + rest) == DigitRuns(rest)
    decreases |sep|
  {
    if sep != [] {
      assert sep + rest == [sep[0]] + (sep[1..] + rest);
      DigitRunsSkip(sep[0], sep[1..] + rest);
      DigitRunsSkipAll(sep[1..], rest);
    } else {
      assert sep + rest == rest;
    }
  }

  /** A literal with a fractional part is taken whole. */
  lemma DecimalTokensFraction(a: string, b: string, rest: string)
    requires a != [] && AllDigits(a) && b != [] && AllDigits(b)
    requires rest == [] || !IsDigit(rest[0])
    ensures DecimalTokens(a + "." + b + rest) == [a + "." + b] + DecimalTokens(rest)
  {
    var s := a + "." + b + rest;
    NumberLengthFraction(a, b, rest);
    DecimalTokensUnfold(s);
    assert s[..|a| + 1 + |b|] == a + "." + b;
    assert s[|a| + 1 + |b|..] == rest;
  }

  lemma NumberLengthFraction(a: string, b: string, rest: string)
    requires a != [] && AllDigits(a) && b != [] && AllDigits(b)
    requires rest == [] || !IsDigit(rest[0])
    ensures (a + "." + b + rest) != [] && IsDigit((a + "." + b + rest)[0])
    ensures NumberLength(a + "." + b + rest) == |a| + 1 + |b|
  {
    var s := a + "." + b + rest;
    var w := "." + b + rest;
    assert s == a + w && w[0] == '.';
    LeadingDigitsOf(a, w);
    assert s[|a|] == '.' && s[|a| + 1] == b[0];
    assert s[|a| + 1..] == b + rest;
    LeadingDigitsOf(b, rest);
    NumberLengthPoint(s, |a|);
  }

  /** A point and a digit after the leading digits continue the literal. */
  lemma NumberLengthPoint(s: string, i: nat)
    requires s != [] && IsDigit(s[0]) && LeadingDigits(s) == i
    requires i + 1 < |s| && s[i] == '.' && IsDigit(s[i + 1])
    ensures NumberLength(s) == i + 1 + LeadingDigits(s[i + 1..])
  {
  }

  /** The step the scanner takes at a digit. */
  lemma DecimalTokensUnfold(s: string)
    requires s != [] && IsDigit(s[0])
    ensures DecimalTokens(s) == [s[..NumberLength(s)]] + DecimalTokens(s[NumberLength(s)..])
  {
  }

  lemma DecimalTokensSkip(c: char, rest: string)
    requires !IsDigit(c)
    ensures DecimalTokens([c] + rest) == DecimalTokens(rest)
  {
    assert ([c] + rest)[1..] == rest;
  }

  /** Lower-casing the text first changes no decimal literal. */
  lemma {:induction false} DecimalTokensLower(s: string)
    ensures DecimalTokens(Lower(s)) == DecimalTokens(s)
    decreases |s|
  {
    if s != [] {
      if !IsDigit(s[0]) {
        DecimalTokensLowerSkip(s);
        DecimalTokensLower(s[1..]);
      } else {
        DecimalTokensLowerHead(s);
        DecimalTokensUnfold(s);
        DecimalTokensLower(s[NumberLength(s)..]);
      }
    }
  }

  lemma LowerFrom(s: string, n: nat)
    requires n <= |s|
    ensures |Lower(s)| == |s| && Lower(s)[n..] == Lower(s[n..])
  {
  }

  /** A leading non-digit is skipped in the lower-cased text too. */
  lemma DecimalTokensLowerSkip(s: string)
    requires s != [] && !IsDigit(s[0])
    ensures DecimalTokens(Lower(s)) == DecimalTokens(Lower(s[1..]))
  {
    LowerKeepsDigits(s);
    LowerFrom(s, 1);
  }

  /** A leading literal is read unchanged from the lower-cased text. */
  lemma DecimalTokensLowerHead(s: string)
    requires s != [] && IsDigit(s[0])
    ensures DecimalTokens(Lower(s)) == [s[..NumberLength(s)]] + DecimalTokens(Lower(s[NumberLength(s)..]))
  {
    var t := Lower(s);
    var n := NumberLength(s);
    LowerKeepsDigits(s);
    NumberLengthLower(s);
    DecimalTokensUnfold(t);
    NumberChars(s);
    assert t[..n] == s[..n];
    LowerFrom(s, n);
  }

  /** A decimal literal is made of digits and a point. */
  lemma NumberChars(s: string)
    requires s != [] && IsDigit(s[0])
    ensures forall k :: 0 <= k < NumberLength(s) ==> IsDigit(s[k]) || s[k] == '.'
  {
    var i := LeadingDigits(s);
    assert forall k :: 0 <= k < i ==> s[..i][k] == s[k];
    if NumberLength(s) > i {
      var u := s[i + 1..];
      var j := LeadingDigits(u);
      assert forall k :: i + 1 <= k < i + 1 + j ==> s[k] == u[..j][k - i - 1];
    }
  }

  lemma NumberLengthLower(s: string)
    requires s != [] && IsDigit(s[0])
    ensures |Lower(s)| == |s| && IsDigit(Lower(s)[0])
    ensures NumberLength(Lower(s)) == NumberLength(s)
  {
    LowerKeepsDigits(s);
    NumberLengthSame(s, Lower(s));
  }

  /** Digits and points at the same places. */
  predicate SameShape(s: string, t: string) {
    |s| == |t| && forall k :: 0 <= k < |s| ==> (IsDigit(s[k]) <==> IsDigit(t[k])) && (s[k] == '.' <==> t[k] == '.')
  }

  lemma SameShapeFrom(s: string, t: string, n: nat)
    requires SameShape(s, t) && n <= |s|
    ensures SameShape(s[n..], t[n..])
  {
    assert forall k :: 0 <= k < |s| - n ==> s[n..][k] == s[n + k] && t[n..][k] == t[n + k];
  }

  /** The literal at the front depends only on where the digits and points are. */
  lemma NumberLengthSame(s: string, t: string)
    requires s != [] && IsDigit(s[0]) && SameShape(s, t)
    ensures IsDigit(t[0]) && NumberLength(t) == NumberLength(s)
  {
    LeadingDigitsSame(s, t);
    var i := LeadingDigits(s);
    assert IsDigit(t[0]);
    if i + 1 < |s| && s[i] == '.' && IsDigit(s[i + 1]) {
      assert t[i] == '.' && IsDigit(t[i + 1]);
      SameShapeFrom(s, t, i + 1);
      LeadingDigitsSame(s[i + 1..], t[i + 1..]);
      NumberLengthPoint(s, i);
      NumberLengthPoint(t, i);
    } else {
      assert !(i + 1 < |t| && t[i] == '.' && IsDigit(t[i + 1]));
    }
  }

  /** The digit run at the front depends only on where the digits are. */
  lemma {:induction false} LeadingDigitsSame(s: string, t: string)
    requires SameShape(s, t)
    ensures LeadingDigits(s) == LeadingDigits(t)
    decreases |s|
  {
    if s != [] && IsDigit(s[0]) {
      SameShapeFrom(s, t, 1);
      LeadingDigitsSame(s[1..], t[1..]);
    }
  }


}
