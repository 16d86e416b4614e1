/**
 * The Python string operations the job-matching pipeline relies on:
 * `str.lower()`, `str.title()`, `str.strip()`, `re.sub(r'\s+', ' ', ...)`,
 * the substring test `a in b`, `re.split`/`str.split` and `sep.join(...)`,
 * and the comma tokeniser that the corpus code repeats in several places.
 * Case mapping covers ASCII letters; whitespace is Python's `str.isspace()` set.
 */
module Text {

  /** Python's whitespace (str.isspace(), `\s` in `re`, the default of strip and split). */
  predicate IsSpace(c: char) {
    || c == ' '
    || ('\t' <= c <= '\r')
    || ('\U{1C}' <= c <= '\U{1F}')
    || c == '\U{85}' || c == '\U{A0}' || c == '\U{1680}'
    || ('\U{2000}' <= c <= '\U{200A}')
    || c == '\U{2028}' || c == '\U{2029}' || c == '\U{202F}' || c == '\U{205F}' || c == '\U{3000}'
  }

  predicate IsUpper(c: char) { 'A' <= c <= 'Z' }
  predicate IsLower(c: char) { 'a' <= c <= 'z' }
  predicate IsLetter(c: char) { IsUpper(c) || IsLower(c) }
  predicate IsDigit(c: char) { '0' <= c <= '9' }

  /** Letters are never whitespace. */
  lemma LetterNotSpace(c: char)
    requires IsLetter(c)
    ensures !IsSpace(c)
  {
  }

  function LowerChar(c: char): (r: char)
    ensures IsLetter(r) == IsLetter(c) && !IsUpper(r)
    ensures !IsUpper(c) ==> r == c
  {
    if IsUpper(c) then (c as int + 32) as char else c
  }

  function UpperChar(c: char): (r: char)
    ensures IsLetter(r) == IsLetter(c) && !IsLower(r)
    ensures !IsLower(c) ==> r == c
  {
    if IsLower(c) then (c as int - 32) as char else c
  }

  /** `s.lower()` */
  function Lower(s: string): string {
    seq(|s|, i requires 0 <= i < |s| => LowerChar(s[i]))
  }

  /** No upper-case letter anywhere, as after `s.lower()`. */
  predicate IsLowerCase(s: string) {
    forall i :: 0 <= i < |s| ==> !IsUpper(s[i])
  }

  /** One character of `str.title()`: upper-cased at the start of a word, else lower-cased. */
  function TitleChar(startsWord: bool, c: char): (r: char)
    ensures IsLetter(r) == IsLetter(c)
    ensures !IsLetter(c) ==> r == c
  {
    if startsWord then UpperChar(c) else LowerChar(c)
  }

  /**
   * `s.title()` scanned left to right, `afterLetter` saying whether the character
   * before `s` was a letter: letters change case, nothing else changes.
   */
  function TitleCaseAfter(afterLetter: bool, s: string): (r: string)
    ensures |r| == |s|
    ensures forall i :: 0 <= i < |s| ==> IsLetter(r[i]) == IsLetter(s[i]) && (!IsLetter(s[i]) ==> r[i] == s[i])
    decreases |s|
  {
    if s == [] then []
    else
      var rest := TitleCaseAfter(IsLetter(s[0]), s[1..]);
      var r := [TitleChar(!afterLetter, s[0])] + rest;
      assert forall i :: 1 <= i < |s| ==> r[i] == rest[i - 1] && s[i] == s[1..][i - 1];
      r
  }

  /** `s.title()` */
  function TitleCase(s: string): string {
    TitleCaseAfter(false, s)
  }

  predicate IsTitleCased(s: string) {
    TitleCase(s) == s
  }

  lemma {:induction false} TitleCaseAfterAt(afterLetter: bool, s: string, i: nat)
    requires i < |s|
    ensures TitleCaseAfter(afterLetter, s)[i] == TitleChar(if i == 0 then !afterLetter else !IsLetter(s[i - 1]), s[i])
    decreases i
  {
    if i > 0 {
      TitleCaseAfterAt(IsLetter(s[0]), s[1..], i - 1);
      if i > 1 {
        assert s[1..][i - 2] == s[i - 1];
      }
    }
  }

  /**
   * Character by character: a letter is upper-cased when it starts the string or
   * follows a character that is not a letter, and lower-cased otherwise.
   */
  lemma TitleCaseAt(s: string, i: nat)
    requires i < |s|
    ensures TitleCase(s)[i] == TitleChar(i == 0 || !IsLetter(s[i - 1]), s[i])
  {
    TitleCaseAfterAt(false, s, i);
  }

  /** A capital followed by lower-case letters is a title-cased word. */
  lemma TitleCasedWord(w: string)
    requires w != [] && IsUpper(w[0])
    requires forall i :: 1 <= i < |w| ==> IsLower(w[i])
    ensures IsTitleCased(w)
  {
    forall i | 0 <= i < |w|
      ensures TitleCase(w)[i] == w[i]
    {
      TitleCaseAt(w, i);
    }
  }

  /** Two title-cased words joined by a blank make a title-cased phrase. */
  lemma TitleCasedSpaced(a: string, b: string)
    requires IsTitleCased(a) && IsTitleCased(b)
    ensures IsTitleCased(a + " " + b)
  {
    var s := a + " " + b;
    forall i | 0 <= i < |s|
      ensures TitleCase(s)[i] == s[i]
    {
      TitleCaseAt(s, i);
      if i < |a| {
        TitleCaseAt(a, i);
      } else if i > |a| {
        var j := i - |a| - 1;
        TitleCaseAt(b, j);
        if j > 0 {
          assert s[i - 1] == b[j - 1];
        }
      }
    }
  }

  /** Title-casing adds no delimiter when no delimiter is a letter. */
  lemma TitleCaseNoDelimiter(s: string, isDelim: char -> bool)
    requires NoDelimiter(s, isDelim)
    requires forall c :: isDelim(c) ==> !IsLetter(c)
    ensures NoDelimiter(TitleCase(s), isDelim)
  {
    var t := TitleCase(s);
    forall j | 0 <= j < |t|
      ensures !isDelim(t[j])
    {
      assert IsLetter(t[j]) == IsLetter(s[j]) && (!IsLetter(s[j]) ==> t[j] == s[j]);
    }
  }

  /** Two words of letters joined by one blank have no edge space and single spacing. */
  lemma LettersSpaced(a: string, b: string)
    requires a != [] && forall i :: 0 <= i < |a| ==> IsLetter(a[i])
    requires b != [] && forall i :: 0 <= i < |b| ==> IsLetter(b[i])
    ensures NoEdgeSpace(a + " " + b) && SingleSpaced(a + " " + b)
  {
    var s := a + " " + b;
    assert s[0] == a[0] && s[|s| - 1] == b[|b| - 1];
    LetterNotSpace(a[0]);
    LetterNotSpace(b[|b| - 1]);
    forall i | 0 <= i < |s| && IsSpace(s[i])
      ensures s[i] == ' ' && (i + 1 < |s| ==> !IsSpace(s[i + 1]))
    {
      if i < |a| {
        LetterNotSpace(a[i]);
      } else if i > |a| {
        LetterNotSpace(b[i - |a| - 1]);
      } else {
        LetterNotSpace(b[0]);
      }
    }
  }

  lemma TitleCharIdempotent(startsWord: bool, c: char)
    ensures TitleChar(startsWord, TitleChar(startsWord, c)) == TitleChar(startsWord, c)
  {
  }

  lemma {:induction false} TitleCaseAfterIdempotent(afterLetter: bool, s: string)
    ensures TitleCaseAfter(afterLetter, TitleCaseAfter(afterLetter, s)) == TitleCaseAfter(afterLetter, s)
    decreases |s|
  {
    if s != [] {
      var t := TitleCaseAfter(afterLetter, s);
      var rest := TitleCaseAfter(IsLetter(s[0]), s[1..]);
      assert t[0] == TitleChar(!afterLetter, s[0]) && t[1..] == rest;
      TitleCharIdempotent(!afterLetter, s[0]);
      TitleCaseAfterIdempotent(IsLetter(s[0]), s[1..]);
    }
  }

  lemma TitleCaseIdempotent(s: string)
    ensures IsTitleCased(TitleCase(s))
  {
    TitleCaseAfterIdempotent(false, s);
  }

  /** Title-casing changes only the case of letters. */
  lemma LowerOfTitleCase(s: string)
    ensures Lower(TitleCase(s)) == Lower(s)
  {
    var t := TitleCase(s);
    forall i | 0 <= i < |s|
      ensures Lower(t)[i] == Lower(s)[i]
    {
      TitleCaseAt(s, i);
      assert t[i] == UpperChar(s[i]) || t[i] == LowerChar(s[i]);
    }
  }

  /** On lower-case strings title-casing is injective: lower-casing undoes it. */
  lemma TitleCaseOfLowerInjective(a: string, b: string)
    requires IsLowerCase(a) && IsLowerCase(b)
    requires TitleCase(a) == TitleCase(b)
    ensures a == b
  {
    LowerOfTitleCase(a);
    LowerOfTitleCase(b);
    assert Lower(a) == a;
    assert Lower(b) == b;
  }

  /** Lower-casing leaves a string without upper-case letters as it is. */
  lemma LowerFixes(s: string)
    requires IsLowerCase(s)
    ensures Lower(s) == s
  {
  }

  lemma LowerIsLowerCase(s: string)
    ensures IsLowerCase(Lower(s)) && |Lower(s)| == |s|
  {
  }

  // ---------------------------------------------------------------------------
  // strip and whitespace collapsing

  predicate AllSpace(s: string) {
    forall i :: 0 <= i < |s| ==> IsSpace(s[i])
  }

  /** No whitespace at either end. */
  predicate NoEdgeSpace(s: string) {
    s == [] || (!IsSpace(s[0]) && !IsSpace(s[|s| - 1]))
  }

  /** Every whitespace character is a plain blank, and no two are adjacent. */
  predicate SingleSpaced(s: string) {
    forall i :: 0 <= i < |s| && IsSpace(s[i]) ==> s[i] == ' ' && (i + 1 < |s| ==> !IsSpace(s[i + 1]))
  }

  function StripLeft(s: string): (r: string)
    ensures |r| <= |s| && r == s[|s| - |r|..]
    ensures r == [] || !IsSpace(r[0])
    ensures AllSpace(s[..|s| - |r|])
  {
    if s != [] && IsSpace(s[0]) then StripLeft(s[1..]) else s
  }

  function StripRight(s: string): (r: string)
    ensures |r| <= |s| && r == s[..|r|]
    ensures r == [] || !IsSpace(r[|r| - 1])
    ensures AllSpace(s[|r|..])
  {
    if s != [] && IsSpace(s[|s| - 1]) then
      var r := StripRight(s[..|s| - 1]);
      StripRightStep(s, r);
      r
    else s
  }

  /** Stripping all but the last character, when that one is a space, strips `s`. */
  lemma StripRightStep(s: string, r: string)
    requires s != [] && IsSpace(s[|s| - 1])
    requires |r| <= |s| - 1 && r == s[..|s| - 1][..|r|] && AllSpace(s[..|s| - 1][|r|..])
    ensures r == s[..|r|] && AllSpace(s[|r|..])
  {
    var init := s[..|s| - 1];
    forall i | 0 <= i < |s[|r|..]|
      ensures IsSpace(s[|r|..][i])
    {
      if |r| + i < |s| - 1 {
        assert s[|r|..][i] == init[|r|..][i];
      }
    }
  }

  /** `s.strip()`: `s` minus its whitespace prefix and suffix. */
  function Strip(s: string): (r: string)
    ensures NoEdgeSpace(r) && |r| <= |s|
  {
    var l := StripLeft(s);
    var r := StripRight(l);
    assert r != [] ==> r[0] == l[0];
    r
  }

  /** What strip removes is whitespace, and what it keeps is one slice of the input. */
  lemma StripShape(s: string) returns (i: nat, j: nat)
    ensures i <= j <= |s| && Strip(s) == s[i..j]
    ensures AllSpace(s[..i]) && AllSpace(s[j..])
  {
    var l := StripLeft(s);
    var r := StripRight(l);
    i, j := |s| - |l|, |s| - |l| + |r|;
    assert s[j..] == l[|r|..];
  }

  /** A leading whitespace character is stripped away. */
  lemma StripLeftSpace(c: char, s: string)
    requires IsSpace(c)
    ensures StripLeft([c] + s) == StripLeft(s)
  {
    assert ([c] + s)[1..] == s;
  }

  lemma StripLeftFixes(s: string)
    requires s == [] || !IsSpace(s[0])
    ensures StripLeft(s) == s
  {
  }

  lemma StripRightFixes(s: string)
    requires s == [] || !IsSpace(s[|s| - 1])
    ensures StripRight(s) == s
  {
  }

  /** A string without edge whitespace is its own strip. */
  lemma StripFixes(s: string)
    requires NoEdgeSpace(s)
    ensures Strip(s) == s
  {
    StripLeftFixes(s);
    StripRightFixes(s);
  }

  lemma StripIdempotent(s: string)
    ensures Strip(Strip(s)) == Strip(s)
  {
    StripFixes(Strip(s));
  }

  /** Stripping leaves nothing exactly when the string is all whitespace. */
  lemma StripEmptyIff(s: string)
    ensures Strip(s) == [] <==> AllSpace(s)
  {
    var i, j := StripShape(s);
    if Strip(s) != [] {
      assert Strip(s)[0] == s[i];
    } else {
      forall k | 0 <= k < |s|
        ensures IsSpace(s[k])
      {
        if k < i { assert s[..i][k] == s[k]; } else { assert s[j..][k - j] == s[k]; }
      }
    }
  }

  /** Stripping a string without the delimiter leaves a string without it. */
  lemma StripNoDelimiter(s: string, isDelim: char -> bool)
    requires NoDelimiter(s, isDelim)
    ensures NoDelimiter(Strip(s), isDelim)
  {
    var i, j := StripShape(s);
    assert forall k :: 0 <= k < j - i ==> Strip(s)[k] == s[i + k];
  }

  /** A blank in front of a stripped string is stripped away again. */
  lemma StripBlankPrefixed(s: string)
    requires NoEdgeSpace(s)
    ensures Strip(" " + s) == s
  {
    StripLeftSpace(' ', s);
    assert " " + s == [' '] + s;
    StripLeftFixes(s);
    StripRightFixes(s);
  }

  /** `re.sub(r'\s+', ' ', s)`: every maximal run of whitespace becomes one blank. */
  function CollapseSpaces(s: string): (r: string)
    decreases |s|
  {
    if s == [] then []
    else if IsSpace(s[0]) then [' '] + CollapseSpaces(StripLeft(s[1..]))
    else [s[0]] + CollapseSpaces(s[1..])
  }

  lemma {:induction false} CollapseStartsWith(s: string)
    requires s != [] && !IsSpace(s[0])
    ensures CollapseSpaces(s) != [] && CollapseSpaces(s)[0] == s[0]
  {
  }

  lemma {:induction false} StripLeftKeepsLast(s: string)
    requires s != [] && !IsSpace(s[|s| - 1])
    ensures StripLeft(s) != [] && StripLeft(s)[|StripLeft(s)| - 1] == s[|s| - 1]
    decreases |s|
  {
    if IsSpace(s[0]) {
      StripLeftKeepsLast(s[1..]);
    }
  }

  /** A string that does not end in whitespace keeps its last character. */
  lemma {:induction false} CollapseEndsWith(s: string)
    requires s != [] && !IsSpace(s[|s| - 1])
    ensures CollapseSpaces(s) != [] && CollapseSpaces(s)[|CollapseSpaces(s)| - 1] == s[|s| - 1]
    decreases |s|
  {
    if IsSpace(s[0]) {
      StripLeftKeepsLast(s[1..]);
      CollapseEndsWith(StripLeft(s[1..]));
    } else if |s| > 1 {
      CollapseEndsWith(s[1..]);
    }
  }

  lemma {:induction false} CollapseSingleSpaced(s: string)
    ensures SingleSpaced(CollapseSpaces(s))
    decreases |s|
  {
    if s == [] {
    } else if IsSpace(s[0]) {
      var t := StripLeft(s[1..]);
      CollapseSingleSpaced(t);
      if t != [] { CollapseStartsWith(t); }
      assert CollapseSpaces(s) == [' '] + CollapseSpaces(t);
    } else {
      CollapseSingleSpaced(s[1..]);
      assert CollapseSpaces(s) == [s[0]] + CollapseSpaces(s[1..]);
    }
  }

  lemma CollapseKeepsEdges(s: string)
    requires NoEdgeSpace(s)
    ensures NoEdgeSpace(CollapseSpaces(s))
  {
    if s != [] {
      CollapseStartsWith(s);
      CollapseEndsWith(s);
    }
  }

  /** A single-spaced string has nothing to collapse. */
  lemma {:induction false} CollapseFixes(s: string)
    requires SingleSpaced(s)
    ensures CollapseSpaces(s) == s
    decreases |s|
  {
    if s == [] {
    } else if IsSpace(s[0]) {
      assert SingleSpaced(s[1..]);
      StripLeftFixes(s[1..]);
      CollapseFixes(s[1..]);
    } else {
      assert SingleSpaced(s[1..]);
      CollapseFixes(s[1..]);
    }
  }

  /** Title-casing never touches whitespace, so it keeps both shapes above. */
  lemma TitleCaseKeepsSpacing(s: string)
    ensures NoEdgeSpace(s) ==> NoEdgeSpace(TitleCase(s))
    ensures SingleSpaced(s) ==> SingleSpaced(TitleCase(s))
  {
    var t := TitleCase(s);
    forall i | 0 <= i < |s|
      ensures IsSpace(t[i]) == IsSpace(s[i]) && (IsSpace(s[i]) ==> t[i] == s[i])
    {
      if IsLetter(s[i]) {
        LetterNotSpace(s[i]);
        LetterNotSpace(t[i]);
      }
    }
  }

  // ---------------------------------------------------------------------------
  // substring test

  /** Python's `sub in s` on strings. */
  predicate Contains(s: string, sub: string) {
    exists i :: 0 <= i <= |s| - |sub| && sub <= s[i..]
  }

  lemma ContainsEmpty(s: string)
    ensures Contains(s, "")
  {
    assert "" <= s[0..];
  }

  lemma ContainsSelf(s: string)
    ensures Contains(s, s)
  {
    assert s <= s[0..];
  }

  /** A string never contains a longer one. */
  lemma ContainsNoLonger(s: string, sub: string)
    requires Contains(s, sub)
    ensures |sub| <= |s|
  {
  }

  /** A prefix is contained. */
  lemma ContainsPrefix(s: string, sub: string)
    requires sub <= s
    ensures Contains(s, sub)
  {
    assert sub <= s[0..];
  }

  /** A string holding a character that `s` lacks is not contained in `s`. */
  lemma NotContainedByChar(s: string, sub: string, m: nat)
    requires m < |sub| && sub[m] !in s
    ensures !Contains(s, sub)
  {
    forall i | 0 <= i <= |s| - |sub|
      ensures !(sub <= s[i..])
    {
      assert s[i + m] in s;
      assert s[i..][m] != sub[m];
    }
  }

  // ---------------------------------------------------------------------------
  // lexicographic order

  /** Python's `a < b` on strings: code point by code point, a proper prefix first. */
  predicate StrLess(a: string, b: string) {
    b != [] && (a == [] || a[0] < b[0] || (a[0] == b[0] && StrLess(a[1..], b[1..])))
  }

  lemma {:induction false} StrLessIrreflexive(a: string)
    ensures !StrLess(a, a)
  {
    if a != [] {
      StrLessIrreflexive(a[1..]);
    }
  }

  lemma {:induction false} StrLessTransitive(a: string, b: string, c: string)
    requires StrLess(a, b) && StrLess(b, c)
    ensures StrLess(a, c)
  {
    if a != [] && a[0] == b[0] && b[0] == c[0] {
      StrLessTransitive(a[1..], b[1..], c[1..]);
    }
  }

  lemma {:induction false} StrLessTotal(a: string, b: string)
    requires a != b
    ensures StrLess(a, b) || StrLess(b, a)
  {
    if a != [] && b != [] && a[0] == b[0] {
      assert a == [a[0]] + a[1..] && b == [b[0]] + b[1..];
      StrLessTotal(a[1..], b[1..]);
    }
  }

  // ---------------------------------------------------------------------------
  // splitting and joining

  predicate IsComma(c: char) { c == ',' }

  /** The delimiters of `re.split(r'[,;|]', s)`. */
  predicate IsSkillDelimiter(c: char) { c == ',' || c == ';' || c == '|' }

  predicate NoDelimiter(s: string, isDelim: char -> bool) {
    forall j :: 0 <= j < |s| ==> !isDelim(s[j])
  }

  /**
   * `re.split` on single delimiter characters (and `s.split(',')`): the pieces between
   * delimiters, empty ones included, so there is always one more piece than delimiters.
   */
  function SplitAny(s: string, isDelim: char -> bool): (r: seq<string>)
    ensures |r| >= 1
    ensures forall k :: 0 <= k < |r| ==> NoDelimiter(r[k], isDelim)
  {
    if s == [] then [""]
    else
      var rest := SplitAny(s[1..], isDelim);
      if isDelim(s[0]) then [""] + rest
      else [[s[0]] + rest[0]] + rest[1..]
  }

  /** `sep.join(parts)` */
  function Join(parts: seq<string>, sep: string): string {
    if |parts| == 0 then ""
    else if |parts| == 1 then parts[0]
    else parts[0] + sep + Join(parts[1..], sep)
  }

  /** Splitting on one delimiter and joining with it gives the string back. */
  lemma {:induction false} JoinSplit(s: string, isDelim: char -> bool, d: char)
    requires forall c :: isDelim(c) <==> c == d
    ensures Join(SplitAny(s, isDelim), [d]) == s
  {
    if s != [] {
      var rest := SplitAny(s[1..], isDelim);
      JoinSplit(s[1..], isDelim, d);
      if !isDelim(s[0]) {
        if |rest| == 1 {
        } else {
          assert ([s[0]] + rest[0]) + [d] + Join(rest[1..], [d]) == [s[0]] + (rest[0] + [d] + Join(rest[1..], [d]));
        }
      }
    }
  }

  lemma {:induction false} SplitNoDelimiter(a: string, isDelim: char -> bool)
    requires NoDelimiter(a, isDelim)
    ensures SplitAny(a, isDelim) == [a]
  {
    if a != [] {
      SplitNoDelimiter(a[1..], isDelim);
      assert [a[0]] + a[1..] == a;
    }
  }

  /** A delimiter ends the first piece. */
  lemma {:induction false} SplitAtDelimiter(a: string, d: char, b: string, isDelim: char -> bool)
    requires NoDelimiter(a, isDelim) && isDelim(d)
    ensures SplitAny(a + [d] + b, isDelim) == [a] + SplitAny(b, isDelim)
  {
    if a == [] {
      assert (a + [d] + b)[1..] == b;
    } else {
      assert (a + [d] + b)[1..] == a[1..] + [d] + b;
      SplitAtDelimiter(a[1..], d, b, isDelim);
      assert [a[0]] + a[1..] == a;
    }
  }

  /**
   * Joining with a separator `[c] + tail`: the first part, `c`, then the remaining
   * parts joined with the separator, `tail` moved onto the front of the second part.
   */
  lemma JoinShift(ts: seq<string>, c: char, tail: string)
    requires |ts| >= 2
    ensures Join(ts, [c] + tail) == ts[0] + [c] + Join([tail + ts[1]] + ts[2..], [c] + tail)
  {
    var sep := [c] + tail;
    var us := [tail + ts[1]] + ts[2..];
    var rest, shifted := Join(ts[1..], sep), Join(us, sep);
    assert ts[1..][0] == ts[1] && ts[1..][1..] == ts[2..];
    assert us[0] == tail + ts[1] && us[1..] == ts[2..];
    if |ts| > 2 {
      var more := Join(ts[2..], sep);
      assert rest == ts[1] + sep + more;
      assert shifted == (tail + ts[1]) + sep + more;
      ConcatRegroup(tail, ts[1], sep, more);
    }
    assert Join(ts, sep) == ts[0] + sep + rest;
    ConcatShift(ts[0], c, tail, rest);
  }

  /** Regrouping a four-part concatenation. */
  lemma ConcatRegroup<T>(a: seq<T>, b: seq<T>, c: seq<T>, d: seq<T>)
    ensures (a + b) + c + d == a + (b + c + d)
  {
  }

  /** A separator `[x] + t` in front of `r`: the `t` part may go with `r`. */
  lemma ConcatShift<T>(a: seq<T>, x: T, t: seq<T>, r: seq<T>)
    ensures a + ([x] + t) + r == a + [x] + (t + r)
  {
  }

  /** Join starts with its first part and is empty only when every part is. */
  lemma {:induction false} JoinStartsWith(parts: seq<string>, sep: string)
    requires |parts| >= 1
    ensures parts[0] <= Join(parts, sep)
  {
  }

  /** Whatever occurs in `s` occurs in `s` with anything put in front. */
  lemma ContainsInSuffix(pre: string, s: string, sub: string)
    requires Contains(s, sub)
    ensures Contains(pre + s, sub)
  {
    var i :| 0 <= i <= |s| - |sub| && sub <= s[i..];
    assert (pre + s)[|pre| + i..] == s[i..];
  }

  /** Every part occurs in the joined text. */
  lemma {:induction false} JoinContainsPart(parts: seq<string>, sep: string, k: nat)
    requires k < |parts|
    ensures Contains(Join(parts, sep), parts[k])
    decreases k
  {
    if k == 0 {
      JoinStartsWith(parts, sep);
      ContainsPrefix(Join(parts, sep), parts[0]);
    } else {
      JoinContainsPart(parts[1..], sep, k - 1);
      ContainsInSuffix(parts[0] + sep, Join(parts[1..], sep), parts[k]);
    }
  }

  // ---------------------------------------------------------------------------
  // the shared tokeniser

  /** A token of a skills cell: not empty and without edge whitespace. */
  predicate IsToken(t: string) {
    t != "" && NoEdgeSpace(t)
  }

  /** The stripped pieces that are not empty, in order. */
  function NonEmptyStripped(pieces: seq<string>): (r: seq<string>)
    ensures forall k :: 0 <= k < |r| ==> IsToken(r[k])
  {
    if pieces == [] then []
    else
      var t := Strip(pieces[0]);
      var rest := NonEmptyStripped(pieces[1..]);
      if t != "" then TokensCons(t, rest); [t] + rest else rest
  }

  /** A token in front of a list of tokens keeps it a list of tokens. */
  lemma TokensCons(t: string, rest: seq<string>)
    requires IsToken(t)
    requires forall k :: 0 <= k < |rest| ==> IsToken(rest[k])
    ensures forall k :: 0 <= k < |[t] + rest| ==> IsToken(([t] + rest)[k])
  {
    forall k | 0 <= k < |[t] + rest|
      ensures IsToken(([t] + rest)[k])
    {
      if k > 0 {
        assert ([t] + rest)[k] == rest[k - 1];
      }
    }
  }

  /**
   * `[s.strip() for s in cell.split(',') if s.strip()]`, the tokeniser of every
   * skills cell: non-empty, stripped pieces free of commas, in order.
   */
  function CommaTokens(cell: string): (r: seq<string>)
    ensures forall k :: 0 <= k < |r| ==> IsToken(r[k]) && NoDelimiter(r[k], IsComma)
  {
    var pieces := SplitAny(cell, IsComma);
    NonEmptyStrippedNoDelimiter(pieces, IsComma);
    NonEmptyStripped(pieces)
  }

  lemma {:induction false} NonEmptyStrippedNoDelimiter(pieces: seq<string>, isDelim: char -> bool)
    requires forall m :: 0 <= m < |pieces| ==> NoDelimiter(pieces[m], isDelim)
    ensures forall k :: 0 <= k < |NonEmptyStripped(pieces)| ==> NoDelimiter(NonEmptyStripped(pieces)[k], isDelim)
  {
    if pieces != [] {
      var t, rest := Strip(pieces[0]), NonEmptyStripped(pieces[1..]);
      StripNoDelimiter(pieces[0], isDelim);
      forall m | 0 <= m < |pieces[1..]|
        ensures NoDelimiter(pieces[1..][m], isDelim)
      {
        assert pieces[1..][m] == pieces[m + 1];
      }
      NonEmptyStrippedNoDelimiter(pieces[1..], isDelim);
      if t != "" {
        assert NonEmptyStripped(pieces) == [t] + rest;
        forall k | 0 <= k < |[t] + rest|
          ensures NoDelimiter(([t] + rest)[k], isDelim)
        {
          if k > 0 {
            assert ([t] + rest)[k] == rest[k - 1];
          }
        }
      } else {
        assert NonEmptyStripped(pieces) == rest;
      }
    }
  }

  /** `s.split()` with no argument: the maximal runs of non-whitespace. */
  function Words(s: string): (r: seq<string>)
    ensures forall k :: 0 <= k < |r| ==> r[k] != [] && NoDelimiter(r[k], IsSpace)
  {
    NonEmptyPieces(SplitAny(s, IsSpace))
  }

  function NonEmptyPieces(pieces: seq<string>): (r: seq<string>)
    ensures forall k :: 0 <= k < |r| ==> r[k] != [] && r[k] in pieces
  {
    if pieces == [] then []
    else (if pieces[0] != [] then [pieces[0]] else []) + NonEmptyPieces(pieces[1..])
  }
}
