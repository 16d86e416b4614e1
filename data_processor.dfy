/**
 * The corpus normaliser (`DataProcessor`): the per-cell cleaning rules applied to
 * every raw job record (title, salary, experience, skills, location) and the two
 * corpus-wide skill summaries (unique skills, top skills). The class holds no
 * state its methods use, so its members are module-level here.
 */
module DataProcessor {
  import opened Wrappers
  import opened Text
  import opened Numbers
  import opened Ranking
  import opened SkillCounts

  /** The placeholder for a missing title or location, "Not Specified", written word by word. */
  const NotSpecified: string := "Not" + " " + "Specified"

  // ---------------------------------------------------------------------------
  // job titles

  /**
   * `_clean_job_title`: a missing title becomes "Not Specified"; otherwise the
   * title is stripped, its whitespace runs become one blank, and it is title-cased.
   */
  function CleanJobTitle(title: Option<string>): (r: string)
    ensures title.None? ==> r == NotSpecified
    ensures title.Some? ==> NoEdgeSpace(r) && SingleSpaced(r) && IsTitleCased(r)
  {
    match title
    case None => NotSpecified
    case Some(t) =>
      var u := CollapseSpaces(Strip(t));
      CollapseKeepsEdges(Strip(t));
      CollapseSingleSpaced(Strip(t));
      TitleCaseKeepsSpacing(u);
      TitleCaseIdempotent(u);
      TitleCase(u)
  }

  /** A title already in clean shape is left as it is. */
  lemma CleanJobTitleFixes(t: string)
    requires NoEdgeSpace(t) && SingleSpaced(t) && IsTitleCased(t)
    ensures CleanJobTitle(Some(t)) == t
  {
    StripFixes(t);
    CollapseFixes(t);
  }

  /** Cleaning a cleaned title changes nothing. */
  lemma CleanJobTitleIdempotent(title: Option<string>)
    ensures CleanJobTitle(Some(CleanJobTitle(title))) == CleanJobTitle(title)
  {
    if title.None? {
      NotSpecifiedShape();
    }
    CleanJobTitleFixes(CleanJobTitle(title));
  }

  /** "Not Specified" is itself a clean title. */
  lemma NotSpecifiedShape()
    ensures NoEdgeSpace(NotSpecified) && SingleSpaced(NotSpecified) && IsTitleCased(NotSpecified)
  {
    var a, b := "Not", "Specified";
    assert IsUpper(a[0]) && forall i :: 1 <= i < |a| ==> IsLower(a[i]);
    assert IsUpper(b[0]) && forall i :: 1 <= i < |b| ==> IsLower(b[i]);
    TitleCasedWord(a);
    TitleCasedWord(b);
    TitleCasedSpaced(a, b);
    LettersSpaced(a, b);
  }

  // ---------------------------------------------------------------------------
  // salary and experience ranges

  /**
   * `extract_salary_range`: the first two decimal numbers of the lower-cased text;
   * a single number `v` gives `(v, 1.2 * v)`; no number, or a missing cell, gives
   * the missing pair.
   */
  function SalaryRange(salary: Option<string>): (r: Option<(real, real)>)
    ensures salary.None? ==> r.None?
    ensures r.Some? ==> 0.0 <= r.value.0 && 0.0 <= r.value.1
    ensures r.Some? && salary.Some? && |DecimalTokens(salary.value)| == 1 ==> r.value.1 == r.value.0 * 1.2
  {
    match salary
    case None => None
    case Some(s) =>
      var nums := DecimalTokens(Lower(s));
      DecimalTokensLower(s);
      if |nums| >= 2 then Some((DecimalValue(nums[0]), DecimalValue(nums[1])))
      else if |nums| == 1 then Some((DecimalValue(nums[0]), DecimalValue(nums[0]) * 1.2))
      else None
  }

  /**
   * "a-b lpa", "Rs 5 - 10 LPA", "INR 3.5-6.5 lakhs (2024)": after any digit-free
   * lead, two decimal literals apart, with no digit between them, are read back as
   * the two bounds, in the order written, whatever follows.
   */
  lemma SalaryRangeOfTwo(head: string, x: string, sep: string, y: string, tail: string)
    requires NoDigits(head)
    requires IsDecimal(x) && IsDecimal(y)
    requires sep != [] && NoDigits(sep) && sep != "."
    requires EndsLiteral(tail)
    ensures SalaryRange(Some(head + x + sep + y + tail)) == Some((DecimalValue(x), DecimalValue(y)))
  {
    var s := head + x + sep + y + tail;
    assert s == head + (x + (sep + (y + tail)));
    DecimalTokensLower(s);
    assert EndsLiteral(sep + (y + tail)) by {
      if sep[0] == '.' {
        assert |sep| >= 2;
      }
    }
    DecimalTokensSkipAll(head, x + (sep + (y + tail)));
    DecimalTokensOfLiteral(x, sep + (y + tail));
    DecimalTokensSkipAll(sep, y + tail);
    DecimalTokensOfLiteral(y, tail);
  }

  /** "3.5 LPA", "Rs 6 lakhs": a single number `v`, after any digit-free lead, gives the band from `v` to `1.2 v`. */
  lemma SalaryRangeOfOne(head: string, x: string, tail: string)
    requires NoDigits(head) && IsDecimal(x) && NoDigits(tail)
    ensures SalaryRange(Some(head + x + tail)) == Some((DecimalValue(x), DecimalValue(x) * 1.2))
  {
    var s := head + x + tail;
    assert s == head + (x + tail);
    DecimalTokensLower(s);
    DecimalTokensNone(tail);
    DecimalTokensSkipAll(head, x + tail);
    DecimalTokensOfLiteral(x, tail);
  }

  /** Text without digits has no salary. */
  lemma SalaryRangeOfNone(s: string)
    requires NoDigits(s)
    ensures SalaryRange(Some(s)) == None
  {
    DecimalTokensLower(s);
    DecimalTokensNone(s);
  }

  /** "m-n" with whole numbers reads back as `(m, n)`. */
  lemma SalaryRangeOfDash(m: nat, n: nat)
    ensures SalaryRange(Some(Render(m) + "-" + Render(n))) == Some((m as real, n as real))
  {
    var a, b := Render(m), Render(n);
    var s := a + "-" + b;
    DecimalValueOfDigits(a);
    DecimalValueOfDigits(b);
    assert "" + a + "-" + b + "" == s by {
      assert "" + a == a;
      assert s + "" == s;
    }
    SalaryRangeOfTwo("", a, "-", b, "");
  }

  /** The two numbers are returned in the order written: nothing makes the first the smaller. */
  lemma SalaryRangeUnordered()
    ensures var r := SalaryRange(Some(Render(20) + "-" + Render(10)));
      r.Some? && r.value.0 > r.value.1
  {
    SalaryRangeOfDash(20, 10);
  }

  /**
   * `extract_experience_range`: the first two runs of digits; a single run `v`
   * gives `(v, v + 2)`; text without digits gives `(0, 2)`; a missing cell gives
   * the missing pair.
   */
  function ExperienceRange(experience: Option<string>): (r: Option<(int, int)>)
    ensures experience.None? <==> r.None?
    ensures r.Some? ==> 0 <= r.value.0 && 0 <= r.value.1
  {
    match experience
    case None => None
    case Some(s) =>
      var nums := DigitRuns(Lower(s));
      if |nums| >= 2 then Some((Value(nums[0]) as int, Value(nums[1]) as int))
      else if |nums| == 1 then Some((Value(nums[0]) as int, Value(nums[0]) as int + 2))
      else Some((0, 2))
  }

  /**
   * "a-b years", "Min 5 - 10 yrs", "2-5 years (2024)": after any digit-free lead,
   * two runs of digits apart are read back as the two bounds, in the order
   * written, whatever follows.
   */
  lemma ExperienceRangeOfTwo(head: string, x: string, sep: string, y: string, tail: string)
    requires NoDigits(head)
    requires x != [] && AllDigits(x) && y != [] && AllDigits(y)
    requires sep != [] && NoDigits(sep)
    requires tail == [] || !IsDigit(tail[0])
    ensures ExperienceRange(Some(head + x + sep + y + tail)) == Some((Value(x) as int, Value(y) as int))
  {
    var s := head + x + sep + y + tail;
    assert s == head + (x + (sep + (y + tail)));
    DigitRunsLower(s);
    DigitRunsSkipAll(head, x + (sep + (y + tail)));
    DigitRunsLead(x, sep + (y + tail));
    DigitRunsSkipAll(sep, y + tail);
    DigitRunsLead(y, tail);
  }

  /** "Min 3 yrs": a single number `v`, after any digit-free lead, gives `(v, v + 2)`. */
  lemma ExperienceRangeOfOne(head: string, x: string, tail: string)
    requires NoDigits(head) && x != [] && AllDigits(x) && NoDigits(tail)
    ensures ExperienceRange(Some(head + x + tail)) == Some((Value(x) as int, Value(x) as int + 2))
  {
    var s := head + x + tail;
    assert s == head + (x + tail);
    DigitRunsLower(s);
    DigitRunsNone(tail);
    DigitRunsSkipAll(head, x + tail);
    DigitRunsLead(x, tail);
  }

  /** Text without digits ("fresher") is entry level: `(0, 2)`. */
  lemma ExperienceRangeOfNone(s: string)
    requires NoDigits(s)
    ensures ExperienceRange(Some(s)) == Some((0, 2))
  {
    DigitRunsLower(s);
    DigitRunsNone(s);
  }

  /** Nothing orders the two numbers: "10-5" keeps a maximum below its minimum. */
  lemma ExperienceRangeUnordered()
    ensures var r := ExperienceRange(Some(Render(10) + "-" + Render(5)));
      r.Some? && r.value.1 < r.value.0
  {
    ExperienceRangeOfTwo("", Render(10), "-", Render(5), "");
    assert "" + Render(10) + "-" + Render(5) + "" == Render(10) + "-" + Render(5);
  }

  // ---------------------------------------------------------------------------
  // experience levels

  const EntryLevel: string := "Entry Level (0-2 years)"
  const MidLevel: string := "Mid Level (3-5 years)"
  const SeniorLevel: string := "Senior Level (6-10 years)"
  const ExpertLevel: string := "Expert Level (10+ years)"

  /** The four bands, from junior to senior. */
  const Levels: seq<string> := [EntryLevel, MidLevel, SeniorLevel, ExpertLevel]

  /** The band of an average number of years: at most 2, 5, 10, or more. */
  function LevelOf(avg: real): (r: string)
    ensures r in Levels
  {
    if avg <= 2.0 then EntryLevel
    else if avg <= 5.0 then MidLevel
    else if avg <= 10.0 then SeniorLevel
    else ExpertLevel
  }

  /**
   * `get_experience_level`: the band of the mean of the two bounds; a missing bound
   * counts as an average of 2, which is entry level.
   */
  function ExperienceLevel(expMin: Option<int>, expMax: Option<int>): (r: string)
    ensures r in Levels
    ensures expMin.None? || expMax.None? ==> r == EntryLevel
  {
    var avg := if expMin.Some? && expMax.Some? then (expMin.value + expMax.value) as real / 2.0 else 2.0;
    LevelOf(avg)
  }

  /** The position of a band in `Levels`. */
  function LevelRank(level: string): (k: nat)
    requires level in Levels
    ensures k < |Levels| && Levels[k] == level
  {
    if level == EntryLevel then 0
    else if level == MidLevel then 1
    else if level == SeniorLevel then 2
    else 3
  }

  /** More years never give a lower band. */
  lemma LevelOfMonotone(a: real, b: real)
    requires a <= b
    ensures LevelRank(LevelOf(a)) <= LevelRank(LevelOf(b))
  {
  }

  /** Wider bounds on both sides never give a lower band. */
  lemma ExperienceLevelMonotone(lo1: int, hi1: int, lo2: int, hi2: int)
    requires lo1 <= lo2 && hi1 <= hi2
    ensures LevelRank(ExperienceLevel(Some(lo1), Some(hi1))) <= LevelRank(ExperienceLevel(Some(lo2), Some(hi2)))
  {
    var a, b := (lo1 + hi1) as real / 2.0, (lo2 + hi2) as real / 2.0;
    assert ExperienceLevel(Some(lo1), Some(hi1)) == LevelOf(a);
    assert ExperienceLevel(Some(lo2), Some(hi2)) == LevelOf(b);
    LevelOfMonotone(a, b);
  }

  // ---------------------------------------------------------------------------
  // skills cells

  /** One piece of a skills cell, stripped and title-cased. */
  function SkillPiece(p: string): string {
    TitleCase(Strip(p))
  }

  /** A clean skill: title-cased, no edge whitespace, longer than one character, no delimiter. */
  predicate IsCleanSkill(t: string) {
    IsTitleCased(t) && NoEdgeSpace(t) && |t| > 1 && NoDelimiter(t, IsSkillDelimiter)
  }

  lemma SkillPieceClean(p: string)
    requires NoDelimiter(p, IsSkillDelimiter) && |SkillPiece(p)| > 1
    ensures IsCleanSkill(SkillPiece(p))
  {
    StripNoDelimiter(p, IsSkillDelimiter);
    TitleCaseClean(Strip(p));
  }

  /** A stripped, delimiter-free text title-cases to a clean skill. */
  lemma TitleCaseClean(u: string)
    requires NoEdgeSpace(u) && NoDelimiter(u, IsSkillDelimiter) && |u| > 1
    ensures IsCleanSkill(TitleCase(u))
  {
    TitleCaseKeepsSpacing(u);
    TitleCaseIdempotent(u);
    TitleCaseNoDelimiter(u, IsSkillDelimiter);
  }

  /** A piece is kept when it is longer than one character. */
  predicate IsLong(t: string) {
    |t| > 1
  }

  /** The pieces kept from a split skills cell, stripped and title-cased, in order. */
  function CleanPieces(pieces: seq<string>): seq<string> {
    MapKeep(pieces, SkillPiece, IsLong)
  }

  /** Pieces without delimiters clean to clean skills. */
  lemma CleanPiecesClean(pieces: seq<string>)
    requires forall k :: 0 <= k < |pieces| ==> NoDelimiter(pieces[k], IsSkillDelimiter)
    ensures forall k :: 0 <= k < |CleanPieces(pieces)| ==> IsCleanSkill(CleanPieces(pieces)[k])
  {
    var r := CleanPieces(pieces);
    forall k | 0 <= k < |r|
      ensures IsCleanSkill(r[k])
    {
      MapKeepSource(pieces, SkillPiece, IsLong, k);
      var i :| 0 <= i < |pieces| && SkillPiece(pieces[i]) == r[k];
      SkillPieceClean(pieces[i]);
    }
  }

  /** The skills a cell lists once split on `,`, `;` and `|` and cleaned. */
  function SkillList(s: string): seq<string> {
    CleanPieces(SplitAny(s, IsSkillDelimiter))
  }

  /**
   * Every listed skill is title-cased, has no edge whitespace, is longer than one
   * character and holds none of `,`, `;`, `|`.
   */
  lemma SkillListClean(s: string)
    ensures forall k :: 0 <= k < |SkillList(s)| ==> IsCleanSkill(SkillList(s)[k])
  {
    CleanPiecesClean(SplitAny(s, IsSkillDelimiter));
  }

  /**
   * `_clean_skills`: the cell is split on `,`, `;` and `|`; each piece is stripped
   * and title-cased, pieces of at most one character are dropped, and the rest are
   * joined with ", ". A missing cell gives "".
   */
  method CleanSkills(skills: Option<string>) returns (r: string)
    ensures skills.None? ==> r == ""
    ensures skills.Some? ==> r == Join(SkillList(skills.value), ", ")
  {
    if skills.None? {
      return "";
    }
    var pieces := SplitAny(skills.value, IsSkillDelimiter);
    var cleaned: seq<string> := [];
    for i := 0 to |pieces|
      invariant cleaned == CleanPieces(pieces[..i])
    {
      var skill := SkillPiece(pieces[i]);
      CleanPiecesStep(pieces, i);
      if |skill| > 1 {
        cleaned := cleaned + [skill];
      }
    }
    assert pieces[..|pieces|] == pieces;
    r := Join(cleaned, ", ");
  }

  /** One more piece adds its cleaned form when that is long enough. */
  lemma CleanPiecesStep(pieces: seq<string>, i: nat)
    requires i < |pieces|
    ensures var t := SkillPiece(pieces[i]);
      CleanPieces(pieces[..i + 1]) == CleanPieces(pieces[..i]) + (if |t| > 1 then [t] else [])
  {
    assert pieces[..i + 1][..i] == pieces[..i];
  }

  /** The blank-prefixed items that splitting a ", "-joined list leaves after the first. */
  function Blanked(ts: seq<string>): seq<string> {
    seq(|ts|, i requires 0 <= i < |ts| => " " + ts[i])
  }

  lemma SkillPieceFixes(t: string)
    requires NoEdgeSpace(t) && IsTitleCased(t)
    ensures SkillPiece(t) == t
  {
    StripFixes(t);
  }

  lemma SkillPieceBlanked(t: string)
    requires NoEdgeSpace(t) && IsTitleCased(t)
    ensures SkillPiece(" " + t) == t
  {
    StripBlankPrefixed(t);
  }

  lemma BlankedNoDelimiter(t: string)
    requires NoDelimiter(t, IsSkillDelimiter)
    ensures NoDelimiter(" " + t, IsSkillDelimiter)
  {
    forall j | 0 <= j < |" " + t|
      ensures !IsSkillDelimiter((" " + t)[j])
    {
      if j > 0 {
        assert (" " + t)[j] == t[j - 1];
      }
    }
  }

  /** Splitting a ", "-joined list of delimiter-free items at the commas. */
  lemma {:induction false} SplitJoined(ts: seq<string>)
    requires |ts| >= 1
    requires forall k :: 0 <= k < |ts| ==> NoDelimiter(ts[k], IsSkillDelimiter)
    ensures SplitAny(Join(ts, ", "), IsSkillDelimiter) == [ts[0]] + Blanked(ts[1..])
    decreases |ts|
  {
    if |ts| == 1 {
      SplitNoDelimiter(ts[0], IsSkillDelimiter);
    } else {
      var us := [" " + ts[1]] + ts[2..];
      JoinShift(ts, ',', " ");
      assert [','] + " " == ", ";
      BlankedNoDelimiter(ts[1]);
      assert forall k :: 1 <= k < |us| ==> us[k] == ts[k + 1];
      SplitAtDelimiter(ts[0], ',', Join(us, ", "), IsSkillDelimiter);
      SplitJoined(us);
      assert [us[0]] + Blanked(us[1..]) == Blanked(ts[1..]);
    }
  }

  /** A list of clean skills survives being joined and cleaned again. */
  lemma SkillListOfJoined(ts: seq<string>)
    requires forall k :: 0 <= k < |ts| ==> IsCleanSkill(ts[k])
    ensures SkillList(Join(ts, ", ")) == ts
  {
    var s := Join(ts, ", ");
    if ts == [] {
      SkillListOfEmpty(s);
    } else {
      var ps := [ts[0]] + Blanked(ts[1..]);
      CleanSkillsHaveNoDelimiter(ts);
      SplitJoined(ts);
      BlankedPieces(ts);
      CleanPiecesAll(ps, ts);
    }
  }

  /** Pieces that each clean to the matching long skill clean to exactly those skills. */
  lemma CleanPiecesAll(ps: seq<string>, ts: seq<string>)
    requires |ps| == |ts| && forall k :: 0 <= k < |ps| ==> SkillPiece(ps[k]) == ts[k] && IsLong(ts[k])
    ensures CleanPieces(ps) == ts
  {
    MapKeepAll(ps, SkillPiece, IsLong, ts);
  }

  lemma CleanSkillsHaveNoDelimiter(ts: seq<string>)
    requires forall k :: 0 <= k < |ts| ==> IsCleanSkill(ts[k])
    ensures forall k :: 0 <= k < |ts| ==> NoDelimiter(ts[k], IsSkillDelimiter)
  {
  }

  /** An empty cell lists no skill. */
  lemma SkillListOfEmpty(s: string)
    requires s == []
    ensures SkillList(s) == []
  {
    var ps := SplitAny(s, IsSkillDelimiter);
    assert ps == [s];
    assert SkillPiece(s) == s by {
      assert Strip(s) == s;
    }
    assert ps[..0] == [];
  }

  /** Cleaning the pieces of a ", "-joined list of clean skills gives the skills back. */
  lemma BlankedPieces(ts: seq<string>)
    requires |ts| >= 1
    requires forall k :: 0 <= k < |ts| ==> IsCleanSkill(ts[k])
    ensures var ps := [ts[0]] + Blanked(ts[1..]);
      |ps| == |ts| && forall k :: 0 <= k < |ps| ==> SkillPiece(ps[k]) == ts[k] && IsLong(ts[k])
  {
    var ps := [ts[0]] + Blanked(ts[1..]);
    forall k | 0 <= k < |ts|
      ensures SkillPiece(ps[k]) == ts[k] && IsLong(ts[k])
    {
      var t := ts[k];
      assert IsCleanSkill(t);
      if k == 0 {
        SkillPieceFixes(t);
      } else {
        assert ps[k] == " " + t;
        SkillPieceBlanked(t);
      }
    }
  }

  /** Cleaning a cleaned skills cell changes nothing. */
  lemma CleanSkillsIdempotent(s: string)
    ensures SkillList(Join(SkillList(s), ", ")) == SkillList(s)
  {
    SkillListClean(s);
    SkillListOfJoined(SkillList(s));
  }

  // ---------------------------------------------------------------------------
  // locations

  /** The alias table of `_clean_location`, in the order it is searched. */
  const LocationAliases: seq<(string, string)> := [
    ("bengaluru", "Bangalore"),
    ("mumbai", "Mumbai"),
    ("delhi", "Delhi"),
    ("hyderabad", "Hyderabad"),
    ("pune", "Pune"),
    ("chennai", "Chennai"),
    ("kolkata", "Kolkata"),
    ("gurgaon", "Gurgaon"),
    ("noida", "Noida")
  ]

  /** The first alias whose key occurs in `text`, searching from entry `from` on. */
  function FirstAlias(text: string, from: nat): (r: Option<nat>)
    requires from <= |LocationAliases|
    ensures r.Some? ==> from <= r.value < |LocationAliases| && Contains(text, LocationAliases[r.value].0)
    ensures r.Some? ==> forall j :: from <= j < r.value ==> !Contains(text, LocationAliases[j].0)
    ensures r.None? ==> forall j :: from <= j < |LocationAliases| ==> !Contains(text, LocationAliases[j].0)
    decreases |LocationAliases| - from
  {
    if from == |LocationAliases| then None
    else if Contains(text, LocationAliases[from].0) then Some(from)
    else FirstAlias(text, from + 1)
  }

  /**
   * The cleaned location: "Not Specified" when missing; otherwise the canonical city
   * of the first alias key found in the lower-cased stripped text; otherwise the
   * stripped text title-cased.
   */
  function CanonicalLocation(location: Option<string>): string {
    match location
    case None => NotSpecified
    case Some(l) =>
      var k := FirstAlias(Lower(Strip(l)), 0);
      if k.Some? then LocationAliases[k.value].1 else TitleCase(Strip(l))
  }

  /** The alias loop of `_clean_location`: the first entry whose key occurs in `text`. */
  method FindAlias(text: string) returns (k: Option<nat>)
    ensures k == FirstAlias(text, 0)
  {
    for i := 0 to |LocationAliases|
      invariant forall j :: 0 <= j < i ==> !Contains(text, LocationAliases[j].0)
    {
      if Contains(text, LocationAliases[i].0) {
        FirstAliasAt(text, i);
        return Some(i);
      }
    }
    FirstAliasNone(text);
    return None;
  }

  /** `_clean_location`: the alias loop with its early return, then the title-cased fallback. */
  method CleanLocation(location: Option<string>) returns (r: string)
    ensures r == CanonicalLocation(location)
    ensures location.Some? && FirstAlias(Lower(Strip(location.value)), 0).None? ==>
      r == TitleCase(Strip(location.value)) && IsTitleCased(r) && NoEdgeSpace(r)
  {
    if location.None? {
      return NotSpecified;
    }
    var l := Strip(location.value);
    var k := FindAlias(Lower(l));
    if k.Some? {
      return LocationAliases[k.value].1;
    }
    TitleCaseIdempotent(l);
    TitleCaseKeepsSpacing(l);
    r := TitleCase(l);
  }

  /** A location with no alias key is left as it is by a second cleaning. */
  lemma CleanLocationIdempotentPlain(l: string)
    requires FirstAlias(Lower(Strip(l)), 0).None?
    ensures CanonicalLocation(Some(CanonicalLocation(Some(l)))) == CanonicalLocation(Some(l))
  {
    var u := Strip(l);
    var t := TitleCase(u);
    TitleCaseKeepsSpacing(u);
    StripFixes(t);
    LowerOfTitleCase(u);
    TitleCaseIdempotent(u);
  }

  /** Each canonical city, and "Not Specified", is left as it is by a second cleaning. */
  lemma CanonicalNamesFixed()
    ensures CanonicalLocation(Some(NotSpecified)) == NotSpecified
    ensures forall k :: 0 <= k < |LocationAliases| ==>
      CanonicalLocation(Some(LocationAliases[k].1)) == LocationAliases[k].1
  {
    NotSpecifiedFixed();
    forall k | 0 <= k < |LocationAliases|
      ensures CanonicalLocation(Some(LocationAliases[k].1)) == LocationAliases[k].1
    {
      if k == 0 {
        BangaloreFixed();
      } else if k == 1 {
        MumbaiFixed();
      } else if k == 2 {
        DelhiFixed();
      } else if k == 3 {
        HyderabadFixed();
      } else if k == 4 {
        PuneFixed();
      } else if k == 5 {
        ChennaiFixed();
      } else if k == 6 {
        KolkataFixed();
      } else if k == 7 {
        GurgaonFixed();
      } else {
        NoidaFixed();
      }
    }
  }

  /**
   * No key from entry 0 up to `|missing|` occurs in `text`: `missing[j]` is a character
   * of key `j`, at position `at[j]`, that `text` lacks.
   */
  lemma AliasesAbsent(text: string, missing: string, at: seq<nat>)
    requires |missing| == |at| <= |LocationAliases|
    requires forall j :: 0 <= j < |at| ==> at[j] < |LocationAliases[j].0| && LocationAliases[j].0[at[j]] == missing[j]
    requires forall j :: 0 <= j < |missing| ==> missing[j] !in text
    ensures forall j :: 0 <= j < |missing| ==> !Contains(text, LocationAliases[j].0)
  {
    forall j | 0 <= j < |missing|
      ensures !Contains(text, LocationAliases[j].0)
    {
      NotContainedByChar(text, LocationAliases[j].0, at[j]);
    }
  }

  /** `Lower(s) == t`, checked character by character. */
  lemma LowerIs(s: string, t: string)
    requires |s| == |t| && forall i :: 0 <= i < |s| ==> LowerChar(s[i]) == t[i]
    ensures Lower(s) == t
  {
  }

  /** A location without any alias key cleans to its stripped text, title-cased. */
  lemma PlainFixed(name: string, lower: string, missing: string, at: seq<nat>)
    requires NoEdgeSpace(name) && IsTitleCased(name) && Lower(name) == lower
    requires |missing| == |at| == |LocationAliases|
    requires forall j :: 0 <= j < |at| ==> at[j] < |LocationAliases[j].0| && LocationAliases[j].0[at[j]] == missing[j]
    requires forall j :: 0 <= j < |missing| ==> missing[j] !in lower
    ensures CanonicalLocation(Some(name)) == name
  {
    assert FirstAlias(lower, 0).None? by {
      AliasesAbsent(lower, missing, at);
      FirstAliasNone(lower);
    }
    StripFixes(name);
  }

  lemma FirstAliasNone(text: string)
    requires forall j :: 0 <= j < |LocationAliases| ==> !Contains(text, LocationAliases[j].0)
    ensures FirstAlias(text, 0).None?
  {
  }

  lemma NotSpecifiedFixed()
    ensures CanonicalLocation(Some(NotSpecified)) == NotSpecified
  {
    NotSpecifiedShape();
    NotSpecifiedLower();
    NoAliasFixed(NotSpecified, "not specified");
  }

  lemma NotSpecifiedLower()
    ensures Lower(NotSpecified) == "not specified"
  {
    LowerIs(NotSpecified, "not specified");
  }

  /** A name lacking each of the letters b, m, h, u, k, g, a matches no alias key. */
  lemma NoAliasFixed(name: string, lower: string)
    requires NoEdgeSpace(name) && IsTitleCased(name) && Lower(name) == lower
    requires forall j :: 0 <= j < 9 ==> "bmhhuhkga"[j] !in lower
    ensures CanonicalLocation(Some(name)) == name
  {
    PlainFixed(name, lower, "bmhhuhkga", [0, 0, 3, 0, 1, 1, 0, 0, 4]);
  }

  lemma BangaloreFixed()
    ensures CanonicalLocation(Some(LocationAliases[0].1)) == LocationAliases[0].1
  {
    BangaloreLower();
    BangaloreLacks();
    PlainWordFixed("Bangalore", "bangalore", "umdhpckui", [6, 0, 0, 0, 0, 0, 0, 1, 2]);
  }

  /** A capitalised word without any alias key cleans to itself. */
  lemma PlainWordFixed(name: string, lower: string, missing: string, at: seq<nat>)
    requires name != [] && IsUpper(name[0]) && forall i :: 1 <= i < |name| ==> IsLower(name[i])
    requires Lower(name) == lower
    requires |missing| == |at| == |LocationAliases|
    requires forall j :: 0 <= j < |at| ==> at[j] < |LocationAliases[j].0| && LocationAliases[j].0[at[j]] == missing[j]
    requires forall j :: 0 <= j < |missing| ==> missing[j] !in lower
    ensures CanonicalLocation(Some(name)) == name
  {
    TitleCasedWord(name);
    LetterNotSpace(name[0]);
    LetterNotSpace(name[|name| - 1]);
    PlainFixed(name, lower, missing, at);
  }

  lemma BangaloreLower()
    ensures Lower("Bangalore") == "bangalore"
  {
    LowerIs("Bangalore", "bangalore");
  }

  lemma BangaloreLacks()
    ensures forall j :: 0 <= j < 9 ==> "umdhpckui"[j] !in "bangalore"
  {
  }

  lemma MumbaiFixed()
    ensures CanonicalLocation(Some(LocationAliases[1].1)) == LocationAliases[1].1
  {
    LowerIs("Mumbai", "mumbai");
    CityFixed(1, "e", [1]);
  }

  lemma DelhiFixed()
    ensures CanonicalLocation(Some(LocationAliases[2].1)) == LocationAliases[2].1
  {
    LowerIs("Delhi", "delhi");
    CityFixed(2, "bm", [0, 0]);
  }

  lemma HyderabadFixed()
    ensures CanonicalLocation(Some(LocationAliases[3].1)) == LocationAliases[3].1
  {
    LowerIs("Hyderabad", "hyderabad");
    CityFixed(3, "gml", [3, 0, 2]);
  }

  lemma PuneFixed()
    ensures CanonicalLocation(Some(LocationAliases[4].1)) == LocationAliases[4].1
  {
    LowerIs("Pune", "pune");
    CityFixed(4, "bmdh", [0, 0, 0, 0]);
  }

  lemma ChennaiFixed()
    ensures CanonicalLocation(Some(LocationAliases[5].1)) == LocationAliases[5].1
  {
    LowerIs("Chennai", "chennai");
    CityFixed(5, "bmdyp", [0, 0, 0, 1, 0]);
  }

  lemma KolkataFixed()
    ensures CanonicalLocation(Some(LocationAliases[6].1)) == LocationAliases[6].1
  {
    LowerIs("Kolkata", "kolkata");
    CityFixed(6, "bmdhpc", [0, 0, 0, 0, 0, 0]);
  }

  lemma GurgaonFixed()
    ensures CanonicalLocation(Some(LocationAliases[7].1)) == LocationAliases[7].1
  {
    LowerIs("Gurgaon", "gurgaon");
    CityFixed(7, "bmdhpck", [0, 0, 0, 0, 0, 0, 0]);
  }

  lemma NoidaFixed()
    ensures CanonicalLocation(Some(LocationAliases[8].1)) == LocationAliases[8].1
  {
    LowerIs("Noida", "noida");
    CityFixed(8, "bmehpckg", [0, 0, 1, 0, 0, 0, 0, 0]);
  }

  /** The canonical city of entry `k` lower-cases to its own key, which no earlier key matches. */
  lemma CityFixed(k: nat, missing: string, at: seq<nat>)
    requires 0 < k < |LocationAliases|
    requires Lower(LocationAliases[k].1) == LocationAliases[k].0 && NoEdgeSpace(LocationAliases[k].1)
    requires |missing| == |at| == k
    requires forall j :: 0 <= j < k ==> at[j] < |LocationAliases[j].0| && LocationAliases[j].0[at[j]] == missing[j]
    requires forall j :: 0 <= j < k ==> missing[j] !in LocationAliases[k].0
    ensures CanonicalLocation(Some(LocationAliases[k].1)) == LocationAliases[k].1
  {
    var name := LocationAliases[k].1;
    var key := LocationAliases[k].0;
    assert FirstAlias(key, 0) == Some(k) by {
      AliasesAbsent(key, missing, at);
      ContainsSelf(key);
      FirstAliasAt(key, k);
    }
    StripFixes(name);
  }

  lemma FirstAliasAt(text: string, k: nat)
    requires k < |LocationAliases| && Contains(text, LocationAliases[k].0)
    requires forall j :: 0 <= j < k ==> !Contains(text, LocationAliases[j].0)
    ensures FirstAlias(text, 0) == Some(k)
  {
    var r := FirstAlias(text, 0);
    assert r.Some? && r.value <= k;
  }

  /** Cleaning a cleaned location changes nothing. */
  lemma CleanLocationIdempotent(location: Option<string>)
    ensures CanonicalLocation(Some(CanonicalLocation(location))) == CanonicalLocation(location)
  {
    CanonicalNamesFixed();
    if location.Some? && FirstAlias(Lower(Strip(location.value)), 0).None? {
      CleanLocationIdempotentPlain(location.value);
    }
  }

  // ---------------------------------------------------------------------------
  // unique skills

  /** Strictly increasing in Python's string order (so without duplicates). */
  predicate StrictlySorted(s: seq<string>) {
    forall i, j :: 0 <= i < j < |s| ==> StrLess(s[i], s[j])
  }

  /** Inserts a new string at its place in a strictly sorted sequence. */
  function InsertSorted(s: seq<string>, x: string): (r: seq<string>)
    requires StrictlySorted(s) && x !in s
    ensures StrictlySorted(r)
    ensures forall t :: t in r <==> t in s || t == x
  {
    if s == [] then [x]
    else if StrLess(s[0], x) then
      var rest := InsertSorted(s[1..], x);
      forall t | t in rest
        ensures StrLess(s[0], t)
      {
        if t != x {
          var j :| 0 <= j < |s[1..]| && s[1..][j] == t;
          assert s[j + 1] == t;
        }
      }
      assert s == [s[0]] + s[1..];
      [s[0]] + rest
    else
      StrLessTotal(s[0], x);
      forall j | 0 < j < |s|
        ensures StrLess(x, s[j])
      {
        StrLessTransitive(x, s[0], s[j]);
      }
      [x] + s
  }

  /** Two strictly sorted sequences with the same elements are the same sequence. */
  lemma {:induction false} StrictlySortedUnique(a: seq<string>, b: seq<string>)
    requires StrictlySorted(a) && StrictlySorted(b)
    requires forall t :: t in a <==> t in b
    ensures a == b
    decreases |a|
  {
    EmptyTogether(a, b);
    if a != [] && b != [] {
      SameHead(a, b);
      TailMembers(a, b);
      TailMembers(b, a);
      StrictlySortedUnique(a[1..], b[1..]);
      assert a == [a[0]] + a[1..] && b == [b[0]] + b[1..];
    }
  }

  lemma EmptyTogether(a: seq<string>, b: seq<string>)
    requires forall t :: t in a <==> t in b
    ensures a == [] <==> b == []
  {
    if a != [] {
      assert a[0] in b;
    }
    if b != [] {
      assert b[0] in a;
    }
  }

  /** Both start with their least element, which they share. */
  lemma SameHead(a: seq<string>, b: seq<string>)
    requires StrictlySorted(a) && StrictlySorted(b) && a != [] && b != []
    requires forall t :: t in a <==> t in b
    ensures a[0] == b[0]
  {
    if a[0] != b[0] {
      assert b[0] in a && a[0] in b;
      var i :| 0 <= i < |a| && a[i] == b[0];
      var j :| 0 <= j < |b| && b[j] == a[0];
      StrLessTransitive(a[0], b[0], a[0]);
      StrLessIrreflexive(a[0]);
      assert false;
    }
  }

  lemma TailMembers(a: seq<string>, b: seq<string>)
    requires StrictlySorted(a) && StrictlySorted(b) && a != [] && b != [] && a[0] == b[0]
    requires forall t :: t in a <==> t in b
    ensures forall t :: t in a[1..] ==> t in b[1..]
  {
    forall t | t in a[1..]
      ensures t in b[1..]
    {
      var i :| 0 <= i < |a[1..]| && a[1..][i] == t;
      assert a[i + 1] == t && StrLess(a[0], t);
      StrLessIrreflexive(t);
      assert t in b;
      var j :| 0 <= j < |b| && b[j] == t;
      assert j != 0;
      assert b[1..][j - 1] == t;
    }
  }

  /**
   * `get_unique_skills`: every comma token of the present skills cells, once each,
   * in ascending string order.
   */
  method UniqueSkills(cells: seq<Option<string>>) returns (r: seq<string>)
    ensures StrictlySorted(r)
    ensures forall t :: t in r <==> t in ColumnTokens(cells, false)
  {
    var all: set<string> := {};
    for i := 0 to |cells|
      invariant forall t :: t in all <==> t in ColumnTokens(cells[..i], false)
    {
      var tokens := CellTokens(cells[i], false);
      all := all + set t | t in tokens;
      ColumnTokensStep(cells, i, false);
    }
    assert cells[..|cells|] == cells;
    r := [];
    var rest := all;
    while rest != {}
      invariant rest <= all && StrictlySorted(r)
      invariant forall t :: t in r <==> t in all && t !in rest
      decreases |rest|
    {
      var x :| x in rest;
      r := InsertSorted(r, x);
      rest := rest - {x};
    }
  }

  // ---------------------------------------------------------------------------
  // top skills

  /**
   * `_get_top_skills`: the `topN` most frequent comma tokens (Python's `[:topN]`),
   * most frequent first; no token left out occurs more often than one kept.
   */
  method TopSkillNames(cells: seq<Option<string>>, topN: int) returns (names: seq<string>)
    ensures names == Names(Prefix(Ranked(ColumnTokens(cells, false)), topN))
    ensures topN >= 0 ==> |names| == if topN <= |Distinct(ColumnTokens(cells, false))| then topN else |Distinct(ColumnTokens(cells, false))|
    ensures NoDuplicates(names)
    ensures forall i :: 0 <= i < |names| ==> names[i] in ColumnTokens(cells, false)
    ensures forall i, j :: 0 <= i < j < |names| ==>
      Occurrences(ColumnTokens(cells, false), names[i]) >= Occurrences(ColumnTokens(cells, false), names[j])
    ensures forall t :: t in ColumnTokens(cells, false) && t !in names ==>
      forall i :: 0 <= i < |names| ==> Occurrences(ColumnTokens(cells, false), names[i]) >= Occurrences(ColumnTokens(cells, false), t)
  {
    var ranked := RankTokens(cells);
    var top := Prefix(ranked, topN);
    names := Names(top);
    TopFacts(ColumnTokens(cells, false), topN);
  }
}
