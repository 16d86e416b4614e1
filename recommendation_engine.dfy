/**
 * The recommendation engine (`RecommendationEngine`): the text it builds for every
 * job, the user's filters, the ranking of the filtered jobs by a similarity score,
 * the explanation attached to each match, the skill-gap report for a target role
 * and the trending-skill list.
 *
 * The similarity scores themselves (a TF-IDF vectoriser and cosine similarity) are
 * not modelled: they arrive as one opaque number per job.
 */
module Recommendations {
  import opened Wrappers
  import opened Text
  import opened Ranking
  import opened SkillCounts
  import DataProcessor

  /** One row of the processed jobs table; a missing (NaN) cell is `None`. */
  datatype Job = Job(
    title: Option<string>,
    company: Option<string>,
    location: Option<string>,
    skills: Option<string>,
    description: Option<string>,
    expMin: Option<int>,
    expMax: Option<int>,
    salaryMin: Option<real>,
    salaryMax: Option<real>)

  // ---------------------------------------------------------------------------
  // combined text

  /** The text cells present in a row, in order; the title is written twice with nothing between. */
  function Features(job: Job): seq<string> {
    (if job.title.Some? then [job.title.value + job.title.value] else [])
    + (if job.skills.Some? then [job.skills.value] else [])
    + (if job.company.Some? then [job.company.value] else [])
    + (if job.description.Some? then [job.description.value] else [])
  }

  /** `_combine_job_features`: the present cells appended in order, joined by blanks. */
  method CombineJobFeatures(job: Job) returns (text: string)
    ensures text == Join(Features(job), " ")
  {
    var features: seq<string> := [];
    if job.title.Some? {
      features := features + [job.title.value + job.title.value];
    }
    if job.skills.Some? {
      features := features + [job.skills.value];
    }
    if job.company.Some? {
      features := features + [job.company.value];
    }
    if job.description.Some? {
      features := features + [job.description.value];
    }
    assert features == Features(job);
    text := Join(features, " ");
  }

  /**
   * The combined text starts with the doubled title, and every present skills,
   * company and description cell occurs in it; a row with none of the four gives "".
   */
  lemma CombinedTextFacts(job: Job)
    ensures job.title.Some? ==> job.title.value + job.title.value <= Join(Features(job), " ")
    ensures job.skills.Some? ==> Contains(Join(Features(job), " "), job.skills.value)
    ensures job.company.Some? ==> Contains(Join(Features(job), " "), job.company.value)
    ensures job.description.Some? ==> Contains(Join(Features(job), " "), job.description.value)
    ensures job.title.None? && job.skills.None? && job.company.None? && job.description.None? ==>
      Join(Features(job), " ") == ""
  {
    var fs := Features(job);
    if job.title.Some? {
      JoinStartsWith(fs, " ");
    }
    var t := if job.title.Some? then 1 else 0;
    var s := if job.skills.Some? then 1 else 0;
    var c := if job.company.Some? then 1 else 0;
    if job.skills.Some? {
      assert fs[t] == job.skills.value;
      JoinContainsPart(fs, " ", t);
    }
    if job.company.Some? {
      assert fs[t + s] == job.company.value;
      JoinContainsPart(fs, " ", t + s);
    }
    if job.description.Some? {
      assert fs[t + s + c] == job.description.value;
      JoinContainsPart(fs, " ", t + s + c);
    }
  }

  // ---------------------------------------------------------------------------
  // experience years

  /**
   * `_extract_experience_years`: the first of "Entry", "Mid", "Senior", "Expert" that
   * the label contains gives 1, 4, 8 or 12 years; a label with none gives nothing.
   */
  function ExperienceYears(band: string): (r: Option<int>)
    ensures r.None? <==>
      !Contains(band, "Entry") && !Contains(band, "Mid") && !Contains(band, "Senior") && !Contains(band, "Expert")
    ensures r.Some? ==> r.value == 1 || r.value == 4 || r.value == 8 || r.value == 12
  {
    if Contains(band, "Entry") then Some(1)
    else if Contains(band, "Mid") then Some(4)
    else if Contains(band, "Senior") then Some(8)
    else if Contains(band, "Expert") then Some(12)
    else None
  }

  /**
   * The four band labels the corpus normaliser assigns map to years that fall back
   * into the same band.
   */
  lemma ExperienceYearsOfLevels()
    ensures forall k :: 0 <= k < |DataProcessor.Levels| ==>
      var l := DataProcessor.Levels[k];
      ExperienceYears(l).Some? && DataProcessor.LevelOf(ExperienceYears(l).value as real) == l
  {
    forall k | 0 <= k < |DataProcessor.Levels|
      ensures var l := DataProcessor.Levels[k];
        ExperienceYears(l).Some? && DataProcessor.LevelOf(ExperienceYears(l).value as real) == l
    {
      if k == 0 {
        EntryYears();
      } else if k == 1 {
        MidYears();
      } else if k == 2 {
        SeniorYears();
      } else {
        ExpertYears();
      }
    }
  }

  lemma EntryYears()
    ensures ExperienceYears(DataProcessor.EntryLevel) == Some(1)
    ensures DataProcessor.LevelOf(1 as real) == DataProcessor.EntryLevel
  {
    ContainsPrefix(DataProcessor.EntryLevel, "Entry");
  }

  lemma MidYears()
    ensures ExperienceYears(DataProcessor.MidLevel) == Some(4)
    ensures DataProcessor.LevelOf(4 as real) == DataProcessor.MidLevel
  {
    NotContainedByChar(DataProcessor.MidLevel, "Entry", 0);
    ContainsPrefix(DataProcessor.MidLevel, "Mid");
  }

  lemma SeniorYears()
    ensures ExperienceYears(DataProcessor.SeniorLevel) == Some(8)
    ensures DataProcessor.LevelOf(8 as real) == DataProcessor.SeniorLevel
  {
    NotContainedByChar(DataProcessor.SeniorLevel, "Entry", 0);
    NotContainedByChar(DataProcessor.SeniorLevel, "Mid", 0);
    ContainsPrefix(DataProcessor.SeniorLevel, "Senior");
  }

  lemma ExpertYears()
    ensures ExperienceYears(DataProcessor.ExpertLevel) == Some(12)
    ensures DataProcessor.LevelOf(12 as real) == DataProcessor.ExpertLevel
  {
    ExpertLevelLacksM();
    ExpertLevelLacksS();
    ExpertOnly(DataProcessor.ExpertLevel);
  }

  lemma ExpertLevelLacksM()
    ensures 'M' !in DataProcessor.ExpertLevel
  {
  }

  lemma ExpertLevelLacksS()
    ensures 'S' !in DataProcessor.ExpertLevel
  {
  }

  /**
   * A label starting with "Expert" that lacks the letters 'n', 'M' and 'S' (so holds
   * none of "Entry", "Mid", "Senior") gives twelve years.
   */
  lemma ExpertOnly(band: string)
    requires "Expert" <= band && 'n' !in band && 'M' !in band && 'S' !in band
    ensures ExperienceYears(band) == Some(12)
  {
    NotContainedByChar(band, "Entry", 1);
    NotContainedByChar(band, "Mid", 0);
    NotContainedByChar(band, "Senior", 0);
    ContainsPrefix(band, "Expert");
  }

  // ---------------------------------------------------------------------------
  // filters

  /** The user's filter choices; each may be absent. */
  datatype Filters = Filters(
    location: Option<string>,
    experienceLevel: Option<string>,
    salaryMin: Option<real>,
    salaryMax: Option<real>)

  /** A job row with its similarity score. */
  datatype ScoredJob = ScoredJob(job: Job, score: real)

  /** `location.str.contains('Remote', case=False, na=False)` */
  predicate IsRemote(location: Option<string>) {
    location.Some? && Contains(Lower(location.value), "remote")
  }

  /**
   * The location mask: no location, "" or "Any" keeps every row; "Remote" keeps the
   * remote rows; any other location keeps the rows at exactly that location and the
   * remote rows.
   */
  predicate LocationPasses(wanted: Option<string>, job: Job) {
    if wanted.None? || wanted.value == "" || wanted.value == "Any" then true
    else if wanted.value == "Remote" then IsRemote(job.location)
    else job.location == wanted || IsRemote(job.location)
  }

  /**
   * The experience mask: a band label with known years keeps the rows whose range
   * holds them; no label, "" or a label without known years keeps every row.
   */
  predicate ExperiencePasses(level: Option<string>, job: Job) {
    if level.None? || level.value == "" then true
    else
      match ExperienceYears(level.value)
      case None => true
      case Some(years) =>
        job.expMin.Some? && job.expMax.Some? && job.expMin.value <= years && job.expMax.value >= years
  }

  /** The salary mask, used only when both bounds are given: the row's band overlaps them. */
  predicate SalaryPasses(lo: Option<real>, hi: Option<real>, job: Job) {
    if lo.None? || hi.None? then true
    else
      job.salaryMax.Some? && job.salaryMin.Some? && job.salaryMax.value >= lo.value && job.salaryMin.value <= hi.value
  }

  /** A row passes the filters when it passes all three masks. */
  predicate Passes(f: Filters, job: Job) {
    LocationPasses(f.location, job) && ExperiencePasses(f.experienceLevel, job) && SalaryPasses(f.salaryMin, f.salaryMax, job)
  }

  /** `_apply_filters`: the location, experience and salary masks, one after the other. */
  function ApplyFilters(rows: seq<ScoredJob>, f: Filters): seq<ScoredJob> {
    var byLocation := Filter(rows, (row: ScoredJob) => LocationPasses(f.location, row.job));
    var byExperience := Filter(byLocation, (row: ScoredJob) => ExperiencePasses(f.experienceLevel, row.job));
    Filter(byExperience, (row: ScoredJob) => SalaryPasses(f.salaryMin, f.salaryMax, row.job))
  }

  /**
   * The three masks in turn keep exactly the rows that pass all the filters, in
   * their original order.
   */
  lemma ApplyFiltersKeepsPassing(rows: seq<ScoredJob>, f: Filters)
    ensures ApplyFilters(rows, f) == Filter(rows, (row: ScoredJob) => Passes(f, row.job))
    ensures IsSubsequence(ApplyFilters(rows, f), rows)
    ensures forall row :: row in ApplyFilters(rows, f) <==> row in rows && Passes(f, row.job)
  {
    var loc := (row: ScoredJob) => LocationPasses(f.location, row.job);
    var exp := (row: ScoredJob) => ExperiencePasses(f.experienceLevel, row.job);
    var sal := (row: ScoredJob) => SalaryPasses(f.salaryMin, f.salaryMax, row.job);
    var locExp := (row: ScoredJob) => LocationPasses(f.location, row.job) && ExperiencePasses(f.experienceLevel, row.job);
    var all := (row: ScoredJob) => Passes(f, row.job);
    FilterFilter(rows, loc, exp, locExp);
    FilterFilter(rows, locExp, sal, all);
  }

  /** Without any filter every row is kept. */
  lemma NoFiltersKeepAll(rows: seq<ScoredJob>, location: Option<string>)
    requires location.None? || location == Some("") || location == Some("Any")
    ensures ApplyFilters(rows, Filters(location, None, None, None)) == rows
  {
    var f := Filters(location, None, None, None);
    ApplyFiltersKeepsPassing(rows, f);
    FilterKeepsAll(rows, (row: ScoredJob) => Passes(f, row.job));
  }

  /**
   * With the location "Remote" the rows kept are exactly those whose location
   * mentions "remote", in any case, and that pass the other two masks.
   */
  lemma RemoteKeepsOnlyRemote(rows: seq<ScoredJob>, f: Filters)
    requires f.location == Some("Remote")
    ensures forall row :: row in ApplyFilters(rows, f) ==> IsRemote(row.job.location)
    ensures forall row :: row in ApplyFilters(rows, f) <==>
      row in rows && IsRemote(row.job.location) &&
      ExperiencePasses(f.experienceLevel, row.job) && SalaryPasses(f.salaryMin, f.salaryMax, row.job)
  {
    ApplyFiltersKeepsPassing(rows, f);
  }

  // ---------------------------------------------------------------------------
  // skill similarity

  function Abs(x: int): nat {
    if x < 0 then -x else x
  }

  /**
   * `_skills_similar`: below three characters the skills must be equal; otherwise one
   * contains the other or their lengths differ by at most two.
   */
  predicate SkillsSimilar(a: string, b: string) {
    if |a| < 3 || |b| < 3 then a == b
    else Contains(b, a) || Contains(a, b) || Abs(|a| - |b|) <= 2
  }

  /** Similarity does not depend on the order of the two skills. */
  lemma SkillsSimilarSymmetric(a: string, b: string)
    ensures SkillsSimilar(a, b) == SkillsSimilar(b, a)
  {
  }

  /** Skills of three or more characters and nearly equal length are always similar. */
  lemma SkillsSimilarCloseLengths(a: string, b: string)
    requires |a| >= 3 && |b| >= 3 && -2 <= |a| - |b| <= 2
    ensures SkillsSimilar(a, b)
  {
  }

  /** Every skill is similar to itself. */
  lemma SkillsSimilarReflexive(a: string)
    ensures SkillsSimilar(a, a)
  {
  }

  // ---------------------------------------------------------------------------
  // match explanation

  /** `str(cell)` for a text cell: a missing cell prints as "nan". */
  function CellText(cell: Option<string>): string {
    if cell.None? then "nan" else cell.value
  }

  /** The user skills whose lower-cased form occurs in the lower-cased skills text, in user order. */
  function MatchingSkills(userSkills: seq<string>, skillsText: string): (r: seq<string>)
    ensures |r| <= |userSkills|
    ensures forall s :: s in r <==> s in userSkills && Contains(skillsText, Lower(s))
  {
    if userSkills == [] then []
    else
      var last := userSkills[|userSkills| - 1];
      var init := userSkills[..|userSkills| - 1];
      assert userSkills == init + [last];
      MatchingSkills(init, skillsText) + (if Contains(skillsText, Lower(last)) then [last] else [])
  }

  /** `title_keywords`: the user skills longer than three characters, lower-cased, in order. */
  function TitleKeywords(userSkills: seq<string>): seq<string> {
    LowerAll(Filter(userSkills, (s: string) => |s| > 3))
  }

  /** The first keyword the title contains. */
  function FirstKeyword(keywords: seq<string>, title: string): (r: Option<string>)
    ensures r.Some? ==> r.value in keywords && Contains(title, r.value)
    ensures r.None? <==> forall k :: k in keywords ==> !Contains(title, k)
  {
    if keywords == [] then None
    else if Contains(title, keywords[0]) then Some(keywords[0])
    else
      assert forall k :: k in keywords ==> k == keywords[0] || k in keywords[1..];
      FirstKeyword(keywords[1..], title)
  }

  /** The keyword found is the first one the title contains: no keyword before it occurs. */
  lemma {:induction false} FirstKeywordIsFirst(keywords: seq<string>, title: string)
    ensures FirstKeyword(keywords, title).Some? ==>
      exists i :: 0 <= i < |keywords| && keywords[i] == FirstKeyword(keywords, title).value &&
        forall j :: 0 <= j < i ==> !Contains(title, keywords[j])
  {
    if keywords != [] && !Contains(title, keywords[0]) {
      var r := FirstKeyword(keywords[1..], title);
      FirstKeywordIsFirst(keywords[1..], title);
      if r.Some? {
        var i :| 0 <= i < |keywords[1..]| && keywords[1..][i] == r.value &&
          forall j :: 0 <= j < i ==> !Contains(title, keywords[1..][j]);
        assert keywords[i + 1] == r.value;
        forall j | 0 <= j < i + 1
          ensures !Contains(title, keywords[j])
        {
          if j > 0 {
            assert keywords[j] == keywords[1..][j - 1];
          }
        }
      }
    }
  }

  /**
   * The matching skills are the user's skills that match, in the user's order:
   * the list a mask over the user skills keeps.
   */
  lemma {:induction false} MatchingSkillsInOrder(userSkills: seq<string>, skillsText: string, keep: string -> bool)
    requires forall s :: keep(s) == Contains(skillsText, Lower(s))
    ensures MatchingSkills(userSkills, skillsText) == Filter(userSkills, keep)
    ensures IsSubsequence(MatchingSkills(userSkills, skillsText), userSkills)
    decreases |userSkills|
  {
    if userSkills != [] {
      var last := userSkills[|userSkills| - 1];
      var init := userSkills[..|userSkills| - 1];
      assert userSkills == init + [last];
      MatchingSkillsInOrder(init, skillsText, keep);
      FilterAppend(init, [last], keep);
      assert Filter([last], keep) == if keep(last) then [last] else [] by {
        assert [last][1..] == [];
      }
    }
  }

  const GeneralMatch: string := "General profile match"

  /** The skills fragment: at most the first three matching skills, joined by ", ". */
  function SkillsFragment(matching: seq<string>): string {
    "Matching skills: " + Join(Prefix(matching, 3), ", ")
  }

  /** The title fragment, quoting the lower-cased keyword. */
  function TitleFragment(keyword: string): string {
    "Title contains '" + keyword + "'"
  }

  /**
   * The fragments of an explanation: the skills fragment when some user skill
   * matched, then the title fragment when a keyword occurs in the title (tried
   * whether or not skills matched); "General profile match" when neither fired.
   */
  function FragmentsOf(matching: seq<string>, keyword: Option<string>): (r: seq<string>)
    ensures 1 <= |r| <= 2
  {
    var found := (if matching != [] then [SkillsFragment(matching)] else [])
      + (if keyword.Some? then [TitleFragment(keyword.value)] else []);
    if found == [] then [GeneralMatch] else found
  }

  /** `explanations[:2]` joined by " | ". */
  function Explanation(matching: seq<string>, keyword: Option<string>): string {
    Join(Prefix(FragmentsOf(matching, keyword), 2), " | ")
  }

  /** The explanation of how a job matches the user's skills. */
  function MatchExplanation(job: Job, userSkills: seq<string>): string {
    Explanation(MatchingSkills(userSkills, Lower(CellText(job.skills))),
      FirstKeyword(TitleKeywords(userSkills), Lower(CellText(job.title))))
  }

  /** `_generate_match_explanation`: the skill loop, the keyword loop with its break, the fallback. */
  method GenerateMatchExplanation(job: Job, userSkills: seq<string>) returns (r: string)
    ensures r == MatchExplanation(job, userSkills)
  {
    var skillsText := Lower(CellText(job.skills));
    var matching: seq<string> := [];
    for i := 0 to |userSkills|
      invariant matching == MatchingSkills(userSkills[..i], skillsText)
    {
      assert userSkills[..i + 1][..i] == userSkills[..i];
      if Contains(skillsText, Lower(userSkills[i])) {
        matching := matching + [userSkills[i]];
      }
    }
    assert userSkills[..|userSkills|] == userSkills;
    var explanations: seq<string> := [];
    if matching != [] {
      explanations := explanations + [SkillsFragment(matching)];
    }
    ghost var skillPart := explanations;
    assert skillPart == if matching != [] then [SkillsFragment(matching)] else [];
    var title := Lower(CellText(job.title));
    var keywords := TitleKeywords(userSkills);
    var keyword := FindTitleKeyword(keywords, title);
    if keyword.Some? {
      explanations := explanations + [TitleFragment(keyword.value)];
    }
    assert explanations == skillPart + if keyword.Some? then [TitleFragment(keyword.value)] else [];
    if explanations == [] {
      explanations := [GeneralMatch];
    }
    assert explanations == FragmentsOf(matching, keyword);
    r := Join(Prefix(explanations, 2), " | ");
  }

  /** The keyword loop of `_generate_match_explanation`: stops at the first keyword the title contains. */
  method FindTitleKeyword(keywords: seq<string>, title: string) returns (keyword: Option<string>)
    ensures keyword == FirstKeyword(keywords, title)
  {
    var k := 0;
    while k < |keywords|
      invariant 0 <= k <= |keywords|
      invariant FirstKeyword(keywords, title) == FirstKeyword(keywords[k..], title)
    {
      if Contains(title, keywords[k]) {
        return Some(keywords[k]);
      }
      assert keywords[k..][1..] == keywords[k + 1..];
      k := k + 1;
    }
    return None;
  }

  /** The first letters that tell the three kinds of fragment apart. */
  lemma FragmentHeads(matching: seq<string>, keyword: string)
    ensures SkillsFragment(matching) != [] && SkillsFragment(matching)[0] == 'M'
    ensures TitleFragment(keyword) != [] && TitleFragment(keyword)[0] == 'T'
    ensures GeneralMatch != [] && GeneralMatch[0] == 'G'
  {
  }

  /** An explanation is never empty. */
  lemma ExplanationNonEmpty(matching: seq<string>, keyword: Option<string>)
    ensures Explanation(matching, keyword) != ""
  {
    var fs := FragmentsOf(matching, keyword);
    assert Prefix(fs, 2) == fs;
    FragmentHeads(matching, if keyword.Some? then keyword.value else "");
    assert fs[0] != [];
    JoinStartsWith(fs, " | ");
  }

  /** The fallback is used exactly when no skill matched and no keyword was found. */
  lemma ExplanationGeneralIff(matching: seq<string>, keyword: Option<string>)
    ensures Explanation(matching, keyword) == GeneralMatch <==> matching == [] && keyword.None?
  {
    var fs := FragmentsOf(matching, keyword);
    assert Prefix(fs, 2) == fs;
    var e := Join(fs, " | ");
    FragmentHeads(matching, if keyword.Some? then keyword.value else "");
    if matching != [] || keyword.Some? {
      assert fs[0][0] != 'G';
      JoinStartsWith(fs, " | ");
      assert e[0] == fs[0][0];
      assert e != GeneralMatch;
    } else {
      assert fs == [GeneralMatch];
    }
  }

  /** A job's explanation is "General profile match" exactly when no user skill occurs in its skills and no keyword in its title. */
  lemma GeneralMatchIff(job: Job, userSkills: seq<string>)
    ensures MatchExplanation(job, userSkills) == GeneralMatch <==>
      (forall s :: s in userSkills ==> !Contains(Lower(CellText(job.skills)), Lower(s))) &&
      (forall k :: k in TitleKeywords(userSkills) ==> !Contains(Lower(CellText(job.title)), k))
  {
    var matching := MatchingSkills(userSkills, Lower(CellText(job.skills)));
    var keyword := FirstKeyword(TitleKeywords(userSkills), Lower(CellText(job.title)));
    ExplanationGeneralIff(matching, keyword);
    assert matching == [] <==> forall s :: s in userSkills ==> !Contains(Lower(CellText(job.skills)), Lower(s)) by {
      if matching != [] {
        assert matching[0] in matching;
      }
    }
  }

  /** The skills fragment names at most three skills, each a matching user skill. */
  lemma SkillsFragmentBound(job: Job, userSkills: seq<string>)
    ensures var listed := Prefix(MatchingSkills(userSkills, Lower(CellText(job.skills))), 3);
      |listed| <= 3 && forall s :: s in listed ==> s in userSkills && Contains(Lower(CellText(job.skills)), Lower(s))
  {
  }

  /**
   * The skills fragment lists the first three user skills, in the user's order,
   * whose lower-cased form occurs in the lower-cased skills text; when any matched,
   * the explanation starts with it.
   */
  lemma SkillsFragmentFirstThree(job: Job, userSkills: seq<string>, keep: string -> bool)
    requires forall s :: keep(s) == Contains(Lower(CellText(job.skills)), Lower(s))
    ensures var matching := MatchingSkills(userSkills, Lower(CellText(job.skills)));
      && matching == Filter(userSkills, keep)
      && SkillsFragment(matching) == "Matching skills: " + Join(Prefix(Filter(userSkills, keep), 3), ", ")
      && (matching != [] ==> SkillsFragment(matching) <= MatchExplanation(job, userSkills))
  {
    var matching := MatchingSkills(userSkills, Lower(CellText(job.skills)));
    var keyword := FirstKeyword(TitleKeywords(userSkills), Lower(CellText(job.title)));
    MatchingSkillsInOrder(userSkills, Lower(CellText(job.skills)), keep);
    if matching != [] {
      var frags := Prefix(FragmentsOf(matching, keyword), 2);
      assert frags[0] == SkillsFragment(matching);
      JoinStartsWith(frags, " | ");
    }
  }

  /** With a keyword found, the title fragment is the whole explanation or follows the skills fragment. */
  lemma ExplanationWithKeyword(matching: seq<string>, keyword: string)
    ensures matching == [] ==> Explanation(matching, Some(keyword)) == TitleFragment(keyword)
    ensures matching != [] ==> Explanation(matching, Some(keyword)) == SkillsFragment(matching) + " | " + TitleFragment(keyword)
  {
    var frags := FragmentsOf(matching, Some(keyword));
    if matching == [] {
      assert frags == [TitleFragment(keyword)];
      assert Prefix(frags, 2) == frags;
    } else {
      assert frags == [SkillsFragment(matching), TitleFragment(keyword)];
      assert Prefix(frags, 2) == frags;
      assert frags[1..] == [TitleFragment(keyword)];
      assert Join(frags[1..], " | ") == TitleFragment(keyword);
      assert Join(frags, " | ") == frags[0] + " | " + Join(frags[1..], " | ");
    }
  }

  /**
   * The title fragment quotes the first title keyword, in the user's order, that
   * the lower-cased title contains; it is the whole explanation, or follows the
   * skills fragment when that fired too.
   */
  lemma TitleFragmentFirstKeyword(job: Job, userSkills: seq<string>)
    ensures var keywords := TitleKeywords(userSkills);
      var title := Lower(CellText(job.title));
      var keyword := FirstKeyword(keywords, title);
      var matching := MatchingSkills(userSkills, Lower(CellText(job.skills)));
      keyword.Some? ==>
        && Contains(title, keyword.value)
        && (exists i :: 0 <= i < |keywords| && keywords[i] == keyword.value &&
              forall j :: 0 <= j < i ==> !Contains(title, keywords[j]))
        && (matching == [] ==> MatchExplanation(job, userSkills) == TitleFragment(keyword.value))
        && (matching != [] ==> MatchExplanation(job, userSkills) == SkillsFragment(matching) + " | " + TitleFragment(keyword.value))
  {
    var keywords := TitleKeywords(userSkills);
    var title := Lower(CellText(job.title));
    var keyword := FirstKeyword(keywords, title);
    FirstKeywordIsFirst(keywords, title);
    if keyword.Some? {
      ExplanationWithKeyword(MatchingSkills(userSkills, Lower(CellText(job.skills))), keyword.value);
    }
  }

  // ---------------------------------------------------------------------------
  // ranking the filtered jobs

  /** Rows ranked by compatibility score, highest first. */
  predicate ByScore(a: ScoredJob, b: ScoredJob) {
    a.score >= b.score
  }

  lemma ByScoreTotalPreorder()
    ensures TotalPreorder(ByScore)
  {
  }

  /** The jobs table with the `compatibility_score` column added. */
  function Scored(jobs: seq<Job>, scores: seq<real>): seq<ScoredJob>
    requires |scores| == |jobs|
  {
    seq(|jobs|, i requires 0 <= i < |jobs| => ScoredJob(jobs[i], scores[i]))
  }

  /** The filtered rows sorted by score, highest first, then `head(topN)`. */
  function TopMatches(rows: seq<ScoredJob>, f: Filters, topN: int): seq<ScoredJob> {
    ByScoreTotalPreorder();
    Prefix(StableSort(ApplyFilters(rows, f), ByScore), topN)
  }

  /**
   * The recommendations are `topN` rows, or every passing row when fewer pass
   * (`head(topN)`), each one passing every filter,
   * by non-increasing score; no passing row left out scores above a row kept; and
   * when `topN` covers the table every passing row is recommended.
   */
  lemma TopMatchesFacts(rows: seq<ScoredJob>, f: Filters, topN: int)
    ensures topN >= 0 ==> |TopMatches(rows, f, topN)| <= topN
    ensures topN >= 0 ==> |TopMatches(rows, f, topN)| == if topN <= |ApplyFilters(rows, f)| then topN else |ApplyFilters(rows, f)|
    ensures forall row :: row in TopMatches(rows, f, topN) ==> row in rows && Passes(f, row.job)
    ensures forall i, j :: 0 <= i < j < |TopMatches(rows, f, topN)| ==>
      TopMatches(rows, f, topN)[i].score >= TopMatches(rows, f, topN)[j].score
    ensures forall row :: row in rows && Passes(f, row.job) && row !in TopMatches(rows, f, topN) ==>
      forall kept :: kept in TopMatches(rows, f, topN) ==> kept.score >= row.score
    ensures topN >= |rows| ==> forall row :: row in rows && Passes(f, row.job) ==> row in TopMatches(rows, f, topN)
  {
    TopMatchesKept(rows, f, topN);
    TopMatchesBest(rows, f, topN);
  }

  /** What is kept passes the filters, in non-increasing score order, and at most `topN` of it. */
  lemma TopMatchesKept(rows: seq<ScoredJob>, f: Filters, topN: int)
    ensures topN >= 0 ==> |TopMatches(rows, f, topN)| <= topN
    ensures forall row :: row in TopMatches(rows, f, topN) ==> row in rows && Passes(f, row.job)
    ensures forall i, j :: 0 <= i < j < |TopMatches(rows, f, topN)| ==>
      TopMatches(rows, f, topN)[i].score >= TopMatches(rows, f, topN)[j].score
  {
    ByScoreTotalPreorder();
    var passing := ApplyFilters(rows, f);
    ApplyFiltersKeepsPassing(rows, f);
    var sorted := StableSort(passing, ByScore);
    PermutationSameMembers(sorted, passing);
    PrefixMembers(sorted, topN);
    PrefixOrdered(sorted, ByScore, topN);
  }

  /** A passing row left out scores no higher than any kept; with room for all, all are kept. */
  lemma TopMatchesBest(rows: seq<ScoredJob>, f: Filters, topN: int)
    ensures forall row :: row in rows && Passes(f, row.job) && row !in TopMatches(rows, f, topN) ==>
      forall kept :: kept in TopMatches(rows, f, topN) ==> kept.score >= row.score
    ensures topN >= |rows| ==> forall row :: row in rows && Passes(f, row.job) ==> row in TopMatches(rows, f, topN)
  {
    ByScoreTotalPreorder();
    var passing := ApplyFilters(rows, f);
    ApplyFiltersKeepsPassing(rows, f);
    var sorted := StableSort(passing, ByScore);
    var top := Prefix(sorted, topN);
    PermutationSameMembers(sorted, passing);
    forall row | row in rows && Passes(f, row.job) && row !in top
      ensures forall kept :: kept in top ==> kept.score >= row.score
    {
      PrefixDominates(sorted, ByScore, topN, row);
    }
    if topN >= |rows| {
      assert |passing| <= |rows|;
      assert top == sorted;
    }
  }

  // ---------------------------------------------------------------------------
  // skill gaps for a target role

  /** `job_title.str.contains(needle, case=False, na=False)`, the needle taken literally. */
  predicate TitleMentions(job: Job, needle: string) {
    job.title.Some? && Contains(Lower(job.title.value), Lower(needle))
  }

  /** The jobs whose title mentions `needle`, in table order. */
  function JobsMentioning(jobs: seq<Job>, needle: string): (r: seq<Job>)
    ensures forall j :: j in r <==> j in jobs && TitleMentions(j, needle)
  {
    Filter(jobs, (j: Job) => TitleMentions(j, needle))
  }

  /** The broader search: the jobs of the first keyword that finds any. */
  function KeywordJobs(jobs: seq<Job>, keywords: seq<string>): seq<Job> {
    if keywords == [] then []
    else
      var r := JobsMentioning(jobs, keywords[0]);
      if r != [] then r else KeywordJobs(jobs, keywords[1..])
  }

  /** The jobs for a target role: the titles mentioning it, else those mentioning one of its words. */
  function RoleJobs(jobs: seq<Job>, role: string): seq<Job> {
    var direct := JobsMentioning(jobs, role);
    if direct != [] then direct else KeywordJobs(jobs, Words(Lower(role)))
  }

  /**
   * The role's jobs all mention one needle (the role, or else the first of its words,
   * in order, that finds any: every word before it finds none); the role itself wins when any title mentions it; and they are empty
   * exactly when no title mentions the role or any of its words.
   */
  lemma {:induction false} KeywordJobsFacts(jobs: seq<Job>, keywords: seq<string>)
    ensures KeywordJobs(jobs, keywords) != [] ==>
      exists i :: 0 <= i < |keywords| && KeywordJobs(jobs, keywords) == JobsMentioning(jobs, keywords[i]) &&
        forall j :: 0 <= j < i ==> JobsMentioning(jobs, keywords[j]) == []
    ensures KeywordJobs(jobs, keywords) == [] <==>
      forall k, j :: k in keywords && j in jobs ==> !TitleMentions(j, k)
  {
    if keywords != [] {
      KeywordJobsFacts(jobs, keywords[1..]);
      var r := JobsMentioning(jobs, keywords[0]);
      if r == [] {
        assert forall k :: k in keywords ==> k == keywords[0] || k in keywords[1..];
        if KeywordJobs(jobs, keywords) != [] {
          var i :| 0 <= i < |keywords[1..]| && KeywordJobs(jobs, keywords[1..]) == JobsMentioning(jobs, keywords[1..][i]) &&
            forall j :: 0 <= j < i ==> JobsMentioning(jobs, keywords[1..][j]) == [];
          assert forall j :: 0 <= j < i + 1 ==> JobsMentioning(jobs, keywords[j]) == [] by {
            assert forall j :: 1 <= j < i + 1 ==> keywords[j] == keywords[1..][j - 1];
          }
          assert keywords[i + 1] == keywords[1..][i];
        }
      } else {
        var j := r[0];
        assert keywords[0] in keywords && j in jobs && TitleMentions(j, keywords[0]);
      }
    }
  }

  lemma RoleJobsFacts(jobs: seq<Job>, role: string)
    ensures forall j :: j in RoleJobs(jobs, role) ==> j in jobs
    ensures JobsMentioning(jobs, role) == [] && RoleJobs(jobs, role) != [] ==>
      exists i :: 0 <= i < |Words(Lower(role))| && RoleJobs(jobs, role) == JobsMentioning(jobs, Words(Lower(role))[i]) &&
        forall j :: 0 <= j < i ==> JobsMentioning(jobs, Words(Lower(role))[j]) == []
    ensures (exists j :: j in jobs && TitleMentions(j, role)) ==> RoleJobs(jobs, role) == JobsMentioning(jobs, role)
    ensures RoleJobs(jobs, role) != [] ==>
      exists needle :: (needle == role || needle in Words(Lower(role))) && RoleJobs(jobs, role) == JobsMentioning(jobs, needle)
    ensures RoleJobs(jobs, role) == [] <==>
      forall needle, j :: (needle == role || needle in Words(Lower(role))) && j in jobs ==> !TitleMentions(j, needle)
  {
    KeywordJobsFacts(jobs, Words(Lower(role)));
    var direct := JobsMentioning(jobs, role);
    if direct != [] {
      assert direct[0] in direct;
    }
  }

  /** The skills column of some jobs. */
  function SkillsCells(jobs: seq<Job>): seq<Option<string>> {
    seq(|jobs|, i requires 0 <= i < |jobs| => jobs[i].skills)
  }

  /** Every lower-cased skill the role's jobs list. */
  function RoleTokens(roleJobs: seq<Job>): seq<string> {
    ColumnTokens(SkillsCells(roleJobs), true)
  }

  /** `required_skills`: the set of lower-cased skills the role's jobs list. */
  function Required(roleJobs: seq<Job>): set<string> {
    set t | t in RoleTokens(roleJobs)
  }

  /** A user skill covers a required skill when either contains the other or the two are similar. */
  predicate Covers(userSkill: string, required: string) {
    Contains(required, userSkill) || Contains(userSkill, required) || SkillsSimilar(userSkill, required)
  }

  /** Some user skill covers `required`. */
  predicate Held(userLower: seq<string>, required: string) {
    exists u :: u in userLower && Covers(u, required)
  }

  function HeldSkills(required: set<string>, userLower: seq<string>): set<string> {
    set r | r in required && Held(userLower, r)
  }

  function MissingSkills(required: set<string>, userLower: seq<string>): set<string> {
    set r | r in required && !Held(userLower, r)
  }

  /** Each skill title-cased (`str.title()`). */
  function Titles(skills: set<string>): set<string> {
    set r | r in skills :: TitleCase(r)
  }

  /** How often a (title-cased) skill occurs, lower-cased, among the role's tokens (`skill_counts.get(skill.lower(), 0)`). */
  function GapCount(tokens: seq<string>, skill: string): nat {
    Occurrences(tokens, Lower(skill))
  }

  /** The skill-gap report for a target role. */
  datatype GapReport = GapReport(
    targetRole: string,
    totalRoleJobs: nat,
    existing: set<string>,
    missing: seq<string>,
    matchPercentage: real)

  /** `len(existing_skills) / max(len(required_skills), 1) * 100` */
  function MatchPercentage(held: nat, required: nat): real {
    held as real / (if required > 1 then required else 1) as real * 100.0
  }

  /** A list holding exactly the members of a set, as a set, is that set. */
  lemma SetOfListed<T>(xs: seq<T>, s: set<T>)
    requires forall x :: x in xs <==> x in s
    ensures (set x | x in xs) == s
  {
  }

  /** The required skills split into the held ones and the missing ones. */
  lemma GapPartition(required: set<string>, userLower: seq<string>)
    ensures HeldSkills(required, userLower) + MissingSkills(required, userLower) == required
    ensures HeldSkills(required, userLower) !! MissingSkills(required, userLower)
    ensures |HeldSkills(required, userLower)| + |MissingSkills(required, userLower)| == |required|
  {
    var h := HeldSkills(required, userLower);
    var m := MissingSkills(required, userLower);
    assert h + m == required;
    assert h * m == {};
  }

  /**
   * With at most as many held skills as required ones, the match percentage lies
   * between 0 and 100, and is 100 exactly when every one of at least one required
   * skill is held.
   */
  lemma PercentageBounds(held: nat, required: nat)
    requires held <= required
    ensures 0.0 <= MatchPercentage(held, required) <= 100.0
    ensures MatchPercentage(held, required) == 100.0 <==> required > 0 && held == required
  {
    var d := if required > 1 then required else 1;
    var q := held as real / d as real;
    assert q * d as real == held as real;
    if required == 0 {
      assert held == 0 && q == 0.0;
    } else {
      assert d == required;
      assert q <= 1.0;
      assert q == 1.0 <==> held as real == d as real;
    }
  }

  /** Without role jobs nothing is required, nothing is held or missing, and the percentage is 0. */
  lemma NoRoleJobsNoGaps(userLower: seq<string>)
    ensures Required([]) == {}
    ensures HeldSkills(Required([]), userLower) == {} && MissingSkills(Required([]), userLower) == {}
    ensures MatchPercentage(0, 0) == 0.0
  {
    assert SkillsCells([]) == [];
    assert TokenRows([], true) == [];
  }

  /** The inner loop: does some user skill cover `required`? */
  method IsHeld(userLower: seq<string>, required: string) returns (found: bool)
    ensures found == Held(userLower, required)
  {
    found := false;
    for i := 0 to |userLower|
      invariant !found
      invariant forall k :: 0 <= k < i ==> !Covers(userLower[k], required)
    {
      var u := userLower[i];
      if Contains(required, u) || Contains(u, required) || SkillsSimilar(u, required) {
        assert u in userLower && Covers(u, required);
        found := true;
        return;
      }
    }
  }

  /** Deciding one more skill adds it to exactly one of the two sides. */
  lemma ClassifyStep(done: set<string>, r: string, userLower: seq<string>)
    ensures Held(userLower, r) ==> HeldSkills(done + {r}, userLower) == HeldSkills(done, userLower) + {r}
    ensures Held(userLower, r) ==> MissingSkills(done + {r}, userLower) == MissingSkills(done, userLower)
    ensures !Held(userLower, r) ==> HeldSkills(done + {r}, userLower) == HeldSkills(done, userLower)
    ensures !Held(userLower, r) ==> MissingSkills(done + {r}, userLower) == MissingSkills(done, userLower) + {r}
  {
  }

  /** Classifying one more required skill keeps both listings exact. */
  lemma ClassifyListsStep(existing: seq<string>, missing: seq<string>, done: set<string>, required: set<string>,
                          r: string, userLower: seq<string>)
    requires forall d :: d in required ==> IsLowerCase(d)
    requires done <= required && r in required && r !in done
    requires ListsTitles(existing, HeldSkills(done, userLower))
    requires ListsTitles(missing, MissingSkills(done, userLower))
    ensures Held(userLower, r) ==>
      ListsTitles(existing + [TitleCase(r)], HeldSkills(done + {r}, userLower)) &&
      ListsTitles(missing, MissingSkills(done + {r}, userLower))
    ensures !Held(userLower, r) ==>
      ListsTitles(existing, HeldSkills(done + {r}, userLower)) &&
      ListsTitles(missing + [TitleCase(r)], MissingSkills(done + {r}, userLower))
  {
    ClassifyStep(done, r, userLower);
    if Held(userLower, r) {
      ListsTitlesAdd(existing, HeldSkills(done, userLower), r);
    } else {
      ListsTitlesAdd(missing, MissingSkills(done, userLower), r);
    }
  }

  /** `titled` lists the title of every skill of `skills`, once each. */
  ghost predicate ListsTitles(titled: seq<string>, skills: set<string>) {
    && (forall x :: x in titled <==> x in Titles(skills))
    && |titled| == |skills|
    && NoDuplicates(titled)
  }

  /** Appending the title of a new lower-case skill keeps the listing exact. */
  lemma ListsTitlesAdd(titled: seq<string>, skills: set<string>, r: string)
    requires ListsTitles(titled, skills)
    requires forall d :: d in skills ==> IsLowerCase(d)
    requires IsLowerCase(r) && r !in skills
    ensures ListsTitles(titled + [TitleCase(r)], skills + {r})
  {
    assert TitleCase(r) !in Titles(skills) by {
      forall d | d in skills
        ensures TitleCase(d) != TitleCase(r)
      {
        if TitleCase(d) == TitleCase(r) {
          TitleCaseOfLowerInjective(d, r);
        }
      }
    }
    assert Titles(skills + {r}) == Titles(skills) + {TitleCase(r)};
    var s := titled + [TitleCase(r)];
    forall i, j | 0 <= i < j < |s|
      ensures s[i] != s[j]
    {
      if j == |titled| {
        assert s[i] in titled;
      }
    }
  }

  /**
   * The classification loop over the required set (in whatever order the set
   * yields): each held skill title-cased into `existing`, each other into `missing`,
   * both without duplicates.
   */
  method ClassifySkills(required: set<string>, userLower: seq<string>) returns (existing: seq<string>, missing: seq<string>)
    requires forall r :: r in required ==> IsLowerCase(r)
    ensures forall x :: x in existing <==> x in Titles(HeldSkills(required, userLower))
    ensures forall x :: x in missing <==> x in Titles(MissingSkills(required, userLower))
    ensures |existing| == |HeldSkills(required, userLower)| && NoDuplicates(existing)
    ensures |missing| == |MissingSkills(required, userLower)| && NoDuplicates(missing)
  {
    existing, missing := [], [];
    var remaining := required;
    ghost var done: set<string> := {};
    while remaining != {}
      invariant done + remaining == required && done !! remaining
      invariant ListsTitles(existing, HeldSkills(done, userLower))
      invariant ListsTitles(missing, MissingSkills(done, userLower))
      decreases |remaining|
    {
      var r :| r in remaining;
      var found := IsHeld(userLower, r);
      ClassifyListsStep(existing, missing, done, required, r, userLower);
      if found {
        existing := existing + [TitleCase(r)];
      } else {
        missing := missing + [TitleCase(r)];
      }
      PartitionStep(done, remaining, required, r);
      done := done + {r};
      remaining := remaining - {r};
    }
  }

  /** Moving one element from the remaining part to the done part keeps a partition. */
  lemma PartitionStep<T>(done: set<T>, remaining: set<T>, whole: set<T>, r: T)
    requires done + remaining == whole && done !! remaining && r in remaining
    ensures (done + {r}) + (remaining - {r}) == whole && (done + {r}) !! (remaining - {r})
  {
  }

  /** `skill_counts.get(skill.lower(), 0)` */
  function CountIn(counts: map<string, nat>, skill: string): nat {
    if Lower(skill) in counts then counts[Lower(skill)] else 0
  }

  /** Missing skills ranked by their count, most required first. */
  function ByRoleCount(counts: map<string, nat>): (string, string) -> bool {
    (a: string, b: string) => CountIn(counts, a) >= CountIn(counts, b)
  }

  lemma ByRoleCountTotalPreorder(counts: map<string, nat>)
    ensures TotalPreorder(ByRoleCount(counts))
  {
  }

  /** `sorted(missing_skills_with_counts, key=count, reverse=True)`, names kept. */
  function RankByCount(missing: seq<string>, counts: map<string, nat>): seq<string> {
    ByRoleCountTotalPreorder(counts);
    StableSort(missing, ByRoleCount(counts))
  }

  /** The count looked up in the counting dict is the skill's number of occurrences. */
  lemma CountInIsGapCount(counts: map<string, nat>, tokens: seq<string>)
    requires forall t :: t in counts <==> t in tokens
    requires forall t :: t in counts ==> counts[t] == Occurrences(tokens, t)
    ensures forall s :: CountIn(counts, s) == GapCount(tokens, s)
  {
  }

  /** Ranking the missing skills keeps each exactly once and puts the most required first. */
  lemma RankByCountFacts(missing: seq<string>, counts: map<string, nat>, tokens: seq<string>)
    requires forall s :: CountIn(counts, s) == GapCount(tokens, s)
    requires NoDuplicates(missing)
    ensures forall x :: x in RankByCount(missing, counts) <==> x in missing
    ensures |RankByCount(missing, counts)| == |missing| && NoDuplicates(RankByCount(missing, counts))
    ensures forall i, j :: 0 <= i < j < |RankByCount(missing, counts)| ==>
      GapCount(tokens, RankByCount(missing, counts)[i]) >= GapCount(tokens, RankByCount(missing, counts)[j])
  {
    var sorted := RankByCount(missing, counts);
    PermutationSameMembers(sorted, missing);
    PermutationNoDuplicates(sorted, missing);
  }

  /** The trending list: the twenty most frequent skills, each marked "up". */
  function Trending(tokens: seq<string>): seq<Trend> {
    var top := Prefix(Ranked(tokens), 20);
    seq(|top|, i requires 0 <= i < |top| => Trend(top[i].0, top[i].1, "up"))
  }

  /**
   * Twenty trends, or one per distinct skill when there are fewer, each a distinct skill with its true count and marked
   * "up", by non-increasing count; no skill left out is more frequent than one kept.
   */
  lemma TrendingFacts(tokens: seq<string>)
    ensures |Trending(tokens)| <= 20
    ensures |Trending(tokens)| == if 20 <= |Distinct(tokens)| then 20 else |Distinct(tokens)|
    ensures forall i :: 0 <= i < |Trending(tokens)| ==>
      Trending(tokens)[i].trend == "up" &&
      Trending(tokens)[i].skill in tokens &&
      Trending(tokens)[i].count == Occurrences(tokens, Trending(tokens)[i].skill)
    ensures forall i, j :: 0 <= i < j < |Trending(tokens)| ==>
      Trending(tokens)[i].count >= Trending(tokens)[j].count && Trending(tokens)[i].skill != Trending(tokens)[j].skill
    ensures forall t :: t in tokens && (forall i :: 0 <= i < |Trending(tokens)| ==> Trending(tokens)[i].skill != t) ==>
      forall i :: 0 <= i < |Trending(tokens)| ==> Trending(tokens)[i].count >= Occurrences(tokens, t)
  {
    TrendingEntries(tokens);
    TopFacts(tokens, 20);
    TrendingLeftOut(tokens);
  }

  /** Each trend is a distinct token with its true count, by non-increasing count. */
  lemma TrendingEntries(tokens: seq<string>)
    ensures |Trending(tokens)| <= 20
    ensures forall i :: 0 <= i < |Trending(tokens)| ==>
      Trending(tokens)[i].trend == "up" &&
      Trending(tokens)[i].skill in tokens &&
      Trending(tokens)[i].count == Occurrences(tokens, Trending(tokens)[i].skill)
    ensures forall i, j :: 0 <= i < j < |Trending(tokens)| ==>
      Trending(tokens)[i].count >= Trending(tokens)[j].count && Trending(tokens)[i].skill != Trending(tokens)[j].skill
  {
    var top := Prefix(Ranked(tokens), 20);
    var trends := Trending(tokens);
    TopFacts(tokens, 20);
    forall i, j | 0 <= i < j < |trends|
      ensures trends[i].count >= trends[j].count && trends[i].skill != trends[j].skill
    {
      assert Names(top)[i] == trends[i].skill && Names(top)[j] == trends[j].skill;
    }
  }

  /** A token left out of the trends occurs no more often than any trend. */
  lemma TrendingLeftOut(tokens: seq<string>)
    ensures forall t :: t in tokens && (forall i :: 0 <= i < |Trending(tokens)| ==> Trending(tokens)[i].skill != t) ==>
      forall i :: 0 <= i < |Trending(tokens)| ==> Trending(tokens)[i].count >= Occurrences(tokens, t)
  {
    var top := Prefix(Ranked(tokens), 20);
    var trends := Trending(tokens);
    TopFacts(tokens, 20);
    forall t | t in tokens && (forall i :: 0 <= i < |trends| ==> trends[i].skill != t)
      ensures forall i :: 0 <= i < |trends| ==> trends[i].count >= Occurrences(tokens, t)
    {
      assert forall i :: 0 <= i < |top| ==> Names(top)[i] == trends[i].skill;
      assert t !in Names(top);
    }
  }

  /** A trending skill. */
  datatype Trend = Trend(skill: string, count: nat, trend: string)

  /** A recommended row with its match explanation. */
  datatype Recommendation = Recommendation(row: ScoredJob, explanation: string)

  /** The loop of `get_recommendations` that attaches an explanation to each kept job, in order. */
  method ExplainMatches(top: seq<ScoredJob>, userSkills: seq<string>) returns (recs: seq<Recommendation>)
    ensures |recs| == |top|
    ensures forall i :: 0 <= i < |recs| ==> Explains(recs[i], top[i], userSkills)
  {
    recs := [];
    for i := 0 to |top|
      invariant |recs| == i
      invariant forall k :: 0 <= k < i ==> Explains(recs[k], top[k], userSkills)
    {
      var explanation := GenerateMatchExplanation(top[i].job, userSkills);
      ExplainedStep(recs, top, userSkills, Recommendation(top[i], explanation));
      recs := recs + [Recommendation(top[i], explanation)];
    }
  }

  /** The row of `rec` is `row` and its explanation is the one for `row`'s job. */
  predicate Explains(rec: Recommendation, row: ScoredJob, userSkills: seq<string>) {
    rec.row == row && rec.explanation == MatchExplanation(row.job, userSkills)
  }

  /** One more explained row keeps the explained prefix explained. */
  lemma ExplainedStep(recs: seq<Recommendation>, top: seq<ScoredJob>, userSkills: seq<string>, rec: Recommendation)
    requires |recs| < |top|
    requires forall k :: 0 <= k < |recs| ==> Explains(recs[k], top[k], userSkills)
    requires Explains(rec, top[|recs|], userSkills)
    ensures forall k :: 0 <= k < |recs| + 1 ==> Explains((recs + [rec])[k], top[k], userSkills)
  {
    forall k | 0 <= k < |recs| + 1
      ensures Explains((recs + [rec])[k], top[k], userSkills)
    {
      if k < |recs| {
        assert (recs + [rec])[k] == recs[k];
      }
    }
  }

  /** The engine over a fixed jobs table. */
  class RecommendationEngine {
    /** The processed jobs table. */
    const jobs: seq<Job>
    /** The `combined_text` column the vectoriser is fitted on. */
    const combinedText: seq<string>

    /** `__init__` and `_prepare_data`: the combined text of every job, row by row. */
    constructor(jobs: seq<Job>)
      ensures this.jobs == jobs
      ensures |combinedText| == |jobs|
      ensures forall i :: 0 <= i < |jobs| ==> combinedText[i] == Join(Features(jobs[i]), " ")
    {
      var texts: seq<string> := [];
      for i := 0 to |jobs|
        invariant |texts| == i
        invariant forall k :: 0 <= k < i ==> texts[k] == Join(Features(jobs[k]), " ")
      {
        var text := CombineJobFeatures(jobs[i]);
        texts := texts + [text];
      }
      this.jobs := jobs;
      combinedText := texts;
    }

    /**
     * `get_recommendations`: scores every job (one score per job, given), applies
     * the filters, keeps the `topN` best by score and explains each match.
     */
    method GetRecommendations(userSkills: seq<string>, f: Filters, topN: int, scores: seq<real>)
      returns (recs: seq<Recommendation>)
      requires |scores| == |jobs|
      ensures |recs| == |TopMatches(Scored(jobs, scores), f, topN)|
      ensures forall i :: 0 <= i < |recs| ==>
        recs[i].row == TopMatches(Scored(jobs, scores), f, topN)[i] &&
        recs[i].explanation == MatchExplanation(recs[i].row.job, userSkills)
    {
      var rows := Scored(jobs, scores);
      var filtered := ApplyFilters(rows, f);
      ByScoreTotalPreorder();
      var top := Prefix(StableSort(filtered, ByScore), topN);
      assert top == TopMatches(rows, f, topN);
      recs := ExplainMatches(top, userSkills);
    }
  
    /** The role filter, then the fallback loop over the role's words with its `break`. */
    method FindRoleJobs(role: string) returns (roleJobs: seq<Job>)
      ensures roleJobs == RoleJobs(jobs, role)
    {
      roleJobs := JobsMentioning(jobs, role);
      if roleJobs == [] {
        var keywords := Words(Lower(role));
        var k := 0;
        while k < |keywords|
          invariant 0 <= k <= |keywords|
          invariant roleJobs == [] && KeywordJobs(jobs, keywords) == KeywordJobs(jobs, keywords[k..])
        {
          roleJobs := JobsMentioning(jobs, keywords[k]);
          if roleJobs != [] {
            break;
          }
          assert keywords[k..][1..] == keywords[k + 1..];
          k := k + 1;
        }
      }
    }

    /** The loop that gathers `required_skills`, cell by cell. */
    method RequiredSkills(cells: seq<Option<string>>) returns (required: set<string>)
      ensures required == set t | t in ColumnTokens(cells, true)
      ensures forall t :: t in required ==> t != "" && IsLowerCase(t)
    {
      required := {};
      assert ColumnTokens(cells[..0], true) == [] by {
        assert TokenRows(cells[..0], true) == [];
      }
      for i := 0 to |cells|
        invariant required == set t | t in ColumnTokens(cells[..i], true)
      {
        ColumnTokensStep(cells, i, true);
        required := required + set t | t in CellTokens(cells[i], true);
      }
      assert cells[..|cells|] == cells;
      ColumnTokensAreTokens(cells, true);
    }

    /**
     * `analyze_skill_gaps`: the role's jobs, the skills they require, which of those
     * the user holds and which are missing (most required first), and the share held.
     */
    method AnalyzeSkillGaps(userSkills: seq<string>, targetRole: string) returns (report: GapReport)
      ensures report.targetRole == targetRole
      ensures report.totalRoleJobs == |RoleJobs(jobs, targetRole)|
      ensures report.existing == Titles(HeldSkills(Required(RoleJobs(jobs, targetRole)), LowerAll(userSkills)))
      ensures forall x :: x in report.missing <==>
        x in Titles(MissingSkills(Required(RoleJobs(jobs, targetRole)), LowerAll(userSkills)))
      ensures NoDuplicates(report.missing)
      ensures |report.missing| == |MissingSkills(Required(RoleJobs(jobs, targetRole)), LowerAll(userSkills))|
      ensures forall i, j :: 0 <= i < j < |report.missing| ==>
        GapCount(RoleTokens(RoleJobs(jobs, targetRole)), report.missing[i]) >=
        GapCount(RoleTokens(RoleJobs(jobs, targetRole)), report.missing[j])
      ensures report.matchPercentage == MatchPercentage(
        |HeldSkills(Required(RoleJobs(jobs, targetRole)), LowerAll(userSkills))|,
        |Required(RoleJobs(jobs, targetRole))|)
    {
      var roleJobs := FindRoleJobs(targetRole);
      report := ReportGaps(roleJobs, userSkills, targetRole);
    }

    /** The gap report over the jobs already found for the role. */
    method ReportGaps(roleJobs: seq<Job>, userSkills: seq<string>, targetRole: string) returns (report: GapReport)
      ensures report.targetRole == targetRole
      ensures report.totalRoleJobs == |roleJobs|
      ensures report.existing == Titles(HeldSkills(Required(roleJobs), LowerAll(userSkills)))
      ensures forall x :: x in report.missing <==> x in Titles(MissingSkills(Required(roleJobs), LowerAll(userSkills)))
      ensures NoDuplicates(report.missing)
      ensures |report.missing| == |MissingSkills(Required(roleJobs), LowerAll(userSkills))|
      ensures forall i, j :: 0 <= i < j < |report.missing| ==>
        GapCount(RoleTokens(roleJobs), report.missing[i]) >= GapCount(RoleTokens(roleJobs), report.missing[j])
      ensures report.matchPercentage == MatchPercentage(
        |HeldSkills(Required(roleJobs), LowerAll(userSkills))|, |Required(roleJobs)|)
    {
      var cells := SkillsCells(roleJobs);
      var required := RequiredSkills(cells);
      assert required == Required(roleJobs);
      var userLower := LowerAll(userSkills);
      var existing, missing := ClassifySkills(required, userLower);
      var keys, counts := CountTokens(cells, true);
      CountInIsGapCount(counts, RoleTokens(roleJobs));
      RankByCountFacts(missing, counts, RoleTokens(roleJobs));
      var sorted := RankByCount(missing, counts);
      var existingSet := set x | x in existing;
      SetOfListed(existing, Titles(HeldSkills(required, userLower)));
      var percentage := MatchPercentage(|existing|, |required|);
      report := GapReport(targetRole, |roleJobs|, existingSet, sorted, percentage);
    }

    /**
     * `get_trending_skills`: every skill counted over the skills column (case kept),
     * the twenty most frequent, each marked "up".
     */
    method GetTrendingSkills(days: int) returns (trends: seq<Trend>)
      ensures trends == Trending(ColumnTokens(SkillsCells(jobs), false))
    {
      var ranked := RankTokens(SkillsCells(jobs));
      var top := Prefix(ranked, 20);
      trends := seq(|top|, i requires 0 <= i < |top| => Trend(top[i].0, top[i].1, "up"));
    }
  }
}
