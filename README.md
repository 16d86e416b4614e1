# CareerSightAI job-matching core, modelled in Dafny

This project models the deterministic core of CareerSightAI's job-matching pipeline. That core is three Python modules under `utils/`.

- **The corpus normaliser** (`data_processor.py`, module `DataProcessor`) does the following:
  - cleans job titles;
  - pulls salary and experience ranges out of free text with digit-token extraction;
  - bands experience into four levels;
  - cleans skill lists;
  - maps location aliases to canonical city names;
  - lists the unique skills and the most frequent ones.
- **The recommendation engine** (`recommendation_engine.py`, module `Recommendations`, class `RecommendationEngine`) does the following:
  - builds the combined text of every job;
  - applies the user's location, experience and salary filters;
  - ranks the filtered jobs by a similarity score;
  - explains each match;
  - analyses the skill gaps for a target role;
  - lists the trending skills.
- **The market insights** (`market_insights.py`, module `Insights`, class `MarketInsights`) count the most in-demand skills and build skill advice for a user.

Shared pieces get modules of their own:

- `Text`:
  - Python's `str.lower` and `str.title` on ASCII letters, and `str.strip` with Python's whitespace;
  - whitespace collapsing;
  - `in` on strings;
  - `split` and `join`;
  - the comma tokeniser that every skills column goes through. It splits on `,`, strips each piece and drops empty pieces.
- `Numbers`: the digit runs `\d+` and the decimal tokens `\d+(?:\.\d+)?` that `re.findall` returns.
- `Ranking`:
  - a stable sort by a total preorder;
  - Python's `[:n]` slice;
  - order-preserving filters;
  - duplicate-freedom.
- `SkillCounts`:
  - the tokens of a skills column;
  - occurrence counts;
  - the counting loop;
  - the frequency ranking shared by `_get_top_skills`, `get_trending_skills` and `Counter.most_common`.

Data representation:

- A table row is a datatype.
- A missing (NaN) cell is `None`.
- Text is `seq<char>`.
- Salaries are exact reals.

The similarity scores of the TF-IDF model arrive as one opaque number per job.

The model follows the code where it differs from the project's own description of it:

- A salary or experience range is returned in text order, so its minimum may exceed its maximum (`SalaryRangeUnordered`, `ExperienceRangeUnordered`).
- The combined text repeats the title with no separator.
- The title fragment of a match explanation is looked for even when skills already matched. Its keyword is quoted lower-cased.

## Model

| member | source | states |
|---|---|---|
| DataProcessor.CleanJobTitle | CareerSightAI-1/CareerSightAI-1/utils/data_processor.py:37-48 | a missing title becomes "Not Specified"; any other title comes out with no leading or trailing whitespace, no run of whitespace, and title-cased |
| DataProcessor.CleanJobTitleFixes | CareerSightAI-1/CareerSightAI-1/utils/data_processor.py:43-46 | a title that is already stripped, single-spaced and title-cased is returned unchanged |
| DataProcessor.CleanJobTitleIdempotent | CareerSightAI-1/CareerSightAI-1/utils/data_processor.py:37-48 | cleaning a cleaned title changes nothing |
| DataProcessor.NotSpecifiedShape | CareerSightAI-1/CareerSightAI-1/utils/data_processor.py:40 | the default title already has the shape of a cleaned title |
| DataProcessor.SalaryRange | CareerSightAI-1/CareerSightAI-1/utils/data_processor.py:52-68 | a missing salary gives a missing pair; both bounds are never negative; with exactly one number the maximum is 1.2 times the minimum |
| DataProcessor.SalaryRangeOfTwo | CareerSightAI-1/CareerSightAI-1/utils/data_processor.py:60-63 | after any digit-free lead ("Rs "), two decimal literals (whole or with a fraction) apart by any digit-free text other than a lone "." give exactly those two values as (min, max), in text order, whatever text (more numbers included) follows |
| Numbers.DecimalTokensOfLiteral | CareerSightAI-1/CareerSightAI-1/utils/data_processor.py:60 | a decimal literal at the front not continued by a digit or a point-and-digit is the first token `re.findall` returns, and scanning resumes after it |
| DataProcessor.SalaryRangeOfDash | CareerSightAI-1/CareerSightAI-1/utils/data_processor.py:60-63 | whole numbers written "m-n" read back as exactly (m, n) |
| DataProcessor.SalaryRangeOfOne | CareerSightAI-1/CareerSightAI-1/utils/data_processor.py:64-66 | a single decimal literal v (whole or with a fraction), after any digit-free lead and with no digit after it, gives the range (v, 1.2·v) |
| DataProcessor.SalaryRangeOfNone | CareerSightAI-1/CareerSightAI-1/utils/data_processor.py:67-68 | text without digits gives a missing pair |
| DataProcessor.SalaryRangeUnordered | CareerSightAI-1/CareerSightAI-1/utils/data_processor.py:62-63 | "20-10" yields a minimum above the maximum: the range is not ordered |
| DataProcessor.ExperienceRange | CareerSightAI-1/CareerSightAI-1/utils/data_processor.py:84-97 | the pair is missing exactly when the input is missing; both bounds are never negative |
| DataProcessor.ExperienceRangeOfTwo | CareerSightAI-1/CareerSightAI-1/utils/data_processor.py:89-92 | after any digit-free lead ("Min "), two runs of digits apart by any digit-free text give exactly their two integer values as (min, max), in text order, whatever text (more numbers included) follows |
| DataProcessor.ExperienceRangeOfOne | CareerSightAI-1/CareerSightAI-1/utils/data_processor.py:93-95 | a single digit run v, after any digit-free lead and with no digit after it, gives (v, v+2) |
| DataProcessor.ExperienceRangeOfNone | CareerSightAI-1/CareerSightAI-1/utils/data_processor.py:96-97 | text without digits gives the default (0, 2) |
| DataProcessor.ExperienceRangeUnordered | CareerSightAI-1/CareerSightAI-1/utils/data_processor.py:91-92 | "10-5" yields a minimum above the maximum |
| DataProcessor.LevelOf | CareerSightAI-1/CareerSightAI-1/utils/data_processor.py:111-118 | every average falls in one of the four bands |
| DataProcessor.ExperienceLevel | CareerSightAI-1/CareerSightAI-1/utils/data_processor.py:109-118 | the result is one of the four bands, and a missing bound gives the entry band |
| DataProcessor.LevelRank | CareerSightAI-1/CareerSightAI-1/utils/data_processor.py:111-118 | a band's position in the order Entry, Mid, Senior, Expert |
| DataProcessor.LevelOfMonotone | CareerSightAI-1/CareerSightAI-1/utils/data_processor.py:111-118 | a larger average never gives a lower band |
| DataProcessor.ExperienceLevelMonotone | CareerSightAI-1/CareerSightAI-1/utils/data_processor.py:109-118 | raising either bound of a range never gives a lower band |
| DataProcessor.SkillListClean | CareerSightAI-1/CareerSightAI-1/utils/data_processor.py:135-141 | every kept skill is stripped, title-cased, longer than one character and free of `,`, `;` and `\|` |
| DataProcessor.CleanPiecesClean | CareerSightAI-1/CareerSightAI-1/utils/data_processor.py:138-141 | cleaning pieces that hold no delimiter keeps only clean skills |
| DataProcessor.CleanSkills | CareerSightAI-1/CareerSightAI-1/utils/data_processor.py:127-143 | a missing cell gives ""; otherwise the loop yields the clean skills in input order, joined by ", " |
| DataProcessor.SkillListOfJoined | CareerSightAI-1/CareerSightAI-1/utils/data_processor.py:135-143 | splitting and cleaning a ", "-joined list of clean skills gives back that list |
| DataProcessor.CleanSkillsIdempotent | CareerSightAI-1/CareerSightAI-1/utils/data_processor.py:127-143 | cleaning a cleaned skills cell yields the same skills |
| DataProcessor.FirstAlias | CareerSightAI-1/CareerSightAI-1/utils/data_processor.py:153-168 | the alias found is the first in table order whose key occurs in the text; none is found exactly when no key occurs |
| DataProcessor.FindAlias | CareerSightAI-1/CareerSightAI-1/utils/data_processor.py:165-168 | the loop with its early return stops at that first alias |
| DataProcessor.CleanLocation | CareerSightAI-1/CareerSightAI-1/utils/data_processor.py:145-170 | the result is the canonical location: "Not Specified" when missing, else the city of the first alias key in the lower-cased stripped text, else the stripped text title-cased (stripped and title-cased) |
| DataProcessor.CleanLocationIdempotentPlain | CareerSightAI-1/CareerSightAI-1/utils/data_processor.py:170 | a location without alias key is unchanged by a second cleaning |
| DataProcessor.CanonicalNamesFixed | CareerSightAI-1/CareerSightAI-1/utils/data_processor.py:153-163 | "Not Specified" and every canonical city name clean to themselves |
| DataProcessor.CleanLocationIdempotent | CareerSightAI-1/CareerSightAI-1/utils/data_processor.py:145-170 | cleaning a cleaned location changes nothing |
| DataProcessor.InsertSorted | CareerSightAI-1/CareerSightAI-1/utils/data_processor.py:180 | inserting a new string keeps the list strictly sorted and adds exactly that string |
| DataProcessor.StrictlySortedUnique | CareerSightAI-1/CareerSightAI-1/utils/data_processor.py:180 | two strictly sorted lists with the same members are equal, so the result of `sorted` on a set is determined |
| DataProcessor.UniqueSkills | CareerSightAI-1/CareerSightAI-1/utils/data_processor.py:172-180 | strictly sorted (so without duplicates), and its members are exactly the comma tokens of the present cells |
| DataProcessor.TopSkillNames | CareerSightAI-1/CareerSightAI-1/utils/data_processor.py:196-207 | the names of the first `top_n` entries of the frequency ranking (Python's `[:top_n]`), so for `top_n >= 0` exactly min(`top_n`, number of distinct tokens) of them; distinct tokens of the column by non-increasing count; no token left out occurs more often than one kept |
| Text.TitleCaseIdempotent | CareerSightAI-1/CareerSightAI-1/utils/data_processor.py:46 | `str.title()` yields a title-cased string, so applying it twice changes nothing |
| Text.LowerOfTitleCase | CareerSightAI-1/CareerSightAI-1/utils/recommendation_engine.py:234 | lower-casing a title-cased skill recovers the lower-cased skill, so the count lookup sees the original key |
| Text.TitleCaseOfLowerInjective | CareerSightAI-1/CareerSightAI-1/utils/recommendation_engine.py:218-223 | distinct lower-cased skills stay distinct after `title()` |
| Text.StripIdempotent | CareerSightAI-1/CareerSightAI-1/utils/data_processor.py:150 | stripping twice is stripping once |
| Text.StripEmptyIff | CareerSightAI-1/CareerSightAI-1/utils/data_processor.py:177 | a piece strips to "" exactly when it is all whitespace, which is when the tokeniser drops it |
| Text.CollapseSingleSpaced | CareerSightAI-1/CareerSightAI-1/utils/data_processor.py:43 | `re.sub(r'\s+', ' ', …)` leaves no run of whitespace |
| Text.JoinSplit | CareerSightAI-1/CareerSightAI-1/utils/data_processor.py:135 | joining the pieces of a one-delimiter split with that delimiter gives back the text |
| Numbers.DigitRunsLower | CareerSightAI-1/CareerSightAI-1/utils/data_processor.py:88-89 | lower-casing does not change the digit runs found |
| Numbers.DecimalTokensLower | CareerSightAI-1/CareerSightAI-1/utils/data_processor.py:57-60 | lower-casing does not change the decimal tokens found |
| SkillCounts.ColumnTokensAreTokens | CareerSightAI-1/CareerSightAI-1/utils/recommendation_engine.py:202-204 | every token is non-empty, and lower-case when the column is case-folded |
| SkillCounts.RankedFacts | CareerSightAI-1/CareerSightAI-1/utils/recommendation_engine.py:288-292 | the ranked counts list every token once with its true count, by non-increasing count |
| SkillCounts.TopFacts | CareerSightAI-1/CareerSightAI-1/utils/recommendation_engine.py:291-292 | the first n of the ranking: for n >= 0 exactly min(n, number of distinct tokens) distinct tokens with true counts, non-increasing; nothing left out outranks what is kept |
| SkillCounts.Distinct | CareerSightAI-1/CareerSightAI-1/utils/recommendation_engine.py:281-286 | a dictionary's keys: every token once, no duplicates |
| SkillCounts.CountTokens | CareerSightAI-1/CareerSightAI-1/utils/recommendation_engine.py:281-286 | the counting loop ends with a key for exactly the tokens seen, in first-seen order, each mapped to its number of occurrences |
| SkillCounts.RankTokens | CareerSightAI-1/CareerSightAI-1/utils/data_processor.py:198-206 | counting then sorting by count, ties in first-seen order, gives the ranking of the column's tokens |
| Recommendations.CombineJobFeatures | CareerSightAI-1/CareerSightAI-1/utils/recommendation_engine.py:35-55 | the present title (written twice), skills, company and description cells, in that order, joined by blanks |
| Recommendations.CombinedTextFacts | CareerSightAI-1/CareerSightAI-1/utils/recommendation_engine.py:35-55 | the text starts with the doubled title and contains every present cell; a row with none of them gives "" |
| Recommendations.RecommendationEngine.constructor | CareerSightAI-1/CareerSightAI-1/utils/recommendation_engine.py:11-20 | the engine keeps the table and the combined text of every row, row by row |
| Recommendations.ExperienceYears | CareerSightAI-1/CareerSightAI-1/utils/recommendation_engine.py:141-151 | nothing exactly when the label contains none of "Entry", "Mid", "Senior", "Expert"; otherwise one of 1, 4, 8, 12 |
| Recommendations.ExperienceYearsOfLevels | CareerSightAI-1/CareerSightAI-1/utils/recommendation_engine.py:141-151 | each of the four band labels maps to years that band back into the same label |
| Recommendations.EntryYears | CareerSightAI-1/CareerSightAI-1/utils/recommendation_engine.py:143-144 | the entry label gives 1 year, which bands as entry |
| Recommendations.MidYears | CareerSightAI-1/CareerSightAI-1/utils/recommendation_engine.py:145-146 | the mid label gives 4 years, which bands as mid |
| Recommendations.SeniorYears | CareerSightAI-1/CareerSightAI-1/utils/recommendation_engine.py:147-148 | the senior label gives 8 years, which bands as senior |
| Recommendations.ExpertYears | CareerSightAI-1/CareerSightAI-1/utils/recommendation_engine.py:149-150 | the expert label gives 12 years, which bands as expert |
| Recommendations.ExpertOnly | CareerSightAI-1/CareerSightAI-1/utils/recommendation_engine.py:143-150 | a label containing "Expert" and none of the earlier words gives 12 |
| Recommendations.ApplyFiltersKeepsPassing | CareerSightAI-1/CareerSightAI-1/utils/recommendation_engine.py:100-139 | the three masks in turn keep exactly the rows passing all three, as a subsequence in the original order |
| Recommendations.NoFiltersKeepAll | CareerSightAI-1/CareerSightAI-1/utils/recommendation_engine.py:111 | with no location (or "" or "Any") and no other filter, every row is kept |
| Recommendations.RemoteKeepsOnlyRemote | CareerSightAI-1/CareerSightAI-1/utils/recommendation_engine.py:112-115 | with "Remote", a row is kept exactly when its location contains "remote", case-insensitively, and it passes the experience and salary masks |
| Recommendations.SkillsSimilarSymmetric | CareerSightAI-1/CareerSightAI-1/utils/recommendation_engine.py:250-258 | similarity does not depend on argument order |
| Recommendations.SkillsSimilarCloseLengths | CareerSightAI-1/CareerSightAI-1/utils/recommendation_engine.py:257-258 | two skills of length at least 3 whose lengths differ by at most 2 are similar |
| Recommendations.SkillsSimilarReflexive | CareerSightAI-1/CareerSightAI-1/utils/recommendation_engine.py:250-258 | every skill is similar to itself |
| Recommendations.MatchingSkills | CareerSightAI-1/CareerSightAI-1/utils/recommendation_engine.py:158-163 | exactly the user skills whose lower-cased form occurs in the lower-cased skills text, no more of them than the user has |
| Recommendations.MatchingSkillsInOrder | CareerSightAI-1/CareerSightAI-1/utils/recommendation_engine.py:161-163 | the matching skills are the user skills a mask "occurs in the skills text" keeps, so they are a subsequence of the user's skills in the user's order |
| Recommendations.FirstKeyword | CareerSightAI-1/CareerSightAI-1/utils/recommendation_engine.py:170-175 | the keyword found occurs in the title; none is found exactly when no keyword occurs |
| Recommendations.FirstKeywordIsFirst | CareerSightAI-1/CareerSightAI-1/utils/recommendation_engine.py:172-175 | the keyword found sits at some position of the keyword list such that no keyword before it occurs in the title: the first one that does |
| Recommendations.FindTitleKeyword | CareerSightAI-1/CareerSightAI-1/utils/recommendation_engine.py:172-175 | the loop with its `break` returns `FirstKeyword`, the first keyword the title contains (by `FirstKeywordIsFirst`) |
| Recommendations.FragmentsOf | CareerSightAI-1/CareerSightAI-1/utils/recommendation_engine.py:155-178 | an explanation has one or two fragments |
| Recommendations.GenerateMatchExplanation | CareerSightAI-1/CareerSightAI-1/utils/recommendation_engine.py:153-180 | the skill loop, keyword loop and fallback build the job's explanation |
| Recommendations.ExplanationNonEmpty | CareerSightAI-1/CareerSightAI-1/utils/recommendation_engine.py:177-180 | an explanation is never empty |
| Recommendations.ExplanationGeneralIff | CareerSightAI-1/CareerSightAI-1/utils/recommendation_engine.py:165-178 | the explanation is "General profile match" exactly when no skill matched and no keyword was found |
| Recommendations.GeneralMatchIff | CareerSightAI-1/CareerSightAI-1/utils/recommendation_engine.py:153-180 | a job is explained as a general match exactly when no user skill occurs in its skills and no keyword in its title |
| Recommendations.SkillsFragmentBound | CareerSightAI-1/CareerSightAI-1/utils/recommendation_engine.py:166 | the skills fragment names at most three skills, each a matching user skill |
| Recommendations.SkillsFragmentFirstThree | CareerSightAI-1/CareerSightAI-1/utils/recommendation_engine.py:158-166 | the skills fragment lists the first three (in the user's order) of the user skills that occur in the lower-cased skills text, joined by ", "; when any matched, the explanation starts with it |
| Recommendations.ExplanationWithKeyword | CareerSightAI-1/CareerSightAI-1/utils/recommendation_engine.py:172-180 | with a keyword found, the explanation is the title fragment alone, or the skills fragment, " \| " and the title fragment |
| Recommendations.TitleFragmentFirstKeyword | CareerSightAI-1/CareerSightAI-1/utils/recommendation_engine.py:168-180 | the quoted keyword is the first lower-cased user skill over three characters that the lower-cased title contains; the explanation is that fragment alone, or it follows the skills fragment when skills matched too |
| Recommendations.TopMatchesFacts | CareerSightAI-1/CareerSightAI-1/utils/recommendation_engine.py:78-90 | exactly min(`top_n`, number of passing rows) rows for `top_n >= 0` (`head(top_n)`), all passing the filters, by non-increasing score; no passing row left out scores above one kept; a `top_n` covering the table keeps every passing row |
| Recommendations.TopMatchesKept | CareerSightAI-1/CareerSightAI-1/utils/recommendation_engine.py:87-90 | what is kept is at most `top_n` passing rows by non-increasing score |
| Recommendations.TopMatchesBest | CareerSightAI-1/CareerSightAI-1/utils/recommendation_engine.py:87-90 | no passing row left out scores above a kept one |
| Recommendations.ExplainMatches | CareerSightAI-1/CareerSightAI-1/utils/recommendation_engine.py:93-96 | every kept row, in order, gets its own explanation |
| Recommendations.RecommendationEngine.GetRecommendations | CareerSightAI-1/CareerSightAI-1/utils/recommendation_engine.py:57-98 | the recommendations are the top matches of the scored table, in order, each with its explanation |
| Recommendations.JobsMentioning | CareerSightAI-1/CareerSightAI-1/utils/recommendation_engine.py:186-188 | exactly the jobs whose title mentions the needle, case-insensitively |
| Recommendations.KeywordJobsFacts | CareerSightAI-1/CareerSightAI-1/utils/recommendation_engine.py:190-198 | the fallback's jobs are those of the first keyword, in order, that finds any: every keyword before it finds none; they are empty exactly when no title mentions any keyword |
| Recommendations.RoleJobsFacts | CareerSightAI-1/CareerSightAI-1/utils/recommendation_engine.py:186-198 | the role's jobs come from the table; the role wins when any title mentions it; otherwise they are the jobs of the first of its words, in order, that finds any, every word before it finding none; empty exactly when no title mentions the role or any of its words |
| Recommendations.RecommendationEngine.FindRoleJobs | CareerSightAI-1/CareerSightAI-1/utils/recommendation_engine.py:186-198 | the role filter and the keyword loop with its `break` give the role's jobs |
| Recommendations.RecommendationEngine.RequiredSkills | CareerSightAI-1/CareerSightAI-1/utils/recommendation_engine.py:200-204 | the set gathered is exactly the lower-cased tokens of the role's skills cells, each non-empty and lower-case |
| Recommendations.IsHeld | CareerSightAI-1/CareerSightAI-1/utils/recommendation_engine.py:214-220 | the inner loop finds a user skill exactly when one contains, is contained in, or is similar to the required skill |
| Recommendations.ClassifySkills | CareerSightAI-1/CareerSightAI-1/utils/recommendation_engine.py:210-223 | the existing and missing lists hold, without duplicates, exactly the title-cased held and missing required skills |
| Recommendations.GapPartition | CareerSightAI-1/CareerSightAI-1/utils/recommendation_engine.py:213-223 | every required skill is held or missing, never both, so the two counts add up to the required count |
| Recommendations.PercentageBounds | CareerSightAI-1/CareerSightAI-1/utils/recommendation_engine.py:247 | the match percentage lies in [0, 100] and is 100 exactly when something is required and all of it is held |
| Recommendations.NoRoleJobsNoGaps | CareerSightAI-1/CareerSightAI-1/utils/recommendation_engine.py:200-247 | with no role jobs nothing is required, held or missing, and the percentage is 0 |
| Recommendations.CountInIsGapCount | CareerSightAI-1/CareerSightAI-1/utils/recommendation_engine.py:226-234 | looking a skill up in the counting loop's dictionary, 0 when absent, gives its occurrences among the role's tokens |
| Recommendations.RankByCountFacts | CareerSightAI-1/CareerSightAI-1/utils/recommendation_engine.py:233-240 | sorting the missing skills by count keeps exactly them, without duplicates, by non-increasing count |
| Recommendations.RecommendationEngine.ReportGaps | CareerSightAI-1/CareerSightAI-1/utils/recommendation_engine.py:200-248 | given the role's jobs: the existing set, the missing list (held/missing partition, most required first) and the percentage held |
| Recommendations.RecommendationEngine.AnalyzeSkillGaps | CareerSightAI-1/CareerSightAI-1/utils/recommendation_engine.py:182-248 | the report names the role and the number of its jobs; it gives the title-cased held skills as a set and the missing ones without duplicates, by non-increasing count; the percentage is held over required |
| Recommendations.TrendingFacts | CareerSightAI-1/CareerSightAI-1/utils/recommendation_engine.py:281-295 | exactly min(20, number of distinct skills) trends, each a distinct skill with its true count and marked "up", by non-increasing count; no skill left out is more frequent than one kept |
| Recommendations.TrendingEntries | CareerSightAI-1/CareerSightAI-1/utils/recommendation_engine.py:289-293 | each trend is a distinct skill of the column with its true count, by non-increasing count |
| Recommendations.TrendingLeftOut | CareerSightAI-1/CareerSightAI-1/utils/recommendation_engine.py:291-292 | a skill left out of the trends occurs no more often than any trend |
| Recommendations.RecommendationEngine.GetTrendingSkills | CareerSightAI-1/CareerSightAI-1/utils/recommendation_engine.py:277-295 | the trends are those of the table's skills column, case kept |
| Insights.MostCommonFacts | CareerSightAI-1/CareerSightAI-1/utils/market_insights.py:51-64 | exactly min(`limit`, number of distinct tokens) entries (none when the limit is not positive), distinct tokens with their true counts, non-increasing; no token left out is more frequent than one kept |
| Insights.MarketInsights.TopSkills | CareerSightAI-1/CareerSightAI-1/utils/market_insights.py:51-64 | the `Counter` loop and `most_common(limit)` over the skills column |
| Insights.Candidates | CareerSightAI-1/CareerSightAI-1/utils/market_insights.py:267-282 | one piece of advice per top skill the user lacks, with that skill's count and flags; no duplicates when the top skills have none |
| Insights.CandidatesStep | CareerSightAI-1/CareerSightAI-1/utils/market_insights.py:268-282 | each pass of the loop appends at most the advice for its own skill |
| Insights.TopFiftyFacts | CareerSightAI-1/CareerSightAI-1/utils/market_insights.py:262-263 | the fifty candidates are distinct skills with their true counts |
| Insights.UnknownDiffers | CareerSightAI-1/CareerSightAI-1/utils/market_insights.py:265-270 | a skill not in the lower-cased user list differs from every user skill case-insensitively |
| Insights.SkillAdviceEntries | CareerSightAI-1/CareerSightAI-1/utils/market_insights.py:260-287 | exactly min(10, number of candidates) entries (the top-fifty skills the user lacks), each from the top fifty with its true count, none equal to a user skill case-insensitively; related exactly when a user skill and it contain one another; "High" exactly when related with count above 10, else "Medium" |
| Insights.SkillAdviceOrder | CareerSightAI-1/CareerSightAI-1/utils/market_insights.py:285-287 | distinct skills, related ones first, then by non-increasing demand; no candidate left out ranks above one kept |
| Insights.MarketInsights.GetSkillRecommendations | CareerSightAI-1/CareerSightAI-1/utils/market_insights.py:260-287 | the loop, the sort and the cut to ten give the skill advice for the user |

## Left out

- The TF-IDF vectoriser, cosine similarity and `get_similar_jobs` (recommendation_engine.py:23-33, 67-71, 260-275) are floating-point numerics in scikit-learn and numpy. `GetRecommendations` takes one score per job as input, so it requires as many scores as jobs.
- `process_jobs` (data_processor.py:12-35) only assembles the table. So do the DataFrame column assignments around each per-cell rule. `posted_date` reads the clock. The operations are modelled per cell, and the assembly is not.
- The random fallbacks used when a salary or experience column is absent (data_processor.py:77-78, 105-106) are not modelled. The model assumes the column is present.
- Statistics, charts, companies, locations and roles in `market_insights.py` are float statistics and UI. So are the other `utils` modules (database, email, PDF, LLM client) and the demo-data generator.
- `DataProcessor`'s methods keep no state, so they are module-level functions and methods. `RecommendationEngine` and `MarketInsights` hold their table as constant fields, and the DataFrame copies and their aliasing are not modelled.
- Case mapping and title-casing cover ASCII letters only. The model has no Unicode case rules. Whitespace is Python's full `str.isspace` set, Unicode spaces included.
- Digits are the ASCII digits `0`-`9` only. Python's `\d` in `re.findall` and `int()`/`float()` also accept other Unicode decimal digits (such as Arabic-Indic digits). The model reads such characters as non-digits, so it finds no number in them.
- Salaries are exact reals, not floats. A one-number salary's upper bound is exactly 1.2·v.
- Recommendations.RecommendationEngine.GetRecommendations: pandas' `sort_values` (quicksort by default) is not a stable sort, so the order of rows with equal scores, and which of them survive `head(top_n)`, is not fixed by the source. The model's stable order, which `GetRecommendations` pins down, is one of the orders pandas may produce. `Recommendations.TopMatchesFacts` claims only non-increasing score, not the order of ties.
- Recommendations.RecommendationEngine.AnalyzeSkillGaps: Python iterates the `required_skills` set in an unspecified order. The missing list is therefore pinned down only as a duplicate-free list of the missing skills by non-increasing count, not in its tie order.
- `str.contains` in the role filter reads the role and its words as regular expressions. The model matches them literally.
- `get_trending_skills` ignores its `days` argument, and so does the model.
- Some loops are written as methods of their own (`FindAlias`, `FindTitleKeyword`, `ExplainMatches`, `ReportGaps`, `IsHeld`, `ClassifySkills`, `CountTokens`) rather than inline.
- The in-place `recommendations.sort` of `get_skill_recommendations` is modelled as a stable sort of a sequence value. Python's sort is stable too, so the order is the same.
- `job_row.get('skills', '')` and `get('job_title', '')` fall back to "" only when the column itself is missing. The model assumes both columns exist, so a missing cell prints as "nan".
