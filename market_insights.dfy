/**
 * The market-insights side of the pipeline (`MarketInsights`): the most in-demand
 * skills (`Counter.most_common`) and the skill advice built on them for a user.
 */
module Insights {
  import opened Wrappers
  import opened Text
  import opened Ranking
  import opened SkillCounts

  // ---------------------------------------------------------------------------
  // top skills

  /**
   * `Counter.most_common(limit)`: the items by non-increasing count, ties in
   * first-seen order, the first `limit` of them; none at all when `limit <= 0`.
   */
  function MostCommon(tokens: seq<string>, limit: int): seq<(string, nat)> {
    if limit <= 0 then [] else Prefix(Ranked(tokens), limit)
  }

  /**
   * Exactly `limit` entries, or every distinct token when there are fewer (none
   * for a non-positive limit), each a distinct token
   * with its true count, by non-increasing count; no token left out is more
   * frequent than one kept.
   */
  lemma MostCommonFacts(tokens: seq<string>, limit: int)
    ensures |MostCommon(tokens, limit)| <= if limit > 0 then limit else 0
    ensures |MostCommon(tokens, limit)| == if limit <= 0 then 0 else if limit <= |Distinct(tokens)| then limit else |Distinct(tokens)|
    ensures forall i :: 0 <= i < |MostCommon(tokens, limit)| ==>
      MostCommon(tokens, limit)[i].0 in tokens &&
      MostCommon(tokens, limit)[i].1 == Occurrences(tokens, MostCommon(tokens, limit)[i].0)
    ensures forall i, j :: 0 <= i < j < |MostCommon(tokens, limit)| ==>
      MostCommon(tokens, limit)[i].1 >= MostCommon(tokens, limit)[j].1 &&
      MostCommon(tokens, limit)[i].0 != MostCommon(tokens, limit)[j].0
    ensures forall t :: t in tokens && t !in Names(MostCommon(tokens, limit)) ==>
      forall i :: 0 <= i < |MostCommon(tokens, limit)| ==> MostCommon(tokens, limit)[i].1 >= Occurrences(tokens, t)
  {
    if limit > 0 {
      var top := MostCommon(tokens, limit);
      TopFacts(tokens, limit);
      assert forall i :: 0 <= i < |top| ==> Names(top)[i] == top[i].0;
    }
  }

  /** Every user skill lower-cased. */
  function LowerSkills(userSkills: seq<string>): seq<string> {
    seq(|userSkills|, i requires 0 <= i < |userSkills| => Lower(userSkills[i]))
  }

  // ---------------------------------------------------------------------------
  // skill advice

  /** One piece of advice: a skill to learn, its demand, whether it relates to the user's skills, and its priority. */
  datatype Advice = Advice(skill: string, demandCount: nat, related: bool, priority: string)

  /** Some user skill and `skill`, lower-cased, contain one another (in either direction). */
  predicate RelatedTo(userSkills: seq<string>, skill: string) {
    exists u :: u in userSkills && (Contains(Lower(skill), Lower(u)) || Contains(Lower(u), Lower(skill)))
  }

  /** The advice for one top skill: "High" priority when related and wanted by more than ten postings. */
  function AdviceFor(item: (string, nat), userSkills: seq<string>): Advice {
    var related := RelatedTo(userSkills, item.0);
    Advice(item.0, item.1, related, if related && item.1 > 10 then "High" else "Medium")
  }

  /** The user already has the skill, compared case-insensitively. */
  predicate Known(userSkills: seq<string>, skill: string) {
    Lower(skill) in LowerSkills(userSkills)
  }

  /**
   * The advice loop over the top skills, in their order: one entry for each skill
   * the user does not already have.
   */
  function Candidates(top: seq<(string, nat)>, userSkills: seq<string>): (r: seq<Advice>)
    ensures |r| <= |top|
    ensures forall a :: a in r <==>
      (a.skill, a.demandCount) in top && !Known(userSkills, a.skill) && a == AdviceFor((a.skill, a.demandCount), userSkills)
    ensures NoDuplicates(top) ==> NoDuplicates(r)
  {
    if top == [] then []
    else
      var init := top[..|top| - 1];
      var last := top[|top| - 1];
      assert top == init + [last];
      var rest := Candidates(init, userSkills);
      if Known(userSkills, last.0) then rest
      else
        var a := AdviceFor(last, userSkills);
        assert NoDuplicates(top) ==> last !in init;
        var r := rest + [a];
        assert forall x :: x in r <==> x in rest || x == a;
        r
  }

  /** One more top skill adds at most its own advice. */
  lemma CandidatesStep(top: seq<(string, nat)>, i: nat, userSkills: seq<string>)
    requires i < |top|
    ensures Candidates(top[..i + 1], userSkills) == Candidates(top[..i], userSkills) +
      (if Known(userSkills, top[i].0) then [] else [AdviceFor(top[i], userSkills)])
  {
    assert top[..i + 1][..i] == top[..i];
  }

  /** `sort(key=(related_to_existing, demand_count), reverse=True)`: related first, then by demand. */
  predicate ByRelevance(a: Advice, b: Advice) {
    (a.related && !b.related) || (a.related == b.related && a.demandCount >= b.demandCount)
  }

  lemma ByRelevanceTotalPreorder()
    ensures TotalPreorder(ByRelevance)
  {
  }

  /** The advice for a user: the top fifty skills they lack, most relevant first, the first ten. */
  function SkillAdvice(tokens: seq<string>, userSkills: seq<string>): seq<Advice> {
    ByRelevanceTotalPreorder();
    Prefix(StableSort(Candidates(MostCommon(tokens, 50), userSkills), ByRelevance), 10)
  }

  /** The top fifty as the candidates see them: distinct items with true counts. */
  lemma TopFiftyFacts(tokens: seq<string>)
    ensures NoDuplicates(MostCommon(tokens, 50))
    ensures forall item :: item in MostCommon(tokens, 50) ==> item.0 in Names(MostCommon(tokens, 50)) && item.1 == Occurrences(tokens, item.0)
  {
    var top := MostCommon(tokens, 50);
    MostCommonFacts(tokens, 50);
    forall i, j | 0 <= i < j < |top|
      ensures top[i] != top[j]
    {
      assert top[i].0 != top[j].0;
    }
    forall item | item in top
      ensures item.0 in Names(top) && item.1 == Occurrences(tokens, item.0)
    {
      var k :| 0 <= k < |top| && top[k] == item;
      assert Names(top)[k] == item.0;
    }
  }

  /** A skill the user lacks is not one the user has, whatever the case. */
  lemma UnknownDiffers(userSkills: seq<string>, skill: string)
    requires !Known(userSkills, skill)
    ensures forall u :: u in userSkills ==> Lower(u) != Lower(skill)
  {
    forall u | u in userSkills
      ensures Lower(u) != Lower(skill)
    {
      var m :| 0 <= m < |userSkills| && userSkills[m] == u;
      assert LowerSkills(userSkills)[m] == Lower(u);
    }
  }

  /**
   * Ten entries, or every candidate when there are fewer, each a skill from the top fifty with its true count, none
   * of which the user has; `related` and `priority` as the rule says.
   */
  lemma SkillAdviceEntries(tokens: seq<string>, userSkills: seq<string>)
    ensures |SkillAdvice(tokens, userSkills)| <= 10
    ensures |SkillAdvice(tokens, userSkills)| == if |Candidates(MostCommon(tokens, 50), userSkills)| <= 10 then |Candidates(MostCommon(tokens, 50), userSkills)| else 10
    ensures forall a :: a in SkillAdvice(tokens, userSkills) ==>
      && a.skill in Names(MostCommon(tokens, 50))
      && a.demandCount == Occurrences(tokens, a.skill)
      && (forall u :: u in userSkills ==> Lower(u) != Lower(a.skill))
      && (a.related <==> exists u :: u in userSkills && (Contains(Lower(a.skill), Lower(u)) || Contains(Lower(u), Lower(a.skill))))
      && (a.priority == "High" <==> a.related && a.demandCount > 10)
      && (a.priority == "High" || a.priority == "Medium")
  {
    ByRelevanceTotalPreorder();
    var top := MostCommon(tokens, 50);
    TopFiftyFacts(tokens);
    var cands := Candidates(top, userSkills);
    var sorted := StableSort(cands, ByRelevance);
    var r := SkillAdvice(tokens, userSkills);
    forall a | a in r
      ensures a in cands
    {
      assert a in sorted;
      assert a in multiset(sorted);
    }
    forall a | a in r
      ensures forall u :: u in userSkills ==> Lower(u) != Lower(a.skill)
    {
      UnknownDiffers(userSkills, a.skill);
    }
  }

  /**
   * Distinct skills, related ones first, then by non-increasing demand; and no
   * candidate left out ranks above one kept.
   */
  lemma SkillAdviceOrder(tokens: seq<string>, userSkills: seq<string>)
    ensures forall i, j :: 0 <= i < j < |SkillAdvice(tokens, userSkills)| ==>
      && SkillAdvice(tokens, userSkills)[i].skill != SkillAdvice(tokens, userSkills)[j].skill
      && (SkillAdvice(tokens, userSkills)[i].related || !SkillAdvice(tokens, userSkills)[j].related)
      && (SkillAdvice(tokens, userSkills)[i].related == SkillAdvice(tokens, userSkills)[j].related ==>
            SkillAdvice(tokens, userSkills)[i].demandCount >= SkillAdvice(tokens, userSkills)[j].demandCount)
    ensures forall item :: (item in MostCommon(tokens, 50) && !Known(userSkills, item.0) &&
      AdviceFor(item, userSkills) !in SkillAdvice(tokens, userSkills)) ==>
      forall a :: a in SkillAdvice(tokens, userSkills) ==> ByRelevance(a, AdviceFor(item, userSkills))
  {
    ByRelevanceTotalPreorder();
    var top := MostCommon(tokens, 50);
    TopFiftyFacts(tokens);
    var cands := Candidates(top, userSkills);
    var sorted := StableSort(cands, ByRelevance);
    var r := SkillAdvice(tokens, userSkills);
    PermutationNoDuplicates(sorted, cands);
    PrefixOrdered(sorted, ByRelevance, 10);
    forall i, j | 0 <= i < j < |r|
      ensures r[i].skill != r[j].skill
    {
      assert r[i] == sorted[i] && r[j] == sorted[j];
      assert r[i] in multiset(sorted) && r[j] in multiset(sorted);
      assert r[i] in cands && r[j] in cands;
      assert (r[i].skill, r[i].demandCount) in top && (r[j].skill, r[j].demandCount) in top;
    }
    forall item | item in top && !Known(userSkills, item.0) && AdviceFor(item, userSkills) !in r
      ensures forall a :: a in r ==> ByRelevance(a, AdviceFor(item, userSkills))
    {
      var adv := AdviceFor(item, userSkills);
      assert adv in cands;
      assert adv in multiset(sorted);
      PrefixDominates(sorted, ByRelevance, 10, adv);
    }
  }

  // ---------------------------------------------------------------------------
  // the insights object

  /** Market insights over a jobs table; only its skills column matters here. */
  class MarketInsights {
    /** The `skills` column, a missing cell as `None`. */
    const skills: seq<Option<string>>

    constructor(skills: seq<Option<string>>)
      ensures this.skills == skills
    {
      this.skills := skills;
    }

    /** `_get_top_skills`: the `limit` most in-demand skills with their counts. */
    method TopSkills(limit: int) returns (top: seq<(string, nat)>)
      ensures top == MostCommon(ColumnTokens(skills, false), limit)
    {
      var ranked := RankTokens(skills);
      if limit <= 0 {
        top := [];
      } else {
        top := Prefix(ranked, limit);
      }
    }

    /**
     * `get_skill_recommendations`: advice on the top fifty skills the user lacks,
     * built in one pass, then sorted by relevance and demand and cut to ten.
     */
    method GetSkillRecommendations(userSkills: seq<string>) returns (advice: seq<Advice>)
      ensures advice == SkillAdvice(ColumnTokens(skills, false), userSkills)
    {
      var top := TopSkills(50);
      var userLower := LowerSkills(userSkills);
      var recommendations: seq<Advice> := [];
      for i := 0 to |top|
        invariant recommendations == Candidates(top[..i], userSkills)
      {
        CandidatesStep(top, i, userSkills);
        var name := top[i].0;
        if Lower(name) !in userLower {
          var related := RelatedTo(userSkills, name);
          var entry := Advice(name, top[i].1, related, if related && top[i].1 > 10 then "High" else "Medium");
          assert entry == AdviceFor(top[i], userSkills);
          recommendations := recommendations + [entry];
        }
      }
      assert top[..|top|] == top;
      ByRelevanceTotalPreorder();
      advice := Prefix(StableSort(recommendations, ByRelevance), 10);
      assert recommendations == Candidates(MostCommon(ColumnTokens(skills, false), 50), userSkills);
    }
  }
}
