/**
 * Skill-frequency counting over a skills column, the loop that the recommendation
 * engine (trending skills, skill-gap priorities), the corpus normaliser (top skills)
 * and the market aggregator (`Counter.update`) each repeat: tokenise every present
 * cell on commas, count each token in a dict whose keys keep first-seen order, and
 * rank the `(skill, count)` items by count, highest first, with a stable sort.
 */
module SkillCounts {
  import opened Wrappers
  import opened Text
  import opened Ranking

  /** The tokens of one cell; a missing cell (dropped by `dropna()`) has none. */
  function CellTokens(cell: Option<string>, foldCase: bool): seq<string> {
    if cell.None? then []
    else if foldCase then LowerAll(CommaTokens(cell.value))
    else CommaTokens(cell.value)
  }

  function LowerAll(ts: seq<string>): seq<string> {
    seq(|ts|, i requires 0 <= i < |ts| => Lower(ts[i]))
  }

  /** The concatenation of a sequence of sequences. */
  function Flatten<T>(ss: seq<seq<T>>): seq<T> {
    if ss == [] then [] else ss[0] + Flatten(ss[1..])
  }

  lemma {:induction false} FlattenAppend<T>(a: seq<seq<T>>, b: seq<seq<T>>)
    ensures Flatten(a + b) == Flatten(a) + Flatten(b)
  {
    if a == [] {
      assert a + b == b;
    } else {
      assert (a + b)[0] == a[0] && (a + b)[1..] == a[1..] + b;
      FlattenAppend(a[1..], b);
      calc {
        Flatten(a + b);
        a[0] + Flatten(a[1..] + b);
        a[0] + (Flatten(a[1..]) + Flatten(b));
        (a[0] + Flatten(a[1..])) + Flatten(b);
      }
    }
  }

  /** The tokens of each cell of the column. */
  function TokenRows(cells: seq<Option<string>>, foldCase: bool): seq<seq<string>> {
    seq(|cells|, i requires 0 <= i < |cells| => CellTokens(cells[i], foldCase))
  }

  /** Every token of the column, row by row, in order (`foldCase`: each one lower-cased). */
  function ColumnTokens(cells: seq<Option<string>>, foldCase: bool): seq<string> {
    Flatten(TokenRows(cells, foldCase))
  }

  lemma ColumnTokensAppend(a: seq<Option<string>>, b: seq<Option<string>>, foldCase: bool)
    ensures ColumnTokens(a + b, foldCase) == ColumnTokens(a, foldCase) + ColumnTokens(b, foldCase)
  {
    TokenRowsAppend(a, b, foldCase);
    FlattenAppend(TokenRows(a, foldCase), TokenRows(b, foldCase));
  }

  lemma TokenRowsAppend(a: seq<Option<string>>, b: seq<Option<string>>, foldCase: bool)
    ensures TokenRows(a + b, foldCase) == TokenRows(a, foldCase) + TokenRows(b, foldCase)
  {
    TokenRowsFront(a, b, foldCase);
    TokenRowsBack(a, b, foldCase);
    AppendPointwise(TokenRows(a + b, foldCase), TokenRows(a, foldCase), TokenRows(b, foldCase));
  }

  lemma TokenRowsFront(a: seq<Option<string>>, b: seq<Option<string>>, foldCase: bool)
    ensures forall i :: 0 <= i < |a| ==> TokenRows(a + b, foldCase)[i] == TokenRows(a, foldCase)[i]
  {
    forall i | 0 <= i < |a|
      ensures TokenRows(a + b, foldCase)[i] == TokenRows(a, foldCase)[i]
    {
      assert (a + b)[i] == a[i];
    }
  }

  lemma TokenRowsBack(a: seq<Option<string>>, b: seq<Option<string>>, foldCase: bool)
    ensures forall i :: 0 <= i < |b| ==> TokenRows(a + b, foldCase)[|a| + i] == TokenRows(b, foldCase)[i]
  {
    forall i | 0 <= i < |b|
      ensures TokenRows(a + b, foldCase)[|a| + i] == TokenRows(b, foldCase)[i]
    {
      assert (a + b)[|a| + i] == b[i];
    }
  }

  lemma AppendPointwise<T>(l: seq<T>, a: seq<T>, b: seq<T>)
    requires |l| == |a| + |b|
    requires forall i :: 0 <= i < |a| ==> l[i] == a[i]
    requires forall i :: 0 <= i < |b| ==> l[|a| + i] == b[i]
    ensures l == a + b
  {
    forall i | 0 <= i < |l|
      ensures l[i] == (a + b)[i]
    {
      if i >= |a| {
        assert l[|a| + (i - |a|)] == b[i - |a|];
      }
    }
  }

  lemma {:induction false} FlattenMember<T>(ss: seq<seq<T>>, t: T)
    requires t in Flatten(ss)
    ensures exists k :: 0 <= k < |ss| && t in ss[k]
  {
    if t !in ss[0] {
      FlattenMember(ss[1..], t);
      var k :| 0 <= k < |ss[1..]| && t in ss[1..][k];
      assert t in ss[k + 1];
    }
  }

  /** Every token is non-empty, and lower-case when folded. */
  lemma ColumnTokensAreTokens(cells: seq<Option<string>>, foldCase: bool)
    ensures forall t :: t in ColumnTokens(cells, foldCase) ==> t != "" && (foldCase ==> IsLowerCase(t))
  {
    forall t | t in ColumnTokens(cells, foldCase)
      ensures t != "" && (foldCase ==> IsLowerCase(t))
    {
      FlattenMember(TokenRows(cells, foldCase), t);
      var k :| 0 <= k < |cells| && t in CellTokens(cells[k], foldCase);
      var ts := CommaTokens(cells[k].value);
      if foldCase {
        var m :| 0 <= m < |ts| && t == Lower(ts[m]);
        LowerIsLowerCase(ts[m]);
      }
    }
  }

  /** How many times `x` occurs in `s`. */
  function Occurrences(s: seq<string>, x: string): nat {
    multiset(s)[x]
  }

  /** The distinct items of `s` in the order they are first seen (a dict's key order). */
  function Distinct(s: seq<string>): (r: seq<string>)
    ensures forall x :: x in r <==> x in s
    ensures NoDuplicates(r)
  {
    if s == [] then []
    else
      var d := Distinct(s[..|s| - 1]);
      assert forall x :: x in s <==> x in s[..|s| - 1] || x == s[|s| - 1] by {
        assert s == s[..|s| - 1] + [s[|s| - 1]];
      }
      if s[|s| - 1] in d then d else d + [s[|s| - 1]]
  }

  /** Items ranked by count, highest first. */
  predicate ByCount(a: (string, nat), b: (string, nat)) {
    a.1 >= b.1
  }

  lemma ByCountTotalPreorder()
    ensures TotalPreorder(ByCount)
  {
  }

  /** `skill_counts.items()`: each distinct token with its number of occurrences. */
  function CountItems(tokens: seq<string>): seq<(string, nat)> {
    var d := Distinct(tokens);
    seq(|d|, i requires 0 <= i < |d| => (d[i], Occurrences(tokens, d[i])))
  }

  /** `sorted(skill_counts.items(), key=lambda x: x[1], reverse=True)` */
  function Ranked(tokens: seq<string>): seq<(string, nat)> {
    ByCountTotalPreorder();
    StableSort(CountItems(tokens), ByCount)
  }

  function Names(items: seq<(string, nat)>): seq<string> {
    seq(|items|, i requires 0 <= i < |items| => items[i].0)
  }

  /**
   * The ranking lists every distinct token once, with its true count, by
   * non-increasing count.
   */
  lemma RankedFacts(tokens: seq<string>)
    ensures forall i :: 0 <= i < |Ranked(tokens)| ==>
      Ranked(tokens)[i].0 in tokens && Ranked(tokens)[i].1 == Occurrences(tokens, Ranked(tokens)[i].0)
    ensures forall t :: t in tokens ==> (t, Occurrences(tokens, t)) in Ranked(tokens)
    ensures forall i, j :: 0 <= i < j < |Ranked(tokens)| ==> Ranked(tokens)[i].1 >= Ranked(tokens)[j].1
    ensures NoDuplicates(Names(Ranked(tokens)))
  {
    RankedEntries(tokens);
    RankedComplete(tokens);
    RankedNamesDistinct(tokens);
  }

  /** Each ranked entry is a token with its true count. */
  lemma RankedEntries(tokens: seq<string>)
    ensures forall i :: 0 <= i < |Ranked(tokens)| ==>
      Ranked(tokens)[i].0 in tokens && Ranked(tokens)[i].1 == Occurrences(tokens, Ranked(tokens)[i].0)
  {
    var items, r := CountItems(tokens), Ranked(tokens);
    forall i | 0 <= i < |r|
      ensures r[i].0 in tokens && r[i].1 == Occurrences(tokens, r[i].0)
    {
      assert r[i] in multiset(items);
    }
  }

  /** Every token appears in the ranking with its true count. */
  lemma RankedComplete(tokens: seq<string>)
    ensures forall t :: t in tokens ==> (t, Occurrences(tokens, t)) in Ranked(tokens)
  {
    var items, r, d := CountItems(tokens), Ranked(tokens), Distinct(tokens);
    forall t | t in tokens
      ensures (t, Occurrences(tokens, t)) in r
    {
      var k :| 0 <= k < |d| && d[k] == t;
      assert items[k] == (t, Occurrences(tokens, t));
      assert items[k] in multiset(r);
    }
  }

  /** No token is ranked twice. */
  lemma RankedNamesDistinct(tokens: seq<string>)
    ensures NoDuplicates(Names(Ranked(tokens)))
  {
    var items, r, d := CountItems(tokens), Ranked(tokens), Distinct(tokens);
    assert NoDuplicates(items) by {
      assert forall i :: 0 <= i < |items| ==> items[i].0 == d[i];
    }
    PermutationNoDuplicates(r, items);
    RankedEntries(tokens);
    forall i, j | 0 <= i < j < |r|
      ensures Names(r)[i] != Names(r)[j]
    {
      assert r[i] != r[j];
    }
  }

  /**
   * The first `n` entries of the ranking (`[:n]`): exactly `n` of them, or every
   * distinct token when there are fewer, each a distinct token
   * with its true count, by non-increasing count, and no token left out occurs more
   * often than any token kept.
   */
  lemma {:induction false} TopFacts(tokens: seq<string>, n: int)
    ensures n >= 0 ==> |Prefix(Ranked(tokens), n)| <= n
    ensures n >= 0 ==> |Prefix(Ranked(tokens), n)| == if n <= |Distinct(tokens)| then n else |Distinct(tokens)|
    ensures forall i :: 0 <= i < |Prefix(Ranked(tokens), n)| ==>
      Prefix(Ranked(tokens), n)[i].0 in tokens &&
      Prefix(Ranked(tokens), n)[i].1 == Occurrences(tokens, Prefix(Ranked(tokens), n)[i].0)
    ensures forall i, j :: 0 <= i < j < |Prefix(Ranked(tokens), n)| ==>
      Prefix(Ranked(tokens), n)[i].1 >= Prefix(Ranked(tokens), n)[j].1
    ensures NoDuplicates(Names(Prefix(Ranked(tokens), n)))
    ensures forall t :: t in tokens && t !in Names(Prefix(Ranked(tokens), n)) ==>
      forall i :: 0 <= i < |Prefix(Ranked(tokens), n)| ==> Prefix(Ranked(tokens), n)[i].1 >= Occurrences(tokens, t)
  {
    var r := Ranked(tokens);
    var p := Prefix(r, n);
    RankedFacts(tokens);
    assert forall i :: 0 <= i < |p| ==> p[i] == r[i];
    assert NoDuplicates(Names(p)) by {
      assert forall i :: 0 <= i < |p| ==> Names(p)[i] == Names(r)[i];
    }
    forall t | t in tokens && t !in Names(p)
      ensures forall i :: 0 <= i < |p| ==> p[i].1 >= Occurrences(tokens, t)
    {
      var e := (t, Occurrences(tokens, t));
      assert e !in p by {
        assert forall i :: 0 <= i < |p| ==> Names(p)[i] == p[i].0;
      }
      ByCountTotalPreorder();
      PrefixDominates(r, ByCount, n, e);
    }
  }

  /** `keys` and `counts` are the dict that counting the tokens `seen` produces. */
  ghost predicate Tally(seen: seq<string>, keys: seq<string>, counts: map<string, nat>) {
    && keys == Distinct(seen)
    && (forall t :: t in counts <==> t in seen)
    && (forall t :: t in counts ==> counts[t] == Occurrences(seen, t))
  }

  // `skill_counts[t] = skill_counts.get(t, 0) + 1` counts one more token.

  /** A token already counted: one more occurrence, the key order unchanged. */
  lemma TallyStepSeen(seen: seq<string>, keys: seq<string>, counts: map<string, nat>, t: string)
    requires Tally(seen, keys, counts) && t in counts
    ensures Tally(seen + [t], keys, counts[t := counts[t] + 1])
  {
    var s := seen + [t];
    assert s[..|s| - 1] == seen;
    assert multiset(s) == multiset(seen) + multiset{t};
  }

  /** A token not yet counted: a new key at the end, counted once. */
  lemma TallyStepNew(seen: seq<string>, keys: seq<string>, counts: map<string, nat>, t: string)
    requires Tally(seen, keys, counts) && t !in counts
    ensures Tally(seen + [t], keys + [t], counts[t := 1])
  {
    var s := seen + [t];
    assert s[..|s| - 1] == seen;
    assert multiset(s) == multiset(seen) + multiset{t};
  }

  /** The inner loop: counts the tokens of one cell into the dict. */
  method CountCell(tokens: seq<string>, keys0: seq<string>, counts0: map<string, nat>, ghost done: seq<string>)
    returns (keys: seq<string>, counts: map<string, nat>)
    requires Tally(done, keys0, counts0)
    ensures Tally(done + tokens, keys, counts)
  {
    keys, counts := keys0, counts0;
    assert done + tokens[..0] == done;
    for j := 0 to |tokens|
      invariant Tally(done + tokens[..j], keys, counts)
    {
      var t := tokens[j];
      assert done + tokens[..j + 1] == (done + tokens[..j]) + [t];
      if t in counts {
        TallyStepSeen(done + tokens[..j], keys, counts, t);
      } else {
        TallyStepNew(done + tokens[..j], keys, counts, t);
        keys := keys + [t];
      }
      counts := counts[t := if t in counts then counts[t] + 1 else 1];
    }
    assert tokens[..|tokens|] == tokens;
  }

  /**
   * The counting loop: a dict from token to count whose keys keep first-seen
   * order, filled row by row and token by token.
   */
  method CountTokens(cells: seq<Option<string>>, foldCase: bool) returns (keys: seq<string>, counts: map<string, nat>)
    ensures keys == Distinct(ColumnTokens(cells, foldCase))
    ensures forall t :: t in counts <==> t in ColumnTokens(cells, foldCase)
    ensures forall t :: t in counts ==> counts[t] == Occurrences(ColumnTokens(cells, foldCase), t)
  {
    keys, counts := [], map[];
    assert ColumnTokens(cells[..0], foldCase) == [] by {
      assert TokenRows(cells[..0], foldCase) == [];
    }
    for i := 0 to |cells|
      invariant Tally(ColumnTokens(cells[..i], foldCase), keys, counts)
    {
      ghost var done := ColumnTokens(cells[..i], foldCase);
      var tokens := CellTokens(cells[i], foldCase);
      keys, counts := CountCell(tokens, keys, counts, done);
      ColumnTokensStep(cells, i, foldCase);
    }
    assert cells[..|cells|] == cells;
  }

  lemma ColumnTokensStep(cells: seq<Option<string>>, i: nat, foldCase: bool)
    requires i < |cells|
    ensures ColumnTokens(cells[..i + 1], foldCase) == ColumnTokens(cells[..i], foldCase) + CellTokens(cells[i], foldCase)
  {
    assert cells[..i + 1] == cells[..i] + [cells[i]];
    ColumnTokensAppend(cells[..i], [cells[i]], foldCase);
    var row := CellTokens(cells[i], foldCase);
    assert TokenRows([cells[i]], foldCase) == [row];
    assert [row][1..] == [];
    assert Flatten([row]) == row + Flatten<string>([]) == row;
  }

  /** The counting loop followed by the ranking sort. */
  method RankTokens(cells: seq<Option<string>>) returns (ranked: seq<(string, nat)>)
    ensures ranked == Ranked(ColumnTokens(cells, false))
  {
    var keys, counts := CountTokens(cells, false);
    var items := seq(|keys|, i requires 0 <= i < |keys| => (keys[i], counts[keys[i]]));
    assert items == CountItems(ColumnTokens(cells, false));
    ByCountTotalPreorder();
    ranked := StableSort(items, ByCount);
  }
}
