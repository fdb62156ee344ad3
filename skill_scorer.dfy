/**
 * The `SkillScorer` class of skills-analysis.js: a fixed table of six scoring
 * rules (points per achievement and how many achievements of a type count), a
 * score for a list of typed achievements capped at 105, the per-type
 * contributions, and up to three recommendations ordered by potential gain.
 * The class has no mutable state, so the table is a constant.
 */
module SkillScoring {

  datatype ScoringRule = ScoringRule(kind: string, points: nat, maxCount: nat)

  /** `this.scoringRules`, in declaration order (the order `Object.entries` yields). */
  const ScoringRules: seq<ScoringRule> := [
    ScoringRule("certificate", 5, 2),
    ScoringRule("competition-win", 30, 1),
    ScoringRule("workshop", 5, 1),
    ScoringRule("internship", 30, 2),
    ScoringRule("freelance", 25, 1),
    ScoringRule("competition-participate", 1, 5)]

  /** The cap of `totalScore` and the `maxScore` of the recommendations. */
  const MaxScore: nat := 105

  /** An achievement as the scorer sees it: its `type`, name and date. */
  datatype ScoredAchievement = ScoredAchievement(kind: string, name: string, date: string)

  function Min(a: nat, b: nat): nat { if a < b then a else b }

  // ---------------------------------------------------------------------
  // countAchievementsByType (skills-analysis.js:1039-1045)

  /** Number of achievements of type `kind`. */
  function CountKind(xs: seq<ScoredAchievement>, kind: string): nat {
    if xs == [] then 0 else CountKind(xs[..|xs| - 1], kind) + (if xs[|xs| - 1].kind == kind then 1 else 0)
  }

  /** `counts[type] || 0`. */
  function Lookup(counts: map<string, nat>, kind: string): nat {
    if kind in counts then counts[kind] else 0
  }

  /** The `counts` object after the `forEach`. */
  function KindCounts(xs: seq<ScoredAchievement>): map<string, nat> {
    if xs == [] then map[]
    else
      var m := KindCounts(xs[..|xs| - 1]);
      var k := xs[|xs| - 1].kind;
      m[k := Lookup(m, k) + 1]
  }

  /** Each type is a key exactly when it occurs, and maps to its number of occurrences. */
  lemma {:induction false} KindCountsCorrect(xs: seq<ScoredAchievement>, kind: string)
    ensures Lookup(KindCounts(xs), kind) == CountKind(xs, kind)
    ensures kind in KindCounts(xs) <==> CountKind(xs, kind) > 0
  {
    if xs != [] {
      KindCountsCorrect(xs[..|xs| - 1], kind);
    }
  }

  method CountAchievementsByType(xs: seq<ScoredAchievement>) returns (counts: map<string, nat>)
    ensures counts == KindCounts(xs)
  {
    counts := map[];
    var i := 0;
    while i < |xs|
      invariant i <= |xs|
      invariant counts == KindCounts(xs[..i])
    {
      assert xs[..i + 1][..i] == xs[..i];
      var kind := xs[i].kind;
      counts := counts[kind := (if kind in counts then counts[kind] else 0) + 1];
      i := i + 1;
    }
    assert xs[..|xs|] == xs;
  }

  // ---------------------------------------------------------------------
  // calculateSkillScore (skills-analysis.js:1000-1031)

  datatype Contribution = Contribution(
    kind: string, count: nat, totalCount: nat, score: nat, achievements: seq<ScoredAchievement>)

  /** `relevantAchievements.filter(a => a.type === type)`. */
  function OfKind(xs: seq<ScoredAchievement>, kind: string): (r: seq<ScoredAchievement>)
    ensures forall i :: 0 <= i < |r| ==> r[i].kind == kind
  {
    if xs == [] then []
    else OfKind(xs[..|xs| - 1], kind) + (if xs[|xs| - 1].kind == kind then [xs[|xs| - 1]] else [])
  }

  /** `Math.min(count, rule.maxCount)`. */
  function Effective(r: ScoringRule, counts: map<string, nat>): nat {
    Min(Lookup(counts, r.kind), r.maxCount)
  }

  /** The entry the loop adds for rule `r`, if its effective count is positive. */
  function ContributionOf(r: ScoringRule, counts: map<string, nat>, xs: seq<ScoredAchievement>): seq<Contribution> {
    var e := Effective(r, counts);
    if e > 0 then [Contribution(r.kind, e, Lookup(counts, r.kind), e * r.points, OfKind(xs, r.kind))] else []
  }

  /** The `contributions` object, in rule order. */
  function Contributions(rules: seq<ScoringRule>, counts: map<string, nat>, xs: seq<ScoredAchievement>): seq<Contribution> {
    if rules == [] then []
    else Contributions(rules[..|rules| - 1], counts, xs) + ContributionOf(rules[|rules| - 1], counts, xs)
  }

  /** The uncapped `score`. */
  function RawScore(rules: seq<ScoringRule>, counts: map<string, nat>): nat {
    if rules == [] then 0
    else RawScore(rules[..|rules| - 1], counts) + Effective(rules[|rules| - 1], counts) * rules[|rules| - 1].points
  }

  /** The most a rule table can award. */
  function TableMaximum(rules: seq<ScoringRule>): nat {
    if rules == [] then 0
    else TableMaximum(rules[..|rules| - 1]) + rules[|rules| - 1].maxCount * rules[|rules| - 1].points
  }

  datatype ScoreResult = ScoreResult(totalScore: nat, contributions: seq<Contribution>,
                                     recommendations: seq<ScorerRecommendation>)

  /** What `calculateSkillScore` returns for the relevant achievements. */
  function SkillScore(xs: seq<ScoredAchievement>): ScoreResult {
    var counts := KindCounts(xs);
    var raw := RawScore(ScoringRules, counts);
    var contributions := Contributions(ScoringRules, counts, xs);
    ScoreResult(Min(raw, MaxScore), contributions, Recommendations(contributions, raw))
  }

  method CalculateSkillScore(xs: seq<ScoredAchievement>) returns (result: ScoreResult)
    ensures result == SkillScore(xs)
  {
    var counts := CountAchievementsByType(xs);
    var score := 0;
    var contributions: seq<Contribution> := [];
    var i := 0;
    while i < |ScoringRules|
      invariant i <= |ScoringRules|
      invariant score == RawScore(ScoringRules[..i], counts)
      invariant contributions == Contributions(ScoringRules[..i], counts, xs)
    {
      assert ScoringRules[..i + 1][..i] == ScoringRules[..i];
      var rule := ScoringRules[i];
      var count := if rule.kind in counts then counts[rule.kind] else 0;
      var effectiveCount := Min(count, rule.maxCount);
      var typeScore := effectiveCount * rule.points;
      if effectiveCount > 0 {
        contributions := contributions + [Contribution(rule.kind, effectiveCount, count, typeScore, OfKind(xs, rule.kind))];
      }
      score := score + typeScore;
      i := i + 1;
    }
    assert ScoringRules[..|ScoringRules|] == ScoringRules;
    var recommendations := GenerateRecommendations(contributions, score);
    result := ScoreResult(Min(score, MaxScore), contributions, recommendations);
  }

  /** Contribution `c` is what rule `r` yields for `xs`: its type, its total count,
      a positive effective count bounded by the rule, the rule's points for it
      and the achievements of its type. */
  ghost predicate Yields(r: ScoringRule, xs: seq<ScoredAchievement>, c: Contribution) {
    && c.kind == r.kind
    && c.totalCount == CountKind(xs, r.kind)
    && 0 < c.count == Min(c.totalCount, r.maxCount)
    && c.score == c.count * r.points
    && c.achievements == OfKind(xs, r.kind)
  }

  lemma ContributionOfCorrect(r: ScoringRule, xs: seq<ScoredAchievement>)
    requires r.maxCount > 0
    ensures var e := ContributionOf(r, KindCounts(xs), xs);
      (CountKind(xs, r.kind) > 0 <==> |e| == 1) && (|e| == 1 ==> Yields(r, xs, e[0])) && |e| <= 1
  {
    KindCountsCorrect(xs, r.kind);
  }

  /** Every contribution is what some rule yields for the achievements. */
  lemma {:induction false} ContributionsSound(rules: seq<ScoringRule>, xs: seq<ScoredAchievement>)
    ensures forall c | c in Contributions(rules, KindCounts(xs), xs) :: exists j :: 0 <= j < |rules| && Yields(rules[j], xs, c)
  {
    if rules != [] {
      var init := rules[..|rules| - 1];
      var r := rules[|rules| - 1];
      ContributionsSound(init, xs);
      KindCountsCorrect(xs, r.kind);
      var counts := KindCounts(xs);
      var prev := Contributions(init, counts, xs);
      var e := ContributionOf(r, counts, xs);
      var cs := prev + e;
      assert Contributions(rules, counts, xs) == cs;
      forall c | c in cs
        ensures exists j :: 0 <= j < |rules| && Yields(rules[j], xs, c)
      {
        if c in prev {
          var j :| 0 <= j < |init| && Yields(init[j], xs, c);
          assert rules[j] == init[j];
        } else {
          assert c == e[0] && Yields(rules[|rules| - 1], xs, c);
        }
      }
    }
  }

  /** With positive counts in every rule, each rule whose type occurs among the
      achievements yields a contribution. */
  lemma {:induction false} ContributionsComplete(rules: seq<ScoringRule>, xs: seq<ScoredAchievement>)
    requires forall j :: 0 <= j < |rules| ==> rules[j].maxCount > 0
    ensures var cs := Contributions(rules, KindCounts(xs), xs);
      forall j :: 0 <= j < |rules| && CountKind(xs, rules[j].kind) > 0 ==>
        exists i :: 0 <= i < |cs| && Yields(rules[j], xs, cs[i])
  {
    if rules != [] {
      var init := rules[..|rules| - 1];
      var r := rules[|rules| - 1];
      ContributionsComplete(init, xs);
      ContributionOfCorrect(r, xs);
      var counts := KindCounts(xs);
      var prev := Contributions(init, counts, xs);
      var e := ContributionOf(r, counts, xs);
      var cs := prev + e;
      assert Contributions(rules, counts, xs) == cs;
      forall j | 0 <= j < |rules| && CountKind(xs, rules[j].kind) > 0
        ensures exists i :: 0 <= i < |cs| && Yields(rules[j], xs, cs[i])
      {
        if j < |init| {
          assert rules[j] == init[j];
          var i :| 0 <= i < |prev| && Yields(init[j], xs, prev[i]);
          assert cs[i] == prev[i];
        } else {
          assert cs[|prev|] == e[0];
        }
      }
    }
  }

  /** For the scorer's own table: a contribution is reported for a rule exactly
      when the rule's type occurs among the achievements, and each reported one is
      what its rule yields. */
  lemma SkillScoreContributions(xs: seq<ScoredAchievement>)
    ensures forall c | c in SkillScore(xs).contributions ::
      exists j :: 0 <= j < |ScoringRules| && Yields(ScoringRules[j], xs, c)
    ensures forall j :: 0 <= j < |ScoringRules| && CountKind(xs, ScoringRules[j].kind) > 0 ==>
      exists c :: c in SkillScore(xs).contributions && Yields(ScoringRules[j], xs, c)
  {
    ContributionsSound(ScoringRules, xs);
    ContributionsComplete(ScoringRules, xs);
    var cs := Contributions(ScoringRules, KindCounts(xs), xs);
    forall j | 0 <= j < |ScoringRules| && CountKind(xs, ScoringRules[j].kind) > 0
      ensures exists c :: c in cs && Yields(ScoringRules[j], xs, c)
    {
      var i :| 0 <= i < |cs| && Yields(ScoringRules[j], xs, cs[i]);
      assert cs[i] in cs;
    }
  }

  /** The uncapped score never exceeds the table's maximum. */
  lemma {:induction false} RawScoreAtMostMaximum(rules: seq<ScoringRule>, counts: map<string, nat>)
    ensures RawScore(rules, counts) <= TableMaximum(rules)
  {
    if rules != [] {
      RawScoreAtMostMaximum(rules[..|rules| - 1], counts);
    }
  }

  /** With every rule saturated the uncapped score is the table's maximum. */
  lemma {:induction false} RawScoreSaturated(rules: seq<ScoringRule>, counts: map<string, nat>)
    requires forall j :: 0 <= j < |rules| ==> Lookup(counts, rules[j].kind) >= rules[j].maxCount
    ensures RawScore(rules, counts) == TableMaximum(rules)
  {
    if rules != [] {
      RawScoreSaturated(rules[..|rules| - 1], counts);
    }
  }

  /** The table can award 135, more than the cap of 105. */
  lemma ScoringTableMaximum()
    ensures TableMaximum(ScoringRules) == 135
  {
    var r := ScoringRules;
    assert r[..1][..0] == [] && r[..2][..1] == r[..1] && r[..3][..2] == r[..2];
    assert r[..4][..3] == r[..3] && r[..5][..4] == r[..4] && r[..6] == r && r[..6][..5] == r[..5];
    assert TableMaximum(r[..1]) == 10;
    assert TableMaximum(r[..2]) == 40;
    assert TableMaximum(r[..3]) == 45;
    assert TableMaximum(r[..4]) == 105;
    assert TableMaximum(r[..5]) == 130;
  }

  /** The reported score is the uncapped score, clamped to 105; with every rule
      saturated it is exactly 105 although the table adds up to 135. */
  lemma SkillScoreCapped(xs: seq<ScoredAchievement>)
    ensures SkillScore(xs).totalScore <= MaxScore
    ensures SkillScore(xs).totalScore == Min(RawScore(ScoringRules, KindCounts(xs)), MaxScore)
    ensures (forall j :: 0 <= j < |ScoringRules| ==> CountKind(xs, ScoringRules[j].kind) >= ScoringRules[j].maxCount)
            ==> SkillScore(xs).totalScore == MaxScore && SkillScore(xs).recommendations == []
  {
    if forall j :: 0 <= j < |ScoringRules| ==> CountKind(xs, ScoringRules[j].kind) >= ScoringRules[j].maxCount {
      forall j | 0 <= j < |ScoringRules| ensures Lookup(KindCounts(xs), ScoringRules[j].kind) >= ScoringRules[j].maxCount {
        KindCountsCorrect(xs, ScoringRules[j].kind);
      }
      RawScoreSaturated(ScoringRules, KindCounts(xs));
      ScoringTableMaximum();
    }
  }

  // ---------------------------------------------------------------------
  // generateRecommendations (skills-analysis.js:1047-1088)

  datatype ScorerRecommendation = ScorerRecommendation(
    kind: string, description: string, potentialGain: nat, priority: nat)

  /** `getRecommendationText`. */
  function RecommendationText(kind: string): string {
    if kind == "certificate" then "Get a professional certification"
    else if kind == "competition-win" then "Win a competition in this skill area"
    else if kind == "workshop" then "Attend a relevant workshop"
    else if kind == "internship" then "Complete an internship"
    else if kind == "freelance" then "Work on a freelance project"
    else if kind == "competition-participate" then "Participate in more competitions"
    else "Improve this skill area"
  }

  /** `contributions[type] ? contributions[type].count : 0`. */
  function CurrentCount(cs: seq<Contribution>, kind: string): nat {
    if cs == [] then 0
    else if cs[0].kind == kind then cs[0].count
    else CurrentCount(cs[1..], kind)
  }

  /** The suggestion for rule `r`, if it is not yet saturated. */
  function CandidateOf(r: ScoringRule, cs: seq<Contribution>): seq<ScorerRecommendation> {
    var current := CurrentCount(cs, r.kind);
    if current < r.maxCount then
      var potential := (r.maxCount - current) * r.points;
      [ScorerRecommendation(r.kind, RecommendationText(r.kind), potential, potential)]
    else []
  }

  /** The recommendations in rule order, before sorting. */
  function Candidates(rules: seq<ScoringRule>, cs: seq<Contribution>): seq<ScorerRecommendation> {
    if rules == [] then [] else Candidates(rules[..|rules| - 1], cs) + CandidateOf(rules[|rules| - 1], cs)
  }

  /** Inserts `x` after every element whose priority is at least its own, which keeps
      a stable order when `x` comes after all of `s`. */
  function InsertByPriority(s: seq<ScorerRecommendation>, x: ScorerRecommendation): (r: seq<ScorerRecommendation>)
    ensures |r| == |s| + 1
    ensures r[0] == if s != [] && s[0].priority >= x.priority then s[0] else x
  {
    if s == [] then [x]
    else if s[0].priority >= x.priority then [s[0]] + InsertByPriority(s[1..], x)
    else [x] + s
  }

  /** `sort((a, b) => b.priority - a.priority)`, a stable sort by descending priority. */
  function SortByPriority(xs: seq<ScorerRecommendation>): (r: seq<ScorerRecommendation>)
    ensures |r| == |xs|
  {
    if xs == [] then [] else InsertByPriority(SortByPriority(xs[..|xs| - 1]), xs[|xs| - 1])
  }

  function Take3(xs: seq<ScorerRecommendation>): seq<ScorerRecommendation> {
    if |xs| <= 3 then xs else xs[..3]
  }

  /** What `generateRecommendations(contributions, currentScore)` returns. */
  function Recommendations(cs: seq<Contribution>, currentScore: int): seq<ScorerRecommendation> {
    if MaxScore - currentScore <= 0 then [] else Take3(SortByPriority(Candidates(ScoringRules, cs)))
  }

  method GenerateRecommendations(cs: seq<Contribution>, currentScore: int) returns (recs: seq<ScorerRecommendation>)
    ensures recs == Recommendations(cs, currentScore)
  {
    var remaining := MaxScore - currentScore;
    if remaining <= 0 {
      return [];
    }
    recs := [];
    var i := 0;
    while i < |ScoringRules|
      invariant i <= |ScoringRules|
      invariant recs == Candidates(ScoringRules[..i], cs)
    {
      assert ScoringRules[..i + 1][..i] == ScoringRules[..i];
      var rule := ScoringRules[i];
      var currentCount := CurrentCount(cs, rule.kind);
      if currentCount < rule.maxCount {
        var potential := (rule.maxCount - currentCount) * rule.points;
        recs := recs + [ScorerRecommendation(rule.kind, RecommendationText(rule.kind), potential, potential)];
      }
      i := i + 1;
    }
    assert ScoringRules[..|ScoringRules|] == ScoringRules;
    recs := Take3(SortByPriority(recs));
  }

  ghost predicate NonIncreasing(xs: seq<ScorerRecommendation>) {
    forall i, j :: 0 <= i < j < |xs| ==> xs[i].priority >= xs[j].priority
  }

  lemma {:induction false} InsertByPrioritySorted(s: seq<ScorerRecommendation>, x: ScorerRecommendation)
    requires NonIncreasing(s)
    ensures NonIncreasing(InsertByPriority(s, x))
  {
    if s != [] && s[0].priority >= x.priority {
      var t := InsertByPriority(s[1..], x);
      InsertByPrioritySorted(s[1..], x);
      var u := [s[0]] + t;
      assert t[0].priority <= s[0].priority;
      forall i, j | 0 <= i < j < |u| ensures u[i].priority >= u[j].priority {
        if i == 0 {
          assert u[j] == t[j - 1];
          assert t[0].priority >= t[j - 1].priority;
        } else {
          assert u[i] == t[i - 1] && u[j] == t[j - 1];
        }
      }
    } else {
      var u := [x] + s;
      forall i, j | 0 <= i < j < |u| ensures u[i].priority >= u[j].priority {
        assert u[j] == s[j - 1];
        if i > 0 {
          assert u[i] == s[i - 1];
        } else {
          assert s[0].priority >= s[j - 1].priority;
        }
      }
    }
  }

  lemma {:induction false} InsertByPriorityPermutes(s: seq<ScorerRecommendation>, x: ScorerRecommendation)
    ensures multiset(InsertByPriority(s, x)) == multiset(s) + multiset{x}
  {
    if s != [] && s[0].priority >= x.priority {
      InsertByPriorityPermutes(s[1..], x);
      assert s == [s[0]] + s[1..];
    }
  }

  /** Sorting yields a non-increasing permutation of its input. */
  lemma SortByPriorityCorrect(xs: seq<ScorerRecommendation>)
    ensures NonIncreasing(SortByPriority(xs))
    ensures multiset(SortByPriority(xs)) == multiset(xs)
  {
    SortByPrioritySorted(xs);
    SortByPriorityPermutes(xs);
  }

  lemma {:induction false} SortByPrioritySorted(xs: seq<ScorerRecommendation>)
    ensures NonIncreasing(SortByPriority(xs))
  {
    if xs != [] {
      SortByPrioritySorted(xs[..|xs| - 1]);
      InsertByPrioritySorted(SortByPriority(xs[..|xs| - 1]), xs[|xs| - 1]);
    }
  }

  lemma {:induction false} SortByPriorityPermutes(xs: seq<ScorerRecommendation>)
    ensures multiset(SortByPriority(xs)) == multiset(xs)
  {
    if xs != [] {
      var init, last := xs[..|xs| - 1], xs[|xs| - 1];
      SortByPriorityPermutes(init);
      InsertByPriorityPermutes(SortByPriority(init), last);
      assert xs == init + [last];
      assert multiset(xs) == multiset(init) + multiset{last};
    }
  }

  /** `c` is the suggestion for rule `r`, which is not yet saturated: the gain
      still open under the rule is both its potential gain and its priority. */
  ghost predicate Suggests(r: ScoringRule, cs: seq<Contribution>, c: ScorerRecommendation) {
    && c.kind == r.kind
    && CurrentCount(cs, r.kind) < r.maxCount
    && c.potentialGain == (r.maxCount - CurrentCount(cs, r.kind)) * r.points
    && c.priority == c.potentialGain
    && c.description == RecommendationText(r.kind)
  }

  /** Every candidate is the suggestion of an unsaturated rule. */
  lemma {:induction false} CandidatesSound(rules: seq<ScoringRule>, cs: seq<Contribution>)
    ensures forall c | c in Candidates(rules, cs) :: exists j :: 0 <= j < |rules| && Suggests(rules[j], cs, c)
  {
    if rules != [] {
      var init := rules[..|rules| - 1];
      var r := rules[|rules| - 1];
      CandidatesSound(init, cs);
      var prev := Candidates(init, cs);
      var e := CandidateOf(r, cs);
      var all := prev + e;
      assert Candidates(rules, cs) == all;
      forall c | c in all ensures exists j :: 0 <= j < |rules| && Suggests(rules[j], cs, c) {
        if c in prev {
          var j :| 0 <= j < |init| && Suggests(init[j], cs, c);
          assert rules[j] == init[j];
        } else {
          assert c == e[0] && Suggests(rules[|rules| - 1], cs, c);
        }
      }
    }
  }

  /** Where the suggestion of the unsaturated rule `rules[j]` sits among the candidates. */
  lemma {:induction false} CandidateIndex(rules: seq<ScoringRule>, cs: seq<Contribution>, j: nat) returns (k: nat)
    requires j < |rules| && CurrentCount(cs, rules[j].kind) < rules[j].maxCount
    ensures k < |Candidates(rules, cs)| && Suggests(rules[j], cs, Candidates(rules, cs)[k])
  {
    var init := rules[..|rules| - 1];
    var prev := Candidates(init, cs);
    var e := CandidateOf(rules[|rules| - 1], cs);
    assert Candidates(rules, cs) == prev + e;
    if j < |init| {
      assert rules[j] == init[j];
      k := CandidateIndex(init, cs, j);
      assert (prev + e)[k] == prev[k];
    } else {
      k := |prev|;
      assert (prev + e)[k] == e[0];
    }
  }

  /** Every unsaturated rule has its suggestion among the candidates. */
  lemma CandidatesComplete(rules: seq<ScoringRule>, cs: seq<Contribution>)
    ensures forall j :: 0 <= j < |rules| && CurrentCount(cs, rules[j].kind) < rules[j].maxCount ==>
      exists k :: 0 <= k < |Candidates(rules, cs)| && Suggests(rules[j], cs, Candidates(rules, cs)[k])
  {
    forall j | 0 <= j < |rules| && CurrentCount(cs, rules[j].kind) < rules[j].maxCount
      ensures exists k :: 0 <= k < |Candidates(rules, cs)| && Suggests(rules[j], cs, Candidates(rules, cs)[k])
    {
      var k := CandidateIndex(rules, cs, j);
      assert Suggests(rules[j], cs, Candidates(rules, cs)[k]);
    }
    assert forall j :: 0 <= j < |rules| && CurrentCount(cs, rules[j].kind) < rules[j].maxCount ==>
      exists k :: 0 <= k < |Candidates(rules, cs)| && Suggests(rules[j], cs, Candidates(rules, cs)[k]);
  }

  /** The first three of the sorted list are in non-increasing order, each taken
      from the list. */
  lemma TopThree(all: seq<ScorerRecommendation>)
    ensures var sorted := SortByPriority(all);
      var r := Take3(sorted);
      && |r| <= 3
      && NonIncreasing(r)
      && (forall c | c in r :: c in all)
      && r == sorted[..Min(3, |sorted|)]
      && multiset(sorted) == multiset(all)
  {
    var sorted := SortByPriority(all);
    SortByPriorityCorrect(all);
    var r := Take3(sorted);
    forall c | c in r ensures c in all {
      assert c in multiset(sorted);
    }
  }

  /** No recommendations once the uncapped score reaches 105. Otherwise the
      recommendations are the first three (or fewer) of the candidates sorted by
      non-increasing priority, each the suggestion of an unsaturated rule. */
  lemma RecommendationsCorrect(cs: seq<Contribution>, currentScore: int)
    ensures currentScore >= MaxScore ==> Recommendations(cs, currentScore) == []
    ensures var r := Recommendations(cs, currentScore);
      var all := Candidates(ScoringRules, cs);
      && |r| <= 3
      && NonIncreasing(r)
      && (forall c | c in r :: exists j :: 0 <= j < |ScoringRules| && Suggests(ScoringRules[j], cs, c))
      && (currentScore < MaxScore ==> r == SortByPriority(all)[..Min(3, |all|)])
  {
    var all := Candidates(ScoringRules, cs);
    TopThree(all);
    CandidatesSound(ScoringRules, cs);
  }
}
