/**
 * Activity points (shared-utils.js, `calculateActivityPoints` and
 * `getActivityPointsBreakdown`). Both look at the lower-cased category and
 * title of the approved achievements, but test their keyword rules in a
 * different order, so their totals can differ.
 */
module ActivityPoints {
  import opened Strings
  import opened Records

  // Keyword tests on an already lower-cased category `c` and title `t`.

  predicate MentionsCompetition(c: string, t: string) {
    Contains(c, "competition") || Contains(c, "contest") || Contains(c, "hackathon") ||
    Contains(t, "competition") || Contains(t, "contest") || Contains(t, "hackathon")
  }

  predicate MentionsWin(c: string, t: string) {
    Contains(t, "win") || Contains(t, "won") || Contains(t, "winner") ||
    Contains(t, "1st") || Contains(t, "first") || Contains(t, "champion") ||
    Contains(t, "gold") || Contains(t, "silver") || Contains(t, "bronze") ||
    Contains(c, "win") || Contains(c, "winner") || Contains(c, "champion")
  }

  predicate IsCompetitionWin(c: string, t: string) {
    MentionsCompetition(c, t) && MentionsWin(c, t)
  }

  predicate MentionsInternship(c: string, t: string) {
    Contains(c, "internship") || Contains(t, "internship")
  }

  predicate MentionsFreelancing(c: string, t: string) {
    Contains(c, "freelanc") || Contains(t, "freelanc")
  }

  predicate MentionsCertificate(c: string, t: string) {
    Contains(c, "certificate") || Contains(c, "certification") ||
    Contains(t, "certificate") || Contains(t, "certification")
  }

  predicate MentionsWorkshop(c: string, t: string) {
    Contains(c, "workshop") || Contains(c, "seminar") ||
    Contains(t, "workshop") || Contains(t, "seminar")
  }

  predicate MentionsParticipation(c: string, t: string) {
    MentionsCompetition(c, t) ||
    Contains(t, "participate") || Contains(t, "participating") || Contains(t, "participation")
  }

  /** The fallback `pointsMap[category]`, 0 for a category that is not a key. */
  function CategoryMapPoints(c: string): nat {
    if c == "certificate" || c == "certification" then 5
    else if c == "competition" || c == "contest" then 30
    else if c == "workshop" || c == "seminar" then 5
    else if c == "internship" then 30
    else if c == "freelancing" || c == "freelance" then 25
    else if c == "participate" || c == "participation" || c == "participating" then 1
    else 0
  }

  /** Which branch of `calculateActivityPoints` an achievement takes. */
  datatype Rule = WinRule | InternshipRule | FreelancingRule | CertificateRule
                | WorkshopRule | ParticipationRule | CategoryMapRule | NoRule

  function CategoryText(a: Achievement): string { Lower(a.category) }
  function TitleText(a: Achievement): string { Lower(a.title) }

  /** The first rule whose test holds, in the order of shared-utils.js:234-280. */
  function PointsRule(a: Achievement): Rule {
    var c, t := CategoryText(a), TitleText(a);
    if IsCompetitionWin(c, t) then WinRule
    else if MentionsInternship(c, t) then InternshipRule
    else if MentionsFreelancing(c, t) then FreelancingRule
    else if MentionsCertificate(c, t) then CertificateRule
    else if MentionsWorkshop(c, t) then WorkshopRule
    else if MentionsParticipation(c, t) then ParticipationRule
    else if CategoryMapPoints(c) > 0 then CategoryMapRule
    else NoRule
  }

  /** Points one approved achievement adds to the total. */
  function PointsFor(a: Achievement): nat {
    match PointsRule(a)
    case WinRule => 30
    case InternshipRule => 30
    case FreelancingRule => 25
    case CertificateRule => 5
    case WorkshopRule => 5
    case ParticipationRule => 1
    case CategoryMapRule => CategoryMapPoints(CategoryText(a))
    case NoRule => 0
  }

  /** `achievements.filter(a => a.status === 'approved')`. */
  function ApprovedOnly(xs: seq<Achievement>): (r: seq<Achievement>)
    ensures |r| <= |xs|
    ensures forall i :: 0 <= i < |r| ==> r[i].status == "approved"
  {
    if xs == [] then []
    else ApprovedOnly(xs[..|xs| - 1]) + (if xs[|xs| - 1].status == "approved" then [xs[|xs| - 1]] else [])
  }

  function SumPoints(xs: seq<Achievement>): nat {
    if xs == [] then 0 else SumPoints(xs[..|xs| - 1]) + PointsFor(xs[|xs| - 1])
  }

  /** The value `calculateActivityPoints()` returns for the stored achievements. */
  function TotalPoints(xs: seq<Achievement>): nat {
    SumPoints(ApprovedOnly(xs))
  }

  // Properties of the points rules.

  /** Every achievement scores one of the values the rules can award. */
  lemma PointsAreRuleValues(a: Achievement)
    ensures PointsFor(a) in {0, 1, 5, 25, 30}
  {
  }

  /** Every key of the category map outside the participation keys contains the
      keyword of an earlier rule. */
  lemma MapKeysCaught(c: string, t: string)
    requires CategoryMapPoints(c) > 0
    ensures c in {"participate", "participation", "participating"}
      || MentionsCertificate(c, t) || MentionsParticipation(c, t) || MentionsWorkshop(c, t)
      || MentionsInternship(c, t) || MentionsFreelancing(c, t)
  {
    StartsWithSelf(c);
    assert Contains(c, c);
    if c == "freelancing" || c == "freelance" {
      assert c[..8] == "freelanc";
      ContainsAt(c, "freelanc", 0);
    }
  }

  /** The category map is reached only for the three participation categories,
      because every other key of the map contains the keyword of an earlier rule. */
  lemma CategoryMapOnlyForParticipation(a: Achievement)
    requires PointsRule(a) == CategoryMapRule
    ensures CategoryText(a) in {"participate", "participation", "participating"}
    ensures PointsFor(a) == 1
  {
    var c := CategoryText(a);
    MapKeysCaught(c, TitleText(a));
    ParticipationKeysScoreOne(c);
    MapRulePoints(a);
  }

  /** The category-map branch awards the map's value. */
  lemma MapRulePoints(a: Achievement)
    ensures PointsRule(a) == CategoryMapRule ==> PointsFor(a) == CategoryMapPoints(CategoryText(a))
  {
  }

  /** The three participation keys map to 1. */
  lemma ParticipationKeysScoreOne(c: string)
    ensures c in {"participate", "participation", "participating"} ==> CategoryMapPoints(c) == 1
  {
  }

  /** A category mentioning "internship" always scores 30: either the win rule
      or the internship rule fires, and both award 30. */
  lemma InternshipCategoryScoresThirty(a: Achievement)
    requires Contains(CategoryText(a), "internship")
    ensures PointsFor(a) == 30
  {
  }

  /** Appending one achievement adds its points exactly when it is approved. */
  lemma TotalPointsAppend(xs: seq<Achievement>, a: Achievement)
    ensures TotalPoints(xs + [a]) == TotalPoints(xs) + (if a.status == "approved" then PointsFor(a) else 0)
  {
    assert (xs + [a])[..|xs + [a]| - 1] == xs;
    var r := ApprovedOnly(xs);
    if a.status == "approved" {
      assert (r + [a])[..|r + [a]| - 1] == r;
    } else {
      assert r + [] == r;
    }
  }

  /** Adding one approved internship raises the total by exactly 30. */
  lemma AddingInternshipAddsThirty(xs: seq<Achievement>, a: Achievement)
    requires a.status == "approved"
    requires Contains(CategoryText(a), "internship")
    ensures TotalPoints(xs + [a]) == TotalPoints(xs) + 30
  {
    TotalPointsAppend(xs, a);
    InternshipCategoryScoresThirty(a);
  }

  /** Achievements that are not approved never contribute. */
  lemma {:induction false} NoneApprovedScoresZero(xs: seq<Achievement>)
    requires forall i :: 0 <= i < |xs| ==> xs[i].status != "approved"
    ensures TotalPoints(xs) == 0
  {
    if xs != [] {
      NoneApprovedScoresZero(xs[..|xs| - 1]);
      assert xs == xs[..|xs| - 1] + [xs[|xs| - 1]];
      TotalPointsAppend(xs[..|xs| - 1], xs[|xs| - 1]);
    }
  }

  // The category fallback as written (shared-utils.js:274-275).

  /** What one approved achievement adds to `totalPoints` as the code is written.
      `pointsMap[category]` reads an object literal, so once the keyword rules have
      failed, a category naming an inherited member ("constructor", "__proto__")
      finds that member, which is truthy, and adds it instead of a number. */
  function PointsForAsWritten(a: Achievement): PointsCell {
    var c := CategoryText(a);
    if PointsRule(a) == NoRule && c in InheritedNames then Inherited(c) else Points(PointsFor(a))
  }

  /** `calculateActivityPoints` as written: the total while it stays a number, None
      once an inherited member has been added and `totalPoints` has become a string. */
  function SumPointsAsWritten(xs: seq<Achievement>): Option<nat> {
    if xs == [] then Some(0)
    else
      match (SumPointsAsWritten(xs[..|xs| - 1]), PointsForAsWritten(xs[|xs| - 1]))
      case (Some(n), Points(p)) => Some(n + p)
      case _ => None
  }

  function TotalPointsAsWritten(xs: seq<Achievement>): Option<nat> {
    SumPointsAsWritten(ApprovedOnly(xs))
  }

  /** An approved achievement in category "constructor" whose title is empty. */
  function ConstructorAchievement(): Achievement {
    Achievement("1", "", "", "constructor", "", [], [], "approved", "", None, None, None, "", None)
  }

  lemma ConstructorText()
    ensures CategoryText(ConstructorAchievement()) == "constructor"
    ensures TitleText(ConstructorAchievement()) == ""
  {
    assert Lower("constructor") == "constructor";
  }

  lemma ConstructorKeywordFree()
    ensures KeywordFree("constructor")
  {
    var c := "constructor";
    assert forall i | 0 <= i < |c| :: c[i] in {'c', 'o', 'n', 's', 't', 'r', 'u'};
  }

  /** A category without any of these letters contains no keyword of the rules. */
  predicate KeywordFree(c: string) {
    'm' !in c && 'e' !in c && 'h' !in c && 'i' !in c && 'f' !in c && 'w' !in c
  }

  /** The empty title contains no keyword. */
  lemma EmptyContainsNone(t: string)
    requires t != []
    ensures !Contains("", t)
  {
  }

  lemma KeywordFreeNotCompetition(c: string)
    requires KeywordFree(c)
    ensures !MentionsCompetition(c, "")
  {
    NotContainsMissingChar(c, "competition", 2);
    NotContainsMissingChar(c, "contest", 4);
    NotContainsMissingChar(c, "hackathon", 0);
    EmptyContainsNone("competition");
    EmptyContainsNone("contest");
    EmptyContainsNone("hackathon");
  }

  lemma KeywordFreeNotInternshipOrFreelancing(c: string)
    requires KeywordFree(c)
    ensures !MentionsInternship(c, "") && !MentionsFreelancing(c, "")
  {
    NotContainsMissingChar(c, "internship", 0);
    NotContainsMissingChar(c, "freelanc", 0);
    EmptyContainsNone("internship");
    EmptyContainsNone("freelanc");
  }

  lemma KeywordFreeNotCertificate(c: string)
    requires KeywordFree(c)
    ensures !MentionsCertificate(c, "")
  {
    NotContainsMissingChar(c, "certificate", 1);
    NotContainsMissingChar(c, "certification", 1);
    EmptyContainsNone("certificate");
    EmptyContainsNone("certification");
  }

  lemma KeywordFreeNotWorkshop(c: string)
    requires KeywordFree(c)
    ensures !MentionsWorkshop(c, "")
  {
    NotContainsMissingChar(c, "workshop", 0);
    NotContainsMissingChar(c, "seminar", 1);
    EmptyContainsNone("workshop");
    EmptyContainsNone("seminar");
  }

  lemma KeywordFreeNotParticipation(c: string)
    requires KeywordFree(c)
    ensures !MentionsParticipation(c, "")
  {
    KeywordFreeNotCompetition(c);
    EmptyContainsNone("participate");
    EmptyContainsNone("participating");
    EmptyContainsNone("participation");
  }

  /** Every own key of the map has an 'e' or an 'i'. */
  lemma KeywordFreeNotMapKey(c: string)
    requires KeywordFree(c)
    ensures CategoryMapPoints(c) == 0
  {
  }

  /** With an empty title, a keyword-free category takes no rule. */
  lemma KeywordFreeNoRule(a: Achievement)
    requires TitleText(a) == "" && KeywordFree(CategoryText(a))
    ensures PointsRule(a) == NoRule
  {
    var c := CategoryText(a);
    KeywordFreeNotCompetition(c);
    KeywordFreeNotInternshipOrFreelancing(c);
    KeywordFreeNotCertificate(c);
    KeywordFreeNotWorkshop(c);
    KeywordFreeNotParticipation(c);
    KeywordFreeNotMapKey(c);
  }

  /** No keyword rule and no own key of the map matches "constructor". */
  lemma ConstructorMatchesNoRule()
    ensures PointsRule(ConstructorAchievement()) == NoRule
  {
    ConstructorText();
    ConstructorKeywordFree();
    KeywordFreeNoRule(ConstructorAchievement());
  }

  /** As written, the fallback can add an inherited member: an approved
      "constructor" achievement turns the total into a string. */
  lemma AsWrittenTotalCanBeText()
    ensures PointsForAsWritten(ConstructorAchievement()).Inherited?
    ensures TotalPointsAsWritten([ConstructorAchievement()]).None?
  {
    var a := ConstructorAchievement();
    ConstructorText();
    ConstructorMatchesNoRule();
    assert CategoryText(a) in InheritedNames;
    assert ApprovedOnly([a]) == ApprovedOnly([]) + [a];
    SumPointsAsWrittenText([a], 0);
  }

  /** Away from the inherited names the lookup as written and the own-key lookup agree. */
  lemma AsWrittenPointsAgree(a: Achievement)
    requires CategoryText(a) !in InheritedNames
    ensures PointsForAsWritten(a) == Points(PointsFor(a))
  {
  }

  /** Every achievement of `xs` adds a number as written. */
  predicate AllNumeric(xs: seq<Achievement>) {
    xs == [] || (AllNumeric(xs[..|xs| - 1]) && PointsForAsWritten(xs[|xs| - 1]).Points?)
  }

  lemma NumericIsPointsFor(a: Achievement)
    requires PointsForAsWritten(a).Points?
    ensures PointsForAsWritten(a) == Points(PointsFor(a))
  {
  }

  /** The total as written stays a number exactly while every achievement adds a
      number, and then it is the corrected total. */
  lemma {:induction false} SumPointsAsWrittenAgrees(xs: seq<Achievement>)
    ensures SumPointsAsWritten(xs).Some? <==> AllNumeric(xs)
    ensures AllNumeric(xs) ==> SumPointsAsWritten(xs) == Some(SumPoints(xs))
  {
    if xs != [] {
      var init, a := xs[..|xs| - 1], xs[|xs| - 1];
      SumPointsAsWrittenAgrees(init);
      if PointsForAsWritten(a).Points? {
        NumericIsPointsFor(a);
      }
    }
  }

  /** Once some achievement adds an inherited member, the total as written is a string. */
  lemma {:induction false} SumPointsAsWrittenText(xs: seq<Achievement>, k: nat)
    requires k < |xs| && PointsForAsWritten(xs[k]).Inherited?
    ensures SumPointsAsWritten(xs).None?
  {
    if k < |xs| - 1 {
      var init := xs[..|xs| - 1];
      assert init[k] == xs[k];
      SumPointsAsWrittenText(init, k);
    }
  }

  // The breakdown (shared-utils.js:304-364).

  datatype Bucket = Certificates | Competitions | Participation | Workshops | Internships | Freelancing

  /** Which counter of the breakdown an achievement increments, in the order of
      shared-utils.js:319-357; the breakdown has no category-map fallback. */
  function BreakdownBucket(a: Achievement): Option<Bucket> {
    var c, t := CategoryText(a), TitleText(a);
    if MentionsCertificate(c, t) then Some(Certificates)
    else if IsCompetitionWin(c, t) then Some(Competitions)
    else if MentionsParticipation(c, t) then Some(Participation)
    else if MentionsWorkshop(c, t) then Some(Workshops)
    else if MentionsInternship(c, t) then Some(Internships)
    else if MentionsFreelancing(c, t) then Some(Freelancing)
    else None
  }

  /** The fixed points each counter adds per achievement. */
  function Rate(b: Bucket): nat {
    match b
    case Certificates => 5
    case Competitions => 30
    case Participation => 1
    case Workshops => 5
    case Internships => 30
    case Freelancing => 25
  }

  /** How many of `xs` fall into bucket `b`. */
  function BucketCount(xs: seq<Achievement>, b: Bucket): nat {
    if xs == [] then 0
    else BucketCount(xs[..|xs| - 1], b) + (if BreakdownBucket(xs[|xs| - 1]) == Some(b) then 1 else 0)
  }

  /** How many of `xs` fall into no bucket at all. */
  function UncountedCount(xs: seq<Achievement>): nat {
    if xs == [] then 0
    else UncountedCount(xs[..|xs| - 1]) + (if BreakdownBucket(xs[|xs| - 1]) == None then 1 else 0)
  }

  datatype Tally = Tally(count: nat, points: nat)

  datatype Breakdown = Breakdown(
    certificates: Tally, competitions: Tally, workshops: Tally,
    internships: Tally, freelancing: Tally, participation: Tally,
    total: nat)

  function TallyOf(b: Breakdown, k: Bucket): Tally {
    match k
    case Certificates => b.certificates
    case Competitions => b.competitions
    case Participation => b.participation
    case Workshops => b.workshops
    case Internships => b.internships
    case Freelancing => b.freelancing
  }

  /** The breakdown is well formed for `approved`: every counter holds the number
      of achievements in its bucket and that number times its rate, and `total`
      is the sum of the six point values. */
  ghost predicate DescribesBreakdown(b: Breakdown, approved: seq<Achievement>) {
    && (forall k: Bucket :: TallyOf(b, k) == Tally(BucketCount(approved, k), Rate(k) * BucketCount(approved, k)))
    && b.total == b.certificates.points + b.competitions.points + b.workshops.points
                + b.internships.points + b.freelancing.points + b.participation.points
  }

  /** Counting one more achievement bumps exactly the counter of its bucket. */
  lemma BreakdownStep(b: Breakdown, b': Breakdown, xs: seq<Achievement>, i: nat)
    requires i < |xs|
    requires forall k: Bucket :: TallyOf(b, k) == Tally(BucketCount(xs[..i], k), Rate(k) * BucketCount(xs[..i], k))
    requires forall k: Bucket :: TallyOf(b', k) ==
               (if BreakdownBucket(xs[i]) == Some(k)
                then Tally(TallyOf(b, k).count + 1, TallyOf(b, k).points + Rate(k))
                else TallyOf(b, k))
    ensures forall k: Bucket :: TallyOf(b', k) == Tally(BucketCount(xs[..i + 1], k), Rate(k) * BucketCount(xs[..i + 1], k))
  {
    forall k: Bucket
      ensures TallyOf(b', k) == Tally(BucketCount(xs[..i + 1], k), Rate(k) * BucketCount(xs[..i + 1], k))
    {
      BucketCountStep(xs, i, k);
      MulSucc(Rate(k), BucketCount(xs[..i], k));
    }
  }

  lemma MulSucc(r: nat, n: nat)
    ensures r * (n + 1) == r * n + r
  {
  }

  lemma BucketCountStep(xs: seq<Achievement>, i: nat, k: Bucket)
    requires i < |xs|
    ensures BucketCount(xs[..i + 1], k) == BucketCount(xs[..i], k) + (if BreakdownBucket(xs[i]) == Some(k) then 1 else 0)
  {
    assert xs[..i + 1][..i] == xs[..i];
  }

  /** Each achievement is counted in at most one bucket. */
  lemma {:induction false} BucketsPartition(xs: seq<Achievement>)
    ensures BucketCount(xs, Certificates) + BucketCount(xs, Competitions) + BucketCount(xs, Participation)
          + BucketCount(xs, Workshops) + BucketCount(xs, Internships) + BucketCount(xs, Freelancing)
          + UncountedCount(xs) == |xs|
  {
    if xs != [] {
      BucketsPartition(xs[..|xs| - 1]);
    }
  }

  /** An approved title naming both an internship and a certificate, with no
      competition term, scores 30 in `calculateActivityPoints` but lands in the
      certificates counter (5 points) of the breakdown, so the two totals differ. */
  lemma InternshipCertificateDiverges(a: Achievement)
    requires a.status == "approved"
    requires Contains(TitleText(a), "internship") && Contains(TitleText(a), "certificate")
    requires !MentionsCompetition(CategoryText(a), TitleText(a))
    ensures TotalPoints([a]) == 30
    ensures BreakdownBucket(a) == Some(Certificates)
    ensures forall b: Breakdown :: DescribesBreakdown(b, ApprovedOnly([a])) ==> b.total == 5
  {
    TotalPointsAppend([], a);
    assert [] + [a] == [a];
    assert [a][..0] == [];
    var xs := ApprovedOnly([a]);
    assert xs == [a];
    forall k: Bucket ensures BucketCount(xs, k) == if k == Certificates then 1 else 0 {
      assert xs[..0] == [];
    }
    forall b: Breakdown | DescribesBreakdown(b, xs) ensures b.total == 5 {
      assert TallyOf(b, Certificates) == Tally(1, 5);
      assert TallyOf(b, Competitions) == Tally(0, 0);
      assert TallyOf(b, Participation) == Tally(0, 0);
      assert TallyOf(b, Workshops) == Tally(0, 0);
      assert TallyOf(b, Internships) == Tally(0, 0);
      assert TallyOf(b, Freelancing) == Tally(0, 0);
    }
  }
}
