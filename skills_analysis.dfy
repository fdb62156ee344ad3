/**
 * The skills analysis page (skills-analysis.js): which skill strings count,
 * how approved achievements are grouped by skill, how each achievement is
 * classified into one of six scoring types, the per-skill proficiency (capped
 * at 135), and the numbers and recommendations derived from it.
 */
module SkillsAnalysis {
  import opened Strings
  import opened Records
  import ActivityPoints

  // ---------------------------------------------------------------------
  // isValidSkill (skills-analysis.js:126-160)

  /** The list of company names and generic terms that are not skills, as written. */
  const InvalidSkills: seq<string> := [
    "IBM", "Google", "Microsoft", "Amazon", "Apple", "Meta", "Facebook",
    "Netflix", "Tesla", "Uber", "Airbnb", "Spotify", "Adobe", "Oracle",
    "Salesforce", "Intel", "NVIDIA", "Samsung", "Sony", "HP", "Dell",
    "Internship", "Job", "Work", "Experience", "Training", "Course",
    "Program", "Workshop", "Seminar", "Conference", "Event", "Project",
    "Competition", "Contest", "Hackathon", "Bootcamp", "Certification",
    "IBM Internship", "Google Internship", "Microsoft Internship",
    "Summer Internship", "Winter Internship", "Full Time", "Part Time"]

  /** `terms.some(t => lowered === t.toLowerCase() || lowered.includes(t.toLowerCase()))`. */
  predicate ListedIn(lowered: string, terms: seq<string>) {
    exists i :: 0 <= i < |terms| && (lowered == Lower(terms[i]) || Contains(lowered, Lower(terms[i])))
  }

  /** The source lower-cases and then trims; lower-casing the trimmed text is the
      same thing (`Strings.LowerTrim`). */
  predicate IsValidSkill(skill: string) {
    var t := Trim(skill);
    !ListedIn(Lower(t), InvalidSkills) && !(Utf16Length(t) < 2) && !AllDigits(t)
  }

  /** Equality with a term is subsumed by containing it. */
  lemma ListedInSpec(lowered: string, terms: seq<string>)
    ensures ListedIn(lowered, terms) <==> exists i :: 0 <= i < |terms| && Contains(lowered, Lower(terms[i]))
  {
    StartsWithSelf(lowered);
  }

  /** A skill is rejected exactly when its lower-cased, trimmed form contains a
      listed term (equality being the special case), when its JavaScript length is
      below two once trimmed, or when it is all digits. */
  lemma InvalidSkillCases(skill: string)
    ensures !IsValidSkill(skill) <==>
      (Utf16Length(Trim(skill)) < 2 || AllDigits(Trim(skill))
       || exists i :: 0 <= i < |InvalidSkills| && Contains(Trim(Lower(skill)), Lower(InvalidSkills[i])))
  {
    LowerTrim(skill);
    ListedInSpec(Lower(Trim(skill)), InvalidSkills);
  }

  /** Containing one listed term is enough to be rejected. */
  lemma ListedTermRejects(skill: string, i: nat)
    requires i < |InvalidSkills|
    requires Contains(Trim(Lower(skill)), Lower(InvalidSkills[i]))
    ensures !IsValidSkill(skill)
  {
    InvalidSkillCases(skill);
  }

  // The two examples of rejection by a contained listed term.

  /** Every skill whose lower-cased, trimmed form contains "hp" is rejected. */
  lemma ContainsHpRejected(skill: string)
    requires Contains(Trim(Lower(skill)), "hp")
    ensures !IsValidSkill(skill)
  {
    assert Lower(InvalidSkills[19]) == "hp" by { assert InvalidSkills[19] == "HP"; }
    ListedTermRejects(skill, 19);
  }

  lemma PhpLowered()
    ensures Trim(Lower("PHP")) == "php"
  {
    assert Lower("PHP") == "php";
    TrimUnpadded("php");
  }

  /** "PHP" is such a skill. */
  lemma PhpContainsHp()
    ensures Contains(Trim(Lower("PHP")), "hp")
  {
    PhpLowered();
    assert "php"[1..3] == "hp";
    ContainsAt("php", "hp", 1);
  }

  /** Every skill whose lower-cased, trimmed form contains "work" is rejected. */
  lemma ContainsWorkRejected(skill: string)
    requires Contains(Trim(Lower(skill)), "work")
    ensures !IsValidSkill(skill)
  {
    assert Lower(InvalidSkills[23]) == "work" by { assert InvalidSkills[23] == "Work"; }
    ListedTermRejects(skill, 23);
  }

  lemma NetworkingLowered()
    ensures Trim(Lower("Networking")) == "networking"
  {
    assert Lower("Networking") == "networking";
    TrimUnpadded("networking");
  }

  /** "Networking" is such a skill. */
  lemma NetworkingContainsWork()
    ensures Contains(Trim(Lower("Networking")), "work")
  {
    NetworkingLowered();
    assert "networking"[3..7] == "work";
    ContainsAt("networking", "work", 3);
  }

  // ---------------------------------------------------------------------
  // mapAchievementType (skills-analysis.js:612-687)

  /** The six scoring keys of `achievementCounts`. */
  datatype ScoreType = Certificate | CompetitionWin | Workshop | Internship | Freelance | CompetitionParticipate

  predicate TitleWinTerm(t: string) {
    Contains(t, "1st") || Contains(t, "first") || Contains(t, "winner") ||
    Contains(t, "won") || Contains(t, "champion") || Contains(t, "gold") ||
    Contains(t, "silver") || Contains(t, "bronze") || Contains(t, "win")
  }

  predicate CompetitionContext(t: string, c: string) {
    Contains(t, "competition") || Contains(t, "contest") || Contains(t, "hackathon") ||
    Contains(c, "competition-win") || Contains(c, "competition")
  }

  predicate InternshipTerm(k: string, t: string, c: string) {
    Contains(t, "internship") || Contains(t, "intern") || Contains(c, "internship") || Contains(k, "internship")
  }

  predicate FreelanceTerm(k: string, t: string, c: string) {
    Contains(t, "freelance") || Contains(c, "freelance") || Contains(k, "freelance")
  }

  predicate CertificateTerm(k: string, t: string, c: string) {
    Contains(t, "certificate") || Contains(t, "certification") || Contains(c, "certificate") || Contains(k, "certificate")
  }

  predicate WorkshopTerm(k: string, t: string, c: string) {
    Contains(t, "workshop") || Contains(t, "seminar") ||
    Contains(c, "workshop") || Contains(c, "seminar") ||
    Contains(k, "workshop") || Contains(k, "seminar")
  }

  predicate ProjectTerm(k: string, t: string, c: string) {
    Contains(t, "project") || Contains(c, "project") || Contains(k, "project")
  }

  predicate ParticipationTerm(t: string, c: string) {
    Contains(t, "competition") || Contains(t, "contest") || Contains(t, "hackathon") ||
    Contains(c, "competition") || Contains(t, "participate") || Contains(t, "participating")
  }

  /** The scoring type of an achievement; the tests run in source order on the
      lower-cased type, title and category. The technical-terms test and the
      default both return Certificate, so they are one final branch here. */
  function MapAchievementType(kind: string, title: string, category: string): ScoreType {
    var t, c, k := Lower(title), Lower(category), Lower(kind);
    if TitleWinTerm(t) && CompetitionContext(t, c) then CompetitionWin
    else if InternshipTerm(k, t, c) then Internship
    else if FreelanceTerm(k, t, c) then Freelance
    else if CertificateTerm(k, t, c) then Certificate
    else if WorkshopTerm(k, t, c) then Workshop
    else if ProjectTerm(k, t, c) then Freelance
    else if ParticipationTerm(t, c) then CompetitionParticipate
    else Certificate
  }

  /** A win term with a competition context wins over every later rule, even when
      the title also names an internship or a certificate; and it is the only way
      to score as a competition win. */
  lemma WinTakesPriority(kind: string, title: string, category: string)
    ensures MapAchievementType(kind, title, category) == CompetitionWin <==>
            TitleWinTerm(Lower(title)) && CompetitionContext(Lower(title), Lower(category))
  {
  }

  /** Any title containing "intern" (so also "international") is an internship
      unless the win rule fires first. */
  lemma InternSubstringIsInternship(kind: string, title: string, category: string)
    requires Contains(Lower(title), "intern")
    requires !(TitleWinTerm(Lower(title)) && CompetitionContext(Lower(title), Lower(category)))
    ensures MapAchievementType(kind, title, category) == Internship
  {
  }

  /** Project work scores as freelance when no earlier rule matched. */
  lemma ProjectIsFreelance(kind: string, title: string, category: string)
    requires Contains(Lower(category), "project")
    requires !(TitleWinTerm(Lower(title)) && CompetitionContext(Lower(title), Lower(category)))
    requires !InternshipTerm(Lower(kind), Lower(title), Lower(category))
    requires !CertificateTerm(Lower(kind), Lower(title), Lower(category))
    requires !WorkshopTerm(Lower(kind), Lower(title), Lower(category))
    ensures MapAchievementType(kind, title, category) == Freelance
  {
  }

  /** An achievement with no recognised keyword at all is scored as a certificate. */
  lemma UnrecognisedIsCertificate(kind: string, title: string, category: string)
    requires !InternshipTerm(Lower(kind), Lower(title), Lower(category))
    requires !FreelanceTerm(Lower(kind), Lower(title), Lower(category))
    requires !WorkshopTerm(Lower(kind), Lower(title), Lower(category))
    requires !ProjectTerm(Lower(kind), Lower(title), Lower(category))
    requires !ParticipationTerm(Lower(title), Lower(category))
    ensures MapAchievementType(kind, title, category) == Certificate
  {
    var c := Lower(category);
    if Contains(c, "competition-win") {
      assert "competition-win" == "competition" + "-win";
      ContainsPrefix(c, "competition", "-win");
    }
  }

  // ---------------------------------------------------------------------
  // calculateSkillProficiency (skills-analysis.js:549-609)

  /** What a skill remembers of each achievement that mentions it. */
  datatype SkillRef = SkillRef(title: string, kind: string, category: string)

  function RefType(r: SkillRef): ScoreType {
    MapAchievementType(r.kind, r.title, r.category)
  }

  datatype TypeCounts = TypeCounts(
    certificate: nat, competitionWin: nat, workshop: nat,
    internship: nat, freelance: nat, competitionParticipate: nat)

  function Bump(c: TypeCounts, t: ScoreType): TypeCounts {
    match t
    case Certificate => c.(certificate := c.certificate + 1)
    case CompetitionWin => c.(competitionWin := c.competitionWin + 1)
    case Workshop => c.(workshop := c.workshop + 1)
    case Internship => c.(internship := c.internship + 1)
    case Freelance => c.(freelance := c.freelance + 1)
    case CompetitionParticipate => c.(competitionParticipate := c.competitionParticipate + 1)
  }

  function CountOfType(c: TypeCounts, t: ScoreType): nat {
    match t
    case Certificate => c.certificate
    case CompetitionWin => c.competitionWin
    case Workshop => c.workshop
    case Internship => c.internship
    case Freelance => c.freelance
    case CompetitionParticipate => c.competitionParticipate
  }

  /** The counts after classifying every reference. */
  function CountTypes(refs: seq<SkillRef>): TypeCounts {
    if refs == [] then TypeCounts(0, 0, 0, 0, 0, 0)
    else Bump(CountTypes(refs[..|refs| - 1]), RefType(refs[|refs| - 1]))
  }

  function Min(a: nat, b: nat): nat { if a < b then a else b }

  const ProficiencyCap: nat := 135

  /** The uncapped score: each type's count is capped, then weighted. */
  function RawProficiency(c: TypeCounts): nat {
    Min(c.certificate, 2) * 5 + Min(c.competitionWin, 1) * 30 + Min(c.workshop, 1) * 5
    + Min(c.internship, 2) * 30 + Min(c.freelance, 1) * 25 + Min(c.competitionParticipate, 5) * 1
  }

  function Proficiency(refs: seq<SkillRef>): nat {
    Min(RawProficiency(CountTypes(refs)), ProficiencyCap)
  }

  /** The `achievementCounts` loop followed by the capped weighted sum. */
  method CalculateSkillProficiency(refs: seq<SkillRef>) returns (score: nat)
    ensures score == Proficiency(refs)
    ensures score <= ProficiencyCap
  {
    var counts := TypeCounts(0, 0, 0, 0, 0, 0);
    var i := 0;
    while i < |refs|
      invariant i <= |refs|
      invariant counts == CountTypes(refs[..i])
    {
      assert refs[..i + 1][..i] == refs[..i];
      var t := MapAchievementType(refs[i].kind, refs[i].title, refs[i].category);
      match t {
        case Certificate => counts := counts.(certificate := counts.certificate + 1);
        case CompetitionWin => counts := counts.(competitionWin := counts.competitionWin + 1);
        case Workshop => counts := counts.(workshop := counts.workshop + 1);
        case Internship => counts := counts.(internship := counts.internship + 1);
        case Freelance => counts := counts.(freelance := counts.freelance + 1);
        case CompetitionParticipate => counts := counts.(competitionParticipate := counts.competitionParticipate + 1);
      }
      i := i + 1;
    }
    assert refs[..|refs|] == refs;
    var total := 0;
    total := total + Min(counts.certificate, 2) * 5;
    total := total + Min(counts.competitionWin, 1) * 30;
    total := total + Min(counts.workshop, 1) * 5;
    total := total + Min(counts.internship, 2) * 30;
    total := total + Min(counts.freelance, 1) * 25;
    total := total + Min(counts.competitionParticipate, 5) * 1;
    score := Min(total, ProficiencyCap);
  }

  /** The per-type caps add up to exactly 135, so the final clamp never lowers a score. */
  lemma RawProficiencyAtMostCap(c: TypeCounts)
    ensures RawProficiency(c) <= ProficiencyCap
    ensures Proficiency([]) == 0
  {
  }

  lemma CountOfBump(c: TypeCounts, t: ScoreType, u: ScoreType)
    ensures CountOfType(Bump(c, t), u) == CountOfType(c, u) + (if t == u then 1 else 0)
  {
  }

  /** A bumped count never scores less. */
  lemma RawBumpMonotone(c: TypeCounts, t: ScoreType)
    ensures RawProficiency(Bump(c, t)) >= RawProficiency(c)
  {
  }

  /** Every reference is counted under exactly one type. */
  lemma {:induction false} CountTypesTotal(refs: seq<SkillRef>)
    ensures var c := CountTypes(refs);
      c.certificate + c.competitionWin + c.workshop + c.internship + c.freelance + c.competitionParticipate == |refs|
  {
    if refs != [] {
      CountTypesTotal(refs[..|refs| - 1]);
    }
  }

  /** When every reference classifies as `t`, all of them are counted under `t`. */
  lemma {:induction false} CountTypesUniform(refs: seq<SkillRef>, t: ScoreType)
    requires forall i :: 0 <= i < |refs| ==> RefType(refs[i]) == t
    ensures CountOfType(CountTypes(refs), t) == |refs|
    ensures forall u :: u != t ==> CountOfType(CountTypes(refs), u) == 0
  {
    if refs != [] {
      var init := refs[..|refs| - 1];
      CountTypesUniform(init, t);
      forall u ensures CountOfType(CountTypes(refs), u) == CountOfType(CountTypes(init), u) + (if t == u then 1 else 0) {
        CountOfBump(CountTypes(init), t, u);
      }
    }
  }

  /** Five (or any number of at least two) internships give exactly 60: only two count. */
  lemma InternshipsCappedAtSixty(refs: seq<SkillRef>)
    requires |refs| >= 2
    requires forall i :: 0 <= i < |refs| ==> RefType(refs[i]) == Internship
    ensures Proficiency(refs) == 60
  {
    CountTypesUniform(refs, Internship);
    var c := CountTypes(refs);
    assert c.certificate == CountOfType(c, Certificate);
    assert c.competitionWin == CountOfType(c, CompetitionWin);
    assert c.workshop == CountOfType(c, Workshop);
    assert c.freelance == CountOfType(c, Freelance);
    assert c.competitionParticipate == CountOfType(c, CompetitionParticipate);
  }

  /** One more achievement mentioning a skill never lowers its proficiency. */
  lemma ProficiencyMonotone(refs: seq<SkillRef>, r: SkillRef)
    ensures Proficiency(refs + [r]) >= Proficiency(refs)
  {
    assert (refs + [r])[..|refs + [r]| - 1] == refs;
    assert CountTypes(refs + [r]) == Bump(CountTypes(refs), RefType(r));
    RawBumpMonotone(CountTypes(refs), RefType(r));
  }

  // ---------------------------------------------------------------------
  // extractSkillsFromAchievements (skills-analysis.js:162-224)

  /** The entry `skillsMap` keeps per skill string while grouping. */
  datatype SkillEntry = SkillEntry(name: string, count: nat, categories: seq<string>, refs: seq<SkillRef>)

  /** A grouped skill with its proficiency; `category` is the first category seen.
      (`verified` is always true and `level` equals `proficiency`.) */
  datatype Skill = Skill(name: string, count: nat, categories: seq<string>, refs: seq<SkillRef>,
                         proficiency: nat, category: string)

  datatype SkillsData = SkillsData(skills: seq<Skill>, totalAchievements: nat,
                                   approvedAchievements: nat, verifiedSkills: nat)

  function CategoryOr(a: Achievement): string {
    if a.category == "" then "General" else a.category
  }

  function RefOf(a: Achievement): SkillRef {
    SkillRef(a.title, if a.kind == "" then "general" else a.kind, CategoryOr(a))
  }

  /** `Set.add` on an insertion-ordered set. */
  function AddUnique(xs: seq<string>, x: string): (r: seq<string>)
    ensures x in r && forall y :: y in xs ==> y in r
  {
    if x in xs then xs else xs + [x]
  }

  /** Position of the entry for `name`, or -1 (`skillsMap.has` / `get`). */
  function IndexOfName(m: seq<SkillEntry>, name: string): (k: int)
    ensures -1 <= k < |m|
    ensures k >= 0 ==> m[k].name == name
    ensures k < 0 ==> forall j :: 0 <= j < |m| ==> m[j].name != name
  {
    if m == [] then -1
    else if m[|m| - 1].name == name then |m| - 1
    else IndexOfName(m[..|m| - 1], name)
  }

  /** One valid skill of one approved achievement. */
  datatype Occurrence = Occurrence(skill: string, source: Achievement)

  /** The occurrences of the valid skills among `skills`, all from `a`, in order. */
  function ValidOccurrencesIn(a: Achievement, skills: seq<string>): seq<Occurrence> {
    if skills == [] then []
    else
      var s := skills[|skills| - 1];
      ValidOccurrencesIn(a, skills[..|skills| - 1]) + (if IsValidSkill(s) then [Occurrence(s, a)] else [])
  }

  /** The valid occurrences the nested `forEach` visits: achievement by
      achievement, skill by skill. */
  function Occurrences(xs: seq<Achievement>): seq<Occurrence> {
    if xs == [] then []
    else Occurrences(xs[..|xs| - 1]) + ValidOccurrencesIn(xs[|xs| - 1], xs[|xs| - 1].skills)
  }

  /** One occurrence added to the map: a new entry, or the existing one updated. */
  function AddOccurrence(m: seq<SkillEntry>, p: Occurrence): seq<SkillEntry> {
    var k := IndexOfName(m, p.skill);
    if k < 0 then m + [SkillEntry(p.skill, 1, [CategoryOr(p.source)], [RefOf(p.source)])]
    else m[k := m[k].(count := m[k].count + 1,
                       categories := AddUnique(m[k].categories, CategoryOr(p.source)),
                       refs := m[k].refs + [RefOf(p.source)])]
  }

  /** The map after feeding it the occurrences in order. */
  function Group(ps: seq<Occurrence>): seq<SkillEntry> {
    if ps == [] then [] else AddOccurrence(Group(ps[..|ps| - 1]), ps[|ps| - 1])
  }

  /** How often `name` occurs among `ps`. */
  function CountName(ps: seq<Occurrence>, name: string): nat {
    if ps == [] then 0
    else CountName(ps[..|ps| - 1], name) + (if ps[|ps| - 1].skill == name then 1 else 0)
  }

  /** The references of the occurrences of `name`, in order. */
  function RefsFor(ps: seq<Occurrence>, name: string): seq<SkillRef> {
    if ps == [] then []
    else RefsFor(ps[..|ps| - 1], name) + (if ps[|ps| - 1].skill == name then [RefOf(ps[|ps| - 1].source)] else [])
  }

  function Names(m: seq<SkillEntry>): set<string> {
    set e | e in m :: e.name
  }

  ghost predicate DistinctNames(m: seq<SkillEntry>) {
    forall i, j :: 0 <= i < j < |m| ==> m[i].name != m[j].name
  }

  /** What grouping promises: one entry per distinct skill string, whose count is
      its (positive) number of occurrences and whose references are those of its
      occurrences in order. */
  ghost predicate GroupedCorrectly(m: seq<SkillEntry>, ps: seq<Occurrence>) {
    && DistinctNames(m)
    && (forall e :: e in m ==> e.count == CountName(ps, e.name) && e.count > 0
                               && e.refs == RefsFor(ps, e.name) && |e.categories| > 0)
    && (forall k :: 0 <= k < |ps| ==> ps[k].skill in Names(m))
  }

  lemma {:induction false} RefsForCount(ps: seq<Occurrence>, name: string)
    ensures |RefsFor(ps, name)| == CountName(ps, name)
  {
    if ps != [] {
      RefsForCount(ps[..|ps| - 1], name);
    }
  }

  lemma {:induction false} CountNamePositive(ps: seq<Occurrence>, name: string) returns (k: nat)
    requires CountName(ps, name) > 0
    ensures k < |ps| && ps[k].skill == name
  {
    if ps[|ps| - 1].skill == name {
      k := |ps| - 1;
    } else {
      k := CountNamePositive(ps[..|ps| - 1], name);
    }
  }

  /** A name that occurs has an entry. */
  lemma CountedIsNamed(m: seq<SkillEntry>, ps: seq<Occurrence>, name: string)
    requires GroupedCorrectly(m, ps)
    ensures CountName(ps, name) > 0 ==> name in Names(m)
  {
    if CountName(ps, name) > 0 {
      var k := CountNamePositive(ps, name);
      assert ps[k].skill in Names(m);
    }
  }

  /** A name without an entry has not occurred yet. */
  lemma NameAbsentCountZero(m: seq<SkillEntry>, ps: seq<Occurrence>, name: string)
    requires GroupedCorrectly(m, ps)
    requires forall j :: 0 <= j < |m| ==> m[j].name != name
    ensures CountName(ps, name) == 0
  {
    CountedIsNamed(m, ps, name);
    forall e | e in m ensures e.name != name {
      var j :| 0 <= j < |m| && m[j] == e;
    }
  }

  /** The first occurrence of a skill appends a fresh entry. */
  lemma AddNewCorrect(m: seq<SkillEntry>, qs: seq<Occurrence>, p: Occurrence)
    requires GroupedCorrectly(m, qs)
    requires IndexOfName(m, p.skill) < 0
    ensures GroupedCorrectly(AddOccurrence(m, p), qs + [p])
  {
    var ps := qs + [p];
    assert ps[..|ps| - 1] == qs;
    var e := SkillEntry(p.skill, 1, [CategoryOr(p.source)], [RefOf(p.source)]);
    var m' := m + [e];
    assert AddOccurrence(m, p) == m';
    NameAbsentCountZero(m, qs, p.skill);
    RefsForCount(qs, p.skill);
    assert e.count == CountName(ps, e.name);
    assert e.refs == RefsFor(ps, e.name);
    forall k | 0 <= k < |ps| ensures ps[k].skill in Names(m') {
      if k < |qs| {
        assert ps[k] == qs[k];
        assert ps[k].skill in Names(m);
        var x :| x in m && x.name == ps[k].skill;
        assert x in m';
      } else {
        assert e in m';
      }
    }
  }

  /** A later occurrence updates the entry in place. */
  lemma AddExistingCorrect(m: seq<SkillEntry>, qs: seq<Occurrence>, p: Occurrence)
    requires GroupedCorrectly(m, qs)
    requires IndexOfName(m, p.skill) >= 0
    ensures GroupedCorrectly(AddOccurrence(m, p), qs + [p])
  {
    var ps := qs + [p];
    assert ps[..|ps| - 1] == qs;
    var k := IndexOfName(m, p.skill);
    var m' := AddOccurrence(m, p);
    assert |m'| == |m|;
    assert forall i :: 0 <= i < |m| ==> m'[i].name == m[i].name;
    assert m[k] in m;
    forall x | x in m' ensures x.count == CountName(ps, x.name) && x.count > 0
                                && x.refs == RefsFor(ps, x.name) && |x.categories| > 0 {
      var i :| 0 <= i < |m'| && m'[i] == x;
      assert m[i] in m;
    }
    forall j | 0 <= j < |ps| ensures ps[j].skill in Names(m') {
      if j < |qs| {
        assert ps[j] == qs[j];
        assert ps[j].skill in Names(m);
        var x :| x in m && x.name == ps[j].skill;
        var i :| 0 <= i < |m| && m[i] == x;
        assert m'[i] in m';
      } else {
        assert m'[k] in m';
      }
    }
  }

  /** Grouping is correct for every sequence of occurrences. */
  lemma {:induction false} GroupCorrect(ps: seq<Occurrence>)
    ensures GroupedCorrectly(Group(ps), ps)
  {
    if ps != [] {
      var qs := ps[..|ps| - 1];
      var p := ps[|ps| - 1];
      GroupCorrect(qs);
      assert qs + [p] == ps;
      if IndexOfName(Group(qs), p.skill) < 0 {
        AddNewCorrect(Group(qs), qs, p);
      } else {
        AddExistingCorrect(Group(qs), qs, p);
      }
    }
  }

  /** Occurrences are of valid skills only. */
  lemma {:induction false} OccurrencesValid(xs: seq<Achievement>)
    ensures forall k :: 0 <= k < |Occurrences(xs)| ==> IsValidSkill(Occurrences(xs)[k].skill)
  {
    if xs != [] {
      OccurrencesValid(xs[..|xs| - 1]);
      ValidOccurrencesInValid(xs[|xs| - 1], xs[|xs| - 1].skills);
    }
  }

  lemma {:induction false} ValidOccurrencesInValid(a: Achievement, skills: seq<string>)
    ensures forall k :: 0 <= k < |ValidOccurrencesIn(a, skills)| ==> IsValidSkill(ValidOccurrencesIn(a, skills)[k].skill)
  {
    if skills != [] {
      ValidOccurrencesInValid(a, skills[..|skills| - 1]);
    }
  }

  /** Number of times `name` appears in the skill lists of `xs`. */
  function Mentions(xs: seq<Achievement>, name: string): nat {
    if xs == [] then 0 else Mentions(xs[..|xs| - 1], name) + CountStatus(xs[|xs| - 1].skills, name)
  }

  lemma {:induction false} CountNameAppend(ps: seq<Occurrence>, qs: seq<Occurrence>, name: string)
    ensures CountName(ps + qs, name) == CountName(ps, name) + CountName(qs, name)
    decreases |qs|
  {
    if qs == [] {
      assert ps + qs == ps;
    } else {
      assert (ps + qs)[..|ps + qs| - 1] == ps + qs[..|qs| - 1];
      CountNameAppend(ps, qs[..|qs| - 1], name);
    }
  }

  lemma {:induction false} ValidOccurrencesInCount(a: Achievement, skills: seq<string>, name: string)
    requires IsValidSkill(name)
    ensures CountName(ValidOccurrencesIn(a, skills), name) == CountStatus(skills, name)
  {
    if skills != [] {
      var s := skills[|skills| - 1];
      ValidOccurrencesInCount(a, skills[..|skills| - 1], name);
      CountNameAppend(ValidOccurrencesIn(a, skills[..|skills| - 1]), if IsValidSkill(s) then [Occurrence(s, a)] else [], name);
      assert [Occurrence(s, a)][..0] == [];
    }
  }

  /** For a valid skill, its occurrences are exactly its mentions. */
  lemma {:induction false} OccurrencesCount(xs: seq<Achievement>, name: string)
    requires IsValidSkill(name)
    ensures CountName(Occurrences(xs), name) == Mentions(xs, name)
  {
    if xs != [] {
      var a := xs[|xs| - 1];
      OccurrencesCount(xs[..|xs| - 1], name);
      CountNameAppend(Occurrences(xs[..|xs| - 1]), ValidOccurrencesIn(a, a.skills), name);
      ValidOccurrencesInCount(a, a.skills, name);
    }
  }

  /** The skill reported for an entry; the first category is the primary one
      (an entry always has one, see `ExtractedSkillAt`). */
  function ToSkill(e: SkillEntry): Skill {
    Skill(e.name, e.count, e.categories, e.refs, Proficiency(e.refs),
          if e.categories == [] then "" else e.categories[0])
  }

  function SkillsOf(m: seq<SkillEntry>): (r: seq<Skill>)
    ensures |r| == |m| && forall i :: 0 <= i < |m| ==> r[i] == ToSkill(m[i])
  {
    if m == [] then []
    else
      var init := SkillsOf(m[..|m| - 1]);
      assert forall i :: 0 <= i < |m| - 1 ==> (init + [ToSkill(m[|m| - 1])])[i] == init[i] && m[..|m| - 1][i] == m[i];
      init + [ToSkill(m[|m| - 1])]
  }

  /** What `extractSkillsFromAchievements` returns for the stored achievements. */
  function Extracted(achievements: seq<Achievement>): SkillsData {
    var approved := ActivityPoints.ApprovedOnly(achievements);
    var skills := SkillsOf(Group(Occurrences(approved)));
    SkillsData(skills, |achievements|, |approved|, |skills|)
  }

  /** The distinct valid skill strings of `xs`. */
  function SkillNames(xs: seq<Achievement>): set<string> {
    SkillStrings(Occurrences(xs))
  }

  /** The distinct skill strings of some occurrences. */
  function SkillStrings(ps: seq<Occurrence>): set<string> {
    set p | p in ps :: p.skill
  }

  /** Appending an entry adds its name. */
  lemma NamesSnoc(init: seq<SkillEntry>, e: SkillEntry)
    ensures Names(init + [e]) == Names(init) + {e.name}
  {
    forall x | x in init + [e] ensures x in init || x == e {
    }
  }

  /** Dropping the last entry keeps the names distinct, and its name is not among the rest. */
  lemma DistinctInit(m: seq<SkillEntry>)
    requires m != [] && DistinctNames(m)
    ensures DistinctNames(m[..|m| - 1])
    ensures m[|m| - 1].name !in Names(m[..|m| - 1])
  {
    var init := m[..|m| - 1];
    forall i, j | 0 <= i < j < |init| ensures init[i].name != init[j].name {
      assert init[i] == m[i] && init[j] == m[j];
    }
    forall e | e in init ensures e.name != m[|m| - 1].name {
      var i :| 0 <= i < |init| && init[i] == e;
      assert m[i] == e;
    }
  }

  lemma {:induction false} DistinctNamesCard(m: seq<SkillEntry>)
    requires DistinctNames(m)
    ensures |Names(m)| == |m|
  {
    if m != [] {
      var init, last := m[..|m| - 1], m[|m| - 1];
      assert m == init + [last];
      DistinctInit(m);
      DistinctNamesCard(init);
      NamesSnoc(init, last);
    }
  }

  /** One more skill of the same achievement: a valid one is added to the map. */
  lemma GroupStep(done: seq<Occurrence>, a: Achievement, j: nat)
    requires j < |a.skills|
    ensures Group(done + ValidOccurrencesIn(a, a.skills[..j + 1])) ==
      if IsValidSkill(a.skills[j]) then AddOccurrence(Group(done + ValidOccurrencesIn(a, a.skills[..j])), Occurrence(a.skills[j], a))
      else Group(done + ValidOccurrencesIn(a, a.skills[..j]))
  {
    assert a.skills[..j + 1][..j] == a.skills[..j];
    var before := done + ValidOccurrencesIn(a, a.skills[..j]);
    if IsValidSkill(a.skills[j]) {
      var after := before + [Occurrence(a.skills[j], a)];
      assert done + ValidOccurrencesIn(a, a.skills[..j + 1]) == after;
      assert after[..|after| - 1] == before;
    } else {
      assert done + ValidOccurrencesIn(a, a.skills[..j + 1]) == before;
    }
  }

  /** The body of the inner `forEach`: `skillsMap.has` / `get` / `set` for one skill. */
  method AddSkill(skillsMap: seq<SkillEntry>, skill: string, a: Achievement) returns (r: seq<SkillEntry>)
    ensures r == if IsValidSkill(skill) then AddOccurrence(skillsMap, Occurrence(skill, a)) else skillsMap
  {
    r := skillsMap;
    if IsValidSkill(skill) {
      var k := IndexOfName(r, skill);
      if k >= 0 {
        var existing := r[k];
        existing := existing.(count := existing.count + 1);
        existing := existing.(categories := AddUnique(existing.categories, CategoryOr(a)));
        existing := existing.(refs := existing.refs + [RefOf(a)]);
        r := r[k := existing];
      } else {
        r := r + [SkillEntry(skill, 1, [CategoryOr(a)], [RefOf(a)])];
      }
    }
  }

  /** The inner `forEach`: the skills of one approved achievement, added to the map. */
  method AddAchievementSkills(skillsMap: seq<SkillEntry>, ghost done: seq<Occurrence>, a: Achievement)
    returns (r: seq<SkillEntry>)
    requires skillsMap == Group(done)
    ensures r == Group(done + ValidOccurrencesIn(a, a.skills))
  {
    r := skillsMap;
    var j := 0;
    assert done + ValidOccurrencesIn(a, a.skills[..0]) == done;
    while j < |a.skills|
      invariant j <= |a.skills|
      invariant r == Group(done + ValidOccurrencesIn(a, a.skills[..j]))
    {
      GroupStep(done, a, j);
      r := AddSkill(r, a.skills[j], a);
      j := j + 1;
    }
    assert a.skills[..|a.skills|] == a.skills;
  }

  /** The nested `forEach` over the approved achievements and their skills. */
  method GroupApproved(approved: seq<Achievement>) returns (skillsMap: seq<SkillEntry>)
    ensures skillsMap == Group(Occurrences(approved))
  {
    skillsMap := [];
    var i := 0;
    while i < |approved|
      invariant i <= |approved|
      invariant skillsMap == Group(Occurrences(approved[..i]))
    {
      assert approved[..i + 1][..i] == approved[..i];
      skillsMap := AddAchievementSkills(skillsMap, Occurrences(approved[..i]), approved[i]);
      i := i + 1;
    }
    assert approved[..|approved|] == approved;
  }

  /** The `map` callback: one grouped skill with its proficiency and primary category. */
  method ScoreEntry(e: SkillEntry) returns (skill: Skill)
    ensures skill == ToSkill(e)
  {
    var proficiency := CalculateSkillProficiency(e.refs);
    var primary := if e.categories == [] then "" else e.categories[0];
    skill := Skill(e.name, e.count, e.categories, e.refs, proficiency, primary);
  }

  /** The `map` computing the proficiency of every grouped skill. */
  method SkillsWithProficiency(skillsMap: seq<SkillEntry>) returns (skills: seq<Skill>)
    ensures skills == SkillsOf(skillsMap)
  {
    skills := [];
    var n := 0;
    while n < |skillsMap|
      invariant n <= |skillsMap|
      invariant skills == SkillsOf(skillsMap[..n])
    {
      assert skillsMap[..n + 1][..n] == skillsMap[..n];
      var skill := ScoreEntry(skillsMap[n]);
      skills := skills + [skill];
      n := n + 1;
    }
    assert skillsMap[..n] == skillsMap;
  }

  /** `extractSkillsFromAchievements`: group the skills of the approved
      achievements, then score every group. */
  method ExtractSkillsFromAchievements(achievements: seq<Achievement>) returns (data: SkillsData)
    ensures data == Extracted(achievements)
  {
    var approved := ActivityPoints.ApprovedOnly(achievements);
    var skillsMap := GroupApproved(approved);
    var skills := SkillsWithProficiency(skillsMap);
    data := SkillsData(skills, |achievements|, |approved|, |skills|);
  }

  /** The grouped names are exactly the occurring skill strings, one entry each. */
  lemma GroupNames(ps: seq<Occurrence>)
    ensures Names(Group(ps)) == SkillStrings(ps)
    ensures |Group(ps)| == |SkillStrings(ps)|
  {
    var m := Group(ps);
    GroupCorrect(ps);
    forall name | name in Names(m) ensures name in SkillStrings(ps) {
      var e :| e in m && e.name == name;
      var k := CountNamePositive(ps, e.name);
      assert ps[k] in ps;
    }
    forall p | p in ps ensures p.skill in Names(m) {
      var k :| 0 <= k < |ps| && ps[k] == p;
    }
    DistinctNamesCard(m);
  }

  /** Each grouped entry of the approved achievements is a valid skill whose count
      is its number of mentions. */
  lemma EntryFacts(approved: seq<Achievement>, e: SkillEntry)
    requires e in Group(Occurrences(approved))
    ensures IsValidSkill(e.name)
    ensures e.count == Mentions(approved, e.name) > 0
    ensures e.count == |e.refs| && e.refs == RefsFor(Occurrences(approved), e.name)
    ensures |e.categories| > 0
  {
    var ps := Occurrences(approved);
    GroupCorrect(ps);
    RefsForCount(ps, e.name);
    var k := CountNamePositive(ps, e.name);
    OccurrencesValid(approved);
    assert IsValidSkill(ps[k].skill);
    OccurrencesCount(approved, e.name);
  }

  /** One reported skill: valid, counted by its mentions in approved skill lists
      and by the length of its achievement list, scored by `Proficiency`. */
  lemma ExtractedSkillAt(achievements: seq<Achievement>, i: nat)
    requires i < |Extracted(achievements).skills|
    ensures var s := Extracted(achievements).skills[i];
      var approved := ActivityPoints.ApprovedOnly(achievements);
      && IsValidSkill(s.name)
      && s.count == Mentions(approved, s.name) > 0
      && s.count == |s.refs|
      && s.refs == RefsFor(Occurrences(approved), s.name)
      && s.proficiency == Proficiency(s.refs)
      && |s.categories| > 0 && s.category == s.categories[0]
  {
    var m := Group(Occurrences(ActivityPoints.ApprovedOnly(achievements)));
    assert m[i] in m;
    EntryFacts(ActivityPoints.ApprovedOnly(achievements), m[i]);
  }

  /** Reporting keeps the entries' names, position by position. */
  lemma SkillsOfNames(m: seq<SkillEntry>)
    requires DistinctNames(m)
    ensures var skills := SkillsOf(m);
      && (forall i, j :: 0 <= i < j < |skills| ==> skills[i].name != skills[j].name)
      && (forall name :: name in Names(m) <==> exists i :: 0 <= i < |skills| && skills[i].name == name)
  {
    var skills := SkillsOf(m);
    forall name | name in Names(m)
      ensures exists q :: 0 <= q < |skills| && skills[q].name == name
    {
      var e :| e in m && e.name == name;
      var q :| 0 <= q < |m| && m[q] == e;
      assert skills[q].name == e.name;
    }
    forall q | 0 <= q < |skills| ensures skills[q].name in Names(m) {
      assert m[q] in m;
    }
  }

  /** The skills reported for a grouping carry distinct names, exactly the
      occurring skill strings. */
  lemma SkillsOfGroupNames(ps: seq<Occurrence>)
    ensures var skills := SkillsOf(Group(ps));
      && |skills| == |SkillStrings(ps)|
      && (forall i, j :: 0 <= i < j < |skills| ==> skills[i].name != skills[j].name)
      && (forall name :: name in SkillStrings(ps) <==>
            exists i :: 0 <= i < |skills| && skills[i].name == name)
  {
    GroupCorrect(ps);
    GroupNames(ps);
    SkillsOfNames(Group(ps));
  }

  /** Only approved achievements are read; the reported names are distinct and are
      exactly the distinct valid skill strings, so `verifiedSkills` is their number. */
  lemma ExtractedNames(achievements: seq<Achievement>)
    ensures var data := Extracted(achievements);
      var approved := ActivityPoints.ApprovedOnly(achievements);
      && data.totalAchievements == |achievements|
      && data.approvedAchievements == |approved|
      && data.verifiedSkills == |data.skills| == |SkillNames(approved)|
      && (forall i, j :: 0 <= i < j < |data.skills| ==> data.skills[i].name != data.skills[j].name)
      && (forall name :: name in SkillNames(approved) <==>
            exists i :: 0 <= i < |data.skills| && data.skills[i].name == name)
  {
    SkillsOfGroupNames(Occurrences(ActivityPoints.ApprovedOnly(achievements)));
  }

  // ---------------------------------------------------------------------
  // calculateStats (skills-analysis.js:233-256)

  datatype SkillStats = SkillStats(totalSkills: nat, avgProficiency: nat, expertLevel: nat, areasToImprove: nat)

  function SumProficiency(skills: seq<Skill>): nat {
    if skills == [] then 0 else SumProficiency(skills[..|skills| - 1]) + skills[|skills| - 1].proficiency
  }

  function CountAbove(skills: seq<Skill>, bound: nat): nat {
    if skills == [] then 0
    else CountAbove(skills[..|skills| - 1], bound) + (if skills[|skills| - 1].proficiency > bound then 1 else 0)
  }

  function CountBelow(skills: seq<Skill>, bound: nat): nat {
    if skills == [] then 0
    else CountBelow(skills[..|skills| - 1], bound) + (if skills[|skills| - 1].proficiency < bound then 1 else 0)
  }

  /** `Math.round(sum / n)` for a non-negative sum and a positive count. */
  function RoundedMean(sum: nat, n: nat): nat
    requires n > 0
  {
    (2 * sum + n) / (2 * n)
  }

  /** The four numbers of the stat cards; the average is shown with a "%" suffix. */
  function CalculateStats(data: SkillsData): SkillStats {
    var skills := data.skills;
    SkillStats(
      data.approvedAchievements,
      if |skills| > 0 then RoundedMean(SumProficiency(skills), |skills|) else 0,
      CountAbove(skills, 80),
      CountBelow(skills, 50))
  }

  lemma {:induction false} SumProficiencyBound(skills: seq<Skill>, cap: nat)
    requires forall i :: 0 <= i < |skills| ==> skills[i].proficiency <= cap
    ensures SumProficiency(skills) <= cap * |skills|
  {
    if skills != [] {
      SumProficiencyBound(skills[..|skills| - 1], cap);
    }
  }

  lemma {:induction false} ExpertAndWeakDisjoint(skills: seq<Skill>)
    ensures CountAbove(skills, 80) + CountBelow(skills, 50) <= |skills|
  {
    if skills != [] {
      ExpertAndWeakDisjoint(skills[..|skills| - 1]);
    }
  }

  /** The stat cards: the skill total is the number of approved achievements, the
      average of proficiencies that are at most 135 is at most 135 (0 with no
      skills), and no skill is both expert (above 80) and weak (below 50). */
  lemma CalculateStatsProperties(data: SkillsData)
    requires forall i :: 0 <= i < |data.skills| ==> data.skills[i].proficiency <= ProficiencyCap
    ensures CalculateStats(data).totalSkills == data.approvedAchievements
    ensures CalculateStats(data).avgProficiency <= ProficiencyCap
    ensures data.skills == [] ==> CalculateStats(data).avgProficiency == 0
    ensures CalculateStats(data).expertLevel + CalculateStats(data).areasToImprove <= |data.skills|
  {
    ExpertAndWeakDisjoint(data.skills);
    var n := |data.skills|;
    if n > 0 {
      SumProficiencyBound(data.skills, ProficiencyCap);
      var s := SumProficiency(data.skills);
      assert 2 * s + n <= 2 * n * ProficiencyCap + n;
      assert 2 * s + n < 2 * n * (ProficiencyCap + 1);
      DivBelow(2 * s + n, 2 * n, ProficiencyCap + 1);
    }
  }

  lemma DivBelow(a: nat, b: nat, q: nat)
    requires b > 0 && a < b * q
    ensures a / b < q
  {
  }

  // ---------------------------------------------------------------------
  // generateRecommendations on the page (skills-analysis.js:464-510)

  datatype Recommendation =
    | ImproveCoreSkills(skillName: string)
    | LeverageStrengths(skillName: string)
    | DiversifySkills
    | ContinuousLearning

  function FirstBelow(skills: seq<Skill>, bound: nat): Option<string> {
    if skills == [] then None
    else if skills[0].proficiency < bound then Some(skills[0].name)
    else FirstBelow(skills[1..], bound)
  }

  function FirstAbove(skills: seq<Skill>, bound: nat): Option<string> {
    if skills == [] then None
    else if skills[0].proficiency > bound then Some(skills[0].name)
    else FirstAbove(skills[1..], bound)
  }

  /** Up to three cards: improve the first weak skill (below 50), leverage the first
      strong one (above 70), diversify when fewer than five skills, and always a
      continuous-learning card, cut to the first three. */
  function PageRecommendations(skills: seq<Skill>): seq<Recommendation> {
    var weak := FirstBelow(skills, 50);
    var strong := FirstAbove(skills, 70);
    var all :=
      (if weak.Some? then [ImproveCoreSkills(weak.value)] else [])
      + (if strong.Some? then [LeverageStrengths(strong.value)] else [])
      + (if |skills| < 5 then [DiversifySkills] else [])
      + [ContinuousLearning];
    all[..if |all| < 3 then |all| else 3]
  }

  lemma {:induction false} FirstBelowSpec(skills: seq<Skill>, bound: nat)
    ensures FirstBelow(skills, bound).None? <==> forall i :: 0 <= i < |skills| ==> skills[i].proficiency >= bound
    ensures FirstBelow(skills, bound).Some? ==>
      exists i :: 0 <= i < |skills| && skills[i].proficiency < bound && skills[i].name == FirstBelow(skills, bound).value
        && forall j :: 0 <= j < i ==> skills[j].proficiency >= bound
  {
    if skills != [] && skills[0].proficiency >= bound {
      FirstBelowSpec(skills[1..], bound);
      if FirstBelow(skills[1..], bound).Some? {
        var i :| 0 <= i < |skills[1..]| && skills[1..][i].proficiency < bound
          && skills[1..][i].name == FirstBelow(skills[1..], bound).value
          && forall j :: 0 <= j < i ==> skills[1..][j].proficiency >= bound;
        assert skills[i + 1] == skills[1..][i];
        forall j | 0 <= j < i + 1 ensures skills[j].proficiency >= bound {
          if j > 0 { assert skills[j] == skills[1..][j - 1]; }
        }
      } else {
        forall i | 0 <= i < |skills| ensures skills[i].proficiency >= bound {
          if i > 0 { assert skills[i] == skills[1..][i - 1]; }
        }
      }
    }
  }

  /** The order `populateTopSkills` leaves the page's list in: its `sort` by
      non-increasing proficiency works in place on the array the recommendations
      are built from afterwards. */
  predicate ByProficiency(skills: seq<Skill>) {
    forall i, j :: 0 <= i < j < |skills| ==> skills[i].proficiency >= skills[j].proficiency
  }

  lemma {:induction false} FirstAboveNone(skills: seq<Skill>, bound: nat)
    requires forall i :: 0 <= i < |skills| ==> skills[i].proficiency <= bound
    ensures FirstAbove(skills, bound).None?
  {
    if skills != [] {
      forall i | 0 <= i < |skills[1..]| ensures skills[1..][i].proficiency <= bound {
        assert skills[1..][i] == skills[i + 1];
      }
      FirstAboveNone(skills[1..], bound);
    }
  }

  /** In a sorted list, a skill preceded only by skills of at least `bound` has
      the highest proficiency among those below `bound`. */
  lemma SortedFirstBelowIsHighest(skills: seq<Skill>, bound: nat, i: nat)
    requires ByProficiency(skills) && i < |skills|
    requires forall j :: 0 <= j < i ==> skills[j].proficiency >= bound
    ensures forall j :: 0 <= j < |skills| && skills[j].proficiency < bound ==> skills[j].proficiency <= skills[i].proficiency
  {
    forall j | 0 <= j < |skills| && skills[j].proficiency < bound
      ensures skills[j].proficiency <= skills[i].proficiency
    {
      assert !(j < i);
    }
  }

  /** On the list as the page passes it, sorted by proficiency, the improvement
      card names a weak skill with the highest proficiency below 50, and the
      strengths card is there exactly when the top skill is above 70 and names it. */
  lemma PageRecommendationsSorted(skills: seq<Skill>)
    requires ByProficiency(skills)
    ensures FirstBelow(skills, 50).Some? ==>
      exists i :: 0 <= i < |skills| && skills[i].name == FirstBelow(skills, 50).value && skills[i].proficiency < 50
        && forall j :: 0 <= j < |skills| && skills[j].proficiency < 50 ==> skills[j].proficiency <= skills[i].proficiency
    ensures FirstAbove(skills, 70).Some? <==> |skills| > 0 && skills[0].proficiency > 70
    ensures FirstAbove(skills, 70).Some? ==> FirstAbove(skills, 70).value == skills[0].name
  {
    FirstBelowSpec(skills, 50);
    if FirstBelow(skills, 50).Some? {
      var i :| 0 <= i < |skills| && skills[i].proficiency < 50 && skills[i].name == FirstBelow(skills, 50).value
        && forall j :: 0 <= j < i ==> skills[j].proficiency >= 50;
      SortedFirstBelowIsHighest(skills, 50, i);
    }
    if skills != [] && skills[0].proficiency <= 70 {
      FirstAboveNone(skills, 70);
    }
  }

  /** Between one and three cards; the improvement card is there exactly when some
      skill is below 50; continuous learning is dropped only when all three
      conditional cards apply. */
  lemma PageRecommendationsProperties(skills: seq<Skill>)
    ensures 1 <= |PageRecommendations(skills)| <= 3
    ensures (exists i :: 0 <= i < |skills| && skills[i].proficiency < 50) <==>
            PageRecommendations(skills)[0].ImproveCoreSkills?
    ensures ContinuousLearning in PageRecommendations(skills) <==>
            !(FirstBelow(skills, 50).Some? && FirstAbove(skills, 70).Some? && |skills| < 5)
  {
    FirstBelowSpec(skills, 50);
    var weak := FirstBelow(skills, 50);
    var strong := FirstAbove(skills, 70);
    var all :=
      (if weak.Some? then [ImproveCoreSkills(weak.value)] else [])
      + (if strong.Some? then [LeverageStrengths(strong.value)] else [])
      + (if |skills| < 5 then [DiversifySkills] else [])
      + [ContinuousLearning];
    assert all[|all| - 1] == ContinuousLearning;
    if weak.Some? && strong.Some? && |skills| < 5 {
      assert all == [ImproveCoreSkills(weak.value), LeverageStrengths(strong.value), DiversifySkills, ContinuousLearning];
      assert PageRecommendations(skills) == all[..3];
    } else {
      assert |all| <= 3;
      assert PageRecommendations(skills) == all;
    }
  }
}
