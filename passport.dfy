/**
 * The list and text logic of the digital passport page (digital-passport.js):
 * the approved achievements it shows, the status badge, the text helpers of
 * the cards, the search-and-filter test a card passes, the de-duplicated skill
 * list and the six portfolio categories.
 */
module Passport {
  import opened Strings
  import opened Records
  import ActivityPoints

  // ---------------------------------------------------------------------
  // getDigitalPassportData (digital-passport.js:66-70)

  /** The approved achievements, in stored order. */
  function DigitalPassportData(achievements: seq<Achievement>): seq<Achievement> {
    ActivityPoints.ApprovedOnly(achievements)
  }

  /** The passport holds exactly the approved achievements, each as often as it is
      stored, so as many as there are approved records. */
  lemma DigitalPassportDataExact(xs: seq<Achievement>)
    ensures forall a :: a in DigitalPassportData(xs) <==> a in xs && a.status == "approved"
    ensures forall a :: multiset(DigitalPassportData(xs))[a] == if a.status == "approved" then multiset(xs)[a] else 0
    ensures |DigitalPassportData(xs)| == CountAchievements(xs, "approved")
  {
    var r := DigitalPassportData(xs);
    forall a: Achievement
      ensures multiset(r)[a] == if a.status == "approved" then multiset(xs)[a] else 0
    {
      ApprovedCount(xs, a);
    }
    ApprovedLength(xs);
  }

  /** The passport keeps the stored order: the data of a concatenation is the
      data of each part, one after the other. */
  lemma {:induction false} DigitalPassportDataAppend(xs: seq<Achievement>, ys: seq<Achievement>)
    ensures DigitalPassportData(xs + ys) == DigitalPassportData(xs) + DigitalPassportData(ys)
    decreases |ys|
  {
    if ys == [] {
      assert xs + ys == xs;
    } else {
      var init := ys[..|ys| - 1];
      assert (xs + ys)[..|xs + ys| - 1] == xs + init;
      DigitalPassportDataAppend(xs, init);
    }
  }

  /** One record is kept exactly when it is approved. */
  lemma DigitalPassportDataSingleton(a: Achievement)
    ensures DigitalPassportData([a]) == if a.status == "approved" then [a] else []
  {
    assert [a][..0] == [];
  }

  /** How often one record is kept. */
  lemma {:induction false} ApprovedCount(xs: seq<Achievement>, a: Achievement)
    ensures multiset(DigitalPassportData(xs))[a] == if a.status == "approved" then multiset(xs)[a] else 0
  {
    if xs != [] {
      ApprovedCount(xs[..|xs| - 1], a);
      assert xs == xs[..|xs| - 1] + [xs[|xs| - 1]];
    }
  }

  /** One kept record per approved status. */
  lemma {:induction false} ApprovedLength(xs: seq<Achievement>)
    ensures |DigitalPassportData(xs)| == CountAchievements(xs, "approved")
  {
    if xs != [] {
      var init := xs[..|xs| - 1];
      ApprovedLength(init);
      assert AchievementStatuses(xs)[..|xs| - 1] == AchievementStatuses(init);
    }
  }

  // ---------------------------------------------------------------------
  // getStatusClass, truncateText, capitalizeFirst (digital-passport.js:164-183)

  /** `getStatusClass(status)`; None is a missing status. */
  function StatusClass(status: Option<string>): string {
    if status.None? then "draft"
    else
      var s := Lower(status.value);
      if s == "verified" || s == "approved" then "verified"
      else if s == "pending" then "pending"
      else "draft"
  }

  /** The badge is one of three classes, chosen case-insensitively. */
  lemma StatusClassCases(status: Option<string>)
    ensures StatusClass(status) in {"verified", "pending", "draft"}
    ensures StatusClass(status) == "verified" <==>
      status.Some? && (Lower(status.value) == "verified" || Lower(status.value) == "approved")
    ensures StatusClass(status) == "pending" <==> status.Some? && Lower(status.value) == "pending"
    ensures status.None? ==> StatusClass(status) == "draft"
  {
  }

  /** Lower-casing the status first changes nothing. */
  lemma StatusClassIgnoresCase(s: string)
    ensures StatusClass(Some(Lower(s))) == StatusClass(Some(s))
  {
    LowerIdempotent(s);
  }

  /** `truncateText(text, maxLength)`; `substring` treats a negative end as 0. */
  function TruncateText(text: string, maxLength: int): string {
    if |text| <= maxLength then text
    else text[..if maxLength < 0 then 0 else maxLength] + "..."
  }

  /** Short text is kept; longer text keeps its first `maxLength` characters and
      gains "...", which makes it `maxLength + 3` long. */
  lemma TruncateTextSpec(text: string, maxLength: nat)
    ensures |text| <= maxLength ==> TruncateText(text, maxLength) == text
    ensures |text| > maxLength ==>
      var r := TruncateText(text, maxLength);
      |r| == maxLength + 3 && r[..maxLength] == text[..maxLength] && r[maxLength..] == "..."
  {
  }

  /** Truncating an already truncated text changes nothing more. */
  lemma TruncateTextIdempotent(text: string, maxLength: nat)
    ensures TruncateText(TruncateText(text, maxLength), maxLength) == TruncateText(text, maxLength)
  {
    if |text| > maxLength {
      var r := TruncateText(text, maxLength);
      assert r[..maxLength] == text[..maxLength];
    }
  }

  /** `capitalizeFirst(str)`: upper-case the first character, keep the rest. */
  function CapitalizeFirst(s: string): string {
    if s == [] then [] else [UpperChar(s[0])] + s[1..]
  }

  /** Capitalising keeps the length and every character but the first, and doing it
      twice is doing it once. */
  lemma CapitalizeFirstSpec(s: string)
    ensures |CapitalizeFirst(s)| == |s|
    ensures s != [] ==> CapitalizeFirst(s)[0] == UpperChar(s[0]) && CapitalizeFirst(s)[1..] == s[1..]
    ensures CapitalizeFirst(CapitalizeFirst(s)) == CapitalizeFirst(s)
  {
    if s != [] {
      var r := CapitalizeFirst(s);
      assert r[1..] == s[1..];
    }
  }

  // ---------------------------------------------------------------------
  // The card a passport item renders and filterPassportItems' test
  // (digital-passport.js:113-131, 192-216)

  /** What the filter reads back from a rendered card: the `<h4>` title, the
      description paragraph (truncated to 100 characters) and the two data attributes. */
  datatype PassportCard = PassportCard(title: string, description: string, category: string, status: string)

  function CardOf(a: Achievement): PassportCard {
    PassportCard(a.title, TruncateText(a.description, 100), a.category, a.status)
  }

  /** Whether a card stays visible for the search box and the two selects. The
      selected values are compared as they are, against lower-cased attributes. */
  predicate Shown(card: PassportCard, search: string, selectedCategory: string, selectedStatus: string) {
    var term := Lower(search);
    && (Contains(Lower(card.title), term) || Contains(Lower(card.description), term))
    && (selectedCategory == "" || Lower(card.category) == selectedCategory)
    && (selectedStatus == "" || Lower(card.status) == selectedStatus)
  }

  /** The three controls act independently: a card is shown exactly when the search
      alone, the category alone and the status alone would each show it; with
      every control empty, each card is shown. */
  lemma ShownDecomposes(card: PassportCard, search: string, selectedCategory: string, selectedStatus: string)
    ensures Shown(card, search, selectedCategory, selectedStatus) <==>
      Shown(card, search, "", "") && Shown(card, "", selectedCategory, "") && Shown(card, "", "", selectedStatus)
    ensures Shown(card, "", "", "")
  {
    assert Lower("") == "";
  }

  /** The search sees only the rendered description: of a description longer than
      100 characters, the first 100 and "...". */
  lemma CardDescriptionIsTruncated(a: Achievement)
    ensures |a.description| <= 100 ==> CardOf(a).description == a.description
    ensures |a.description| > 100 ==> CardOf(a).description == a.description[..100] + "..."
  {
  }

  // ---------------------------------------------------------------------
  // extractUniqueSkills (digital-passport.js:572-581)

  /** The concatenated skill lists; a record without skills adds nothing. */
  function AllSkills(xs: seq<Achievement>): seq<string> {
    if xs == [] then [] else AllSkills(xs[..|xs| - 1]) + xs[|xs| - 1].skills
  }

  /** `[...new Set(s)]`: each value once, at its first occurrence. */
  function Dedup(s: seq<string>): seq<string> {
    if s == [] then []
    else
      var d := Dedup(s[..|s| - 1]);
      if s[|s| - 1] in d then d else d + [s[|s| - 1]]
  }

  function ExtractUniqueSkills(xs: seq<Achievement>): seq<string> {
    Dedup(AllSkills(xs))
  }

  /** Position of the first occurrence of `x` in `s`. */
  function FirstIndex(s: seq<string>, x: string): (r: nat)
    requires x in s
    ensures r < |s| && s[r] == x && forall j :: 0 <= j < r ==> s[j] != x
  {
    if s[0] == x then 0 else 1 + FirstIndex(s[1..], x)
  }

  /** A first occurrence within a prefix is the first occurrence in the whole. */
  lemma FirstIndexInPrefix(s: seq<string>, k: nat, x: string)
    requires k <= |s| && x in s[..k]
    ensures FirstIndex(s, x) == FirstIndex(s[..k], x)
  {
    var b := FirstIndex(s[..k], x);
    assert s[b] == x;
    assert forall j :: 0 <= j < b ==> s[j] == s[..k][j];
  }

  /** The de-duplicated list holds each value of the input exactly once, with the
      values ordered by their first occurrence. */
  lemma {:induction false} DedupCorrect(s: seq<string>)
    ensures forall x :: x in Dedup(s) <==> x in s
    ensures forall i, j :: 0 <= i < j < |Dedup(s)| ==> Dedup(s)[i] != Dedup(s)[j]
    ensures forall i, j :: 0 <= i < j < |Dedup(s)| ==> FirstIndex(s, Dedup(s)[i]) < FirstIndex(s, Dedup(s)[j])
  {
    if s != [] {
      var init := s[..|s| - 1];
      var x := s[|s| - 1];
      DedupCorrect(init);
      var d := Dedup(init);
      assert s == init + [x];
      var r := Dedup(s);
      forall i, j | 0 <= i < j < |r| ensures FirstIndex(s, r[i]) < FirstIndex(s, r[j]) {
        assert r[i] in init;
        FirstIndexInPrefix(s, |init|, r[i]);
        if j < |d| {
          FirstIndexInPrefix(s, |init|, r[j]);
        } else {
          assert r[j] == x && x !in init;
        }
      }
    }
  }

  /** Every skill of every achievement is listed exactly once. */
  lemma {:induction false} AllSkillsMembers(xs: seq<Achievement>, i: nat, k: nat)
    requires i < |xs| && k < |xs[i].skills|
    ensures xs[i].skills[k] in AllSkills(xs)
  {
    if i < |xs| - 1 {
      AllSkillsMembers(xs[..|xs| - 1], i, k);
    }
  }

  lemma UniqueSkillsCorrect(xs: seq<Achievement>)
    ensures forall i, k :: 0 <= i < |xs| && 0 <= k < |xs[i].skills| ==> xs[i].skills[k] in ExtractUniqueSkills(xs)
    ensures forall x :: x in ExtractUniqueSkills(xs) <==> x in AllSkills(xs)
    ensures var u := ExtractUniqueSkills(xs);
      forall i, j :: 0 <= i < j < |u| ==> u[i] != u[j]
  {
    DedupCorrect(AllSkills(xs));
    forall i, k | 0 <= i < |xs| && 0 <= k < |xs[i].skills| ensures xs[i].skills[k] in ExtractUniqueSkills(xs) {
      AllSkillsMembers(xs, i, k);
    }
  }

  // ---------------------------------------------------------------------
  // categorizeAchievements (digital-passport.js:583-612)

  datatype PortfolioCategory = Academic | Professional | Certifications | Competitions | Projects | Others

  /** `achievement.category?.toLowerCase() || 'others'`. */
  function CategoryKey(a: Achievement): string {
    if a.category == "" then "others" else Lower(a.category)
  }

  /** The first matching keyword test, in source order. */
  function Categorize(key: string): PortfolioCategory {
    if Contains(key, "academic") || Contains(key, "education") then Academic
    else if Contains(key, "professional") || Contains(key, "internship") || Contains(key, "job") then Professional
    else if Contains(key, "certification") || Contains(key, "certificate") then Certifications
    else if Contains(key, "competition") || Contains(key, "contest") then Competitions
    else if Contains(key, "project") then Projects
    else Others
  }

  function CategoryOf(a: Achievement): PortfolioCategory {
    Categorize(CategoryKey(a))
  }

  /** The achievements of category `k`, in input order. */
  function InCategory(xs: seq<Achievement>, k: PortfolioCategory): seq<Achievement> {
    if xs == [] then []
    else InCategory(xs[..|xs| - 1], k) + (if CategoryOf(xs[|xs| - 1]) == k then [xs[|xs| - 1]] else [])
  }

  datatype Categories = Categories(
    academic: seq<Achievement>, professional: seq<Achievement>, certifications: seq<Achievement>,
    competitions: seq<Achievement>, projects: seq<Achievement>, others: seq<Achievement>)

  function Bucket(c: Categories, k: PortfolioCategory): seq<Achievement> {
    match k
    case Academic => c.academic
    case Professional => c.professional
    case Certifications => c.certifications
    case Competitions => c.competitions
    case Projects => c.projects
    case Others => c.others
  }

  /** `categorizeAchievements(achievements)`: push each record onto its bucket. */
  method CategorizeAchievements(xs: seq<Achievement>) returns (c: Categories)
    ensures forall k: PortfolioCategory :: Bucket(c, k) == InCategory(xs, k)
  {
    c := Categories([], [], [], [], [], []);
    var i := 0;
    while i < |xs|
      invariant 0 <= i <= |xs|
      invariant forall k: PortfolioCategory :: Bucket(c, k) == InCategory(xs[..i], k)
    {
      assert xs[..i + 1][..i] == xs[..i];
      var k := CategoryOf(xs[i]);
      c := Push(c, k, xs[i]);
      i := i + 1;
    }
    assert xs[..|xs|] == xs;
  }

  /** `categories[k].push(a)`. */
  method Push(c: Categories, k: PortfolioCategory, a: Achievement) returns (c': Categories)
    ensures forall k': PortfolioCategory :: Bucket(c', k') == if k' == k then Bucket(c, k) + [a] else Bucket(c, k')
  {
    match k
    case Academic => c' := c.(academic := c.academic + [a]);
    case Professional => c' := c.(professional := c.professional + [a]);
    case Certifications => c' := c.(certifications := c.certifications + [a]);
    case Competitions => c' := c.(competitions := c.competitions + [a]);
    case Projects => c' := c.(projects := c.projects + [a]);
    case Others => c' := c.(others := c.others + [a]);
  }

  /** The six buckets together hold every achievement once. */
  lemma {:induction false} CategoriesPartition(xs: seq<Achievement>)
    ensures |InCategory(xs, Academic)| + |InCategory(xs, Professional)| + |InCategory(xs, Certifications)|
          + |InCategory(xs, Competitions)| + |InCategory(xs, Projects)| + |InCategory(xs, Others)| == |xs|
  {
    if xs != [] {
      CategoriesPartition(xs[..|xs| - 1]);
    }
  }

  /** A record lands in its own category's bucket and in no other. */
  lemma {:induction false} CategoryMembership(xs: seq<Achievement>, a: Achievement, k: PortfolioCategory)
    requires a in xs
    ensures a in InCategory(xs, k) <==> k == CategoryOf(a)
  {
    var init := xs[..|xs| - 1];
    assert xs == init + [xs[|xs| - 1]];
    if a in init {
      CategoryMembership(init, a, k);
    } else if a in InCategory(init, k) {
      InCategoryMembers(init, k);
    }
  }

  lemma {:induction false} InCategoryMembers(xs: seq<Achievement>, k: PortfolioCategory)
    ensures forall a :: a in InCategory(xs, k) ==> a in xs && CategoryOf(a) == k
  {
    if xs != [] {
      InCategoryMembers(xs[..|xs| - 1], k);
    }
  }

  /** "others" contains none of the first four rules' keywords. */
  lemma OthersMatchesNoKeyword()
    ensures !Contains("others", "academic") && !Contains("others", "education")
    ensures !Contains("others", "professional") && !Contains("others", "internship") && !Contains("others", "job")
  {
    NotContainsMissingChar("others", "academic", 1);
    NotContainsMissingChar("others", "education", 1);
    NotContainsMissingChar("others", "professional", 0);
    NotContainsMissingChar("others", "internship", 0);
    NotContainsMissingChar("others", "job", 0);
  }

  /** Nor those of the later rules. */
  lemma OthersMatchesNoLaterKeyword()
    ensures !Contains("others", "certification") && !Contains("others", "certificate")
    ensures !Contains("others", "competition") && !Contains("others", "contest") && !Contains("others", "project")
  {
    NotContainsMissingChar("others", "certification", 0);
    NotContainsMissingChar("others", "certificate", 0);
    NotContainsMissingChar("others", "competition", 0);
    NotContainsMissingChar("others", "contest", 0);
    NotContainsMissingChar("others", "project", 0);
  }

  /** A record without a category is filed under others. */
  lemma MissingCategoryIsOther(a: Achievement)
    requires a.category == ""
    ensures CategoryOf(a) == Others
  {
    OthersMatchesNoKeyword();
    OthersMatchesNoLaterKeyword();
  }
}
