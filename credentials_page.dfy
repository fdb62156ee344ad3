/**
 * The blockchain credentials page (blockchain-credentials.js): the lookup
 * tables it renders categories and points with, and the two verify buttons.
 * The page reads the ledger kept by the data manager and changes nothing.
 */
module CredentialsPage {
  import opened Records
  import ActivityPoints
  import Strings

  /** The six categories the page's tables know. */
  const KnownCategories: seq<string> :=
    ["certificate", "competition-win", "internship", "workshop", "freelancing", "project"]

  /** `getCategoryIcon` (blockchain-credentials.js:448-458). */
  function CategoryIcon(category: string): string {
    match category
    case "certificate" => "certificate"
    case "competition-win" => "trophy"
    case "internship" => "briefcase"
    case "workshop" => "chalkboard-teacher"
    case "freelancing" => "laptop-code"
    case "project" => "project-diagram"
    case _ => "star"
  }

  /** `formatCategory` (blockchain-credentials.js:460-470). */
  function FormatCategory(category: string): string {
    match category
    case "certificate" => "Certificate"
    case "competition-win" => "Competition Win"
    case "internship" => "Internship"
    case "workshop" => "Workshop"
    case "freelancing" => "Freelancing"
    case "project" => "Project"
    case _ => category
  }

  /** The known categories get their own icon and label; any other category is
      shown as itself under the star icon. */
  lemma CategoryTablesSpec(category: string)
    ensures category !in KnownCategories ==> FormatCategory(category) == category && CategoryIcon(category) == "star"
    ensures category in KnownCategories ==> CategoryIcon(category) != "star" && FormatCategory(category) != category
  {
  }

  // ---------------------------------------------------------------------
  // getAchievementPoints (blockchain-credentials.js:482-492)

  /** `pointsMap[achievement.category] || 5`, reading only the map's own keys. */
  function AchievementPoints(a: Achievement): (r: nat)
    ensures r in {5, 15, 25, 30}
  {
    match a.category
    case "certificate" => 5
    case "competition-win" => 30
    case "internship" => 30
    case "workshop" => 5
    case "freelancing" => 25
    case "project" => 15
    case _ => 5
  }

  /** A project shows 15 points on its card, a value the points total never
      awards for any achievement. */
  lemma ProjectPointsDiverge(a: Achievement)
    requires a.category == "project"
    ensures AchievementPoints(a) == 15
    ensures ActivityPoints.PointsFor(a) != AchievementPoints(a)
  {
    ActivityPoints.PointsAreRuleValues(a);
  }

  /** Every category outside the table shows 5 points. */
  lemma UnknownCategoryShowsFive(a: Achievement)
    requires a.category !in KnownCategories
    ensures AchievementPoints(a) == 5
  {
  }

  /** `pointsMap[category] || 5` as JavaScript evaluates it: a category naming an
      inherited member yields that member, which is truthy, not the default. */
  function AchievementPointsAsWritten(a: Achievement): PointsCell {
    if a.category in KnownCategories then Points(AchievementPoints(a))
    else if a.category in InheritedNames then Inherited(a.category)
    else Points(5)
  }

  /** The lookup as written is not always one of 5, 15, 25, 30: a record whose
      category is "constructor" prints the `Object` function instead. */
  lemma AsWrittenPointsCanBeInherited()
    ensures exists a: Achievement :: AchievementPointsAsWritten(a).Inherited?
  {
    var a := Achievement("1", "t", "d", "constructor", "", [], [], "approved", "", None, None, None, "", None);
    assert a.category in InheritedNames;
    assert a.category !in KnownCategories;
    assert AchievementPointsAsWritten(a).Inherited?;
  }

  /** Away from the inherited names the lookup as written and the own-key lookup agree. */
  lemma AsWrittenAgreesElsewhere(a: Achievement)
    requires a.category !in InheritedNames
    ensures AchievementPointsAsWritten(a) == Points(AchievementPoints(a))
  {
  }

  // ---------------------------------------------------------------------
  // verifyCredential, verifyAllCredentials (blockchain-credentials.js:250-312)

  /** `records.find(r => r.blockHash === hash)`. */
  function FindByHash(cs: seq<Credential>, hash: string): (r: Option<Credential>)
    ensures r.None? <==> forall i :: 0 <= i < |cs| ==> cs[i].blockHash != hash
    ensures r.Some? ==> exists i :: 0 <= i < |cs| && cs[i] == r.value && r.value.blockHash == hash
                          && forall j :: 0 <= j < i ==> cs[j].blockHash != hash
  {
    if cs == [] then None
    else if cs[0].blockHash == hash then Some(cs[0])
    else
      var r := FindByHash(cs[1..], hash);
      assert r.Some? ==> exists i :: 0 <= i < |cs| - 1 && cs[1..][i] == r.value
                          && forall j :: 0 <= j < i ==> cs[1..][j].blockHash != hash;
      assert forall i :: 0 <= i < |cs| - 1 ==> cs[1..][i] == cs[i + 1];
      r
  }

  /** What the verification modal shows, or the not-found notice. */
  datatype Verification =
    | NotFound
    | Verified(title: string, category: string, blockHash: string, verifiedBy: string, points: nat)

  function VerifyCredential(cs: seq<Credential>, hash: string): (v: Verification)
    ensures v.NotFound? <==> forall i :: 0 <= i < |cs| ==> cs[i].blockHash != hash
  {
    match FindByHash(cs, hash)
    case None => NotFound
    case Some(r) =>
      Verified(r.achievement.title, FormatCategory(r.achievement.category), r.blockHash,
               if r.verifiedBy == "" then "System Admin" else r.verifiedBy,
               AchievementPoints(r.achievement))
  }

  /** A found credential is shown with the hash asked for and the details of the
      first record carrying it. */
  lemma VerifyCredentialFound(cs: seq<Credential>, hash: string)
    requires exists i :: 0 <= i < |cs| && cs[i].blockHash == hash
    ensures var v := VerifyCredential(cs, hash);
      && v.Verified?
      && v.blockHash == hash
      && exists i :: 0 <= i < |cs| && cs[i].blockHash == hash
           && v.title == cs[i].achievement.title
           && v.points == AchievementPoints(cs[i].achievement)
           && forall j :: 0 <= j < i ==> cs[j].blockHash != hash
  {
  }

  datatype Notice = Notice(kind: string, text: string)

  /** `verifyAllCredentials`: a warning for an empty ledger, otherwise one success
      notice naming the count. */
  function VerifyAll(cs: seq<Credential>): (n: Notice)
    ensures n.kind == "warning" <==> cs == []
  {
    if |cs| == 0 then Notice("warning", "No blockchain credentials to verify")
    else Notice("success", "All " + Strings.NatToString(|cs|) + " credentials verified successfully!")
  }

  /** Two ledgers of different sizes get different success notices. */
  lemma VerifyAllNamesCount(cs: seq<Credential>, ds: seq<Credential>)
    requires cs != [] && ds != []
    requires VerifyAll(cs) == VerifyAll(ds)
    ensures |cs| == |ds|
  {
    var p := "All ";
    var q := " credentials verified successfully!";
    var a, b := Strings.NatToString(|cs|), Strings.NatToString(|ds|);
    assert (p + a + q)[4..4 + |a|] == a;
    NumberPrefixDetermined(a, q, b);
    Strings.NatToStringRoundTrip(|cs|);
    Strings.NatToStringRoundTrip(|ds|);
  }

  /** A digit string followed by a text starting with a non-digit is determined. */
  lemma NumberPrefixDetermined(a: string, q: string, b: string)
    requires Strings.AllDigits(a) && Strings.AllDigits(b)
    requires q != [] && !Strings.IsDigit(q[0])
    requires "All " + a + q == "All " + b + q
    ensures a == b
  {
    assert ("All " + a + q)[4..] == a + q;
    assert ("All " + b + q)[4..] == b + q;
    var s := a + q;
    assert s == b + q;
    assert !Strings.IsDigit(s[|a|]) && !Strings.IsDigit(s[|b|]);
    assert forall k :: 0 <= k < |a| ==> Strings.IsDigit(s[k]);
    assert forall k :: 0 <= k < |b| ==> Strings.IsDigit(s[k]);
    assert |a| == |b|;
    assert a == s[..|a|] && b == s[..|b|];
  }
}
