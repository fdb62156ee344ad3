/**
 * The achievements page (achievements.js): the list it shows is the stored
 * achievements followed by every pending approval converted to the same shape;
 * the search box and two selects filter that list; a click opens the record
 * with the card's id.
 */
module AchievementsPage {
  import opened Strings
  import opened Records
  import S = StoreModel

  /** The display record for an approval (achievements.js:80-90). */
  function FromApproval(ap: PendingApproval): Achievement {
    Achievement(ap.id, ap.title, ap.description, ap.category, "", ap.skills, ap.files, ap.status,
                ap.submittedDate, None, None, None, "Self-reported", None)
  }

  function ConvertAll(approvals: seq<PendingApproval>): (r: seq<Achievement>)
    ensures |r| == |approvals|
    ensures forall i :: 0 <= i < |r| ==> r[i] == FromApproval(approvals[i])
  {
    seq(|approvals|, i requires 0 <= i < |approvals| => FromApproval(approvals[i]))
  }

  /** The list `loadAchievements` builds. */
  function Merged(stored: seq<Achievement>, approvals: seq<PendingApproval>): seq<Achievement> {
    stored + ConvertAll(approvals)
  }

  /** The merged list is the stored records, unchanged, followed by one record per
      approval that keeps its id, title, description, category, skills, files and
      status, dates it by submission and names it self-reported. */
  lemma MergedShape(stored: seq<Achievement>, approvals: seq<PendingApproval>)
    ensures var m := Merged(stored, approvals);
      && |m| == |stored| + |approvals|
      && m[..|stored|] == stored
      && forall i :: 0 <= i < |approvals| ==>
           var r, ap := m[|stored| + i], approvals[i];
           && r.id == ap.id && r.title == ap.title && r.description == ap.description
           && r.category == ap.category && r.skills == ap.skills && r.files == ap.files
           && r.status == ap.status && r.dateCreated == ap.submittedDate && r.issuer == "Self-reported"
  {
  }

  /** Counting an id in the merged list counts it in both halves. */
  lemma MergedCountId(stored: seq<Achievement>, approvals: seq<PendingApproval>, id: string)
    ensures S.CountId(Merged(stored, approvals), id) == S.CountId(stored, id) + S.CountId(ConvertAll(approvals), id)
  {
    assert S.AchievementIds(Merged(stored, approvals)) == S.AchievementIds(stored) + S.AchievementIds(ConvertAll(approvals));
    CountStatusAppend(S.AchievementIds(stored), S.AchievementIds(ConvertAll(approvals)), id);
  }

  /** Approvals stay after approval: approving a submission whose achievement id is
      its own id (as `addPendingApproval` links them) puts that id on the page twice,
      once for the created achievement and once for the approval. */
  lemma ApprovedSubmissionListedTwice(s: S.Store, approvalId: string, reason: string, now: string,
                                      recordId: string, hash: string)
    requires S.ApprovalIndex(s.approvals, approvalId) >= 0
    requires s.approvals[S.ApprovalIndex(s.approvals, approvalId)].achievementId == approvalId
    requires S.LedgerValid(s.credentials)
    requires S.CountId(s.achievements, approvalId) <= 1
    ensures var t := S.UpdateApprovalStatus(s, approvalId, "approved", reason, now, recordId, hash).0;
      S.CountId(Merged(t.achievements, t.approvals), approvalId) == 1 + S.CountId(ConvertAll(t.approvals), approvalId)
      && S.CountId(Merged(t.achievements, t.approvals), approvalId) >= 2
  {
    var i := S.ApprovalIndex(s.approvals, approvalId);
    var t := S.UpdateApprovalStatus(s, approvalId, "approved", reason, now, recordId, hash).0;
    S.ApprovalRecordsOnce(s, approvalId, reason, now, recordId, hash);
    S.DecisionKeepsApproval(s, approvalId, "approved", reason, now, recordId, hash);
    MergedCountId(t.achievements, t.approvals, approvalId);
    var converted := ConvertAll(t.approvals);
    assert converted[i].id == approvalId;
    CountStatusPresent(S.AchievementIds(converted), i);
  }

  // ---------------------------------------------------------------------
  // filterAchievements (achievements.js:123-138)

  /** The filter's test: the lower-cased search term in the lower-cased title or
      description, and exact equality with each non-empty select. */
  predicate Matches(a: Achievement, search: string, category: string, status: string) {
    var term := Lower(search);
    && (Contains(Lower(a.title), term) || Contains(Lower(a.description), term))
    && (category == "" || a.category == category)
    && (status == "" || a.status == status)
  }

  function FilterAchievements(xs: seq<Achievement>, search: string, category: string, status: string): seq<Achievement> {
    if xs == [] then []
    else FilterAchievements(xs[..|xs| - 1], search, category, status)
         + (if Matches(xs[|xs| - 1], search, category, status) then [xs[|xs| - 1]] else [])
  }

  /** A record is kept exactly when it is listed and matches, and a matching record
      is kept as often as it is listed. */
  lemma FilterAchievementsCorrect(xs: seq<Achievement>, search: string, category: string, status: string)
    ensures var r := FilterAchievements(xs, search, category, status);
      && |r| <= |xs|
      && (forall a :: a in r <==> a in xs && Matches(a, search, category, status))
      && (forall a :: multiset(r)[a] == if Matches(a, search, category, status) then multiset(xs)[a] else 0)
  {
    var r := FilterAchievements(xs, search, category, status);
    FilterLength(xs, search, category, status);
    forall a: Achievement
      ensures multiset(r)[a] == if Matches(a, search, category, status) then multiset(xs)[a] else 0
    {
      FilterCount(xs, search, category, status, a);
    }
  }

  lemma {:induction false} FilterLength(xs: seq<Achievement>, search: string, category: string, status: string)
    ensures |FilterAchievements(xs, search, category, status)| <= |xs|
  {
    if xs != [] {
      FilterLength(xs[..|xs| - 1], search, category, status);
    }
  }

  /** How often one record is kept. */
  lemma {:induction false} FilterCount(xs: seq<Achievement>, search: string, category: string, status: string,
                                       a: Achievement)
    ensures multiset(FilterAchievements(xs, search, category, status))[a]
         == if Matches(a, search, category, status) then multiset(xs)[a] else 0
  {
    if xs != [] {
      FilterCount(xs[..|xs| - 1], search, category, status, a);
      assert xs == xs[..|xs| - 1] + [xs[|xs| - 1]];
    }
  }

  /** Filtering works record by record, so the kept records stay in their order:
      the filter of two lists one after the other is the two filters one after the other. */
  lemma {:induction false} FilterAchievementsAppend(xs: seq<Achievement>, ys: seq<Achievement>,
                                                    search: string, category: string, status: string)
    ensures FilterAchievements(xs + ys, search, category, status)
         == FilterAchievements(xs, search, category, status) + FilterAchievements(ys, search, category, status)
    decreases |ys|
  {
    if ys == [] {
      assert xs + ys == xs;
    } else {
      var init := ys[..|ys| - 1];
      assert (xs + ys)[..|xs + ys| - 1] == xs + init;
      FilterAchievementsAppend(xs, init, search, category, status);
    }
  }

  /** With an empty search and no selection the whole list is shown. */
  lemma {:induction false} FilterNothingKeepsAll(xs: seq<Achievement>)
    ensures FilterAchievements(xs, "", "", "") == xs
  {
    assert Lower("") == "";
    if xs != [] {
      FilterNothingKeepsAll(xs[..|xs| - 1]);
      assert xs == xs[..|xs| - 1] + [xs[|xs| - 1]];
    }
  }

  /** Filtering the filtered list again changes nothing. */
  lemma {:induction false} FilterIdempotent(xs: seq<Achievement>, search: string, category: string, status: string)
    ensures var r := FilterAchievements(xs, search, category, status);
      FilterAchievements(r, search, category, status) == r
  {
    if xs != [] {
      var init := xs[..|xs| - 1];
      var x := xs[|xs| - 1];
      FilterIdempotent(init, search, category, status);
      var r0 := FilterAchievements(init, search, category, status);
      if Matches(x, search, category, status) {
        assert (r0 + [x])[..|r0|] == r0;
      } else {
        assert r0 + [] == r0;
      }
    }
  }

  // ---------------------------------------------------------------------
  // The page state and viewAchievement (achievements.js:75-94, 224-229)

  /** `achievements.find(a => a.id === id)`. */
  function FindById(xs: seq<Achievement>, id: string): (r: Option<Achievement>)
    ensures r.None? <==> forall i :: 0 <= i < |xs| ==> xs[i].id != id
    ensures r.Some? ==> exists i :: 0 <= i < |xs| && xs[i] == r.value && r.value.id == id
                          && forall j :: 0 <= j < i ==> xs[j].id != id
  {
    var i := S.AchievementIndex(xs, id);
    if i == -1 then None else Some(xs[i])
  }

  class Page {
    /** The module-level `achievements` array of the page. */
    var achievements: seq<Achievement>

    constructor()
      ensures achievements == []
    {
      achievements := [];
    }

    /** `loadAchievements()`: replace the list by the stored achievements followed
        by the converted approvals. */
    method LoadAchievements(stored: seq<Achievement>, approvals: seq<PendingApproval>)
      modifies this
      ensures achievements == Merged(stored, approvals)
    {
      var pending: seq<Achievement> := [];
      var i := 0;
      while i < |approvals|
        invariant 0 <= i <= |approvals|
        invariant pending == ConvertAll(approvals[..i])
      {
        pending := pending + [FromApproval(approvals[i])];
        i := i + 1;
      }
      assert approvals[..|approvals|] == approvals;
      achievements := stored + pending;
    }

    /** `viewAchievement(id)`: the record the modal would show, None when no
        record has the id (nothing happens then). */
    method ViewAchievement(id: string) returns (shown: Option<Achievement>)
      ensures shown == FindById(achievements, id)
    {
      var i := 0;
      while i < |achievements|
        invariant 0 <= i <= |achievements|
        invariant forall j :: 0 <= j < i ==> achievements[j].id != id
      {
        if achievements[i].id == id {
          return Some(achievements[i]);
        }
        i := i + 1;
      }
      return None;
    }
  }
}
