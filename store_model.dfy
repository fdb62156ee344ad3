/**
 * The data manager of shared-utils.js (class `StudentCredoData`) as transitions
 * on a value. Its four localStorage keys become the collections of a `Store`,
 * plus the log of dispatched events; each operation is a function from the old
 * store (and its arguments) to the new store and its return value. The class in
 * module Manager performs the same transitions in place. Clock readings, the ids
 * derived from `Date.now()` and the finished block hash are parameters.
 */
module StoreModel {
  import opened Strings
  import opened Records
  import opened ActivityPoints

  /** What `updateGlobalStats` broadcasts (without its `lastUpdated` clock reading). */
  datatype GlobalStats = GlobalStats(total: nat, approved: nat, pending: nat, rejected: nat)

  /** The events the manager dispatches on `window`, in emission order. */
  datatype Event =
    | StatsUpdated(stats: GlobalStats)
    | ApprovalsUpdated(approvals: seq<PendingApproval>)
    | BlockchainUpdated(count: nat)
    | AchievementStatusUpdated(approvalId: string, achievementId: string, status: string, reason: string)

  datatype Store = Store(
    achievements: seq<Achievement>,
    approvals: seq<PendingApproval>,
    credentials: seq<Credential>,
    profile: UserProfile,
    events: seq<Event>)

  /** `getDefaultProfile()`. */
  function DefaultProfile(): UserProfile {
    UserProfile("Priyesh Kumar Kashyap", "BT24CS063", "2nd year", "CSE A2", "", "Computer Science", "profile-pic.jpg")
  }

  function GlobalStatsOf(xs: seq<Achievement>): GlobalStats {
    GlobalStats(|xs|, CountAchievements(xs, "approved"), CountAchievements(xs, "pending"), CountAchievements(xs, "rejected"))
  }

  /** `saveAchievements`: store the list and broadcast `statsUpdated`. */
  function SaveAchievements(s: Store, xs: seq<Achievement>): Store {
    s.(achievements := xs, events := s.events + [StatsUpdated(GlobalStatsOf(xs))])
  }

  /** `savePendingApprovals`: store the list and broadcast `approvalsUpdated`. */
  function SaveApprovals(s: Store, xs: seq<PendingApproval>): Store {
    s.(approvals := xs, events := s.events + [ApprovalsUpdated(xs)])
  }

  /** `saveBlockchainCredentials`: store the list and broadcast `blockchainUpdated`. */
  function SaveCredentials(s: Store, xs: seq<Credential>): Store {
    s.(credentials := xs, events := s.events + [BlockchainUpdated(|xs|)])
  }

  // ---------------------------------------------------------------------
  // Lookups (`findIndex` and `find`)

  /** `xs.findIndex(a => a.id === id)`. */
  function AchievementIndex(xs: seq<Achievement>, id: string): (r: int)
    ensures -1 <= r < |xs|
    ensures r >= 0 ==> xs[r].id == id && forall j :: 0 <= j < r ==> xs[j].id != id
    ensures r == -1 ==> forall j :: 0 <= j < |xs| ==> xs[j].id != id
  {
    if xs == [] then -1
    else if xs[0].id == id then 0
    else
      var k := AchievementIndex(xs[1..], id);
      if k == -1 then -1 else k + 1
  }

  /** `approvals.findIndex(a => a.id === id)`. */
  function ApprovalIndex(xs: seq<PendingApproval>, id: string): (r: int)
    ensures -1 <= r < |xs|
    ensures r >= 0 ==> xs[r].id == id && forall j :: 0 <= j < r ==> xs[j].id != id
    ensures r == -1 ==> forall j :: 0 <= j < |xs| ==> xs[j].id != id
  {
    if xs == [] then -1
    else if xs[0].id == id then 0
    else
      var k := ApprovalIndex(xs[1..], id);
      if k == -1 then -1 else k + 1
  }

  /** The position of the ledger record embedding achievement `id`, as `find` scans. */
  function CredentialIndex(cs: seq<Credential>, id: string): (r: int)
    ensures -1 <= r < |cs|
    ensures r >= 0 ==> cs[r].achievement.id == id && forall j :: 0 <= j < r ==> cs[j].achievement.id != id
    ensures r == -1 ==> forall j :: 0 <= j < |cs| ==> cs[j].achievement.id != id
  {
    if cs == [] then -1
    else if cs[0].achievement.id == id then 0
    else
      var k := CredentialIndex(cs[1..], id);
      if k == -1 then -1 else k + 1
  }

  function AchievementIds(xs: seq<Achievement>): (r: seq<string>)
    ensures |r| == |xs| && forall i :: 0 <= i < |xs| ==> r[i] == xs[i].id
  {
    seq(|xs|, i requires 0 <= i < |xs| => xs[i].id)
  }

  function LedgerIds(cs: seq<Credential>): (r: seq<string>)
    ensures |r| == |cs| && forall i :: 0 <= i < |cs| ==> r[i] == cs[i].achievement.id
  {
    seq(|cs|, i requires 0 <= i < |cs| => cs[i].achievement.id)
  }

  /** Number of stored achievements with id `id`. */
  function CountId(xs: seq<Achievement>, id: string): nat {
    CountStatus(AchievementIds(xs), id)
  }

  /** Number of ledger records embedding achievement `id`. */
  function LedgerCount(cs: seq<Credential>, id: string): nat {
    CountStatus(LedgerIds(cs), id)
  }

  // ---------------------------------------------------------------------
  // addAchievement, updateAchievement, deleteAchievement (shared-utils.js:110-135)

  /** `addAchievement`: stamp id and creation date, append, save. */
  function AddAchievement(s: Store, a: Achievement, id: string, now: string): (Store, Achievement) {
    var stored := a.(id := id, dateCreated := now);
    (SaveAchievements(s, s.achievements + [stored]), stored)
  }

  /** `{ ...a, ...p }`: every field the patch carries replaces the stored one. */
  function Patch(a: Achievement, p: AchievementPatch): Achievement {
    a.(id := if p.id.Some? then p.id.value else a.id,
       title := if p.title.Some? then p.title.value else a.title,
       description := if p.description.Some? then p.description.value else a.description,
       category := if p.category.Some? then p.category.value else a.category,
       skills := if p.skills.Some? then p.skills.value else a.skills,
       files := if p.files.Some? then p.files.value else a.files,
       status := if p.status.Some? then p.status.value else a.status,
       dateCreated := if p.dateCreated.Some? then p.dateCreated.value else a.dateCreated,
       issuer := if p.issuer.Some? then p.issuer.value else a.issuer)
  }

  function EmptyPatch(): AchievementPatch {
    AchievementPatch(None, None, None, None, None, None, None, None, None)
  }

  /** `updateAchievement`: None (and no save) for an unknown id. */
  function UpdateAchievement(s: Store, id: string, p: AchievementPatch): (Store, Option<Achievement>) {
    var i := AchievementIndex(s.achievements, id);
    if i == -1 then (s, None)
    else
      var u := Patch(s.achievements[i], p);
      (SaveAchievements(s, s.achievements[i := u]), Some(u))
  }

  /** `achievements.filter(a => a.id !== id)`. */
  function WithoutId(xs: seq<Achievement>, id: string): (r: seq<Achievement>)
    ensures |r| <= |xs|
    ensures forall i :: 0 <= i < |r| ==> r[i].id != id
  {
    if xs == [] then []
    else WithoutId(xs[..|xs| - 1], id) + (if xs[|xs| - 1].id != id then [xs[|xs| - 1]] else [])
  }

  /** `deleteAchievement`: always saves, even when nothing matched. */
  function DeleteAchievement(s: Store, id: string): Store {
    SaveAchievements(s, WithoutId(s.achievements, id))
  }

  /** The empty patch changes nothing and a patch applied twice is applied once;
      each field the patch carries overwrites the stored one, each field it lacks
      keeps its stored value, and the fields a patch cannot carry are kept. */
  lemma PatchProperties(a: Achievement, p: AchievementPatch)
    ensures Patch(a, EmptyPatch()) == a
    ensures Patch(Patch(a, p), p) == Patch(a, p)
    ensures p.id.Some? ==> Patch(a, p).id == p.id.value
    ensures p.id.None? ==> Patch(a, p).id == a.id
    ensures p.title.Some? ==> Patch(a, p).title == p.title.value
    ensures p.title.None? ==> Patch(a, p).title == a.title
    ensures p.description.Some? ==> Patch(a, p).description == p.description.value
    ensures p.description.None? ==> Patch(a, p).description == a.description
    ensures p.category.Some? ==> Patch(a, p).category == p.category.value
    ensures p.category.None? ==> Patch(a, p).category == a.category
    ensures p.skills.Some? ==> Patch(a, p).skills == p.skills.value
    ensures p.skills.None? ==> Patch(a, p).skills == a.skills
    ensures p.files.Some? ==> Patch(a, p).files == p.files.value
    ensures p.files.None? ==> Patch(a, p).files == a.files
    ensures p.status.Some? ==> Patch(a, p).status == p.status.value
    ensures p.status.None? ==> Patch(a, p).status == a.status
    ensures p.dateCreated.Some? ==> Patch(a, p).dateCreated == p.dateCreated.value
    ensures p.dateCreated.None? ==> Patch(a, p).dateCreated == a.dateCreated
    ensures p.issuer.Some? ==> Patch(a, p).issuer == p.issuer.value
    ensures p.issuer.None? ==> Patch(a, p).issuer == a.issuer
    ensures Patch(a, p).kind == a.kind && Patch(a, p).reason == a.reason
    ensures Patch(a, p).dateApproved == a.dateApproved && Patch(a, p).submittedDate == a.submittedDate
    ensures Patch(a, p).reviewDate == a.reviewDate
  {
  }

  /** A record survives the deletion exactly when it was stored and has another id;
      the order of the survivors is kept and their number drops by the matches. */
  lemma {:induction false} WithoutIdCorrect(xs: seq<Achievement>, id: string)
    ensures forall a :: a in WithoutId(xs, id) <==> a in xs && a.id != id
    ensures |WithoutId(xs, id)| + CountId(xs, id) == |xs|
  {
    if xs != [] {
      var init := xs[..|xs| - 1];
      WithoutIdCorrect(init, id);
      assert xs == init + [xs[|xs| - 1]];
      assert AchievementIds(xs)[..|xs| - 1] == AchievementIds(init);
    }
  }

  /** Deleting an id that no record carries keeps the list as it was. */
  lemma {:induction false} WithoutAbsentId(xs: seq<Achievement>, id: string)
    requires forall i :: 0 <= i < |xs| ==> xs[i].id != id
    ensures WithoutId(xs, id) == xs
  {
    if xs != [] {
      WithoutAbsentId(xs[..|xs| - 1], id);
      assert xs == xs[..|xs| - 1] + [xs[|xs| - 1]];
    }
  }

  /** Deleting the id a fresh record was given undoes `addAchievement`. */
  lemma DeleteUndoesAdd(s: Store, a: Achievement, id: string, now: string)
    requires forall i :: 0 <= i < |s.achievements| ==> s.achievements[i].id != id
    ensures DeleteAchievement(AddAchievement(s, a, id, now).0, id).achievements == s.achievements
  {
    var xs := s.achievements + [a.(id := id, dateCreated := now)];
    assert xs[..|xs| - 1] == s.achievements;
    WithoutAbsentId(s.achievements, id);
  }

  /** An update touches at most the first record with the id and nothing but the achievements. */
  lemma UpdateAchievementEffect(s: Store, id: string, p: AchievementPatch)
    ensures var (t, r) := UpdateAchievement(s, id, p);
      && t.approvals == s.approvals && t.credentials == s.credentials
      && |t.achievements| == |s.achievements|
      && (r.None? <==> forall j :: 0 <= j < |s.achievements| ==> s.achievements[j].id != id)
      && (r.None? ==> t == s)
      && (r.Some? ==>
            exists i :: 0 <= i < |s.achievements| && s.achievements[i].id == id
              && (forall j :: 0 <= j < i ==> s.achievements[j].id != id)
              && t.achievements == s.achievements[i := Patch(s.achievements[i], p)] && r.value == t.achievements[i])
  {
    var i := AchievementIndex(s.achievements, id);
    if i != -1 {
      assert s.achievements[i].id == id;
    }
  }

  // ---------------------------------------------------------------------
  // getStats and getApprovalStats (shared-utils.js:188-203, 455-463)

  datatype Stats = Stats(total: nat, approved: nat, pending: nat, rejected: nat, activityPoints: nat)

  /** `getStats()`. */
  function GetStats(s: Store): Stats {
    Stats(|s.achievements| + |s.approvals|,
          CountAchievements(s.achievements, "approved"),
          CountAchievements(s.achievements, "pending") + CountApprovals(s.approvals, "pending"),
          CountAchievements(s.achievements, "rejected"),
          TotalPoints(s.achievements))
  }

  datatype ApprovalStats = ApprovalStats(pending: nat, approved: nat, rejected: nat, total: nat)

  /** `getApprovalStats()`. */
  function GetApprovalStats(s: Store): ApprovalStats {
    ApprovalStats(CountApprovals(s.approvals, "pending"), CountApprovals(s.approvals, "approved"),
                  CountApprovals(s.approvals, "rejected"), |s.approvals|)
  }

  /** The three status counts never exceed the total, in either summary. */
  lemma StatsBounded(s: Store)
    ensures GetStats(s).approved + GetStats(s).pending + GetStats(s).rejected <= GetStats(s).total
    ensures GetApprovalStats(s).pending + GetApprovalStats(s).approved + GetApprovalStats(s).rejected
            <= GetApprovalStats(s).total
  {
    CountThreeStatuses(AchievementStatuses(s.achievements), "approved", "pending", "rejected");
    CountThreeStatuses(ApprovalStatuses(s.approvals), "approved", "pending", "rejected");
  }

  // ---------------------------------------------------------------------
  // calculatePriority and addPendingApproval (shared-utils.js:379-407, 442-453)

  /** Exact matches against the two short lists; everything else is low. */
  function CalculatePriority(category: string): Priority {
    if category in ["competition-win", "internship"] then High
    else if category in ["certificate", "freelancing"] then Medium
    else Low
  }

  /** Exactly two categories are high and two medium; every other text is low. */
  lemma PriorityClasses(category: string)
    ensures CalculatePriority(category) == High <==> category == "competition-win" || category == "internship"
    ensures CalculatePriority(category) == Medium <==> category == "certificate" || category == "freelancing"
    ensures CalculatePriority(category) == Low <==>
      category !in {"competition-win", "internship", "certificate", "freelancing"}
  {
  }

  /** The classification is by exact text: other spellings fall to low. */
  lemma PriorityByExactMatch()
    ensures CalculatePriority("internship") == High && CalculatePriority("Internship") == Low
    ensures CalculatePriority("freelancing") == Medium && CalculatePriority("freelance") == Low
    ensures CalculatePriority("competition") == Low
  {
    assert "Internship" != "internship" && "Internship" != "competition-win";
    assert "Internship" != "certificate" && "Internship" != "freelancing";
    assert "freelance" != "freelancing";
  }

  function NewApproval(s: Store, sub: Submission, id: string, now: string): PendingApproval {
    PendingApproval(id, id, s.profile.name, s.profile.rollNumber, sub.title, sub.description, sub.category,
                    sub.skills, sub.files, now, "pending", CalculatePriority(sub.category), sub.blockchain, None, None)
  }

  /** `addPendingApproval`: append one pending approval linked to its own id. */
  function AddPendingApproval(s: Store, sub: Submission, id: string, now: string): (Store, PendingApproval) {
    var ap := NewApproval(s, sub, id, now);
    (SaveApprovals(s, s.approvals + [ap]), ap)
  }

  /** Exactly one approval is appended, pending and linked to its own id; the
      achievements and the ledger are untouched; both summaries count it as pending. */
  lemma AddPendingApprovalEffect(s: Store, sub: Submission, id: string, now: string)
    ensures var (t, ap) := AddPendingApproval(s, sub, id, now);
      && t.approvals == s.approvals + [ap]
      && ap.status == "pending" && ap.id == id && ap.achievementId == id
      && ap.title == sub.title && ap.category == sub.category && ap.submittedDate == now
      && ap.studentName == s.profile.name && ap.studentId == s.profile.rollNumber
      && ap.priority == CalculatePriority(sub.category)
      && t.achievements == s.achievements && t.credentials == s.credentials
      && GetStats(t) == GetStats(s).(total := GetStats(s).total + 1, pending := GetStats(s).pending + 1)
      && GetApprovalStats(t) == GetApprovalStats(s).(total := GetApprovalStats(s).total + 1,
                                                     pending := GetApprovalStats(s).pending + 1)
  {
    var (t, ap) := AddPendingApproval(s, sub, id, now);
    ApprovalCountAppend(s.approvals, ap, "pending");
    ApprovalCountAppend(s.approvals, ap, "approved");
    ApprovalCountAppend(s.approvals, ap, "rejected");
  }

  // ---------------------------------------------------------------------
  // addToBlockchain (shared-utils.js:478-505)

  /** The shape of the ledger that `addToBlockchain` alone builds: block numbers
      1, 2, 3, ... in order, every record immutable and embedding an approved
      achievement, and no achievement id recorded twice. */
  ghost predicate LedgerValid(cs: seq<Credential>) {
    && (forall i :: 0 <= i < |cs| ==>
          cs[i].blockNumber == i + 1 && cs[i].immutable && cs[i].achievement.status == "approved")
    && (forall i, j :: 0 <= i < j < |cs| ==> cs[i].achievement.id != cs[j].achievement.id)
  }

  /** `addToBlockchain(achievement, verifiedBy)`, with the record id, the block hash
      and the timestamp supplied. */
  function AddToBlockchain(s: Store, a: Achievement, verifiedBy: string, recordId: string, hash: string, now: string)
    : (Store, Option<Credential>)
  {
    if a.status != "approved" then (s, None)
    else
      var k := CredentialIndex(s.credentials, a.id);
      if k >= 0 then (s, Some(s.credentials[k]))
      else
        var c := Credential(recordId, hash, a, now, verifiedBy, true, |s.credentials| + 1);
        (SaveCredentials(s, s.credentials + [c]), Some(c))
  }

  /** The three outcomes of `addToBlockchain`: nothing for an achievement that is
      not approved; the existing record, with no change, for an id already on the
      ledger; otherwise exactly one new immutable record numbered one past the end. */
  lemma AddToBlockchainCases(s: Store, a: Achievement, verifiedBy: string, recordId: string, hash: string, now: string)
    ensures var (t, r) := AddToBlockchain(s, a, verifiedBy, recordId, hash, now);
      && t.achievements == s.achievements && t.approvals == s.approvals
      && (a.status != "approved" ==> t == s && r.None?)
      && (a.status == "approved" && LedgerCount(s.credentials, a.id) > 0 ==>
            t == s && r.Some? && r.value in s.credentials && r.value.achievement.id == a.id)
      && (a.status == "approved" && LedgerCount(s.credentials, a.id) == 0 ==>
            r.Some? && t.credentials == s.credentials + [r.value]
            && r.value.blockNumber == |s.credentials| + 1 && r.value.immutable
            && r.value.achievement == a && r.value.verifiedBy == verifiedBy)
  {
    var k := CredentialIndex(s.credentials, a.id);
    if k == -1 {
      CountStatusAbsent(LedgerIds(s.credentials), a.id);
    } else {
      CountStatusPresent(LedgerIds(s.credentials), k);
    }
  }

  /** `addToBlockchain` keeps the ledger's shape. */
  lemma AddToBlockchainKeepsLedgerValid(s: Store, a: Achievement, verifiedBy: string, recordId: string, hash: string, now: string)
    requires LedgerValid(s.credentials)
    ensures LedgerValid(AddToBlockchain(s, a, verifiedBy, recordId, hash, now).0.credentials)
  {
  }

  /** A second `addToBlockchain` of the same achievement changes nothing. */
  lemma AddToBlockchainIdempotent(s: Store, a: Achievement, verifiedBy: string, recordId: string, hash: string, now: string,
                                  verifiedBy': string, recordId': string, hash': string, now': string)
    ensures var t := AddToBlockchain(s, a, verifiedBy, recordId, hash, now).0;
      AddToBlockchain(t, a, verifiedBy', recordId', hash', now').0 == t
  {
    var t := AddToBlockchain(s, a, verifiedBy, recordId, hash, now).0;
    if a.status == "approved" && CredentialIndex(s.credentials, a.id) == -1 {
      assert t.credentials[|s.credentials|].achievement.id == a.id;
    }
  }

  /** On a valid ledger every achievement id is recorded at most once. */
  lemma LedgerRecordsOnce(cs: seq<Credential>, id: string)
    requires LedgerValid(cs)
    ensures LedgerCount(cs, id) <= 1
  {
    CountStatusDistinct(LedgerIds(cs), id);
  }

  /** After `addToBlockchain` of an approved achievement a valid ledger records its
      id exactly once, and a ledger that already did is left alone. */
  lemma AddToBlockchainRecordsOnce(s: Store, a: Achievement, verifiedBy: string, recordId: string, hash: string, now: string)
    requires a.status == "approved" && LedgerValid(s.credentials)
    ensures var t := AddToBlockchain(s, a, verifiedBy, recordId, hash, now).0;
      && LedgerValid(t.credentials)
      && LedgerCount(t.credentials, a.id) == 1
      && (LedgerCount(s.credentials, a.id) == 1 ==> t == s)
      && t.achievements == s.achievements && t.approvals == s.approvals
  {
    var t := AddToBlockchain(s, a, verifiedBy, recordId, hash, now).0;
    AddToBlockchainCases(s, a, verifiedBy, recordId, hash, now);
    AddToBlockchainKeepsLedgerValid(s, a, verifiedBy, recordId, hash, now);
    LedgerRecordsOnce(s.credentials, a.id);
    if LedgerCount(s.credentials, a.id) == 0 {
      assert LedgerIds(t.credentials) == LedgerIds(s.credentials) + [a.id];
      CountStatusAppend(LedgerIds(s.credentials), [a.id], a.id);
      assert CountStatus([a.id], a.id) == 1 by { assert [a.id][..0] == []; }
    }
  }

  // ---------------------------------------------------------------------
  // updateApprovalStatus (shared-utils.js:526-597; the definition at 409 is overridden)

  /** `if (reason) x.reason = reason`: only a non-empty reason is written. */
  function ReasonOr(reason: string, previous: Option<string>): Option<string> {
    if reason != "" then Some(reason) else previous
  }

  /** The reviewed approval: new status, review date and, if given, reason. */
  function Reviewed(ap: PendingApproval, status: string, reason: string, now: string): PendingApproval {
    ap.(status := status, reviewDate := Some(now), reason := ReasonOr(reason, ap.reason))
  }

  /** `achievementId || id`. */
  function LinkedId(ap: PendingApproval): string {
    if ap.achievementId != "" then ap.achievementId else ap.id
  }

  /** The achievement an approval creates when none has its linked id. */
  function CreatedFrom(ap: PendingApproval, reason: string, now: string): Achievement {
    Achievement(LinkedId(ap), ap.title, ap.description, ap.category, "", ap.skills, ap.files, "approved",
                ap.submittedDate, None, Some(ap.submittedDate), Some(now), "", ReasonOr(reason, None))
  }

  /** An existing achievement after approval. */
  function MarkedApproved(a: Achievement, reason: string, now: string): Achievement {
    a.(status := "approved", reviewDate := Some(now), reason := ReasonOr(reason, a.reason))
  }

  /** What approving does to the achievements and the ledger (shared-utils.js:546-580):
      create or update the linked achievement, save, and put it on the ledger. */
  function ApplyApproval(s: Store, ap: PendingApproval, reason: string, now: string, recordId: string, hash: string): Store {
    var aid := LinkedId(ap);
    var k := AchievementIndex(s.achievements, aid);
    if k == -1 then
      var created := CreatedFrom(ap, reason, now);
      AddToBlockchain(SaveAchievements(s, s.achievements + [created]), created, "System Admin", recordId, hash, now).0
    else
      var updated := MarkedApproved(s.achievements[k], reason, now);
      AddToBlockchain(SaveAchievements(s, s.achievements[k := updated]), updated, "System Admin", recordId, hash, now).0
  }

  /** `updateApprovalStatus(approvalId, status, reason)`; `now` stands for the clock
      readings and `recordId`, `hash` for the ledger record it may create. */
  function UpdateApprovalStatus(s: Store, approvalId: string, status: string, reason: string,
                                now: string, recordId: string, hash: string): (Store, Option<PendingApproval>)
  {
    var i := ApprovalIndex(s.approvals, approvalId);
    if i == -1 then (s, None)
    else
      var ap := Reviewed(s.approvals[i], status, reason, now);
      var s1 := SaveApprovals(s, s.approvals[i := ap]);
      var s2 := if status == "approved" then ApplyApproval(s1, ap, reason, now, recordId, hash) else s1;
      (s2.(events := s2.events + [AchievementStatusUpdated(approvalId, LinkedId(ap), status, reason)]), Some(ap))
  }

  /** The approval's side of the decision. An unknown id yields None and changes
      nothing. Otherwise the first approval with the id gets the new status and
      review date, its reason only when one is given, nothing else about it changes;
      `approvalsUpdated` is the first new event and `achievementStatusUpdated` the last. */
  lemma UpdateApprovalStatusReviews(s: Store, approvalId: string, status: string, reason: string,
                                    now: string, recordId: string, hash: string)
    ensures var (t, r) := UpdateApprovalStatus(s, approvalId, status, reason, now, recordId, hash);
      && (r.None? <==> forall j :: 0 <= j < |s.approvals| ==> s.approvals[j].id != approvalId)
      && (r.None? ==> t == s)
      && (r.Some? ==>
            var i := ApprovalIndex(s.approvals, approvalId);
            && s.approvals[i].id == approvalId
            && t.approvals == s.approvals[i := r.value]
            && r.value.status == status && r.value.reviewDate == Some(now)
            && (reason != "" ==> r.value.reason == Some(reason))
            && (reason == "" ==> r.value.reason == s.approvals[i].reason)
            && r.value.(status := s.approvals[i].status, reviewDate := s.approvals[i].reviewDate,
                        reason := s.approvals[i].reason) == s.approvals[i]
            && |t.events| >= |s.events| + 2 && t.events[..|s.events|] == s.events
            && t.events[|s.events|] == ApprovalsUpdated(t.approvals)
            && t.events[|t.events| - 1] == AchievementStatusUpdated(approvalId, LinkedId(s.approvals[i]), status, reason))
  {
    var i := ApprovalIndex(s.approvals, approvalId);
    if i != -1 {
      ReviewedSpec(s.approvals[i], status, reason, now);
      DecisionEvents(s, i, approvalId, status, reason, now, recordId, hash);
    }
  }

  /** What reviewing changes in an approval. */
  lemma ReviewedSpec(ap: PendingApproval, status: string, reason: string, now: string)
    ensures var r := Reviewed(ap, status, reason, now);
      && r.status == status && r.reviewDate == Some(now)
      && (reason != "" ==> r.reason == Some(reason))
      && (reason == "" ==> r.reason == ap.reason)
      && r.(status := ap.status, reviewDate := ap.reviewDate, reason := ap.reason) == ap
      && LinkedId(r) == LinkedId(ap)
  {
  }

  /** The approvals and events after deciding the approval at `i`. */
  lemma DecisionEvents(s: Store, i: int, approvalId: string, status: string, reason: string,
                       now: string, recordId: string, hash: string)
    requires i == ApprovalIndex(s.approvals, approvalId) && i >= 0
    ensures var (t, r) := UpdateApprovalStatus(s, approvalId, status, reason, now, recordId, hash);
      && r == Some(Reviewed(s.approvals[i], status, reason, now))
      && t.approvals == s.approvals[i := r.value]
      && |t.events| >= |s.events| + 2 && t.events[..|s.events|] == s.events
      && t.events[|s.events|] == ApprovalsUpdated(t.approvals)
      && t.events[|t.events| - 1] == AchievementStatusUpdated(approvalId, LinkedId(r.value), status, reason)
  {
    var ap := Reviewed(s.approvals[i], status, reason, now);
    var s1 := SaveApprovals(s, s.approvals[i := ap]);
    var s2 := if status == "approved" then ApplyApproval(s1, ap, reason, now, recordId, hash) else s1;
    DecisionFrame(s1, ap, status, reason, now, recordId, hash);
    var t := s2.(events := s2.events + [AchievementStatusUpdated(approvalId, LinkedId(ap), status, reason)]);
    assert UpdateApprovalStatus(s, approvalId, status, reason, now, recordId, hash) == (t, Some(ap));
    PrefixOfPrefix(t.events, s2.events, s1.events);
    assert s1.events[..|s.events|] == s.events;
    assert t.events[..|s.events|] == s1.events[..|s.events|];
  }

  /** A prefix of a prefix is a prefix. */
  lemma PrefixOfPrefix<T>(a: seq<T>, b: seq<T>, c: seq<T>)
    requires |b| <= |a| && a[..|b|] == b
    requires |c| <= |b| && b[..|c|] == c
    ensures a[..|c|] == c
  {
    assert a[..|c|] == a[..|b|][..|c|];
  }

  /** The status decision keeps the approvals and only appends events. */
  lemma DecisionFrame(s: Store, ap: PendingApproval, status: string, reason: string, now: string, recordId: string, hash: string)
    ensures var t := if status == "approved" then ApplyApproval(s, ap, reason, now, recordId, hash) else s;
      t.approvals == s.approvals && |t.events| >= |s.events| && t.events[..|s.events|] == s.events
  {
    if status == "approved" {
      ApplyApprovalFrame(s, ap, reason, now, recordId, hash);
    }
  }

  /** Approving keeps the approvals and only appends events. */
  lemma ApplyApprovalFrame(s: Store, ap: PendingApproval, reason: string, now: string, recordId: string, hash: string)
    ensures var t := ApplyApproval(s, ap, reason, now, recordId, hash);
      t.approvals == s.approvals && |t.events| >= |s.events| && t.events[..|s.events|] == s.events
  {
  }

  /** The achievement created from a submission carries the submission's id (or its
      linked id), title, description, category, skills and files, is approved, was
      created and submitted on the submission date, was reviewed now, and has a
      reason exactly when one is given. */
  lemma CreatedFromSubmission(ap: PendingApproval, reason: string, now: string)
    ensures var a := CreatedFrom(ap, reason, now);
      && a.id == LinkedId(ap) && a.title == ap.title && a.description == ap.description
      && a.category == ap.category && a.skills == ap.skills && a.files == ap.files
      && a.status == "approved" && a.dateCreated == ap.submittedDate
      && a.submittedDate == Some(ap.submittedDate) && a.reviewDate == Some(now)
      && (a.reason.Some? <==> reason != "") && (reason != "" ==> a.reason == Some(reason))
  {
  }

  /** Approving an existing achievement sets its status and review date, and its
      reason when one is given; its id, content and dates stay. */
  lemma MarkedApprovedKeeps(a: Achievement, reason: string, now: string)
    ensures var b := MarkedApproved(a, reason, now);
      && b.status == "approved" && b.reviewDate == Some(now)
      && b.reason == (if reason != "" then Some(reason) else a.reason)
      && b.id == a.id && b.title == a.title && b.description == a.description
      && b.category == a.category && b.kind == a.kind && b.skills == a.skills && b.files == a.files
      && b.dateCreated == a.dateCreated && b.dateApproved == a.dateApproved
      && b.submittedDate == a.submittedDate && b.issuer == a.issuer
  {
  }

  /** What approving writes. With no achievement under the linked id, the one created
      from the submission is appended; otherwise the first achievement with the id is
      marked approved in place. Every other achievement and every existing ledger
      record stays as it was, and at most one record is added, for the written
      achievement and verified by "System Admin". */
  lemma ApplyApprovalEffect(s: Store, ap: PendingApproval, reason: string, now: string, recordId: string, hash: string)
    ensures var t := ApplyApproval(s, ap, reason, now, recordId, hash);
      var k := AchievementIndex(s.achievements, LinkedId(ap));
      var written := if k == -1 then CreatedFrom(ap, reason, now) else MarkedApproved(s.achievements[k], reason, now);
      && t.achievements == (if k == -1 then s.achievements + [written] else s.achievements[k := written])
      && t.approvals == s.approvals
      && |s.credentials| <= |t.credentials| <= |s.credentials| + 1
      && t.credentials[..|s.credentials|] == s.credentials
      && (|t.credentials| > |s.credentials| ==>
            t.credentials[|s.credentials|].achievement == written
            && t.credentials[|s.credentials|].verifiedBy == "System Admin")
  {
    var k := AchievementIndex(s.achievements, LinkedId(ap));
    var written := if k == -1 then CreatedFrom(ap, reason, now) else MarkedApproved(s.achievements[k], reason, now);
    var xs := if k == -1 then s.achievements + [written] else s.achievements[k := written];
    AddToBlockchainCases(SaveAchievements(s, xs), written, "System Admin", recordId, hash, now);
  }

  /** Approving a known approval writes its achievement as `ApplyApprovalEffect`
      says, built from the stored submission, and keeps every existing ledger record. */
  lemma ApprovalWritesAchievement(s: Store, approvalId: string, reason: string, now: string,
                                  recordId: string, hash: string)
    requires ApprovalIndex(s.approvals, approvalId) >= 0
    ensures var t := UpdateApprovalStatus(s, approvalId, "approved", reason, now, recordId, hash).0;
      var ap := s.approvals[ApprovalIndex(s.approvals, approvalId)];
      var k := AchievementIndex(s.achievements, LinkedId(ap));
      && t.achievements == (if k == -1 then s.achievements + [CreatedFrom(ap, reason, now)]
                            else s.achievements[k := MarkedApproved(s.achievements[k], reason, now)])
      && |s.credentials| <= |t.credentials| <= |s.credentials| + 1
      && t.credentials[..|s.credentials|] == s.credentials
  {
    var i := ApprovalIndex(s.approvals, approvalId);
    var ap := Reviewed(s.approvals[i], "approved", reason, now);
    assert LinkedId(ap) == LinkedId(s.approvals[i]);
    assert CreatedFrom(ap, reason, now) == CreatedFrom(s.approvals[i], reason, now);
    ApplyApprovalEffect(SaveApprovals(s, s.approvals[i := ap]), ap, reason, now, recordId, hash);
  }

  /** Any decision but "approved" (a rejection, say) leaves the achievements and
      the ledger exactly as they were. */
  lemma DecisionOtherThanApprovalKeepsRecords(s: Store, approvalId: string, status: string, reason: string,
                                             now: string, recordId: string, hash: string)
    requires status != "approved"
    ensures var t := UpdateApprovalStatus(s, approvalId, status, reason, now, recordId, hash).0;
      t.achievements == s.achievements && t.credentials == s.credentials
  {
  }

  /** Approving when at most one achievement carries the linked id leaves exactly
      one, approved, and a valid ledger then records that id exactly once; if both
      were already so, the ledger does not change and no achievement is added. */
  lemma {:induction false} ApplyApprovalRecordsOnce(s: Store, ap: PendingApproval, reason: string, now: string,
                                                   recordId: string, hash: string)
    requires LedgerValid(s.credentials)
    requires CountId(s.achievements, LinkedId(ap)) <= 1
    ensures var t := ApplyApproval(s, ap, reason, now, recordId, hash);
      var aid := LinkedId(ap);
      && LedgerValid(t.credentials)
      && CountId(t.achievements, aid) == 1
      && LedgerCount(t.credentials, aid) == 1
      && (exists j :: 0 <= j < |t.achievements| && t.achievements[j].id == aid && t.achievements[j].status == "approved")
      && (CountId(s.achievements, aid) == 1 && LedgerCount(s.credentials, aid) == 1 ==>
            t.credentials == s.credentials && |t.achievements| == |s.achievements|)
  {
    var aid := LinkedId(ap);
    var xs := s.achievements;
    var k := AchievementIndex(xs, aid);
    if k == -1 {
      var created := CreatedFrom(ap, reason, now);
      var s' := SaveAchievements(s, xs + [created]);
      CountStatusAbsent(AchievementIds(xs), aid);
      assert AchievementIds(xs + [created]) == AchievementIds(xs) + [aid];
      CountStatusAppend(AchievementIds(xs), [aid], aid);
      assert CountStatus([aid], aid) == 1 by { assert [aid][..0] == []; }
      AddToBlockchainRecordsOnce(s', created, "System Admin", recordId, hash, now);
      assert (xs + [created])[|xs|].id == aid;
    } else {
      var updated := MarkedApproved(xs[k], reason, now);
      var s' := SaveAchievements(s, xs[k := updated]);
      assert AchievementIds(xs[k := updated]) == AchievementIds(xs);
      CountStatusPresent(AchievementIds(xs), k);
      AddToBlockchainRecordsOnce(s', updated, "System Admin", recordId, hash, now);
      assert xs[k := updated][k] == updated;
    }
  }

  /** The approval the id selects, and the achievement id it links to, survive a decision. */
  lemma DecisionKeepsApproval(s: Store, approvalId: string, status: string, reason: string,
                              now: string, recordId: string, hash: string)
    requires ApprovalIndex(s.approvals, approvalId) >= 0
    ensures var t := UpdateApprovalStatus(s, approvalId, status, reason, now, recordId, hash).0;
      var i := ApprovalIndex(s.approvals, approvalId);
      && ApprovalIndex(t.approvals, approvalId) == i
      && LinkedId(t.approvals[i]) == LinkedId(s.approvals[i])
      && t.approvals[i].status == status
  {
    var i := ApprovalIndex(s.approvals, approvalId);
    var t := UpdateApprovalStatus(s, approvalId, status, reason, now, recordId, hash).0;
    UpdateApprovalStatusReviews(s, approvalId, status, reason, now, recordId, hash);
    assert t.approvals[i].id == approvalId;
    assert forall j :: 0 <= j < i ==> t.approvals[j] == s.approvals[j];
  }

  /** Approving a known approval: its linked achievement exists exactly once and is
      approved, and the ledger records it exactly once. */
  lemma ApprovalRecordsOnce(s: Store, approvalId: string, reason: string, now: string, recordId: string, hash: string)
    requires ApprovalIndex(s.approvals, approvalId) >= 0
    requires LedgerValid(s.credentials)
    requires CountId(s.achievements, LinkedId(s.approvals[ApprovalIndex(s.approvals, approvalId)])) <= 1
    ensures var t := UpdateApprovalStatus(s, approvalId, "approved", reason, now, recordId, hash).0;
      var aid := LinkedId(s.approvals[ApprovalIndex(s.approvals, approvalId)]);
      && LedgerValid(t.credentials)
      && CountId(t.achievements, aid) == 1
      && LedgerCount(t.credentials, aid) == 1
      && (exists j :: 0 <= j < |t.achievements| && t.achievements[j].id == aid && t.achievements[j].status == "approved")
  {
    var i := ApprovalIndex(s.approvals, approvalId);
    var ap := Reviewed(s.approvals[i], "approved", reason, now);
    var s1 := SaveApprovals(s, s.approvals[i := ap]);
    ApplyApprovalRecordsOnce(s1, ap, reason, now, recordId, hash);
  }

  /** Approving the same approval twice: still exactly one achievement with the
      linked id and exactly one ledger record for it; the second approval adds no
      achievement and no ledger record. */
  lemma ApproveTwice(s: Store, approvalId: string, reason: string, now: string, recordId: string, hash: string,
                     reason': string, now': string, recordId': string, hash': string)
    requires ApprovalIndex(s.approvals, approvalId) >= 0
    requires LedgerValid(s.credentials)
    requires CountId(s.achievements, LinkedId(s.approvals[ApprovalIndex(s.approvals, approvalId)])) <= 1
    ensures var t1 := UpdateApprovalStatus(s, approvalId, "approved", reason, now, recordId, hash).0;
      var t2 := UpdateApprovalStatus(t1, approvalId, "approved", reason', now', recordId', hash').0;
      var aid := LinkedId(s.approvals[ApprovalIndex(s.approvals, approvalId)]);
      && CountId(t2.achievements, aid) == 1
      && LedgerCount(t2.credentials, aid) == 1
      && t2.credentials == t1.credentials
      && |t2.achievements| == |t1.achievements|
  {
    var i := ApprovalIndex(s.approvals, approvalId);
    var aid := LinkedId(s.approvals[i]);
    var t1 := UpdateApprovalStatus(s, approvalId, "approved", reason, now, recordId, hash).0;
    ApprovalRecordsOnce(s, approvalId, reason, now, recordId, hash);
    DecisionKeepsApproval(s, approvalId, "approved", reason, now, recordId, hash);
    var ap := Reviewed(t1.approvals[i], "approved", reason', now');
    var u1 := SaveApprovals(t1, t1.approvals[i := ap]);
    assert LinkedId(ap) == aid;
    ApplyApprovalRecordsOnce(u1, ap, reason', now', recordId', hash');
  }

  /** Terminal states are not enforced: rejecting an approval that was approved
      marks the approval rejected but leaves its achievement approved and its
      ledger record in place. */
  lemma ApproveThenReject(s: Store, approvalId: string, reason: string, now: string, recordId: string, hash: string,
                          reason': string, now': string, recordId': string, hash': string)
    requires ApprovalIndex(s.approvals, approvalId) >= 0
    requires LedgerValid(s.credentials)
    requires CountId(s.achievements, LinkedId(s.approvals[ApprovalIndex(s.approvals, approvalId)])) <= 1
    ensures var t1 := UpdateApprovalStatus(s, approvalId, "approved", reason, now, recordId, hash).0;
      var t2 := UpdateApprovalStatus(t1, approvalId, "rejected", reason', now', recordId', hash').0;
      var i := ApprovalIndex(s.approvals, approvalId);
      var aid := LinkedId(s.approvals[i]);
      && t2.approvals[i].status == "rejected"
      && t2.achievements == t1.achievements && t2.credentials == t1.credentials
      && (exists j :: 0 <= j < |t2.achievements| && t2.achievements[j].id == aid && t2.achievements[j].status == "approved")
      && LedgerCount(t2.credentials, aid) == 1
  {
    var i := ApprovalIndex(s.approvals, approvalId);
    var t1 := UpdateApprovalStatus(s, approvalId, "approved", reason, now, recordId, hash).0;
    ApprovalRecordsOnce(s, approvalId, reason, now, recordId, hash);
    DecisionKeepsApproval(s, approvalId, "approved", reason, now, recordId, hash);
    DecisionKeepsApproval(t1, approvalId, "rejected", reason', now', recordId', hash');
    DecisionOtherThanApprovalKeepsRecords(t1, approvalId, "rejected", reason', now', recordId', hash');
  }

  /** Rejecting a pending approval moves one count from pending to rejected in the
      approval summary, but `getStats` keeps its rejected count, which counts
      achievements only: a rejection never creates an achievement. */
  lemma RejectionStats(s: Store, approvalId: string, reason: string, now: string, recordId: string, hash: string)
    requires ApprovalIndex(s.approvals, approvalId) >= 0
    requires s.approvals[ApprovalIndex(s.approvals, approvalId)].status == "pending"
    ensures var t := UpdateApprovalStatus(s, approvalId, "rejected", reason, now, recordId, hash).0;
      && GetStats(t).rejected == GetStats(s).rejected
      && GetStats(t).approved == GetStats(s).approved
      && GetStats(t).total == GetStats(s).total
      && GetStats(t).pending + 1 == GetStats(s).pending
      && GetApprovalStats(t).rejected == GetApprovalStats(s).rejected + 1
      && GetApprovalStats(t).pending + 1 == GetApprovalStats(s).pending
      && GetApprovalStats(t).total == GetApprovalStats(s).total
  {
    var i := ApprovalIndex(s.approvals, approvalId);
    var t := UpdateApprovalStatus(s, approvalId, "rejected", reason, now, recordId, hash).0;
    DecisionOtherThanApprovalKeepsRecords(s, approvalId, "rejected", reason, now, recordId, hash);
    var before := ApprovalStatuses(s.approvals);
    assert ApprovalStatuses(t.approvals) == before[i := "rejected"];
    CountStatusUpdate(before, i, "rejected", "pending");
    CountStatusUpdate(before, i, "rejected", "rejected");
  }
}
