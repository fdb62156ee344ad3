/**
 * Class `StudentCredoData` of shared-utils.js. The fields stand for the four
 * localStorage keys (achievements, pending approvals, blockchain credentials,
 * user profile) and the events dispatched so far. Every mutator reads a
 * collection, changes it and writes it back, and its contract ties the new
 * state to the transition of the same name in StoreModel, where the
 * properties of the transitions are proved.
 */
module Manager {
  import opened Records
  import opened ActivityPoints
  import S = StoreModel

  /** 2^32 and 2^31, for ECMAScript's ToInt32. */
  const Two32: int := 0x1_0000_0000
  const Two31: int := 0x8000_0000

  /** ToInt32 on an integral number: the value in [-2^31, 2^31) congruent to `x` modulo 2^32. */
  function ToInt32(x: int): (r: int)
    ensures -Two31 <= r < Two31
  {
    (x + Two31) % Two32 - Two31
  }

  /** ToInt32 differs from its argument by a multiple of 2^32. */
  lemma ToInt32Offset(x: int) returns (k: int)
    ensures ToInt32(x) == x + k * Two32
  {
    k := -((x + Two31) / Two32);
  }

  /** ToInt32 only sees its argument modulo 2^32. */
  lemma ToInt32Periodic(x: int, k: int)
    ensures ToInt32(x + k * Two32) == ToInt32(x)
  {
    var a := x + Two31;
    var q1, q2 := (a + k * Two32) / Two32, a / Two32;
    assert a + k * Two32 == q1 * Two32 + (a + k * Two32) % Two32;
    assert a == q2 * Two32 + a % Two32;
  }

  /** One step of `generateBlockHash`'s loop as written:
      `hash = ((hash << 5) - hash) + char; hash = hash & hash`. The shift and the
      `&` each apply ToInt32; the subtraction and addition are exact. */
  function HashStep(hash: int, code: int): int {
    ToInt32(ToInt32(hash * 32) - hash + code)
  }

  /** The fold over the character codes of `data`, starting from 0. */
  function HashFold(data: string): (r: int)
    ensures -Two31 <= r < Two31
  {
    if data == [] then 0 else HashStep(HashFold(data[..|data| - 1]), data[|data| - 1] as int)
  }

  /** The polynomial `data[0]·31^(n-1) + ... + data[n-1]` over the integers. */
  function Polynomial31(data: string): int {
    if data == [] then 0 else 31 * Polynomial31(data[..|data| - 1]) + data[|data| - 1] as int
  }

  /** A step is multiply-by-31-and-add, reduced to 32 bits. */
  lemma HashStepIsLinear(hash: int, code: int)
    ensures HashStep(hash, code) == ToInt32(31 * hash + code)
  {
    var k := ToInt32Offset(hash * 32);
    assert ToInt32(hash * 32) - hash + code == (31 * hash + code) + k * Two32;
    ToInt32Periodic(31 * hash + code, k);
  }

  /** The fold is the base-31 polynomial hash of the character codes, reduced to
      signed 32 bits: the intermediate wrap-arounds do not change the result. */
  lemma {:induction false} HashFoldIsPolynomial(data: string)
    ensures HashFold(data) == ToInt32(Polynomial31(data))
  {
    if data != [] {
      var init := data[..|data| - 1];
      var c := data[|data| - 1] as int;
      HashFoldIsPolynomial(init);
      HashStepIsLinear(HashFold(init), c);
      var k := ToInt32Offset(Polynomial31(init));
      assert 31 * HashFold(init) + c == Polynomial31(data) + (31 * k) * Two32;
      ToInt32Periodic(Polynomial31(data), 31 * k);
    }
  }

  /** `Math.abs(hash)`, the number `generateBlockHash` prints in hexadecimal. */
  function HashMagnitude(data: string): (r: nat)
    ensures r <= Two31
  {
    var h := HashFold(data);
    if h < 0 then -h else h
  }

  class StudentCredoData {
    var achievements: seq<Achievement>
    var approvals: seq<PendingApproval>
    var credentials: seq<Credential>
    var profile: UserProfile
    var events: seq<S.Event>

    function State(): S.Store
      reads this
    {
      S.Store(achievements, approvals, credentials, profile, events)
    }

    /** `new StudentCredoData()` over what localStorage holds: `init()` stores the
        default profile when there is none. */
    constructor(storedAchievements: seq<Achievement>, storedProfile: Option<UserProfile>,
                storedApprovals: seq<PendingApproval>, storedCredentials: seq<Credential>)
      ensures State() == S.Store(storedAchievements, storedApprovals, storedCredentials,
                                 if storedProfile.Some? then storedProfile.value else S.DefaultProfile(), [])
    {
      achievements := storedAchievements;
      approvals := storedApprovals;
      credentials := storedCredentials;
      profile := if storedProfile.Some? then storedProfile.value else S.DefaultProfile();
      events := [];
    }

    // Lookups, each a `findIndex` scan.

    method FindAchievement(id: string) returns (index: int)
      ensures index == S.AchievementIndex(achievements, id)
    {
      index := 0;
      while index < |achievements|
        invariant 0 <= index <= |achievements|
        invariant forall j :: 0 <= j < index ==> achievements[j].id != id
      {
        if achievements[index].id == id {
          return;
        }
        index := index + 1;
      }
      index := -1;
    }

    method FindApproval(id: string) returns (index: int)
      ensures index == S.ApprovalIndex(approvals, id)
    {
      index := 0;
      while index < |approvals|
        invariant 0 <= index <= |approvals|
        invariant forall j :: 0 <= j < index ==> approvals[j].id != id
      {
        if approvals[index].id == id {
          return;
        }
        index := index + 1;
      }
      index := -1;
    }

    method FindCredential(achievementId: string) returns (index: int)
      ensures index == S.CredentialIndex(credentials, achievementId)
    {
      index := 0;
      while index < |credentials|
        invariant 0 <= index <= |credentials|
        invariant forall j :: 0 <= j < index ==> credentials[j].achievement.id != achievementId
      {
        if credentials[index].achievement.id == achievementId {
          return;
        }
        index := index + 1;
      }
      index := -1;
    }

    // The three save methods.

    method SaveAchievements(xs: seq<Achievement>)
      modifies this
      ensures State() == S.SaveAchievements(old(State()), xs)
    {
      achievements := xs;
      events := events + [S.StatsUpdated(S.GlobalStatsOf(xs))];
    }

    method SaveApprovals(xs: seq<PendingApproval>)
      modifies this
      ensures State() == S.SaveApprovals(old(State()), xs)
    {
      approvals := xs;
      events := events + [S.ApprovalsUpdated(xs)];
    }

    method SaveCredentials(xs: seq<Credential>)
      modifies this
      ensures State() == S.SaveCredentials(old(State()), xs)
    {
      credentials := xs;
      events := events + [S.BlockchainUpdated(|xs|)];
    }

    // Record operations.

    method AddAchievement(a: Achievement, id: string, now: string) returns (stored: Achievement)
      modifies this
      ensures (State(), stored) == S.AddAchievement(old(State()), a, id, now)
    {
      stored := a.(id := id, dateCreated := now);
      SaveAchievements(achievements + [stored]);
    }

    method UpdateAchievement(id: string, patch: AchievementPatch) returns (updated: Option<Achievement>)
      modifies this
      ensures (State(), updated) == S.UpdateAchievement(old(State()), id, patch)
    {
      var index := FindAchievement(id);
      if index == -1 {
        return None;
      }
      var record := S.Patch(achievements[index], patch);
      SaveAchievements(achievements[index := record]);
      updated := Some(record);
    }

    method DeleteAchievement(id: string)
      modifies this
      ensures State() == S.DeleteAchievement(old(State()), id)
    {
      var filtered: seq<Achievement> := [];
      var i := 0;
      while i < |achievements|
        invariant 0 <= i <= |achievements|
        invariant filtered == S.WithoutId(achievements[..i], id)
      {
        assert achievements[..i + 1][..i] == achievements[..i];
        if achievements[i].id != id {
          filtered := filtered + [achievements[i]];
        }
        i := i + 1;
      }
      assert achievements[..|achievements|] == achievements;
      SaveAchievements(filtered);
    }

    // Derived numbers.

    /** `calculateActivityPoints()`: the total over the approved achievements. */
    method CalculateActivityPoints() returns (total: nat)
      ensures total == TotalPoints(achievements)
    {
      var approved := ApprovedOnly(achievements);
      total := 0;
      var i := 0;
      while i < |approved|
        invariant 0 <= i <= |approved|
        invariant total == SumPoints(approved[..i])
      {
        assert approved[..i + 1][..i] == approved[..i];
        total := total + PointsFor(approved[i]);
        i := i + 1;
      }
      assert approved[..|approved|] == approved;
    }

    /** `getActivityPointsBreakdown()`: six counters over the approved achievements
        and their total. */
    method GetActivityPointsBreakdown() returns (b: Breakdown)
      ensures DescribesBreakdown(b, ApprovedOnly(achievements))
    {
      var approved := ApprovedOnly(achievements);
      b := Breakdown(Tally(0, 0), Tally(0, 0), Tally(0, 0), Tally(0, 0), Tally(0, 0), Tally(0, 0), 0);
      var i := 0;
      while i < |approved|
        invariant 0 <= i <= |approved|
        invariant forall k: Bucket :: TallyOf(b, k) == Tally(BucketCount(approved[..i], k), Rate(k) * BucketCount(approved[..i], k))
      {
        var bucket := BreakdownBucket(approved[i]);
        var b' := CountInto(b, bucket);
        BreakdownStep(b, b', approved, i);
        b := b';
        i := i + 1;
      }
      assert approved[..|approved|] == approved;
      b := b.(total := b.certificates.points + b.competitions.points + b.workshops.points
                     + b.internships.points + b.freelancing.points + b.participation.points);
    }

    /** The body of the breakdown's `forEach`: bump the counter of the bucket the
        achievement falls into, if any. */
    static method CountInto(b: Breakdown, bucket: Option<Bucket>) returns (b': Breakdown)
      ensures forall k: Bucket :: TallyOf(b', k) ==
                (if bucket == Some(k) then Tally(TallyOf(b, k).count + 1, TallyOf(b, k).points + Rate(k)) else TallyOf(b, k))
      ensures b'.total == b.total
    {
      b' := b;
      if bucket == Some(Certificates) {
        b' := b.(certificates := Tally(b.certificates.count + 1, b.certificates.points + 5));
      } else if bucket == Some(Competitions) {
        b' := b.(competitions := Tally(b.competitions.count + 1, b.competitions.points + 30));
      } else if bucket == Some(Participation) {
        b' := b.(participation := Tally(b.participation.count + 1, b.participation.points + 1));
      } else if bucket == Some(Workshops) {
        b' := b.(workshops := Tally(b.workshops.count + 1, b.workshops.points + 5));
      } else if bucket == Some(Internships) {
        b' := b.(internships := Tally(b.internships.count + 1, b.internships.points + 30));
      } else if bucket == Some(Freelancing) {
        b' := b.(freelancing := Tally(b.freelancing.count + 1, b.freelancing.points + 25));
      }
    }

    /** `getStats()`. */
    method GetStats() returns (stats: S.Stats)
      ensures stats == S.GetStats(State())
    {
      var points := CalculateActivityPoints();
      stats := S.Stats(|achievements| + |approvals|,
                       CountAchievements(achievements, "approved"),
                       CountAchievements(achievements, "pending") + CountApprovals(approvals, "pending"),
                       CountAchievements(achievements, "rejected"),
                       points);
    }

    // Approvals and the ledger.

    method AddPendingApproval(sub: Submission, id: string, now: string) returns (approval: PendingApproval)
      modifies this
      ensures (State(), approval) == S.AddPendingApproval(old(State()), sub, id, now)
    {
      approval := PendingApproval(id, id, profile.name, profile.rollNumber, sub.title, sub.description,
                                  sub.category, sub.skills, sub.files, now, "pending",
                                  S.CalculatePriority(sub.category), sub.blockchain, None, None);
      SaveApprovals(approvals + [approval]);
    }

    method AddToBlockchain(a: Achievement, verifiedBy: string, recordId: string, hash: string, now: string)
      returns (record: Option<Credential>)
      modifies this
      ensures (State(), record) == S.AddToBlockchain(old(State()), a, verifiedBy, recordId, hash, now)
    {
      if a.status != "approved" {
        return None;
      }
      var existing := FindCredential(a.id);
      if existing >= 0 {
        return Some(credentials[existing]);
      }
      var c := Credential(recordId, hash, a, now, verifiedBy, true, |credentials| + 1);
      SaveCredentials(credentials + [c]);
      record := Some(c);
    }

    /** `updateApprovalStatus` (the definition at shared-utils.js:526). */
    method UpdateApprovalStatus(approvalId: string, status: string, reason: string,
                                now: string, recordId: string, hash: string)
      returns (reviewed: Option<PendingApproval>)
      modifies this
      ensures (State(), reviewed) == S.UpdateApprovalStatus(old(State()), approvalId, status, reason, now, recordId, hash)
    {
      var index := FindApproval(approvalId);
      if index == -1 {
        return None;
      }
      var ap := approvals[index];
      ap := ap.(status := status);
      ap := ap.(reviewDate := Some(now));
      if reason != "" {
        ap := ap.(reason := Some(reason));
      }
      assert ap == S.Reviewed(old(approvals[index]), status, reason, now);
      SaveApprovals(approvals[index := ap]);
      var achievementId := if ap.achievementId != "" then ap.achievementId else ap.id;
      if status == "approved" {
        ApplyApproval(ap, reason, now, recordId, hash);
      }
      events := events + [S.AchievementStatusUpdated(approvalId, achievementId, status, reason)];
      reviewed := Some(ap);
    }

    /** The approving branch of `updateApprovalStatus`: approve the linked
        achievement, creating it when missing, and record it in the ledger. */
    method ApplyApproval(ap: PendingApproval, reason: string, now: string, recordId: string, hash: string)
      modifies this
      ensures State() == S.ApplyApproval(old(State()), ap, reason, now, recordId, hash)
    {
      var achievementId := if ap.achievementId != "" then ap.achievementId else ap.id;
      var k := FindAchievement(achievementId);
      if k == -1 {
        var created := S.CreatedFrom(ap, reason, now);
        SaveAchievements(achievements + [created]);
        var _ := AddToBlockchain(created, "System Admin", recordId, hash, now);
      } else {
        var updated := achievements[k];
        updated := updated.(status := "approved");
        updated := updated.(reviewDate := Some(now));
        if reason != "" {
          updated := updated.(reason := Some(reason));
        }
        SaveAchievements(achievements[k := updated]);
        var _ := AddToBlockchain(updated, "System Admin", recordId, hash, now);
      }
    }

    /** The loop of `generateBlockHash` over the characters of its input. */
    static method BlockHashFold(data: string) returns (hash: int)
      ensures hash == HashFold(data)
      ensures -Two31 <= hash < Two31
    {
      hash := 0;
      var i := 0;
      while i < |data|
        invariant 0 <= i <= |data|
        invariant hash == HashFold(data[..i])
      {
        assert data[..i + 1][..i] == data[..i];
        var code := data[i] as int;
        hash := ToInt32(ToInt32(hash * 32) - hash + code);
        i := i + 1;
      }
      assert data[..|data|] == data;
    }
  }
}
