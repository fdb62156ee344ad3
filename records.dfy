/**
 * The records the data manager keeps under its four storage keys. JavaScript
 * leaves fields out of plain objects; here a missing text field is "", a
 * missing list is [], and a field the code tests for presence is an Option.
 */
module Records {

  datatype Option<T> = None | Some(value: T)

  /** The metadata the upload form keeps of a file: name, size in bytes, MIME type. */
  datatype FileMeta = FileMeta(name: string, size: int, mime: string)

  /** An achievement; `kind` is the optional `type` field some records carry. */
  datatype Achievement = Achievement(
    id: string,
    title: string,
    description: string,
    category: string,
    kind: string,
    skills: seq<string>,
    files: seq<FileMeta>,
    status: string,
    dateCreated: string,
    dateApproved: Option<string>,
    submittedDate: Option<string>,
    reviewDate: Option<string>,
    issuer: string,
    reason: Option<string>)

  /** The fields `updateAchievement` spreads over a stored record; None leaves a field as it is. */
  datatype AchievementPatch = AchievementPatch(
    id: Option<string>,
    title: Option<string>,
    description: Option<string>,
    category: Option<string>,
    skills: Option<seq<string>>,
    files: Option<seq<FileMeta>>,
    status: Option<string>,
    dateCreated: Option<string>,
    issuer: Option<string>)

  datatype Priority = High | Medium | Low

  /** A submission waiting for an administrator's decision. */
  datatype PendingApproval = PendingApproval(
    id: string,
    achievementId: string,
    studentName: string,
    studentId: string,
    title: string,
    description: string,
    category: string,
    skills: seq<string>,
    files: seq<FileMeta>,
    submittedDate: string,
    status: string,
    priority: Priority,
    blockchainVerification: bool,
    reviewDate: Option<string>,
    reason: Option<string>)

  /** What the upload form hands to `addPendingApproval`. */
  datatype Submission = Submission(
    title: string,
    description: string,
    category: string,
    skills: seq<string>,
    files: seq<FileMeta>,
    blockchain: bool)

  /** A record of the simulated ledger, embedding a copy of the achievement. */
  datatype Credential = Credential(
    id: string,
    blockHash: string,
    achievement: Achievement,
    timestamp: string,
    verifiedBy: string,
    immutable: bool,
    blockNumber: int)

  datatype UserProfile = UserProfile(
    name: string,
    rollNumber: string,
    year: string,
    section: string,
    email: string,
    department: string,
    profilePicture: string)

  /** Names every plain object inherits from `Object.prototype`. Looking one of them
      up in an object literal finds the inherited member, which is truthy. */
  const InheritedNames: seq<string> :=
    ["constructor", "__proto__", "hasOwnProperty", "isPrototypeOf", "propertyIsEnumerable",
     "toString", "toLocaleString", "valueOf", "__defineGetter__", "__defineSetter__",
     "__lookupGetter__", "__lookupSetter__"]

  /** What a lookup in a points table yields: a number, or an inherited member. */
  datatype PointsCell = Points(points: nat) | Inherited(member: string)

  /** Number of elements of `xs` whose status is exactly `status`. */
  function CountStatus(statuses: seq<string>, status: string): (n: nat)
    ensures n <= |statuses|
  {
    if statuses == [] then 0
    else CountStatus(statuses[..|statuses| - 1], status)
         + (if statuses[|statuses| - 1] == status then 1 else 0)
  }

  function AchievementStatuses(xs: seq<Achievement>): (r: seq<string>)
    ensures |r| == |xs| && forall i :: 0 <= i < |xs| ==> r[i] == xs[i].status
  {
    seq(|xs|, i requires 0 <= i < |xs| => xs[i].status)
  }

  function ApprovalStatuses(xs: seq<PendingApproval>): (r: seq<string>)
    ensures |r| == |xs| && forall i :: 0 <= i < |xs| ==> r[i] == xs[i].status
  {
    seq(|xs|, i requires 0 <= i < |xs| => xs[i].status)
  }

  /** `xs.filter(a => a.status === status).length` over achievements. */
  function CountAchievements(xs: seq<Achievement>, status: string): nat {
    CountStatus(AchievementStatuses(xs), status)
  }

  /** `xs.filter(a => a.status === status).length` over approvals. */
  function CountApprovals(xs: seq<PendingApproval>, status: string): nat {
    CountStatus(ApprovalStatuses(xs), status)
  }

  /** One more approval adds one to the count of its own status only. */
  lemma ApprovalCountAppend(xs: seq<PendingApproval>, ap: PendingApproval, status: string)
    ensures CountApprovals(xs + [ap], status) == CountApprovals(xs, status) + (if ap.status == status then 1 else 0)
  {
    var ys := ApprovalStatuses(xs + [ap]);
    assert ys[..|ys| - 1] == ApprovalStatuses(xs);
  }

  /** Counting distributes over concatenation. */
  lemma {:induction false} CountStatusAppend(a: seq<string>, b: seq<string>, status: string)
    ensures CountStatus(a + b, status) == CountStatus(a, status) + CountStatus(b, status)
    decreases |b|
  {
    if b != [] {
      assert (a + b)[..|a + b| - 1] == a + b[..|b| - 1];
      CountStatusAppend(a, b[..|b| - 1], status);
    } else {
      assert a + b == a;
    }
  }

  /** A value that does not occur is counted zero times. */
  lemma {:induction false} CountStatusAbsent(xs: seq<string>, v: string)
    requires forall i :: 0 <= i < |xs| ==> xs[i] != v
    ensures CountStatus(xs, v) == 0
  {
    if xs != [] {
      CountStatusAbsent(xs[..|xs| - 1], v);
    }
  }

  /** A value that occurs is counted at least once. */
  lemma {:induction false} CountStatusPresent(xs: seq<string>, k: nat)
    requires k < |xs|
    ensures CountStatus(xs, xs[k]) >= 1
  {
    if k < |xs| - 1 {
      CountStatusPresent(xs[..|xs| - 1], k);
    }
  }

  /** In a sequence without repetitions every value is counted at most once. */
  lemma {:induction false} CountStatusDistinct(xs: seq<string>, v: string)
    requires forall i, j :: 0 <= i < j < |xs| ==> xs[i] != xs[j]
    ensures CountStatus(xs, v) <= 1
  {
    if xs != [] {
      var init := xs[..|xs| - 1];
      CountStatusDistinct(init, v);
      if xs[|xs| - 1] == v {
        CountStatusAbsent(init, v);
      }
    }
  }

  /** Three different values are counted at most as often as there are elements. */
  lemma {:induction false} CountThreeStatuses(xs: seq<string>, a: string, b: string, c: string)
    requires a != b && b != c && a != c
    ensures CountStatus(xs, a) + CountStatus(xs, b) + CountStatus(xs, c) <= |xs|
  {
    if xs != [] {
      CountThreeStatuses(xs[..|xs| - 1], a, b, c);
    }
  }

  /** Replacing one status changes the counts only by the old and new value. */
  lemma {:induction false} CountStatusUpdate(xs: seq<string>, i: nat, v: string, status: string)
    requires i < |xs|
    ensures CountStatus(xs[i := v], status) + (if xs[i] == status then 1 else 0)
         == CountStatus(xs, status) + (if v == status then 1 else 0)
  {
    var ys := xs[i := v];
    assert xs == xs[..i] + [xs[i]] + xs[i + 1..];
    assert ys == xs[..i] + [v] + xs[i + 1..];
    CountStatusAppend(xs[..i] + [xs[i]], xs[i + 1..], status);
    CountStatusAppend(xs[..i], [xs[i]], status);
    CountStatusAppend(xs[..i] + [v], xs[i + 1..], status);
    CountStatusAppend(xs[..i], [v], status);
    assert CountStatus([xs[i]], status) == CountStatus([], status) + (if xs[i] == status then 1 else 0);
    assert CountStatus([v], status) == CountStatus([], status) + (if v == status then 1 else 0);
  }
}
