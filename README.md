# STUDENT_CREDO core in Dafny

STUDENT_CREDO is a browser application in which a student records achievements and
submits them for approval. It also keeps a simulated blockchain ledger of approved
credentials and shows points, skills and a digital passport derived from the
approved records. This project models the logic behind those pages and proves
properties of it. It has one Dafny module per source script, and two shared modules.

- `Strings`: ASCII lower/upper case, `trim`, `startsWith`/`includes`, decimal
  rendering of numbers.
- `Records`: the stored record shapes (achievement, pending approval, ledger
  credential, profile, file metadata) and status counting.
- `StoreModel`: the data manager `StudentCredoData` (shared-utils.js) as pure
  transitions over a `Store` value holding the four persisted collections and an
  event log.
- `Manager`: the class `StudentCredoData` itself, whose fields are the four
  persisted collections and the event log. Its methods update those fields in
  place, and their `ensures` tie each new state to the `StoreModel` transition. It
  also holds the 32-bit rolling hash fold of `generateBlockHash`.
- `ActivityPoints`: `calculateActivityPoints` and `getActivityPointsBreakdown`.
- `SkillsAnalysis`: skill validation, extraction of skills from approved
  achievements, the achievement-type classifier, proficiency (capped at 135), page
  statistics and page recommendations.
- `SkillScoring`: the table-driven `SkillScorer` (capped at 105) with its ranked
  recommendations.
- `Passport`, `AchievementsPage`, `Upload`, `Students`, `CredentialsPage`: the list,
  string and form logic of the digital passport, achievements, upload,
  student-management and blockchain-credentials pages. Page state that the
  scripts mutate (`achievements`, `skills`/`uploadedFiles`,
  `studentsData`/`filteredStudents`/`currentPage`) lives in a class.

Clock readings, generated ids, the finished block hash, the DOM input values and
the answer to `confirm()` are parameters. An absent string field is `""`, which
the code treats like a missing one because it tests it with `||`. An absent
optional date or reason is `None`.

Behaviour of the code worth knowing:

- The breakdown total need not equal `calculateActivityPoints`. The breakdown tests
  "certificate" before "internship", so an approved "Internship Certificate" counts
  30 in one and 5 in the other (`ActivityPoints.InternshipCertificateDiverges`).
- After a pending approval is rejected, `getStats().rejected` stays 0. A rejection
  never creates an achievement, and `rejected` counts achievements only
  (`StoreModel.RejectionStats`).
- Approved and rejected are not terminal. Any status can be applied again, and
  rejecting after approving keeps the created achievement and its ledger record
  (`StoreModel.ApproveThenReject`).
- `init()` never stores an empty approval list, because `![]` is false in
  JavaScript. The constructor therefore keeps whatever approvals are given.

## Model

| member | source | states |
|---|---|---|
| Strings.NatToStringRoundTrip | blockchain-credentials.js:311 | decimal rendering of a number is all digits, has no leading zero, and reads back as the same number |
| Strings.Utf16Length | upload-achievement.js:556 | JavaScript's `length` counts UTF-16 code units: at least one and at most two per character |
| Strings.BmpLength | upload-achievement.js:556 | without characters above U+FFFF the JavaScript length is the number of characters |
| Strings.Utf16LengthAppend | upload-achievement.js:556 | the JavaScript length of a concatenation is the sum of the lengths |
| Strings.Utf16PrefixWhole | upload-achievement.js:561 | a text that fits in the limit is kept whole by the cut |
| Strings.Utf16PrefixMaximal | upload-achievement.js:561 | a longer text is cut to the longest prefix that fits: the next character would not fit, and at most one code unit of room is left |
| Strings.Utf16PrefixBmp | upload-achievement.js:561 | without characters above U+FFFF the cut keeps the first n characters |
| Records.CountStatusUpdate | shared-utils.js:530-537 | changing one record's status changes each status count only by the old and the new status |
| ActivityPoints.PointsAreRuleValues | shared-utils.js:234-280 | every achievement scores one of 0, 1, 5, 25, 30 |
| ActivityPoints.CategoryMapOnlyForParticipation | shared-utils.js:234-280 | the exact-category fallback map is reached only for a participation category, and then scores 1 |
| ActivityPoints.ConstructorMatchesNoRule | shared-utils.js:234-279 | an achievement in category "constructor" with an empty title passes no keyword rule and no own key of the map |
| ActivityPoints.AsWrittenTotalCanBeText | shared-utils.js:274-275 | as written, an approved "constructor" achievement adds the inherited `Object` member, so the total stops being a number |
| ActivityPoints.AsWrittenPointsAgree | shared-utils.js:274-275 | off the inherited names, the lookup as written adds what the own-key lookup adds |
| ActivityPoints.SumPointsAsWrittenAgrees | shared-utils.js:224-282 | the total as written stays a number exactly while no achievement reaches an inherited member, and then equals the corrected total |
| ActivityPoints.SumPointsAsWrittenText | shared-utils.js:224-282 | once one achievement adds an inherited member, the total as written is a string |
| ActivityPoints.InternshipCategoryScoresThirty | shared-utils.js:234-247 | an achievement whose category contains "internship" scores 30, whichever of the win and internship rules fires |
| ActivityPoints.TotalPointsAppend | shared-utils.js:206-285 | the total over a concatenation is the sum of the totals |
| ActivityPoints.AddingInternshipAddsThirty | shared-utils.js:234-247 | appending one approved internship raises the total by exactly 30 |
| ActivityPoints.NoneApprovedScoresZero | shared-utils.js:206-231 | only approved achievements contribute: with none approved the total is 0 |
| ActivityPoints.BucketsPartition | shared-utils.js:287-364 | each achievement falls in exactly one breakdown bucket or in none: the six bucket counts plus the uncounted ones sum to the number of achievements |
| ActivityPoints.InternshipCertificateDiverges | shared-utils.js:234-357 | an approved "Internship Certificate" scores 30 in the activity total, lands in the certificate bucket, and gives a breakdown total of 5 |
| StoreModel.AchievementIndex | shared-utils.js:125 | the index found is the first record with the id, or -1 when none has it |
| StoreModel.ApprovalIndex | shared-utils.js:527 | the index found is the first approval with the id, or -1 when none has it |
| StoreModel.CredentialIndex | shared-utils.js:482 | the index found is the first ledger record embedding the achievement id, or -1 |
| StoreModel.WithoutId | shared-utils.js:134-139 | the filtered list is no longer and holds no record with the id |
| StoreModel.PatchProperties | shared-utils.js:123-132 | an empty patch changes nothing, patching twice equals patching once; for each of the nine patchable fields a given value overwrites and a missing one keeps the stored value; the other fields (`kind`, the approval and review dates, `reason`) are kept |
| StoreModel.WithoutIdCorrect | shared-utils.js:134-139 | delete keeps exactly the records with another id, and removes as many as there were with the id |
| StoreModel.WithoutAbsentId | shared-utils.js:134-139 | deleting an absent id changes nothing |
| StoreModel.DeleteUndoesAdd | shared-utils.js:114-139 | adding a record under a fresh id and deleting that id restores the achievements |
| StoreModel.UpdateAchievementEffect | shared-utils.js:123-132 | an unknown id returns None and changes nothing; otherwise only the first record with the id is patched and returned, and nothing else changes |
| StoreModel.StatsBounded | shared-utils.js:188-203 | the approved, pending and rejected counts never exceed the total in either summary |
| StoreModel.PriorityClasses | shared-utils.js:442-453 | high exactly for "competition-win" and "internship", medium exactly for "certificate" and "freelancing", low for every other text |
| StoreModel.PriorityByExactMatch | shared-utils.js:442-453 | priority compares the category exactly: "internship" is high but "Internship" low, "freelancing" medium but "freelance" low |
| StoreModel.AddPendingApprovalEffect | shared-utils.js:379-407 | exactly one pending approval linked to its own id is appended, with the profile's name and roll number; achievements and ledger are untouched; both summaries gain one pending and one total |
| StoreModel.AddToBlockchainCases | shared-utils.js:478-505 | a non-approved achievement yields None and no change; an achievement already recorded yields the existing record and no change; otherwise one immutable record with block number old length + 1 is appended |
| StoreModel.AddToBlockchainKeepsLedgerValid | shared-utils.js:478-505 | the ledger keeps dense block numbers, immutable approved records and no id twice |
| StoreModel.AddToBlockchainIdempotent | shared-utils.js:478-505 | a second call for the same achievement, with any verifier, record id, hash or time, changes nothing |
| StoreModel.LedgerRecordsOnce | shared-utils.js:478-505 | a valid ledger records each achievement id at most once |
| StoreModel.AddToBlockchainRecordsOnce | shared-utils.js:478-505 | after adding an approved achievement the ledger is still valid and records it exactly once; if it was recorded already nothing changes |
| StoreModel.UpdateApprovalStatusReviews | shared-utils.js:526-597 | an unknown id returns None and changes nothing; otherwise the first approval with the id gets the status, the review date, and the reason only when it is non-empty, nothing else of it changes, and the events approvalsUpdated and achievementStatusUpdated are logged first and last |
| StoreModel.ReviewedSpec | shared-utils.js:531-535 | reviewing sets the status and review date, sets the reason only when one is given, and keeps everything else, including the linked id |
| StoreModel.DecisionEvents | shared-utils.js:526-597 | a known approval is replaced by its reviewed form; approvalsUpdated comes first among the new events and achievementStatusUpdated last, after the events of an approval |
| StoreModel.ApplyApprovalFrame | shared-utils.js:541-588 | approving keeps the approvals list and only appends to the event log |
| StoreModel.DecisionOtherThanApprovalKeepsRecords | shared-utils.js:541-588 | any status other than "approved" creates or modifies no achievement and no ledger record |
| StoreModel.CreatedFromSubmission | shared-utils.js:546-561 | the created achievement takes id, title, description, category, skills and files from the submission, is approved, dated by the submission date, reviewed now, and has a reason exactly when one is given |
| StoreModel.MarkedApprovedKeeps | shared-utils.js:572-576 | an existing achievement gets status approved, review date now and the reason if given; its id, content and other dates stay |
| StoreModel.ApplyApprovalEffect | shared-utils.js:543-580 | the created achievement is appended when the linked id is absent, else the first one with the id is marked in place; other achievements, the approvals and existing ledger records stay; at most one record is added, for the written achievement, verified by "System Admin" |
| StoreModel.ApprovalWritesAchievement | shared-utils.js:526-580 | approving a known approval writes the achievement built from the stored submission and only extends the ledger |
| StoreModel.ApplyApprovalRecordsOnce | shared-utils.js:541-588 | after approval the linked id names exactly one achievement, which is approved, and exactly one ledger record; approving a record already created and recorded adds nothing |
| StoreModel.DecisionKeepsApproval | shared-utils.js:526-537 | the approval stays at its position, keeps its linked id and takes the new status |
| StoreModel.ApprovalRecordsOnce | shared-utils.js:526-597 | approving leaves exactly one approved achievement with id `achievementId \|\| id`, exactly one ledger record for it, and a valid ledger |
| StoreModel.ApproveTwice | shared-utils.js:526-597 | approving again keeps exactly one achievement and one ledger record for the linked id, and adds no achievement or ledger record |
| StoreModel.ApproveThenReject | shared-utils.js:526-597 | rejecting after approving sets the status but keeps the achievements and the ledger, so the approved achievement and its record remain |
| StoreModel.RejectionStats | shared-utils.js:526-597 | rejecting a pending approval lowers both pending counts by one and raises the approval summary's rejected by one, while `getStats` keeps rejected, approved and total |
| Manager.ToInt32 | shared-utils.js:518 | `hash & hash` yields a signed 32-bit value |
| Manager.ToInt32Offset | shared-utils.js:518 | the 32-bit conversion differs from its input by a multiple of 2^32 |
| Manager.ToInt32Periodic | shared-utils.js:518 | the 32-bit conversion ignores multiples of 2^32 |
| Manager.HashStepIsLinear | shared-utils.js:517-518 | one step `(hash << 5) - hash + code` is 31·hash + code in 32 bits |
| Manager.HashFoldIsPolynomial | shared-utils.js:515-520 | the fold is the base-31 polynomial of the character codes, reduced to 32 bits |
| Manager.HashMagnitude | shared-utils.js:520 | `Math.abs` of the fold is at most 2^31 |
| Manager.StudentCredoData.constructor | shared-utils.js:7-31 | the store holds the given collections, or the default profile when none is stored |
| Manager.StudentCredoData.FindAchievement | shared-utils.js:125 | the loop finds the same index as `findIndex` |
| Manager.StudentCredoData.FindApproval | shared-utils.js:527 | the loop finds the same index as `findIndex` |
| Manager.StudentCredoData.FindCredential | shared-utils.js:482 | the loop finds the same index as `find` on the embedded achievement id |
| Manager.StudentCredoData.SaveAchievements | shared-utils.js:109-112 | the achievements become the list given and one statsUpdated event is logged |
| Manager.StudentCredoData.SaveApprovals | shared-utils.js:373-377 | the approvals become the list given and one approvalsUpdated event is logged |
| Manager.StudentCredoData.SaveCredentials | shared-utils.js:471-475 | the ledger becomes the list given and one blockchainUpdated event is logged |
| Manager.StudentCredoData.AddAchievement | shared-utils.js:114-121 | the new state and returned record are those of `StoreModel.AddAchievement` |
| Manager.StudentCredoData.UpdateAchievement | shared-utils.js:123-132 | the new state and result are those of `StoreModel.UpdateAchievement` |
| Manager.StudentCredoData.DeleteAchievement | shared-utils.js:134-139 | the new state is that of `StoreModel.DeleteAchievement` |
| Manager.StudentCredoData.CalculateActivityPoints | shared-utils.js:206-285 | the accumulating loop returns `ActivityPoints.TotalPoints` of the stored achievements |
| Manager.StudentCredoData.GetActivityPointsBreakdown | shared-utils.js:287-364 | each bucket holds its count of approved achievements, its points are count × rate, and the total is the sum of the bucket points |
| ActivityPoints.BreakdownStep | shared-utils.js:319-357 | counting one more approved achievement bumps the count and points of its own bucket only |
| Manager.StudentCredoData.CountInto | shared-utils.js:318-356 | one pass of the `forEach` body: the bucket the achievement falls into gains one count and its rate in points, every other bucket and the total are unchanged, and no bucket means no change |
| Manager.StudentCredoData.GetStats | shared-utils.js:188-203 | total is achievements plus approvals; approved and rejected count achievements; pending counts both; points are the activity total |
| Manager.StudentCredoData.AddPendingApproval | shared-utils.js:379-407 | the new state and returned approval are those of `StoreModel.AddPendingApproval` |
| Manager.StudentCredoData.AddToBlockchain | shared-utils.js:478-505 | the new state and returned record are those of `StoreModel.AddToBlockchain` |
| Manager.StudentCredoData.UpdateApprovalStatus | shared-utils.js:526-597 | the new state and returned approval are those of `StoreModel.UpdateApprovalStatus` |
| Manager.StudentCredoData.ApplyApproval | shared-utils.js:538-583 | the approving branch yields the state of `StoreModel.ApplyApproval` |
| Manager.StudentCredoData.BlockHashFold | shared-utils.js:515-520 | the loop computes the 32-bit fold over the character codes |
| SkillsAnalysis.ListedInSpec | skills-analysis.js:128-151 | a lowered skill is listed exactly when it contains some lowered listed term |
| SkillsAnalysis.InvalidSkillCases | skills-analysis.js:126-160 | a skill is rejected exactly when its JavaScript length (UTF-16 code units) is below 2 after trimming, all digits, or its lowered trimmed form contains a listed term |
| SkillsAnalysis.ListedTermRejects | skills-analysis.js:128-151 | containing any listed term rejects the skill |
| SkillsAnalysis.ContainsHpRejected | skills-analysis.js:132-151 | a skill containing "hp" is rejected, so "PHP" is |
| SkillsAnalysis.PhpContainsHp | skills-analysis.js:132-151 | "PHP" lowered and trimmed contains "hp" |
| SkillsAnalysis.ContainsWorkRejected | skills-analysis.js:135-151 | a skill containing "work" is rejected, so "Networking" is |
| SkillsAnalysis.NetworkingContainsWork | skills-analysis.js:135-151 | "Networking" lowered and trimmed contains "work" |
| SkillsAnalysis.WinTakesPriority | skills-analysis.js:621-628 | the type is competition-win exactly when the title has a win term and the title or category has a competition context ("competition", "contest", "hackathon" in the title; "competition" in the category), whatever else the title says |
| SkillsAnalysis.InternSubstringIsInternship | skills-analysis.js:620-635 | "intern" in the title yields internship unless the win rule fires |
| SkillsAnalysis.ProjectIsFreelance | skills-analysis.js:620-664 | a project category reaching the project rule is scored as freelance |
| SkillsAnalysis.UnrecognisedIsCertificate | skills-analysis.js:612-687 | a record matching no keyword is scored as a certificate |
| SkillsAnalysis.CalculateSkillProficiency | skills-analysis.js:549-609 | the counting loop returns the capped per-type sum, at most 135 |
| SkillsAnalysis.RawProficiencyAtMostCap | skills-analysis.js:576-608 | the per-type capped sum never exceeds 135, and no achievements give 0 |
| SkillsAnalysis.RawBumpMonotone | skills-analysis.js:576-606 | counting one more achievement of any type never lowers the sum |
| SkillsAnalysis.CountTypesTotal | skills-analysis.js:552-570 | the six type counts sum to the number of achievements |
| SkillsAnalysis.CountTypesUniform | skills-analysis.js:552-570 | achievements of one type are all counted under that type |
| SkillsAnalysis.InternshipsCappedAtSixty | skills-analysis.js:576-608 | two or more internships contribute exactly 60 |
| SkillsAnalysis.ProficiencyMonotone | skills-analysis.js:549-609 | adding an achievement to a skill never lowers its proficiency |
| SkillsAnalysis.ExtractSkillsFromAchievements | skills-analysis.js:162-224 | the grouping loop over approved achievements builds `Extracted` |
| SkillsAnalysis.GroupApproved | skills-analysis.js:166-194 | the nested loops over the approved achievements and their skills build the grouping `Group` of the valid occurrences |
| SkillsAnalysis.ScoreEntry | skills-analysis.js:197-209 | one grouped skill is reported with the proficiency of its achievement list and its first category as primary |
| SkillsAnalysis.SkillsWithProficiency | skills-analysis.js:197-209 | every grouped entry is reported, in order, by `ScoreEntry`'s rule |
| SkillsAnalysis.GroupCorrect | skills-analysis.js:169-201 | each grouped entry has a distinct name, its count is its occurrences, and its refs are those occurrences in order |
| SkillsAnalysis.OccurrencesCount | skills-analysis.js:169-201 | a valid skill occurs as often as approved skill lists mention it |
| SkillsAnalysis.EntryFacts | skills-analysis.js:169-201 | every entry is a valid skill whose count is its mentions, positive, and the length of its achievement list |
| SkillsAnalysis.ExtractedSkillAt | skills-analysis.js:162-224 | every extracted skill is valid, its count is its positive number of mentions in approved records and the length of its list, and its proficiency is computed from that list |
| SkillsAnalysis.ExtractedNames | skills-analysis.js:162-224 | the skill names are distinct and exactly the valid skills of approved records; `verifiedSkills` is their number, and the two achievement counts are the total and the approved count |
| SkillsAnalysis.CalculateStatsProperties | skills-analysis.js:233-256 | `totalSkills` is the approved count, the average is at most 135 and 0 with no skills, and experts plus weak skills never exceed the skill count |
| SkillsAnalysis.ExpertAndWeakDisjoint | skills-analysis.js:244-248 | no skill is both above 80 and below 50 |
| SkillsAnalysis.FirstBelowSpec | skills-analysis.js:464-510 | the skill picked is the first below the bound, or None when none is |
| SkillsAnalysis.PageRecommendationsProperties | skills-analysis.js:464-510 | one to three cards; the improve card leads exactly when some skill is below 50; the learning card is added unless both other cards appear with fewer than 5 skills |
| SkillsAnalysis.PageRecommendationsSorted | skills-analysis.js:365-366 | on the list sorted by non-increasing proficiency, as `populateTopSkills` leaves it, the improvement card names a skill with the highest proficiency below 50, and the strengths card appears exactly when the top skill is above 70 and names it |
| SkillScoring.KindCountsCorrect | skills-analysis.js:1039-1045 | the per-type map holds each type's count and has a key exactly for the types present |
| SkillScoring.CountAchievementsByType | skills-analysis.js:1039-1045 | the loop builds that map |
| SkillScoring.CalculateSkillScore | skills-analysis.js:1000-1031 | the loop over the scoring rules returns `SkillScore` |
| SkillScoring.ContributionOfCorrect | skills-analysis.js:1009-1024 | a rule contributes exactly when its type is present, once, with effective count min(count, max) > 0 and score effective count × points |
| SkillScoring.ContributionsSound | skills-analysis.js:1009-1024 | every contribution comes from some rule with a positive effective count |
| SkillScoring.ContributionsComplete | skills-analysis.js:1009-1024 | every rule with a positive count contributes |
| SkillScoring.SkillScoreContributions | skills-analysis.js:1000-1031 | every contribution comes from a scoring rule, and every type present in the achievements contributes |
| SkillScoring.RawScoreAtMostMaximum | skills-analysis.js:1009-1024 | the uncapped score never exceeds the table's maximum |
| SkillScoring.RawScoreSaturated | skills-analysis.js:1009-1024 | with every type at its cap the uncapped score is the table's maximum |
| SkillScoring.ScoringTableMaximum | skills-analysis.js:989-998 | the table's maximum is 135 |
| SkillScoring.SkillScoreCapped | skills-analysis.js:1027-1031 | the total is min(uncapped, 105), so at most 105; with every type at its cap the total is 105 and there are no recommendations |
| SkillScoring.GenerateRecommendations | skills-analysis.js:1047-1071 | the loop returns `Recommendations` |
| SkillScoring.InsertByPrioritySorted | skills-analysis.js:1070 | inserting into a list sorted by decreasing gain keeps it sorted |
| SkillScoring.InsertByPriorityPermutes | skills-analysis.js:1070 | insertion adds exactly the one item |
| SkillScoring.SortByPriorityCorrect | skills-analysis.js:1070 | the ranking is sorted by non-increasing gain and is a permutation |
| SkillScoring.CandidatesSound | skills-analysis.js:1055-1068 | every candidate comes from a type below its cap, with gain (max - current) × points and priority equal to the gain |
| SkillScoring.CandidatesComplete | skills-analysis.js:1055-1068 | every type below its cap yields a candidate |
| SkillScoring.TopThree | skills-analysis.js:1070 | at most three are kept: the first three of a ranking that permutes the candidates, with non-increasing gains |
| SkillScoring.RecommendationsCorrect | skills-analysis.js:1047-1071 | no recommendations when the uncapped score is at least 105; otherwise the first three candidates by non-increasing gain, each suggested by a rule below its cap |
| Passport.DigitalPassportDataExact | digital-passport.js:66-70 | the passport holds exactly the approved achievements, each as often as it is stored, so as many as are approved |
| Passport.DigitalPassportDataAppend | digital-passport.js:66-70 | the `filter` keeps the stored order: the data of `xs + ys` is the data of `xs` followed by the data of `ys` |
| Passport.DigitalPassportDataSingleton | digital-passport.js:66-70 | a single record is kept exactly when its status is "approved" |
| Passport.StatusClassCases | digital-passport.js:164-174 | verified or approved give "verified", pending gives "pending", anything else or no status "draft" |
| Passport.StatusClassIgnoresCase | digital-passport.js:164-174 | the class does not depend on case |
| Passport.TruncateTextSpec | digital-passport.js:176-179 | text within the limit is unchanged; longer text becomes its first max characters plus "...", length max + 3 |
| Passport.TruncateTextIdempotent | digital-passport.js:176-179 | truncating twice equals truncating once |
| Passport.CapitalizeFirstSpec | digital-passport.js:181-183 | only the first character is upper-cased, the length is kept, and doing it twice changes nothing |
| Passport.ShownDecomposes | digital-passport.js:192-216 | an item is shown exactly when it passes the search, the category and the status tests; with nothing selected all items are shown |
| Passport.CardDescriptionIsTruncated | digital-passport.js:131 | the card shows the description cut to 100 characters plus "..." |
| Passport.FirstIndex | digital-passport.js:572-581 | the first position of a present skill |
| Passport.FirstIndexInPrefix | digital-passport.js:572-581 | the first position is unchanged by a prefix that contains the skill |
| Passport.DedupCorrect | digital-passport.js:572-581 | the set keeps exactly the skills given, each once, in first-occurrence order |
| Passport.AllSkillsMembers | digital-passport.js:573-576 | every skill of every achievement is collected |
| Passport.UniqueSkillsCorrect | digital-passport.js:572-581 | every skill of every achievement is listed, only those, and none twice |
| Passport.CategorizeAchievements | digital-passport.js:583-612 | the pushing loop fills each bucket with exactly the achievements of that category, in input order |
| Passport.CategoriesPartition | digital-passport.js:583-612 | bucket sizes sum to the number of achievements |
| Passport.CategoryMembership | digital-passport.js:583-612 | an achievement is in a bucket exactly when that is its category |
| Passport.InCategoryMembers | digital-passport.js:583-612 | a bucket holds only input achievements of its category |
| Passport.MissingCategoryIsOther | digital-passport.js:594 | an achievement without a category goes to others |
| AchievementsPage.ConvertAll | achievements.js:80-90 | one converted record per approval, position by position |
| AchievementsPage.MergedShape | achievements.js:75-94 | the list is the stored records unchanged followed by one record per approval, keeping id, title, description, category, skills, files and status, dated by submission and self-reported |
| AchievementsPage.MergedCountId | achievements.js:75-94 | an id's count in the list is its count in both halves |
| AchievementsPage.ApprovedSubmissionListedTwice | achievements.js:76-93 | after approval the submission's id is listed at least twice |
| AchievementsPage.FilterAchievementsCorrect | achievements.js:123-138 | a record is kept exactly when it is listed and matches, and a matching record is kept as often as it is listed |
| AchievementsPage.FilterAchievementsAppend | achievements.js:123-138 | the filter works record by record: filtering two lists one after the other is filtering each, so the kept records stay in order |
| AchievementsPage.FilterNothingKeepsAll | achievements.js:123-138 | with empty search and filters the whole list is returned |
| AchievementsPage.FilterIdempotent | achievements.js:123-138 | filtering the result again changes nothing |
| AchievementsPage.FindById | achievements.js:224-229 | the first record with the id, or None when none has it |
| AchievementsPage.Page.constructor | achievements.js:2 | the page starts with an empty list |
| AchievementsPage.Page.LoadAchievements | achievements.js:75-94 | the loop leaves the page list equal to the merged list |
| AchievementsPage.Page.ViewAchievement | achievements.js:224-229 | the search loop returns the first record with the id, or None and nothing else |
| Upload.AddSkillSpec | upload-achievement.js:201-228 | the list changes exactly when the trimmed value is non-empty, new and fewer than 10 are held, and then by exactly that value; at most 10 distinct skills are kept |
| Upload.WithoutSkillCounts | upload-achievement.js:230-234 | every occurrence of the skill goes and all others stay |
| Upload.WithoutSkillAppend | upload-achievement.js:230-234 | removal works element by element, in order |
| Upload.WithoutSkillKeepsOk | upload-achievement.js:230-234 | removal keeps the list within 10 and free of duplicates |
| Upload.DistinctOnce | upload-achievement.js:230-234 | in a duplicate-free list each skill occurs at most once |
| Upload.AcceptFilesSound | upload-achievement.js:256-289 | held files stay first; every appended file is in the batch, allowed, within 10 MiB, and not held before, counting earlier files of the batch |
| Upload.AcceptFilesDistinct | upload-achievement.js:256-289 | no two held files share name and size |
| Upload.AcceptFilesComplete | upload-achievement.js:256-289 | every allowed file within 10 MiB of the batch ends up held, accepted now or matching a held file |
| Upload.WithoutFileCounts | upload-achievement.js:291-295 | exactly the files matching both name and size are removed |
| Upload.ValidateFieldSpec | upload-achievement.js:149-172 | an empty required field is "required", a title shorter than 5 UTF-16 code units fails, a non-empty description shorter than 20 code units fails, an empty optional description passes |
| Upload.FormErrorsEmptyIff | upload-achievement.js:412-445 | no errors exactly when the trimmed title has a JavaScript length of 5 or more, a category is set, the trimmed description one of 20 or more, there is a skill, and the form is in edit mode or has a file |
| Upload.FormErrorsOrdered | upload-achievement.js:412-445 | at most five errors, in strictly increasing field order, hence at most one per field |
| Upload.FormErrorsPerField | upload-achievement.js:412-445 | each of the seven messages appears exactly when its condition holds on the JavaScript lengths of the trimmed title and description, the category, the skill count, the file count and edit mode |
| Upload.ValidFormIsUnsaved | upload-achievement.js:194-198 | a form that validates has unsaved changes |
| Upload.CharacterCounterSpec | upload-achievement.js:551-570 | the counter shows the JavaScript length before cutting, red exactly above 1000 and amber below 20; a description that fits is kept, a longer one is cut to the longest prefix of at most 1000 code units, and cutting again changes nothing |
| Upload.CharacterCounterBmp | upload-achievement.js:561 | without characters above U+FFFF the cut keeps the first 1000 characters |
| Upload.UploadForm.constructor | upload-achievement.js:13-16 | the form starts empty, not in edit mode |
| Upload.UploadForm.LoadAchievementForEditing | upload-achievement.js:366-406 | edit mode on, the skills copied from the record, files kept |
| Upload.UploadForm.AddSkill | upload-achievement.js:201-228 | the outcome and the new skill list are `SkillDecision` and `AfterAddSkill`; files unchanged |
| Upload.UploadForm.RemoveSkill | upload-achievement.js:230-234 | the loop leaves the list without the skill; the rest of the form unchanged |
| Upload.UploadForm.HandleFiles | upload-achievement.js:256-289 | the loop leaves the file list equal to `AcceptFiles` and the success count equal to the number appended |
| Upload.UploadForm.RemoveFile | upload-achievement.js:291-295 | the loop leaves the file list without the matching files |
| Upload.UploadForm.ValidateForm | upload-achievement.js:412-445 | the error list is `FormErrors` of the form's state |
| Students.SelectCounts | student-management.js:163-174 | the selected list keeps each matching student as often as it was listed |
| Students.NarrowedStep | student-management.js:176-199 | narrowing works element by element |
| Students.NarrowedCounts | student-management.js:176-199 | narrowing keeps each passing student as often as listed and drops the others |
| Students.NarrowedIsPassing | student-management.js:176-199 | the three successive selects keep exactly the students a single pass by all three selects keeps, in order |
| Students.NarrowedIdempotent | student-management.js:176-199 | narrowing twice with the same filters equals narrowing once |
| Students.NarrowedNeverRestores | student-management.js:176-199 | a student not in the current list never comes back from `applyFilters` |
| Students.NarrowedKeepsPassing | student-management.js:176-199 | a listed student passing the filters stays |
| Students.TotalPages | student-management.js:288 | the page count is the ceiling of length / 10, 0 only for an empty list |
| Students.TableViewSpec | student-management.js:201-218 | page p shows entries (p-1)·10 up to min(p·10, length), at most 10 rows, nonempty exactly when p is at most the page count, with the start, end and total counters |
| Students.PagesCover | student-management.js:201-218 | every student appears on page index / 10 + 1, at row index mod 10 |
| Students.EmptyTableShowsOneToZero | student-management.js:214-217 | an empty table shows no rows, end 0 and total 0; on page 1 it reports showing 1 to 0 of 0 |
| Students.PageItemsSpec | student-management.js:300-313 | a button exactly for page 1, the last page and pages within 2 of the current page; an ellipsis only at current ± 3 where no button is; pages increase |
| Students.PaginationSpec | student-management.js:288-295 | prev is disabled exactly on page 1; next exactly on the last page or with no pages; page i has a button exactly when it is 1, the last, or within 2 of the current page |
| Students.Words | student-management.js:275 | splitting on spaces gives at least one piece |
| Students.WordsJoin | student-management.js:275 | joining the pieces with spaces gives the name back, and no piece contains a space |
| Students.WordsOfWord | student-management.js:275 | a word followed by a space splits off as the first piece |
| Students.Initials | student-management.js:274-276 | at most two letters |
| Students.InitialsOfName | student-management.js:274-276 | "First Last ..." gives the upper-cased first letters of the first two words |
| Students.YearTextInjective | student-management.js:278-281 | different years get different labels |
| Students.LastIsDigit | student-management.js:278-281 | a rendered number ends in a digit |
| Students.StudentTable.constructor | student-management.js:104-106 | both lists start as the data given, on page 1 |
| Students.StudentTable.ApplyFilters | student-management.js:176-199 | the shown list is the previous shown list narrowed, page 1, data unchanged |
| Students.StudentTable.HandleSearch | student-management.js:163-174 | the shown list restarts from all students matching the search, then narrows |
| Students.StudentTable.GoToPage | student-management.js:320-327 | the page changes to p exactly when 1 ≤ p ≤ page count; nothing else changes |
| Students.StudentTable.RenderStudentsTable | student-management.js:201-218 | the rows and counters of the current page are `TableViewOf` the filtered list at that page |
| Students.StudentTable.UpdatePagination | student-management.js:287-318 | the loop over page numbers produces `PaginationOf` |
| Students.StudentTable.HandleAddStudent | student-management.js:344-365 | the new student is appended to the data with 0 achievements, 0 points, active; the shown list is only narrowed |
| Students.StudentTable.DeleteStudent | student-management.js:404-408 | once confirmed, every student with the id leaves the data; unconfirmed, nothing changes |
| Students.WithoutStudentCounts | student-management.js:404-408 | deletion removes exactly the students with the id and keeps the others |
| Students.AddedStudentNotShown | student-management.js:344-365 | the added student is in the data but not in the shown list |
| Students.DeletedStudentStaysShown | student-management.js:404-408 | a deleted student that passes the filters stays in the shown list |
| CredentialsPage.CategoryTablesSpec | blockchain-credentials.js:448-470 | an unknown category is shown as itself with the star icon; the six known ones get their own label and icon |
| CredentialsPage.AchievementPoints | blockchain-credentials.js:482-492 | the points shown are one of 5, 15, 25, 30 |
| CredentialsPage.ProjectPointsDiverge | blockchain-credentials.js:482-492 | a project shows 15 points, a value the activity total never awards |
| CredentialsPage.UnknownCategoryShowsFive | blockchain-credentials.js:482-492 | any category outside the table shows 5 |
| CredentialsPage.AsWrittenPointsCanBeInherited | blockchain-credentials.js:482-492 | the lookup as written can return an inherited object member instead of a number |
| CredentialsPage.AsWrittenAgreesElsewhere | blockchain-credentials.js:482-492 | away from the inherited names the lookup as written gives the own-key points |
| CredentialsPage.FindByHash | blockchain-credentials.js:252 | the first record with the hash, or None when none has it |
| CredentialsPage.VerifyCredential | blockchain-credentials.js:250-256 | not-found exactly when no record carries the hash |
| CredentialsPage.VerifyCredentialFound | blockchain-credentials.js:252-293 | a found credential shows the hash asked for and the title and points of the first record carrying it |
| CredentialsPage.VerifyAll | blockchain-credentials.js:302-311 | a warning exactly when the ledger is empty |
| CredentialsPage.VerifyAllNamesCount | blockchain-credentials.js:311 | the success notice determines the ledger's size |

## Left out

- `initializeSampleAchievements` (shared-utils.js:33-101) and the sample student rows of student-management.js: the sample data is not modelled; the constructors take the initial collections as parameters.
- localStorage and JSON: class fields stand in for the stored keys, and corrupt stored JSON is not modelled.
- The `lastUpdated` timestamp of the global stats is left out. The global stats keep only the counts.
- `Date.now()` ids, `new Date()` timestamps and `Math.random` are parameters, so colliding ids are not modelled.
- `generateBlockHash`: `JSON.stringify`, `toString(16)` and `padStart` are left out. Only the 32-bit fold is modelled, and `addToBlockchain` receives the finished hash.
- Character codes: the fold uses Dafny character values, which equal `charCodeAt` only below U+10000, because JavaScript counts UTF-16 code units. Lengths are counted in code units (`Strings.Utf16Length`) by `IsValidSkill`, `ValidateField`, `FormErrors` and `CharacterCounter`; the members named on the next three lines count characters instead, and the fourth line names the one place where `CharacterCounterSpec`, which counts code units, still ends one unit short of JavaScript.
- Passport.TruncateTextSpec: `TruncateText` counts characters, while `text.length` and `substring` count UTF-16 code units, so text with characters above U+FFFF is cut later than in JavaScript; a cut inside a surrogate pair, which JavaScript makes, yields half a character, which a Dafny string cannot hold.
- Passport.CardDescriptionIsTruncated: the 100-character cut of the card counts characters, for the reason given for `TruncateTextSpec`.
- Students.InitialsOfName: `word[0]` is the first UTF-16 code unit; for a word starting with a character above U+FFFF that is half a surrogate pair, which a Dafny string cannot hold, so the model takes the whole first character.
- Upload.CharacterCounterSpec: where the 1000th code unit is the first half of a surrogate pair, `substring(0, 1000)` keeps that half and the model's cut stops before the pair, one code unit shorter.
- Case mapping covers ASCII letters only. `trim` strips ASCII whitespace, U+00A0 and U+FEFF; the rest of JavaScript's Unicode case tables and whitespace set (line and paragraph separators, the other space separators) is not modelled.
- SkillsAnalysis.PageRecommendations: on the page, `populateTopSkills` (skills-analysis.js:303, 365-366) sorts `skillsData.skills` in place by non-increasing proficiency before `populateRecommendations` (skills-analysis.js:309, 442) reads the same array. The model does not capture that in-place sort or the aliasing. It takes the list as given, and `PageRecommendationsSorted` states what follows when the list arrives sorted. Stability of the sort among equal proficiencies is not modelled.
- The first `updateApprovalStatus` (shared-utils.js:409-440) is overridden by the second and is not modelled. `getSkillsData`/`saveSkillsData` read an undefined key and are not modelled.
- The `SkillScorer` mock data and `filterAchievementsBySkill` (skills-analysis.js:1033-1037, 1090-1121) are not modelled: the filter ignores its input, so the scorer takes the achievements to score directly. `createTestAchievements` and `clearAllAchievements` are test helpers.
- DOM rendering, HTML templates, CSS, modals, animations and notifications are not modelled, including `generatePortfolioHTML`, `generateResumeHTML`, `updateBlockchainStats` and the card rendering of `loadBlockchainCredentials`.
- `window.dispatchEvent` delivery is not modelled: the data manager only appends each event to its log.
- Clock readings: where one call reads the clock several times, the model passes one `now`.
- `handleFormSubmission` is not modelled: it runs on timers, and its effect is `updateAchievement` or `addPendingApproval`, both modelled.
- `exportStudentData`, `viewStudent`/`editStudent`, `handleSelectAll` and `refreshData` are not modelled: they are CSV/Blob download, navigation, checkbox toggling and a timer.
- Browser I/O (downloads, print windows, `navigator.share`, clipboard) and the analytics, admin and dashboard pages are outside the model.
- The year field of a new student: `parseInt` can give `NaN`, which the model does not represent. The year is an `int`.
- Upload.UploadForm.LoadAchievementForEditing: copies the record's skills as they are, so the form's bound of 10 distinct skills is not kept after loading a record with more or repeated skills. The JavaScript does the same.
- CredentialsPage.CategoryIcon, CredentialsPage.CategoryTablesSpec: read the table's own keys only; a category naming an inherited `Object.prototype` member behaves as in the Findings row.
- CredentialsPage.FormatCategory: reads the table's own keys only, for the same reason; the "shown as itself" of `CategoryTablesSpec` holds only off the inherited names.
- SkillScoring.KindCountsCorrect: `counts[achievement.type] || 0` also reads inherited members, so for a type such as "constructor" the source's entry is a string, not a count. The score reads only the types of its table, so the score is unaffected.
- The `blockchain` flag of the upload form (upload-achievement.js:490) is not a field of `Achievement` or `AchievementPatch`. An edit therefore does not store it on the record, and `loadAchievementForEditing` does not restore the checkbox from it (upload-achievement.js:400). The flag is kept only on a pending approval, as `blockchainVerification`.
- `confirm()` is a parameter of `DeleteStudent`, and the DOM input values are parameters of the methods that read them.
- JavaScript `null`/`undefined` fields are not modelled: absent strings are `""`, and absent dates and reasons are `None`.

## Findings

| source | as written | input that shows it | evidently intended | confidence | as-written member | corrected member |
|---|---|---|---|---|---|---|
| blockchain-credentials.js:482-492 | `pointsMap[achievement.category] \|\| 5` reads inherited properties of the object literal | an achievement whose category is `"constructor"` shows the `Object` function instead of a number | an own-key lookup giving one of 5, 15, 25, 30 (default 5) | not executed | CredentialsPage.AchievementPointsAsWritten, CredentialsPage.AsWrittenPointsCanBeInherited | CredentialsPage.AchievementPoints |
| shared-utils.js:274-275 | `pointsMap[category]` reads inherited properties of the object literal, and `totalPoints += pointsMap[category]` adds what it finds | an approved achievement with category "constructor" (or "__proto__") and a title matching no keyword adds the `Object` function, so `calculateActivityPoints` returns a string | an own-key lookup: an unlisted category adds 0 and the total is a number | not executed | ActivityPoints.PointsForAsWritten, ActivityPoints.AsWrittenTotalCanBeText | ActivityPoints.PointsFor, ActivityPoints.PointsAreRuleValues |
