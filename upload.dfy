/**
 * The achievement upload form (upload-achievement.js): a bounded list of
 * distinct skills, a list of supporting files without two of the same name and
 * size, the per-field and whole-form validators and the description counter.
 * The values typed into the title, category and description inputs live in the
 * page, not in the form's state, so they are parameters here.
 */
module Upload {
  import opened Strings
  import opened Records

  const MaxSkills: nat := 10
  const MaxFileSize: int := 10 * 1024 * 1024
  const MaxDescription: nat := 1000

  /** The MIME types `handleFiles` accepts (upload-achievement.js:257). */
  const AllowedTypes: seq<string> := ["image/jpeg", "image/png", "image/gif", "application/pdf",
    "application/msword", "application/vnd.openxmlformats-officedocument.wordprocessingml.document"]

  // ---------------------------------------------------------------------
  // Skills (upload-achievement.js:201-234)

  /** What `addSkill` does with a typed value; the checks run in this order. */
  datatype SkillOutcome = EmptySkill | DuplicateSkill | TooManySkills | Added(skill: string)

  function SkillDecision(skills: seq<string>, input: string): SkillOutcome {
    var v := Trim(input);
    if v == "" then EmptySkill
    else if v in skills then DuplicateSkill
    else if |skills| >= MaxSkills then TooManySkills
    else Added(v)
  }

  /** The skill list after `addSkill`. */
  function AfterAddSkill(skills: seq<string>, input: string): seq<string> {
    match SkillDecision(skills, input)
    case Added(v) => skills + [v]
    case _ => skills
  }

  predicate DistinctSkills(xs: seq<string>) {
    forall i, j :: 0 <= i < j < |xs| ==> xs[i] != xs[j]
  }

  /** The form's promise about its skills: at most ten, no two equal. */
  predicate SkillsOk(xs: seq<string>) {
    |xs| <= MaxSkills && DistinctSkills(xs)
  }

  /** `addSkill` appends the trimmed value exactly when it is non-empty, not yet
      listed and the list holds fewer than ten; otherwise the list is unchanged. It
      keeps the list within ten distinct skills. */
  lemma AddSkillSpec(skills: seq<string>, input: string)
    ensures var r, v := AfterAddSkill(skills, input), Trim(input);
      && (r != skills <==> v != "" && v !in skills && |skills| < MaxSkills)
      && (r != skills ==> r == skills + [v])
      && (SkillsOk(skills) ==> SkillsOk(r))
  {
  }

  /** `skills.filter(skill => skill !== s)`. */
  function WithoutSkill(xs: seq<string>, s: string): seq<string> {
    if xs == [] then []
    else WithoutSkill(xs[..|xs| - 1], s) + (if xs[|xs| - 1] != s then [xs[|xs| - 1]] else [])
  }

  /** `removeSkill` drops every copy of `s` and keeps every other skill as often
      as it was listed. */
  lemma {:induction false} WithoutSkillCounts(xs: seq<string>, s: string)
    ensures var r := WithoutSkill(xs, s);
      && |r| <= |xs|
      && multiset(r)[s] == 0
      && forall x :: x != s ==> multiset(r)[x] == multiset(xs)[x]
  {
    if xs != [] {
      WithoutSkillCounts(xs[..|xs| - 1], s);
      assert xs == xs[..|xs| - 1] + [xs[|xs| - 1]];
    }
  }

  /** ... and in their order: filtering a concatenation filters each part. */
  lemma {:induction false} WithoutSkillAppend(a: seq<string>, b: seq<string>, s: string)
    ensures WithoutSkill(a + b, s) == WithoutSkill(a, s) + WithoutSkill(b, s)
  {
    if b != [] {
      var b0 := b[..|b| - 1];
      WithoutSkillAppend(a, b0, s);
      assert (a + b)[..|a + b| - 1] == a + b0;
    } else {
      assert a + b == a;
    }
  }

  /** Removing a skill keeps the list within ten distinct skills. */
  lemma WithoutSkillKeepsOk(xs: seq<string>, s: string)
    requires SkillsOk(xs)
    ensures SkillsOk(WithoutSkill(xs, s))
  {
    var r := WithoutSkill(xs, s);
    WithoutSkillCounts(xs, s);
    forall i, j | 0 <= i < j < |r|
      ensures r[i] != r[j]
    {
      if r[i] == r[j] {
        TwoCopies(r, i, j);
        DistinctOnce(xs, r[i]);
        assert false;
      }
    }
  }

  /** Two equal positions mean two copies. */
  lemma TwoCopies(r: seq<string>, i: nat, j: nat)
    requires i < j < |r| && r[i] == r[j]
    ensures multiset(r)[r[i]] >= 2
  {
    assert r == r[..j] + r[j..];
    assert r[..j][i] == r[i] && r[j..][0] == r[j];
    assert multiset(r) == multiset(r[..j]) + multiset(r[j..]);
  }

  /** A distinct list holds each value at most once. */
  lemma {:induction false} DistinctOnce(xs: seq<string>, x: string)
    requires DistinctSkills(xs)
    ensures multiset(xs)[x] <= 1
  {
    if xs != [] {
      var init := xs[..|xs| - 1];
      DistinctOnce(init, x);
      assert xs == init + [xs[|xs| - 1]];
      if xs[|xs| - 1] == x {
        assert x !in init;
      }
    }
  }

  // ---------------------------------------------------------------------
  // Files (upload-achievement.js:256-295)

  /** Two files count as the same when name and size agree. */
  predicate SameFile(f: FileMeta, g: FileMeta) {
    f.name == g.name && f.size == g.size
  }

  predicate Held(held: seq<FileMeta>, f: FileMeta) {
    exists i :: 0 <= i < |held| && SameFile(held[i], f)
  }

  /** The per-file decision of `handleFiles`, checks in source order. */
  datatype FileVerdict = Unsupported | TooLarge | AlreadyUploaded | Accepted

  function Verdict(held: seq<FileMeta>, f: FileMeta): FileVerdict {
    if f.mime !in AllowedTypes then Unsupported
    else if f.size > MaxFileSize then TooLarge
    else if Held(held, f) then AlreadyUploaded
    else Accepted
  }

  /** `uploadedFiles` after `handleFiles(fs)`: each file is judged against the list
      as it stands, including the files accepted before it in the same batch. */
  function AcceptFiles(held: seq<FileMeta>, fs: seq<FileMeta>): seq<FileMeta> {
    if fs == [] then held
    else
      var h := AcceptFiles(held, fs[..|fs| - 1]);
      if Verdict(h, fs[|fs| - 1]) == Accepted then h + [fs[|fs| - 1]] else h
  }

  predicate DistinctFiles(fs: seq<FileMeta>) {
    forall i, j :: 0 <= i < j < |fs| ==> !SameFile(fs[i], fs[j])
  }

  /** The held files stay in front; everything after them is a file of the batch
      of an allowed type, at most 10 MB, and different from every file before it. */
  lemma {:induction false} AcceptFilesSound(held: seq<FileMeta>, fs: seq<FileMeta>)
    ensures var r := AcceptFiles(held, fs);
      && |held| <= |r| <= |held| + |fs|
      && r[..|held|] == held
      && forall k :: |held| <= k < |r| ==>
           && r[k] in fs && r[k].mime in AllowedTypes && r[k].size <= MaxFileSize
           && !Held(r[..k], r[k])
  {
    if fs != [] {
      var init := fs[..|fs| - 1];
      AcceptFilesSound(held, init);
      var h := AcceptFiles(held, init);
      forall k | |held| <= k < |h| ensures h[k] in fs {
        assert h[k] in init;
      }
      if Verdict(h, fs[|fs| - 1]) == Accepted {
        var r := h + [fs[|fs| - 1]];
        assert r[..|h|] == h;
        assert r[..|held|] == h[..|held|];
        forall k | |held| <= k < |h| ensures r[..k] == h[..k] { }
      }
    }
  }

  /** A list without two same files keeps that property. */
  lemma AcceptFilesDistinct(held: seq<FileMeta>, fs: seq<FileMeta>)
    requires DistinctFiles(held)
    ensures DistinctFiles(AcceptFiles(held, fs))
  {
    var r := AcceptFiles(held, fs);
    AcceptFilesSound(held, fs);
    forall i, j | 0 <= i < j < |r|
      ensures !SameFile(r[i], r[j])
    {
      if j < |held| {
        assert r[i] == held[i] && r[j] == held[j];
      } else {
        assert r[..j][i] == r[i];
      }
    }
  }

  /** Every file of an allowed type and size in the batch ends up held: it or an
      earlier file with its name and size is in the list. */
  lemma {:induction false} AcceptFilesComplete(held: seq<FileMeta>, fs: seq<FileMeta>)
    ensures var r := AcceptFiles(held, fs);
      forall f | f in fs && f.mime in AllowedTypes && f.size <= MaxFileSize :: Held(r, f)
  {
    if fs != [] {
      var init := fs[..|fs| - 1];
      AcceptFilesComplete(held, init);
      var h := AcceptFiles(held, init);
      var r := AcceptFiles(held, fs);
      assert h == r[..|h|];
      forall f | f in fs && f.mime in AllowedTypes && f.size <= MaxFileSize
        ensures Held(r, f)
      {
        if f in init {
          var i :| 0 <= i < |h| && SameFile(h[i], f);
          assert r[i] == h[i];
        } else {
          assert f == fs[|fs| - 1];
          if !Held(h, f) {
            assert r[|h|] == f;
          } else {
            var i :| 0 <= i < |h| && SameFile(h[i], f);
            assert r[i] == h[i];
          }
        }
      }
    }
  }

  /** `uploadedFiles.filter(file => !(file.name === name && file.size === size))`. */
  function WithoutFile(fs: seq<FileMeta>, name: string, size: int): seq<FileMeta> {
    if fs == [] then []
    else WithoutFile(fs[..|fs| - 1], name, size)
         + (if !(fs[|fs| - 1].name == name && fs[|fs| - 1].size == size) then [fs[|fs| - 1]] else [])
  }

  /** `removeFile` drops exactly the files matching both name and size and keeps
      every other file as often as it was held. */
  lemma {:induction false} WithoutFileCounts(fs: seq<FileMeta>, name: string, size: int)
    ensures var r := WithoutFile(fs, name, size);
      && |r| <= |fs|
      && forall f :: multiset(r)[f] == if f.name == name && f.size == size then 0 else multiset(fs)[f]
  {
    if fs != [] {
      WithoutFileCounts(fs[..|fs| - 1], name, size);
      assert fs == fs[..|fs| - 1] + [fs[|fs| - 1]];
    }
  }

  // ---------------------------------------------------------------------
  // Validation (upload-achievement.js:149-172, 412-445)

  /** The inputs `validateField` tells apart by id. */
  datatype FieldId = TitleInput | DescriptionInput | OtherInput

  /** `validateField` on blur: the message shown, None when the field passes. */
  function ValidateField(field: FieldId, raw: string, required: bool): Option<string> {
    var v := Trim(raw);
    if v == "" && required then Some("This field is required")
    else if field == TitleInput && Utf16Length(v) < 5 then Some("Title must be at least 5 characters long")
    else if field == DescriptionInput && v != "" && Utf16Length(v) < 20 then Some("Description must be at least 20 characters long")
    else None
  }

  /** A field passes exactly when it is filled or optional, a title has five
      characters, and a description is empty or has twenty; a required empty field
      is reported as required, and an empty optional description passes. */
  lemma ValidateFieldSpec(field: FieldId, raw: string, required: bool)
    ensures var r, v := ValidateField(field, raw, required), Trim(raw);
      && (r.None? <==> (v != "" || !required) && (field == TitleInput ==> Utf16Length(v) >= 5)
                       && (field == DescriptionInput ==> v == "" || Utf16Length(v) >= 20))
      && (v == "" && required ==> r == Some("This field is required"))
      && (field == DescriptionInput && v == "" && !required ==> r.None?)
  {
  }

  datatype FormError =
    | TitleRequired | TitleTooShort | CategoryRequired | DescriptionRequired
    | DescriptionTooShort | NoSkills | NoFiles

  function Message(e: FormError): string {
    match e
    case TitleRequired => "Achievement title is required"
    case TitleTooShort => "Achievement title must be at least 5 characters long"
    case CategoryRequired => "Achievement category is required"
    case DescriptionRequired => "Achievement description is required"
    case DescriptionTooShort => "Description must be at least 20 characters long"
    case NoSkills => "At least one skill must be added"
    case NoFiles => "At least one supporting document must be uploaded"
  }

  /** The position of the field an error is about, in form order. */
  function FieldOf(e: FormError): nat {
    match e
    case TitleRequired => 0
    case TitleTooShort => 0
    case CategoryRequired => 1
    case DescriptionRequired => 2
    case DescriptionTooShort => 2
    case NoSkills => 3
    case NoFiles => 4
  }

  /** The errors `validateForm` collects. */
  function FormErrors(title: string, category: string, description: string,
                      skillCount: nat, fileCount: nat, editMode: bool): seq<FormError> {
    TrimmedErrors(Trim(title), category, Trim(description), skillCount, fileCount, editMode)
  }

  /** The same checks on the already trimmed title `t` and description `d`. */
  function TrimmedErrors(t: string, category: string, d: string,
                         skillCount: nat, fileCount: nat, editMode: bool): seq<FormError> {
    TitleErrors(t) + CategoryErrors(category) + DescriptionErrors(d)
    + SkillErrors(skillCount) + FileErrors(fileCount, editMode)
  }

  function TitleErrors(t: string): (r: seq<FormError>)
    ensures |r| <= 1 && forall e | e in r :: FieldOf(e) == 0
  {
    if t == "" then [TitleRequired] else if Utf16Length(t) < 5 then [TitleTooShort] else []
  }

  function CategoryErrors(category: string): (r: seq<FormError>)
    ensures |r| <= 1 && forall e | e in r :: FieldOf(e) == 1
  {
    if category == "" then [CategoryRequired] else []
  }

  function DescriptionErrors(d: string): (r: seq<FormError>)
    ensures |r| <= 1 && forall e | e in r :: FieldOf(e) == 2
  {
    if d == "" then [DescriptionRequired] else if Utf16Length(d) < 20 then [DescriptionTooShort] else []
  }

  function SkillErrors(skillCount: nat): (r: seq<FormError>)
    ensures |r| <= 1 && forall e | e in r :: FieldOf(e) == 3
  {
    if skillCount == 0 then [NoSkills] else []
  }

  function FileErrors(fileCount: nat, editMode: bool): (r: seq<FormError>)
    ensures |r| <= 1 && forall e | e in r :: FieldOf(e) == 4
  {
    if !editMode && fileCount == 0 then [NoFiles] else []
  }

  /** The form is valid exactly when the trimmed title has five characters, a
      category is chosen, the trimmed description has twenty, a skill is listed, and
      a file is attached unless an achievement is being edited. */
  lemma FormErrorsEmptyIff(title: string, category: string, description: string,
                           skillCount: nat, fileCount: nat, editMode: bool)
    ensures FormErrors(title, category, description, skillCount, fileCount, editMode) == []
        <==> Utf16Length(Trim(title)) >= 5 && category != "" && Utf16Length(Trim(description)) >= 20
             && skillCount > 0 && (editMode || fileCount > 0)
  {
    var t, d := Trim(title), Trim(description);
    assert FormErrors(title, category, description, skillCount, fileCount, editMode)
        == TrimmedErrors(t, category, d, skillCount, fileCount, editMode);
  }

  /** At most one error per field, in field order. */
  lemma FormErrorsOrdered(title: string, category: string, description: string,
                          skillCount: nat, fileCount: nat, editMode: bool)
    ensures var r := FormErrors(title, category, description, skillCount, fileCount, editMode);
      && |r| <= 5
      && forall i, j :: 0 <= i < j < |r| ==> FieldOf(r[i]) < FieldOf(r[j])
  {
    TrimmedErrorsOrdered(Trim(title), category, Trim(description), skillCount, fileCount, editMode);
  }

  lemma TrimmedErrorsOrdered(t: string, category: string, d: string,
                             skillCount: nat, fileCount: nat, editMode: bool)
    ensures var r := TrimmedErrors(t, category, d, skillCount, fileCount, editMode);
      && |r| <= 5
      && forall i, j :: 0 <= i < j < |r| ==> FieldOf(r[i]) < FieldOf(r[j])
  {
  }

  /** Which error each field gets. */
  lemma FormErrorsPerField(title: string, category: string, description: string,
                           skillCount: nat, fileCount: nat, editMode: bool)
    ensures var r, t, d := FormErrors(title, category, description, skillCount, fileCount, editMode),
                           Trim(title), Trim(description);
      && (TitleRequired in r <==> t == "")
      && (TitleTooShort in r <==> t != "" && Utf16Length(t) < 5)
      && (CategoryRequired in r <==> category == "")
      && (DescriptionRequired in r <==> d == "")
      && (DescriptionTooShort in r <==> d != "" && Utf16Length(d) < 20)
      && (NoSkills in r <==> skillCount == 0)
      && (NoFiles in r <==> !editMode && fileCount == 0)
  {
    TrimmedErrorsPerField(Trim(title), category, Trim(description), skillCount, fileCount, editMode);
  }

  lemma TrimmedErrorsPerField(t: string, category: string, d: string,
                              skillCount: nat, fileCount: nat, editMode: bool)
    ensures var r := TrimmedErrors(t, category, d, skillCount, fileCount, editMode);
      && (TitleRequired in r <==> t == "")
      && (TitleTooShort in r <==> t != "" && Utf16Length(t) < 5)
      && (CategoryRequired in r <==> category == "")
      && (DescriptionRequired in r <==> d == "")
      && (DescriptionTooShort in r <==> d != "" && Utf16Length(d) < 20)
      && (NoSkills in r <==> skillCount == 0)
      && (NoFiles in r <==> !editMode && fileCount == 0)
  {
    var p1, p2, p3 := TitleErrors(t), CategoryErrors(category), DescriptionErrors(d);
    var p4, p5 := SkillErrors(skillCount), FileErrors(fileCount, editMode);
    var r := TrimmedErrors(t, category, d, skillCount, fileCount, editMode);
    assert forall e :: e in r <==> e in p1 || e in p2 || e in p3 || e in p4 || e in p5;
  }

  /** `hasUnsavedChanges`: some text typed, or a skill or a file added. */
  predicate Unsaved(title: string, description: string, skillCount: nat, fileCount: nat) {
    Trim(title) != "" || Trim(description) != "" || skillCount > 0 || fileCount > 0
  }

  /** A form without unsaved changes never validates, so every valid submission
      is something the cancel button would warn about. */
  lemma ValidFormIsUnsaved(title: string, category: string, description: string,
                           skillCount: nat, fileCount: nat, editMode: bool)
    requires FormErrors(title, category, description, skillCount, fileCount, editMode) == []
    ensures Unsaved(title, description, skillCount, fileCount)
  {
    FormErrorsEmptyIff(title, category, description, skillCount, fileCount, editMode);
  }

  // ---------------------------------------------------------------------
  // The description counter (upload-achievement.js:551-570)

  datatype CounterColor = Over | Short | Fine

  /** The description after an input event, the counter's text and its colour. */
  datatype Counter = Counter(value: string, text: string, color: CounterColor)

  /** The input handler: `length` and `substring(0, 1000)` count UTF-16 code units. */
  function CharacterCounter(value: string): Counter {
    var n := Utf16Length(value);
    var text := NatToString(n) + "/1000 characters";
    if n > MaxDescription then Counter(Utf16Prefix(value, MaxDescription), text, Over)
    else if n < 20 then Counter(value, text, Short)
    else Counter(value, text, Fine)
  }

  /** The counter shows the length before cutting and turns red exactly when it is
      over 1000; a description that fits is kept, a longer one is cut to the longest
      prefix that fits, and running the handler again cuts nothing more. */
  lemma CharacterCounterSpec(value: string)
    ensures var c := CharacterCounter(value);
      && Utf16Length(c.value) <= MaxDescription
      && c.text == NatToString(Utf16Length(value)) + "/1000 characters"
      && (c.color == Over <==> Utf16Length(value) > MaxDescription)
      && (c.color == Short <==> Utf16Length(value) < 20)
      && (Utf16Length(value) <= MaxDescription ==> c.value == value)
      && (Utf16Length(value) > MaxDescription ==>
            c.value <= value && |c.value| < |value|
            && Utf16Length(c.value) + UnitWidth(value[|c.value|]) > MaxDescription)
      && CharacterCounter(c.value).value == c.value
      && CharacterCounter(c.value).color != Over
  {
    if Utf16Length(value) > MaxDescription {
      Utf16PrefixMaximal(value, MaxDescription);
    }
  }

  /** On text without characters above U+FFFF the cut keeps the first thousand characters. */
  lemma CharacterCounterBmp(value: string)
    requires InBmp(value)
    ensures CharacterCounter(value).value == value[..if |value| <= MaxDescription then |value| else MaxDescription]
  {
    BmpLength(value);
    Utf16PrefixBmp(value, MaxDescription);
  }

  // ---------------------------------------------------------------------
  // The form's state

  class UploadForm {
    var skills: seq<string>
    var uploadedFiles: seq<FileMeta>
    var isEditMode: bool
    var editingAchievementId: Option<string>

    constructor()
      ensures skills == [] && uploadedFiles == [] && !isEditMode && editingAchievementId == None
    {
      skills := [];
      uploadedFiles := [];
      isEditMode := false;
      editingAchievementId := None;
    }

    /** Edit mode (upload-achievement.js:27-31, 365-405): remember the id and copy
        the stored skills as they are. */
    method LoadAchievementForEditing(a: Achievement)
      modifies this
      ensures isEditMode && editingAchievementId == Some(a.id) && skills == a.skills
      ensures uploadedFiles == old(uploadedFiles)
    {
      isEditMode := true;
      editingAchievementId := Some(a.id);
      skills := a.skills;
    }

    method AddSkill(input: string) returns (outcome: SkillOutcome)
      modifies this
      ensures outcome == SkillDecision(old(skills), input)
      ensures skills == AfterAddSkill(old(skills), input)
      ensures uploadedFiles == old(uploadedFiles) && isEditMode == old(isEditMode)
      ensures editingAchievementId == old(editingAchievementId)
    {
      var v := Trim(input);
      if v == "" {
        return EmptySkill;
      }
      if v in skills {
        return DuplicateSkill;
      }
      if |skills| >= MaxSkills {
        return TooManySkills;
      }
      skills := skills + [v];
      return Added(v);
    }

    method RemoveSkill(s: string)
      modifies this
      ensures skills == WithoutSkill(old(skills), s)
      ensures uploadedFiles == old(uploadedFiles) && isEditMode == old(isEditMode)
      ensures editingAchievementId == old(editingAchievementId)
    {
      var kept: seq<string> := [];
      var i := 0;
      while i < |skills|
        invariant 0 <= i <= |skills|
        invariant kept == WithoutSkill(skills[..i], s)
      {
        assert skills[..i + 1][..i] == skills[..i];
        if skills[i] != s {
          kept := kept + [skills[i]];
        }
        i := i + 1;
      }
      assert skills[..|skills|] == skills;
      skills := kept;
    }

    /** `handleFiles`: the files appended and their number. */
    method HandleFiles(files: seq<FileMeta>) returns (successCount: nat)
      modifies this
      ensures uploadedFiles == AcceptFiles(old(uploadedFiles), files)
      ensures successCount == |uploadedFiles| - |old(uploadedFiles)|
      ensures skills == old(skills) && isEditMode == old(isEditMode)
      ensures editingAchievementId == old(editingAchievementId)
    {
      successCount := 0;
      var i := 0;
      ghost var start := uploadedFiles;
      while i < |files|
        invariant 0 <= i <= |files|
        invariant uploadedFiles == AcceptFiles(start, files[..i])
        invariant successCount == |uploadedFiles| - |start|
        invariant skills == old(skills) && isEditMode == old(isEditMode)
        invariant editingAchievementId == old(editingAchievementId)
      {
        assert files[..i + 1][..i] == files[..i];
        AcceptFilesSound(start, files[..i]);
        var f := files[i];
        if Verdict(uploadedFiles, f) == Accepted {
          uploadedFiles := uploadedFiles + [f];
          successCount := successCount + 1;
        }
        i := i + 1;
      }
      assert files[..|files|] == files;
    }

    method RemoveFile(name: string, size: int)
      modifies this
      ensures uploadedFiles == WithoutFile(old(uploadedFiles), name, size)
      ensures skills == old(skills) && isEditMode == old(isEditMode)
      ensures editingAchievementId == old(editingAchievementId)
    {
      var kept: seq<FileMeta> := [];
      var i := 0;
      while i < |uploadedFiles|
        invariant 0 <= i <= |uploadedFiles|
        invariant kept == WithoutFile(uploadedFiles[..i], name, size)
      {
        assert uploadedFiles[..i + 1][..i] == uploadedFiles[..i];
        var f := uploadedFiles[i];
        if !(f.name == name && f.size == size) {
          kept := kept + [f];
        }
        i := i + 1;
      }
      assert uploadedFiles[..|uploadedFiles|] == uploadedFiles;
      uploadedFiles := kept;
    }

    /** `validateForm` for the values in the three inputs. */
    method ValidateForm(title: string, category: string, description: string) returns (errors: seq<FormError>)
      ensures errors == FormErrors(title, category, description, |skills|, |uploadedFiles|, isEditMode)
    {
      var t := Trim(title);
      var d := Trim(description);
      errors := [];
      if t == "" {
        errors := errors + [TitleRequired];
      } else if Utf16Length(t) < 5 {
        errors := errors + [TitleTooShort];
      }
      assert errors == TitleErrors(t);
      if category == "" {
        errors := errors + [CategoryRequired];
      }
      assert errors == TitleErrors(t) + CategoryErrors(category);
      if d == "" {
        errors := errors + [DescriptionRequired];
      } else if Utf16Length(d) < 20 {
        errors := errors + [DescriptionTooShort];
      }
      assert errors == TitleErrors(t) + CategoryErrors(category) + DescriptionErrors(d);
      if |skills| == 0 {
        errors := errors + [NoSkills];
      }
      assert errors == TitleErrors(t) + CategoryErrors(category) + DescriptionErrors(d) + SkillErrors(|skills|);
      if !isEditMode && |uploadedFiles| == 0 {
        errors := errors + [NoFiles];
      }
      assert errors == TrimmedErrors(t, category, d, |skills|, |uploadedFiles|, isEditMode);
    }

    /** `hasUnsavedChanges` for the values in the title and description inputs. */
    predicate HasUnsavedChanges(title: string, description: string)
      reads this
    {
      Unsaved(title, description, |skills|, |uploadedFiles|)
    }
  }
}
