/** The rule evaluator: `workspace_checks` (the `doctor` command) and the check
    sequence of `cmd_gate`, both over an abstract project state instead of
    the file system, and the exit codes of the two commands. */
module Checks {
  import opened Wrappers
  import opened Text
  import opened Seqs
  import opened Cells
  import opened ChapterFiles
  import opened Matching
  import opened Outline
  import opened RoleState
  import opened Ledger
  import opened Results

  /** What the commands read from disk.
      `present`: the project directory exists.
      `dirs`, `files`: names of the directories and regular files at its top level.
      `outline`, `roleState`, `ledger`: 02-子大纲.md, 07-当前角色状态.md and
      05-长线伏笔.csv, when they exist.
      `listing`: the sorted `*.md` names in 正文 (empty when it is missing).
      `drafts`: the text of every file in 正文, by name. */
  datatype Project = Project(
    present: bool,
    dirs: set<string>,
    files: set<string>,
    outline: Option<string>,
    roleState: Option<string>,
    ledger: Option<LedgerFile>,
    listing: seq<string>,
    drafts: map<string, string>)

  /** The outcome of the ledger statistics script the gate runs last. */
  datatype StatsOutcome = StatsOutcome(ok: bool, message: string)

  /** The gate's command line: target chapter, length bounds, `--strict`. */
  datatype GateArgs = GateArgs(chapter: int, minChars: int, maxChars: int, strict: bool)

  // ---------------------------------------------------------------- doctor

  function DirCheck(p: Project, dir: string): CheckResult {
    if dir in p.dirs then CheckResult(DirExists(dir), Pass, Found(dir))
    else CheckResult(DirExists(dir), Fail, Missing(dir))
  }

  function FileCheck(p: Project, file: string): CheckResult {
    if file in p.files then CheckResult(FileExists(file), Pass, Found(file))
    else CheckResult(FileExists(file), Fail, Missing(file))
  }

  /** One existence check per required directory, in list order. */
  function DirChecks(p: Project, dirs: seq<string>): (rs: seq<CheckResult>)
    ensures |rs| == |dirs|
    ensures forall i :: 0 <= i < |dirs| ==> rs[i] == DirCheck(p, dirs[i])
  {
    if dirs == [] then [] else DirChecks(p, dirs[..|dirs| - 1]) + [DirCheck(p, dirs[|dirs| - 1])]
  }

  /** One existence check per required file, in list order. */
  function FileChecks(p: Project, files: seq<string>): (rs: seq<CheckResult>)
    ensures |rs| == |files|
    ensures forall i :: 0 <= i < |files| ==> rs[i] == FileCheck(p, files[i])
  {
    if files == [] then [] else FileChecks(p, files[..|files| - 1]) + [FileCheck(p, files[|files| - 1])]
  }

  /** The ledger structure check, run only when the ledger exists. */
  function LedgerCheck(p: Project): (rs: seq<CheckResult>)
    ensures |rs| == (if p.ledger.Some? then 1 else 0) && forall i :: 0 <= i < |rs| ==> rs[i].kind == LedgerSchema
    ensures p.ledger.Some? ==> rs[0].status != Warn && (rs[0].status == Fail <==> LoadRows(p.ledger.value).Failure?)
  {
    match p.ledger
    case None => []
    case Some(f) =>
      match LoadRows(f)
      case Success(_) => [CheckResult(LedgerSchema, Pass, FieldsComplete)]
      case Failure(e) => [CheckResult(LedgerSchema, Fail, SchemaRejected(e))]
  }

  function NamingCheck(p: Project): (c: CheckResult)
    ensures c.kind == ChapterNaming
  {
    var invalid := InvalidNames(p.listing);
    if invalid != [] then CheckResult(ChapterNaming, Fail, IllegalNames(invalid))
    else CheckResult(ChapterNaming, Pass, NamingRuleMet)
  }

  function ContinuityCheck(p: Project): (c: CheckResult)
    ensures c.kind == ChapterContinuity
  {
    var chapters := ChapterIndex(p.listing);
    if chapters == map[] then CheckResult(ChapterContinuity, Warn, NoNamedChapters)
    else
      assert chapters.Keys != {} by { var k :| k in chapters; }
      var gaps := ChapterGaps(chapters.Keys);
      if gaps != [] then CheckResult(ChapterContinuity, Warn, MissingChapters(gaps))
      else CheckResult(ChapterContinuity, Pass, NoGaps)
  }

  /** The sub-outline check, run only when the sub-outline exists. */
  function OutlineCheck(p: Project): (rs: seq<CheckResult>)
    ensures |rs| == (if p.outline.Some? then 1 else 0) && forall i :: 0 <= i < |rs| ==> rs[i].kind == OutlineParsable
    ensures p.outline.Some? ==> rs[0].status != Fail && (rs[0].status == Warn <==> Sections(p.outline.value) == map[])
  {
    match p.outline
    case None => []
    case Some(text) => [SectionsVerdict(Sections(text))]
  }

  /** PASS with the number of chapters found, or WARN when none is found. */
  function SectionsVerdict(sections: map<nat, string>): (c: CheckResult)
    ensures c.kind == OutlineParsable && c.status != Fail
    ensures c.status == Warn <==> sections == map[]
  {
    if sections != map[] then CheckResult(OutlineParsable, Pass, ChapterCount(|sections|))
    else CheckResult(OutlineParsable, Warn, NoHeadings)
  }

  /** The results `workspace_checks` returns. */
  function DoctorResults(p: Project): seq<CheckResult> {
    DirChecks(p, RequiredDirs) + FileChecks(p, RequiredFiles) + LedgerCheck(p)
    + [NamingCheck(p), ContinuityCheck(p)] + OutlineCheck(p)
  }

  /** `workspace_checks`: the existence checks, then the ledger, naming,
      continuity and sub-outline checks. */
  method WorkspaceChecks(p: Project) returns (checks: seq<CheckResult>)
    ensures checks == DoctorResults(p)
  {
    var dirChecks := CheckDirs(p, RequiredDirs);
    var fileChecks := CheckFiles(p, RequiredFiles);
    checks := dirChecks + fileChecks + LedgerCheck(p);
    var naming, continuity := CheckChapterFiles(p);
    checks := checks + [naming, continuity];
    if p.outline.Some? {
      var sections := SplitSuboutlineSections(p.outline.value);
      if sections != map[] {
        checks := checks + [CheckResult(OutlineParsable, Pass, ChapterCount(|sections|))];
      } else {
        checks := checks + [CheckResult(OutlineParsable, Warn, NoHeadings)];
      }
    }
  }

  /** The loop over `REQUIRED_DIRS`. */
  method CheckDirs(p: Project, dirs: seq<string>) returns (checks: seq<CheckResult>)
    ensures checks == DirChecks(p, dirs)
  {
    checks := [];
    for i := 0 to |dirs|
      invariant checks == DirChecks(p, dirs[..i])
    {
      var dirname := dirs[i];
      assert dirs[..i + 1][..i] == dirs[..i];
      if dirname in p.dirs {
        checks := checks + [CheckResult(DirExists(dirname), Pass, Found(dirname))];
      } else {
        checks := checks + [CheckResult(DirExists(dirname), Fail, Missing(dirname))];
      }
    }
    assert dirs[..|dirs|] == dirs;
  }

  /** The loop over `REQUIRED_FILES`. */
  method CheckFiles(p: Project, files: seq<string>) returns (checks: seq<CheckResult>)
    ensures checks == FileChecks(p, files)
  {
    checks := [];
    for i := 0 to |files|
      invariant checks == FileChecks(p, files[..i])
    {
      var filename := files[i];
      assert files[..i + 1][..i] == files[..i];
      if filename in p.files {
        checks := checks + [CheckResult(FileExists(filename), Pass, Found(filename))];
      } else {
        checks := checks + [CheckResult(FileExists(filename), Fail, Missing(filename))];
      }
    }
    assert files[..|files|] == files;
  }

  /** The naming and continuity checks over the chapter directory listing. */
  method CheckChapterFiles(p: Project) returns (naming: CheckResult, continuity: CheckResult)
    ensures naming == NamingCheck(p) && continuity == ContinuityCheck(p)
  {
    var chapterFiles, invalidNames := CollectChapterFiles(p.listing);
    if invalidNames != [] {
      naming := CheckResult(ChapterNaming, Fail, IllegalNames(invalidNames));
    } else {
      naming := CheckResult(ChapterNaming, Pass, NamingRuleMet);
    }
    if chapterFiles != map[] {
      assert chapterFiles.Keys != {} by { var k :| k in chapterFiles; }
      var gaps := ChapterGaps(chapterFiles.Keys);
      if gaps != [] {
        continuity := CheckResult(ChapterContinuity, Warn, MissingChapters(gaps));
      } else {
        continuity := CheckResult(ChapterContinuity, Pass, NoGaps);
      }
    } else {
      continuity := CheckResult(ChapterContinuity, Warn, NoNamedChapters);
    }
  }

  /** `cmd_doctor`'s exit code: 2 when the project directory is missing,
      otherwise the common exit policy over the doctor results. */
  function DoctorExit(p: Project, strict: bool): (code: nat)
    ensures code == 2 <==> !p.present || HasStatus(DoctorResults(p), Fail)
    ensures code == 1 <==> p.present && !HasStatus(DoctorResults(p), Fail) && HasStatus(DoctorResults(p), Warn) && strict
    ensures code == 0 <==> p.present && !HasStatus(DoctorResults(p), Fail) && (!HasStatus(DoctorResults(p), Warn) || !strict)
  {
    if !p.present then 2 else ExitCode(DoctorResults(p), strict)
  }

  /** The doctor runs ten, eleven or twelve checks, in catalogue order. */
  lemma DoctorShape(p: Project)
    ensures |DoctorResults(p)| == 10 + (if p.ledger.Some? then 1 else 0) + (if p.outline.Some? then 1 else 0)
    ensures InDeclarationOrder(DoctorResults(p))
    ensures RanksWithin(DoctorResults(p), 0, 11)
  {
    var fixed := DirChecks(p, RequiredDirs) + FileChecks(p, RequiredFiles);
    ExistenceRanks(p);
    assert DoctorResults(p) == fixed + LedgerCheck(p) + [NamingCheck(p), ContinuityCheck(p)] + OutlineCheck(p);
    DoctorOrder(fixed, LedgerCheck(p), NamingCheck(p), ContinuityCheck(p), OutlineCheck(p));
  }

  /** The eight existence checks rank 0 to 7, in the order they are run. */
  lemma ExistenceRanks(p: Project)
    ensures var fixed := DirChecks(p, RequiredDirs) + FileChecks(p, RequiredFiles);
      |fixed| == 8 && forall i :: 0 <= i < 8 ==> Rank(fixed[i].kind) == i
  {
    var dirs := DirChecks(p, RequiredDirs);
    var files := FileChecks(p, RequiredFiles);
    RequiredRanks();
    assert forall i :: 0 <= i < 2 ==> dirs[i].kind == DirExists(RequiredDirs[i]);
    assert forall i :: 0 <= i < 6 ==> files[i].kind == FileExists(RequiredFiles[i]);
    FixedRanks(dirs, files);
  }

  /** Two ranked directory checks followed by six ranked file checks. */
  lemma FixedRanks(dirs: seq<CheckResult>, files: seq<CheckResult>)
    requires |dirs| == 2 && forall i :: 0 <= i < 2 ==> Rank(dirs[i].kind) == i
    requires |files| == 6 && forall i :: 0 <= i < 6 ==> Rank(files[i].kind) == 2 + i
    ensures |dirs + files| == 8 && forall i :: 0 <= i < 8 ==> Rank((dirs + files)[i].kind) == i
  {
    assert forall i :: 2 <= i < 8 ==> (dirs + files)[i] == files[i - 2];
  }

  /** The doctor's results are in order once each part has the right kinds. */
  lemma DoctorOrder(fixed: seq<CheckResult>, ledger: seq<CheckResult>, naming: CheckResult,
                    continuity: CheckResult, outline: seq<CheckResult>)
    requires |fixed| == 8 && forall i :: 0 <= i < 8 ==> Rank(fixed[i].kind) == i
    requires |ledger| <= 1 && forall i :: 0 <= i < |ledger| ==> ledger[i].kind == LedgerSchema
    requires naming.kind == ChapterNaming && continuity.kind == ChapterContinuity
    requires |outline| <= 1 && forall i :: 0 <= i < |outline| ==> outline[i].kind == OutlineParsable
    ensures InDeclarationOrder(fixed + ledger + [naming, continuity] + outline)
    ensures var rs := fixed + ledger + [naming, continuity] + outline;
      RanksWithin(rs, 0, 11)
  {
    var rs := fixed + ledger + [naming, continuity] + outline;
    var skip := 1 - |ledger|;
    forall i | 8 <= i < |rs| ensures Rank(rs[i].kind) == i + skip {
      if i < 8 + |ledger| {
        assert rs[i] == ledger[i - 8];
      } else if i == 8 + |ledger| {
        assert rs[i] == naming;
      } else if i == 9 + |ledger| {
        assert rs[i] == continuity;
      } else {
        assert rs[i] == outline[i - 10 - |ledger|];
      }
    }
    assert forall i :: 0 <= i < 8 ==> rs[i] == fixed[i];
  }

  /** The existence checks rank by their place in the required lists. */
  lemma RequiredRanks()
    ensures forall i :: 0 <= i < |RequiredDirs| ==> Rank(DirExists(RequiredDirs[i])) == i
    ensures forall i :: 0 <= i < |RequiredFiles| ==> Rank(FileExists(RequiredFiles[i])) == 2 + i
  {
    forall i, j | 0 <= i < j < |RequiredFiles| ensures RequiredFiles[i] != RequiredFiles[j] {
      assert RequiredFiles[i][1] != RequiredFiles[j][1];
    }
    forall i | 0 <= i < |RequiredDirs| ensures IndexOf(RequiredDirs, RequiredDirs[i]) == i {
      IndexOfDistinct(RequiredDirs, i);
    }
    forall i | 0 <= i < |RequiredFiles| ensures IndexOf(RequiredFiles, RequiredFiles[i]) == i {
      IndexOfDistinct(RequiredFiles, i);
    }
  }


  /** A missing required directory or file makes the doctor exit with 2. */
  lemma DoctorMissingRequiredFails(p: Project, strict: bool, name: string)
    requires (name in RequiredDirs && name !in p.dirs) || (name in RequiredFiles && name !in p.files)
    ensures DoctorExit(p, strict) == 2
  {
    var dirs := DirChecks(p, RequiredDirs);
    var files := FileChecks(p, RequiredFiles);
    if name in RequiredDirs && name !in p.dirs {
      var i :| 0 <= i < |RequiredDirs| && RequiredDirs[i] == name;
      assert dirs[i] == DirCheck(p, name);
    } else {
      var i :| 0 <= i < |RequiredFiles| && RequiredFiles[i] == name;
      assert files[i] == FileCheck(p, name);
    }
    FailAnywhere(dirs, files, LedgerCheck(p), [NamingCheck(p), ContinuityCheck(p)], OutlineCheck(p), strict);
  }

  /** A ledger the doctor cannot load is a FAIL of the doctor, never an abort. */
  lemma DoctorBrokenLedgerFails(p: Project, strict: bool)
    requires p.present && p.ledger.Some? && LoadRows(p.ledger.value).Failure?
    ensures DoctorExit(p, strict) == 2
  {
    var ledger := LedgerCheck(p);
    assert ledger[0].status == Fail;
    FailAnywhere(DirChecks(p, RequiredDirs), FileChecks(p, RequiredFiles), ledger,
                 [NamingCheck(p), ContinuityCheck(p)], OutlineCheck(p), strict);
  }

  /** The continuity check warns exactly when there is no numbered chapter
      or the numbering has a gap, and then names the gaps. */
  lemma ContinuityVerdict(p: Project)
    ensures var c := ContinuityCheck(p); var chapters := ChapterIndex(p.listing);
      (c.status == Warn <==> chapters == map[] || ChapterGaps(chapters.Keys) != [])
      && (c.status == Pass || c.status == Warn)
      && (c.detail.MissingChapters? ==> c.detail.gaps == ChapterGaps(chapters.Keys))
  {
  }

  /** The naming check fails exactly when some `.md` file of 正文 breaks the
      第NNN章.md rule, and then lists exactly those names. */
  lemma NamingVerdict(p: Project)
    ensures var c := NamingCheck(p);
      (c.status == Fail <==> exists name :: name in p.listing && !IsChapterFileName(name))
      && c.status != Warn
      && (c.detail.IllegalNames? ==> forall name :: name in c.detail.names <==> name in p.listing && !IsChapterFileName(name))
  {
    var invalid := InvalidNames(p.listing);
    if invalid != [] {
      assert invalid[0] in invalid;
    }
  }

  /** A project without any numbered chapter never passes a strict doctor run. */
  lemma DoctorNoChaptersWarns(p: Project)
    requires p.present && ChapterIndex(p.listing) == map[]
    ensures DoctorExit(p, true) != 0
  {
    var rs := DoctorResults(p);
    var k := 9 + |LedgerCheck(p)|;
    assert rs[k] == ContinuityCheck(p);
  }

  // ------------------------------------------------------------------ gate

  /** How a gate run ends: with its results, or with the uncaught error
      `load_rows` raises (line 507), which discards every result. */
  datatype GateRun = Completed(results: seq<CheckResult>) | Aborted(error: SchemaError)

  function PreviousCheck(p: Project, chapter: int): (c: CheckResult)
    ensures c.kind == PreviousExists && c.status != Fail
    ensures c.status == Warn <==> chapter > 1 && ChapterFileName(chapter - 1) !in p.drafts
  {
    if chapter > 1 && ChapterFileName(chapter - 1) !in p.drafts then
      CheckResult(PreviousExists, Warn, PreviousMissing(chapter - 1))
    else CheckResult(PreviousExists, Pass, PreviousAvailable)
  }

  function PlaceholderCheck(text: string): (c: CheckResult)
    ensures c.kind == PlaceholdersCleared && c.status != Warn
    ensures c.status == Fail <==> exists m :: m in PlaceholderSnippets && IsSubstring(m, text)
  {
    var found := FindPlaceholders(text);
    if found != [] then CheckResult(PlaceholdersCleared, Fail, PlaceholdersFound(found))
    else CheckResult(PlaceholdersCleared, Pass, NoPlaceholders)
  }

  /** The first chapter heading of the draft must carry the target number. */
  function HeadingCheck(text: string, chapter: int): (c: CheckResult)
    ensures c.kind == HeadingMatches && c.status != Fail
    ensures c.status == Pass <==> Search(ChapterHeading, text).Some? && Search(ChapterHeading, text).value.number == chapter
  {
    match Search(ChapterHeading, text)
    case None => CheckResult(HeadingMatches, Warn, HeadingAbsent)
    case Some(m) =>
      if m.number == chapter then CheckResult(HeadingMatches, Pass, HeadingNumberMatches)
      else CheckResult(HeadingMatches, Warn, HeadingNumberDiffers(m.number))
  }

  function LengthCheck(count: nat, args: GateArgs): (c: CheckResult)
    ensures c.kind == LengthAdvice && c.status != Fail
    ensures c.status == Pass <==> args.minChars <= count <= args.maxChars
  {
    if count < args.minChars then CheckResult(LengthAdvice, Warn, BelowMinimum(count, args.minChars))
    else if count > args.maxChars then CheckResult(LengthAdvice, Warn, AboveMaximum(count, args.maxChars))
    else CheckResult(LengthAdvice, Pass, WithinRange(count))
  }

  /** Whether the sub-outline has a section for the chapter, when it exists. */
  function CoverageCheck(p: Project, chapter: int): (rs: seq<CheckResult>)
    ensures |rs| == (if p.outline.Some? then 1 else 0) && forall i :: 0 <= i < |rs| ==> rs[i].kind == OutlineCovers
    ensures p.outline.Some? ==> rs[0].status != Warn && (rs[0].status == Pass <==> chapter >= 0 && chapter in Sections(p.outline.value))
  {
    match p.outline
    case None => []
    case Some(text) =>
      if chapter >= 0 && chapter in Sections(text) then [CheckResult(OutlineCovers, Pass, SectionFound)]
      else [CheckResult(OutlineCovers, Fail, SectionMissing)]
  }

  function IdCheck(text: string, rows: seq<Row>): (c: CheckResult)
    ensures c.kind == ForeshadowIdsKnown && c.status != Warn
    ensures c.status == Fail <==> exists id :: id in UsedIdList(text) && id !in KnownIds(rows)
  {
    var unknown := UnknownIds(text, rows);
    UnknownIdsEmptyIff(text, rows);
    if unknown != [] then CheckResult(ForeshadowIdsKnown, Fail, UnregisteredIds(unknown))
    else CheckResult(ForeshadowIdsKnown, Pass, AllIdsRegistered)
  }

  function OverdueCheck(rows: seq<Row>, chapter: int): (c: CheckResult)
    ensures c.kind == OverdueReminder && c.status != Fail
    ensures c.status == Warn <==> exists row :: row in rows && IsOverdue(row, chapter)
  {
    var overdue := OverdueRowsOf(rows, chapter);
    assert overdue != [] ==> overdue[0] in overdue;
    if overdue != [] then CheckResult(OverdueReminder, Warn, OverdueThreads(|overdue|, OverdueIds(overdue)))
    else CheckResult(OverdueReminder, Pass, NoOverdueThreads)
  }

  /** The overdue reminder counts every overdue thread but names only the
      first ten, in ledger order, a blank id shown as <空ID>. */
  lemma OverdueDetail(rows: seq<Row>, chapter: int)
    requires OverdueCheck(rows, chapter).status == Warn
    ensures var d := OverdueCheck(rows, chapter).detail; var overdue := OverdueRowsOf(rows, chapter);
      d.OverdueThreads? && d.count == |overdue| && |d.ids| == (if |overdue| < 10 then |overdue| else 10)
      && forall i :: 0 <= i < |d.ids| ==> d.ids[i] == DisplayId(overdue[i])
  {
    var overdue := OverdueRowsOf(rows, chapter);
    assert overdue != [];
    var ids := OverdueIds(overdue);
    assert OverdueCheck(rows, chapter).detail == OverdueThreads(|overdue|, ids);
  }

  /** Whether the character-state document records the chapter, when it exists. */
  function RoleCheck(p: Project, chapter: int): (rs: seq<CheckResult>)
    ensures |rs| == (if p.roleState.Some? then 1 else 0) && forall i :: 0 <= i < |rs| ==> rs[i].kind == RoleStateUpdated
    ensures p.roleState.Some? ==> rs[0].status != Warn && (rs[0].status == Pass <==> chapter >= 0 && chapter in RecordedChapters(p.roleState.value))
  {
    match p.roleState
    case None => []
    case Some(text) =>
      if chapter >= 0 && chapter in RecordedChapters(text) then [CheckResult(RoleStateUpdated, Pass, ActionRecorded)]
      else [CheckResult(RoleStateUpdated, Fail, ActionMissing)]
  }

  /** The statistics refresh: a pass when the refresh succeeded, a failure
      otherwise, never a warning. */
  function StatsCheck(stats: StatsOutcome): (c: CheckResult)
    ensures c.kind == StatsRefreshed && c.status != Warn
    ensures c.status == Pass <==> stats.ok
  {
    CheckResult(StatsRefreshed, if stats.ok then Pass else Fail, StatsMessage(stats.message))
  }

  /** The ledger checks on a draft: unknown ids and overdue threads when the
      ledger exists, or the error `load_rows` raises. */
  function ThreadChecks(p: Project, text: string, chapter: int): (r: Result<seq<CheckResult>, SchemaError>)
    ensures r.Failure? <==> p.ledger.Some? && LoadRows(p.ledger.value).Failure?
    ensures r.Success? ==> r.value == [] || (|r.value| == 2 && r.value[0].kind == ForeshadowIdsKnown && r.value[1].kind == OverdueReminder)
    ensures r.Success? ==> (r.value == [] <==> p.ledger.None?)
    ensures r.Success? && p.ledger.Some? ==>
      r.value == [IdCheck(text, p.ledger.value.rows), OverdueCheck(p.ledger.value.rows, chapter)]
  {
    match p.ledger
    case None => Success([])
    case Some(f) =>
      match LoadRows(f)
      case Failure(e) => Failure(e)
      case Success(rows) => Success([IdCheck(text, rows), OverdueCheck(rows, chapter)])
  }

  /** The checks on an existing draft, from the previous-chapter check to the
      character-state check, or the error that aborts them. */
  function DraftChecks(p: Project, args: GateArgs, text: string): Result<seq<CheckResult>, SchemaError> {
    var threads := ThreadChecks(p, text, args.chapter);
    if threads.Failure? then Failure(threads.error)
    else Success(DraftSequence(PreviousCheck(p, args.chapter), PlaceholderCheck(text), HeadingCheck(text, args.chapter),
                               LengthCheck(CountNonWhitespace(text), args), CoverageCheck(p, args.chapter),
                               threads.value, RoleCheck(p, args.chapter)))
  }

  /** The draft checks in the order the gate runs them. */
  function DraftSequence(previous: CheckResult, placeholders: CheckResult, heading: CheckResult, length: CheckResult,
                         coverage: seq<CheckResult>, threads: seq<CheckResult>, role: seq<CheckResult>): seq<CheckResult> {
    [previous, placeholders, heading, length] + coverage + threads + role
  }

  /** What `cmd_gate` produces: the doctor results, the target draft's
      checks, and the statistics refresh last. */
  function GateResults(p: Project, args: GateArgs, stats: StatsOutcome): GateRun {
    var doctor := DoctorResults(p);
    var target := ChapterFileName(args.chapter);
    if target !in p.drafts then
      Completed(GateSequence(doctor, CheckResult(TargetExists, Fail, Missing(target)), [], StatsCheck(stats)))
    else
      match DraftChecks(p, args, p.drafts[target])
      case Failure(e) => Aborted(e)
      case Success(checks) =>
        Completed(GateSequence(doctor, CheckResult(TargetExists, Pass, Found(target)), checks, StatsCheck(stats)))
  }

  /** A completed gate run's results in the order they are reported. */
  function GateSequence(doctor: seq<CheckResult>, target: CheckResult, checks: seq<CheckResult>,
                        stats: CheckResult): seq<CheckResult> {
    doctor + [target] + checks + [stats]
  }

  /** `cmd_gate`: the doctor results, the target check, the draft checks
      unless the target is missing, and the statistics refresh. */
  method Gate(p: Project, args: GateArgs, stats: StatsOutcome) returns (run: GateRun)
    ensures run == GateResults(p, args, stats)
  {
    var results := WorkspaceChecks(p);
    var chapterPath := ChapterFileName(args.chapter);
    if chapterPath !in p.drafts {
      results := results + [CheckResult(TargetExists, Fail, Missing(chapterPath))];
    } else {
      results := results + [CheckResult(TargetExists, Pass, Found(chapterPath))];
      var checks := CheckDraft(p, args, p.drafts[chapterPath]);
      if checks.Failure? {
        return Aborted(checks.error);
      }
      results := results + checks.value;
    }
    results := results + [StatsCheck(stats)];
    run := Completed(results);
  }

  /** The gate's checks on the text of an existing target draft. */
  method CheckDraft(p: Project, args: GateArgs, text: string) returns (r: Result<seq<CheckResult>, SchemaError>)
    ensures r == DraftChecks(p, args, text)
  {
    var chapter := args.chapter;
    var coverage: seq<CheckResult> := [];
    if p.outline.Some? {
      var sections := SplitSuboutlineSections(p.outline.value);
      if chapter >= 0 && chapter in sections {
        coverage := [CheckResult(OutlineCovers, Pass, SectionFound)];
      } else {
        coverage := [CheckResult(OutlineCovers, Fail, SectionMissing)];
      }
    }
    assert coverage == CoverageCheck(p, chapter);
    var threads := CheckThreads(p, text, chapter);
    if threads.Failure? {
      return Failure(threads.error);
    }
    r := Success(DraftSequence(PreviousCheck(p, chapter), PlaceholderCheck(text), HeadingCheck(text, chapter),
                               LengthCheck(CountNonWhitespace(text), args), coverage, threads.value, RoleCheck(p, chapter)));
  }

  /** The ledger part of the gate: load the rows, check the ids, collect the
      overdue threads. */
  method CheckThreads(p: Project, text: string, chapter: int) returns (r: Result<seq<CheckResult>, SchemaError>)
    ensures r == ThreadChecks(p, text, chapter)
  {
    if p.ledger.None? {
      return Success([]);
    }
    var loaded := LoadRows(p.ledger.value);
    if loaded.Failure? {
      return Failure(loaded.error);
    }
    var rows := loaded.value;
    var overdueRows := OverdueRows(rows, chapter);
    var overdue;
    if overdueRows != [] {
      overdue := CheckResult(OverdueReminder, Warn, OverdueThreads(|overdueRows|, OverdueIds(overdueRows)));
    } else {
      overdue := CheckResult(OverdueReminder, Pass, NoOverdueThreads);
    }
    r := Success([IdCheck(text, rows), overdue]);
  }

  /** The exit code of `cmd_gate` as written: the exit policy over the
      results, or 1 when `load_rows` raises, the interpreter's status for an
      uncaught exception. */
  function GateExitAsWritten(run: GateRun, strict: bool): (code: nat)
    ensures run.Aborted? ==> code == 1
    ensures run.Completed? ==> code == GateExit(run, strict)
  {
    match run
    case Completed(results) => ExitCode(results, strict)
    case Aborted(_) => 1
  }

  /** The gate's exit code with every hard failure reported as 2: exit 1
      then only ever means "warnings under --strict". */
  function GateExit(run: GateRun, strict: bool): (code: nat)
    ensures code == 2 <==> run.Aborted? || HasStatus(run.results, Fail)
    ensures code == 1 <==> run.Completed? && !HasStatus(run.results, Fail) && HasStatus(run.results, Warn) && strict
    ensures code == 0 <==> run.Completed? && !HasStatus(run.results, Fail) && (!HasStatus(run.results, Warn) || !strict)
  {
    match run
    case Completed(results) => ExitCode(results, strict)
    case Aborted(_) => 2
  }

  /** An aborted gate run exits with 1, which otherwise means "only warnings,
      under --strict" and which a run without --strict never returns. */
  lemma AbortedGateExitAsWritten(p: Project, args: GateArgs, stats: StatsOutcome)
    requires GateResults(p, args, stats).Aborted?
    ensures GateExitAsWritten(GateResults(p, args, stats), false) == 1
    ensures GateExit(GateResults(p, args, stats), false) == 2
    ensures forall results :: ExitCode(results, false) != 1
  {
  }

  /** A concrete project that shows it: chapter 1 drafted and a ledger whose
      header has only the `id` column. */
  lemma BrokenLedgerExample()
    ensures var p := Project(true, {}, {}, None, None, Some(LedgerFile(Some(["id"]), [])), [],
                             map[ChapterFileName(1) := ""]);
      var run := GateResults(p, GateArgs(1, 0, 10, false), StatsOutcome(true, ""));
      run.Aborted? && GateExitAsWritten(run, false) == 1 && GateExit(run, false) == 2
  {
    assert "备注" !in ["id"];
  }

  /** The gate decides whether it aborts before producing any result: exactly
      when the draft exists and the ledger exists but cannot be loaded. */
  lemma GateAbortsIff(p: Project, args: GateArgs, stats: StatsOutcome)
    ensures GateResults(p, args, stats).Aborted? <==>
      ChapterFileName(args.chapter) in p.drafts && p.ledger.Some? && LoadRows(p.ledger.value).Failure?
    ensures GateResults(p, args, stats).Aborted? ==> GateResults(p, args, stats).error == LoadRows(p.ledger.value).error
  {
  }

  /** A completed gate run starts with the doctor's results, then the target
      check, and ends with the statistics refresh. */
  lemma GateFrame(p: Project, args: GateArgs, stats: StatsOutcome)
    requires GateResults(p, args, stats).Completed?
    ensures var rs := GateResults(p, args, stats).results; var doctor := DoctorResults(p);
      |doctor| + 2 <= |rs| && rs[..|doctor|] == doctor
      && rs[|doctor|].kind == TargetExists
      && (rs[|doctor|].status == Pass <==> ChapterFileName(args.chapter) in p.drafts)
      && rs[|rs| - 1] == StatsCheck(stats)
  {
    var doctor := DoctorResults(p);
    var target := ChapterFileName(args.chapter);
    var rs := GateResults(p, args, stats).results;
    if target !in p.drafts {
      assert rs == GateSequence(doctor, CheckResult(TargetExists, Fail, Missing(target)), [], StatsCheck(stats));
      GateParts(doctor, CheckResult(TargetExists, Fail, Missing(target)), [], StatsCheck(stats));
    } else {
      var checks := DraftChecks(p, args, p.drafts[target]).value;
      assert rs == GateSequence(doctor, CheckResult(TargetExists, Pass, Found(target)), checks, StatsCheck(stats));
      GateParts(doctor, CheckResult(TargetExists, Pass, Found(target)), checks, StatsCheck(stats));
    }
  }

  /** Where the parts of a gate run sit in its results. */
  lemma GateParts(doctor: seq<CheckResult>, target: CheckResult, checks: seq<CheckResult>, stats: CheckResult)
    ensures var rs := GateSequence(doctor, target, checks, stats);
      |rs| == |doctor| + |checks| + 2 && rs[..|doctor|] == doctor && rs[|doctor|] == target
      && rs[|doctor| + 1..|rs| - 1] == checks && rs[|rs| - 1] == stats
  {
    var rs := GateSequence(doctor, target, checks, stats);
    assert rs[..|doctor|] == doctor;
    assert rs[|doctor| + 1..|rs| - 1] == checks;
  }

  /** Without the draft, the gate reports the doctor's results, one FAIL for
      the target and the statistics refresh, and exits with 2. */
  lemma GateMissingDraft(p: Project, args: GateArgs, stats: StatsOutcome, strict: bool)
    requires ChapterFileName(args.chapter) !in p.drafts
    ensures GateResults(p, args, stats).Completed?
    ensures |GateResults(p, args, stats).results| == |DoctorResults(p)| + 2
    ensures GateResults(p, args, stats).results[|DoctorResults(p)|] ==
      CheckResult(TargetExists, Fail, Missing(ChapterFileName(args.chapter)))
    ensures GateExit(GateResults(p, args, stats), strict) == 2
  {
    var rs := GateResults(p, args, stats).results;
    assert rs[|DoctorResults(p)|].status == Fail;
  }

  /** The results of a completed gate run are in catalogue order, so no check
      is reported twice. */
  lemma GateInDeclarationOrder(p: Project, args: GateArgs, stats: StatsOutcome)
    requires GateResults(p, args, stats).Completed?
    ensures InDeclarationOrder(GateResults(p, args, stats).results)
  {
    var target := ChapterFileName(args.chapter);
    if target !in p.drafts {
      MissingDraftOrdered(p, target, StatsCheck(stats));
    } else {
      DraftedOrdered(p, args, target, StatsCheck(stats));
    }
  }

  lemma MissingDraftOrdered(p: Project, target: string, stats: CheckResult)
    requires stats.kind == StatsRefreshed
    ensures InDeclarationOrder(GateSequence(DoctorResults(p), CheckResult(TargetExists, Fail, Missing(target)), [], stats))
  {
    DoctorShape(p);
    GateOrder(DoctorResults(p), CheckResult(TargetExists, Fail, Missing(target)), [], stats);
  }

  lemma DraftedOrdered(p: Project, args: GateArgs, target: string, stats: CheckResult)
    requires stats.kind == StatsRefreshed
    requires target in p.drafts && DraftChecks(p, args, p.drafts[target]).Success?
    ensures InDeclarationOrder(GateSequence(DoctorResults(p), CheckResult(TargetExists, Pass, Found(target)),
                                            DraftChecks(p, args, p.drafts[target]).value, stats))
  {
    DoctorShape(p);
    DraftChecksOrdered(p, args, p.drafts[target]);
    GateOrder(DoctorResults(p), CheckResult(TargetExists, Pass, Found(target)), DraftChecks(p, args, p.drafts[target]).value, stats);
  }

  /** The parts of a gate run come in catalogue order. */
  lemma GateOrder(doctor: seq<CheckResult>, target: CheckResult, checks: seq<CheckResult>, stats: CheckResult)
    requires InDeclarationOrder(doctor) && RanksWithin(doctor, 0, 11)
    requires target.kind == TargetExists && stats.kind == StatsRefreshed
    requires InDeclarationOrder(checks) && RanksWithin(checks, 13, 20)
    ensures InDeclarationOrder(GateSequence(doctor, target, checks, stats))
  {
    var rs := GateSequence(doctor, target, checks, stats);
    forall i, j | 0 <= i < j < |rs| ensures Rank(rs[i].kind) < Rank(rs[j].kind) {
      if j < |doctor| {
        assert rs[i] == doctor[i] && rs[j] == doctor[j];
      } else if i < |doctor| {
        assert rs[i] == doctor[i];
        if |doctor| < j < |rs| - 1 {
          assert rs[j] == checks[j - |doctor| - 1];
        }
      } else if i > |doctor| && j < |rs| - 1 {
        assert rs[i] == checks[i - |doctor| - 1] && rs[j] == checks[j - |doctor| - 1];
      } else if i > |doctor| {
        assert rs[i] == checks[i - |doctor| - 1];
      } else if j < |rs| - 1 {
        assert rs[j] == checks[j - |doctor| - 1];
      }
    }
  }

  /** The draft checks are in catalogue order, between the target check and
      the statistics refresh. */
  lemma DraftChecksOrdered(p: Project, args: GateArgs, text: string)
    requires DraftChecks(p, args, text).Success?
    ensures var checks := DraftChecks(p, args, text).value;
      InDeclarationOrder(checks) && RanksWithin(checks, 13, 20)
  {
    DraftOrder(PreviousCheck(p, args.chapter), PlaceholderCheck(text), HeadingCheck(text, args.chapter),
               LengthCheck(CountNonWhitespace(text), args), CoverageCheck(p, args.chapter),
               ThreadChecks(p, text, args.chapter).value, RoleCheck(p, args.chapter));
  }

  /** The draft checks are in order once each part has the right kinds. */
  lemma DraftOrder(previous: CheckResult, placeholders: CheckResult, heading: CheckResult, length: CheckResult,
                   coverage: seq<CheckResult>, ledger: seq<CheckResult>, role: seq<CheckResult>)
    requires previous.kind == PreviousExists && placeholders.kind == PlaceholdersCleared
    requires heading.kind == HeadingMatches && length.kind == LengthAdvice
    requires |coverage| <= 1 && forall i :: 0 <= i < |coverage| ==> coverage[i].kind == OutlineCovers
    requires ledger == [] || (|ledger| == 2 && ledger[0].kind == ForeshadowIdsKnown && ledger[1].kind == OverdueReminder)
    requires |role| <= 1 && forall i :: 0 <= i < |role| ==> role[i].kind == RoleStateUpdated
    ensures var rs := DraftSequence(previous, placeholders, heading, length, coverage, ledger, role);
      InDeclarationOrder(rs) && RanksWithin(rs, 13, 20)
  {
    var head := [previous, placeholders, heading, length];
    assert InDeclarationOrder(head) && RanksWithin(head, 13, 16);
    OrderedConcat(head, coverage, 13, 16, 17);
    assert RanksWithin(ledger, 18, 19);
    OrderedConcat(head + coverage, ledger, 13, 17, 19);
    OrderedConcat(head + coverage + ledger, role, 13, 19, 20);
  }

  /** Where each draft check sits in the draft's results. */
  lemma DraftChecksInclude(p: Project, args: GateArgs, text: string)
    requires DraftChecks(p, args, text).Success?
    ensures var cs := DraftChecks(p, args, text).value;
      PreviousCheck(p, args.chapter) in cs && PlaceholderCheck(text) in cs
      && HeadingCheck(text, args.chapter) in cs && LengthCheck(CountNonWhitespace(text), args) in cs
      && (p.outline.Some? ==> CoverageCheck(p, args.chapter)[0] in cs)
      && (p.ledger.Some? ==> IdCheck(text, LoadRows(p.ledger.value).value) in cs
                             && OverdueCheck(LoadRows(p.ledger.value).value, args.chapter) in cs)
      && (p.roleState.Some? ==> RoleCheck(p, args.chapter)[0] in cs)
  {
    var threads := ThreadChecks(p, text, args.chapter).value;
    DraftSequenceParts(PreviousCheck(p, args.chapter), PlaceholderCheck(text), HeadingCheck(text, args.chapter),
                       LengthCheck(CountNonWhitespace(text), args), CoverageCheck(p, args.chapter), threads,
                       RoleCheck(p, args.chapter));
  }

  /** Every part of the draft sequence is in it. */
  lemma DraftSequenceParts(previous: CheckResult, placeholders: CheckResult, heading: CheckResult, length: CheckResult,
                           coverage: seq<CheckResult>, threads: seq<CheckResult>, role: seq<CheckResult>)
    ensures var rs := DraftSequence(previous, placeholders, heading, length, coverage, threads, role);
      previous in rs && placeholders in rs && heading in rs && length in rs
      && (forall c :: c in coverage ==> c in rs) && (forall c :: c in threads ==> c in rs)
      && (forall c :: c in role ==> c in rs)
  {
  }

  /** A completed gate run on an existing draft reports every draft check. */
  lemma GateReportsDraftChecks(p: Project, args: GateArgs, stats: StatsOutcome)
    requires ChapterFileName(args.chapter) in p.drafts && GateResults(p, args, stats).Completed?
    ensures forall c :: c in DraftChecks(p, args, p.drafts[ChapterFileName(args.chapter)]).value ==>
      c in GateResults(p, args, stats).results
  {
    var target := ChapterFileName(args.chapter);
    var checks := DraftChecks(p, args, p.drafts[target]).value;
    GateSequenceParts(DoctorResults(p), CheckResult(TargetExists, Pass, Found(target)), checks, StatsCheck(stats));
  }

  /** Every part of a gate sequence is in it. */
  lemma GateSequenceParts(doctor: seq<CheckResult>, target: CheckResult, checks: seq<CheckResult>, stats: CheckResult)
    ensures forall c :: c in checks ==> c in GateSequence(doctor, target, checks, stats)
    ensures forall c :: c in doctor ==> c in GateSequence(doctor, target, checks, stats)
  {
  }

  /** A result in the list decides the exit code as far as its severity goes. */
  lemma ReportedSeverity(run: GateRun, c: CheckResult, strict: bool)
    requires run.Completed? && c in run.results
    ensures c.status == Fail ==> GateExit(run, strict) == 2
    ensures c.status == Warn && strict ==> GateExit(run, strict) >= 1
  {
    var i :| 0 <= i < |run.results| && run.results[i] == c;
  }

  /** A template placeholder left in the draft always blocks the gate. */
  lemma GatePlaceholdersBlock(p: Project, args: GateArgs, stats: StatsOutcome, strict: bool)
    requires ChapterFileName(args.chapter) in p.drafts
    requires FindPlaceholders(p.drafts[ChapterFileName(args.chapter)]) != []
    ensures GateExit(GateResults(p, args, stats), strict) == 2
  {
    var run := GateResults(p, args, stats);
    var text := p.drafts[ChapterFileName(args.chapter)];
    if run.Completed? {
      GateReportsDraftChecks(p, args, stats);
      DraftChecksInclude(p, args, text);
      var m := FindPlaceholders(text)[0];
      assert m in FindPlaceholders(text);
      ReportedSeverity(run, PlaceholderCheck(text), strict);
    }
  }

  /** An id the ledger does not register blocks the gate. */
  lemma GateUnknownIdBlocks(p: Project, args: GateArgs, stats: StatsOutcome, strict: bool, id: string)
    requires ChapterFileName(args.chapter) in p.drafts
    requires p.ledger.Some? && LoadRows(p.ledger.value).Success?
    requires id in UsedIdList(p.drafts[ChapterFileName(args.chapter)]) && id !in KnownIds(LoadRows(p.ledger.value).value)
    ensures GateResults(p, args, stats).Completed?
    ensures GateExit(GateResults(p, args, stats), strict) == 2
  {
    var run := GateResults(p, args, stats);
    var text := p.drafts[ChapterFileName(args.chapter)];
    GateCompletesWithLedger(p, args, stats);
    GateReportsDraftChecks(p, args, stats);
    DraftChecksInclude(p, args, text);
    ReportedSeverity(run, IdCheck(text, LoadRows(p.ledger.value).value), strict);
  }

  /** With the draft present and the ledger, if any, loadable, the gate runs to the end. */
  lemma GateCompletesWithLedger(p: Project, args: GateArgs, stats: StatsOutcome)
    requires ChapterFileName(args.chapter) in p.drafts
    requires p.ledger.Some? ==> LoadRows(p.ledger.value).Success?
    ensures GateResults(p, args, stats).Completed?
  {
    assert ThreadChecks(p, p.drafts[ChapterFileName(args.chapter)], args.chapter).Success?;
  }

  /** With a loadable ledger the gate always reports the overdue reminder,
      and it warns exactly when some open thread is due by this chapter. */
  lemma GateOverdueReported(p: Project, args: GateArgs, stats: StatsOutcome)
    requires ChapterFileName(args.chapter) in p.drafts
    requires p.ledger.Some? && LoadRows(p.ledger.value).Success?
    ensures GateResults(p, args, stats).Completed?
    ensures exists c ::
              c in GateResults(p, args, stats).results && c.kind == OverdueReminder &&
              (c.status == Warn <==> exists row :: row in p.ledger.value.rows && IsOverdue(row, args.chapter))
  {
    var text := p.drafts[ChapterFileName(args.chapter)];
    GateCompletesWithLedger(p, args, stats);
    GateReportsDraftChecks(p, args, stats);
    DraftChecksInclude(p, args, text);
    var rows := LoadRows(p.ledger.value).value;
    assert rows == p.ledger.value.rows;
    var c := OverdueCheck(rows, args.chapter);
    assert c in GateResults(p, args, stats).results;
    assert c.kind == OverdueReminder && (c.status == Warn <==> exists row :: row in rows && IsOverdue(row, args.chapter));
  }

  /** With a character-state document the gate reports whether it records
      the chapter, and fails when it does not. */
  lemma GateRoleStateReported(p: Project, args: GateArgs, stats: StatsOutcome)
    requires ChapterFileName(args.chapter) in p.drafts && GateResults(p, args, stats).Completed?
    requires p.roleState.Some?
    ensures exists c ::
              c in GateResults(p, args, stats).results && c.kind == RoleStateUpdated && c.status != Warn &&
              (c.status == Pass <==> args.chapter >= 0 && args.chapter in RecordedChapters(p.roleState.value))
  {
    var text := p.drafts[ChapterFileName(args.chapter)];
    GateReportsDraftChecks(p, args, stats);
    DraftChecksInclude(p, args, text);
    var c := RoleCheck(p, args.chapter)[0];
    assert c in GateResults(p, args, stats).results;
  }

  /** A clean strict pass means the draft is finished: no placeholder, the
      first heading carries the chapter number, the length is in range and
      the previous chapter exists. */
  lemma GateStrictPassMeansFinishedDraft(p: Project, args: GateArgs, stats: StatsOutcome)
    requires GateExit(GateResults(p, args, stats), true) == 0
    ensures ChapterFileName(args.chapter) in p.drafts
    ensures var text := p.drafts[ChapterFileName(args.chapter)];
      FindPlaceholders(text) == []
      && Search(ChapterHeading, text).Some? && Search(ChapterHeading, text).value.number == args.chapter
      && args.minChars <= CountNonWhitespace(text) <= args.maxChars
      && (args.chapter > 1 ==> ChapterFileName(args.chapter - 1) in p.drafts)
  {
    var run := GateResults(p, args, stats);
    var target := ChapterFileName(args.chapter);
    if target !in p.drafts {
      GateMissingDraft(p, args, stats, true);
    } else {
      var text := p.drafts[target];
      GateReportsDraftChecks(p, args, stats);
      DraftChecksInclude(p, args, text);
      ReportedSeverity(run, PlaceholderCheck(text), true);
      ReportedSeverity(run, HeadingCheck(text, args.chapter), true);
      ReportedSeverity(run, LengthCheck(CountNonWhitespace(text), args), true);
      ReportedSeverity(run, PreviousCheck(p, args.chapter), true);
    }
  }
}
