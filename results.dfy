/** Check results and the verdict built from them: severities, the catalogue
    of checks in declaration order, `results_summary`, the exit policy shared
    by `doctor` and `gate`, and the gate report's conclusion line. */
module Results {
  import opened Seqs
  import opened Ledger

  datatype Severity = Pass | Warn | Fail

  /** `REQUIRED_DIRS` and `REQUIRED_FILES`. */
  const RequiredDirs: seq<string> := ["正文", "风格参考"]
  const RequiredFiles: seq<string> :=
    ["00-项目说明.md", "01-总大纲.md", "02-子大纲.md", "04-设定集.md", "05-长线伏笔.csv", "07-当前角色状态.md"]

  /** Every check the engine runs, in the order the source declares them. */
  datatype CheckKind =
    | DirExists(dir: string)
    | FileExists(file: string)
    | LedgerSchema
    | ChapterNaming
    | ChapterContinuity
    | OutlineParsable
    | TargetExists
    | PreviousExists
    | PlaceholdersCleared
    | HeadingMatches
    | LengthAdvice
    | OutlineCovers
    | ForeshadowIdsKnown
    | OverdueReminder
    | RoleStateUpdated
    | StatsRefreshed

  /** The name a check is reported under. */
  function Name(kind: CheckKind): string {
    match kind
    case DirExists(dir) => "目录存在：" + dir
    case FileExists(file) => "文件存在：" + file
    case LedgerSchema => "伏笔 CSV 结构"
    case ChapterNaming => "章节命名规范"
    case ChapterContinuity => "章节连续性"
    case OutlineParsable => "子大纲可解析章节"
    case TargetExists => "目标章节存在"
    case PreviousExists => "前序章节存在"
    case PlaceholdersCleared => "章节占位符清理"
    case HeadingMatches => "章节标题匹配"
    case LengthAdvice => "章节长度建议"
    case OutlineCovers => "子大纲覆盖本章"
    case ForeshadowIdsKnown => "伏笔ID合法性"
    case OverdueReminder => "逾期伏笔提醒"
    case RoleStateUpdated => "角色状态回写"
    case StatsRefreshed => "长线统计刷新"
  }


  /** A check's place in the catalogue: the existence checks in the order of
      the required lists, then the other checks as the source runs them. */
  function Rank(kind: CheckKind): nat {
    match kind
    case DirExists(dir) => IndexOf(RequiredDirs, dir)
    case FileExists(file) => 2 + IndexOf(RequiredFiles, file)
    case LedgerSchema => 8
    case ChapterNaming => 9
    case ChapterContinuity => 10
    case OutlineParsable => 11
    case TargetExists => 12
    case PreviousExists => 13
    case PlaceholdersCleared => 14
    case HeadingMatches => 15
    case LengthAdvice => 16
    case OutlineCovers => 17
    case ForeshadowIdsKnown => 18
    case OverdueReminder => 19
    case RoleStateUpdated => 20
    case StatsRefreshed => 21
  }

  /** What a result reports, without its wording. */
  datatype Detail =
    | Found(path: string)
    | Missing(path: string)
    | FieldsComplete
    | SchemaRejected(error: SchemaError)
    | IllegalNames(names: seq<string>)
    | NamingRuleMet
    | MissingChapters(gaps: seq<nat>)
    | NoGaps
    | NoNamedChapters
    | ChapterCount(count: nat)
    | NoHeadings
    | PreviousMissing(previous: int)
    | PreviousAvailable
    | PlaceholdersFound(markers: seq<string>)
    | NoPlaceholders
    | HeadingNumberMatches
    | HeadingNumberDiffers(found: nat)
    | HeadingAbsent
    | BelowMinimum(count: nat, minimum: int)
    | AboveMaximum(count: nat, maximum: int)
    | WithinRange(count: nat)
    | SectionFound
    | SectionMissing
    | UnregisteredIds(ids: seq<string>)
    | AllIdsRegistered
    | OverdueThreads(count: nat, ids: seq<string>)
    | NoOverdueThreads
    | ActionRecorded
    | ActionMissing
    | StatsMessage(message: string)

  /** `CheckResult`. */
  datatype CheckResult = CheckResult(kind: CheckKind, status: Severity, detail: Detail)

  /** The results in catalogue order, no check twice. */
  predicate InDeclarationOrder(results: seq<CheckResult>) {
    forall i, j :: 0 <= i < j < |results| ==> Rank(results[i].kind) < Rank(results[j].kind)
  }

  /** Every result's check lies in the catalogue between `lo` and `hi`. */
  predicate RanksWithin(results: seq<CheckResult>, lo: nat, hi: nat) {
    forall i :: 0 <= i < |results| ==> lo <= Rank(results[i].kind) <= hi
  }

  /** Two runs of results in catalogue order, the second ranked after the
      first, are in catalogue order together. */
  lemma OrderedConcat(a: seq<CheckResult>, b: seq<CheckResult>, lo: nat, mid: nat, hi: nat)
    requires lo <= mid <= hi && InDeclarationOrder(a) && RanksWithin(a, lo, mid)
    requires InDeclarationOrder(b) && RanksWithin(b, mid + 1, hi)
    ensures InDeclarationOrder(a + b) && RanksWithin(a + b, lo, hi)
  {
    var ab := a + b;
    assert forall k :: |a| <= k < |ab| ==> ab[k] == b[k - |a|];
  }

  /** How many results carry severity `s`. */
  function Count(results: seq<CheckResult>, s: Severity): (n: nat)
    ensures n <= |results|
    ensures n == 0 <==> forall i :: 0 <= i < |results| ==> results[i].status != s
    decreases |results|
  {
    if results == [] then 0
    else (if results[0].status == s then 1 else 0) + Count(results[1..], s)
  }

  /** Every result has exactly one of the three severities. */
  lemma {:induction false} CountsAddUp(results: seq<CheckResult>)
    ensures Count(results, Pass) + Count(results, Warn) + Count(results, Fail) == |results|
    decreases |results|
  {
    if results != [] {
      CountsAddUp(results[1..]);
    }
  }

  /** Counting distributes over concatenation. */
  lemma {:induction false} CountConcat(a: seq<CheckResult>, b: seq<CheckResult>, s: Severity)
    ensures Count(a + b, s) == Count(a, s) + Count(b, s)
    decreases |a|
  {
    if a == [] {
      assert a + b == b;
    } else {
      assert (a + b)[1..] == a[1..] + b;
      CountConcat(a[1..], b, s);
    }
  }

  datatype Summary = Summary(passed: nat, warned: nat, failed: nat)

  /** `results_summary`: the number of PASS, WARN and FAIL results. */
  function ResultsSummary(results: seq<CheckResult>): (sum: Summary)
    ensures sum.passed + sum.warned + sum.failed == |results|
    ensures sum.failed == 0 <==> forall i :: 0 <= i < |results| ==> results[i].status != Fail
    ensures sum.warned == 0 <==> forall i :: 0 <= i < |results| ==> results[i].status != Warn
    ensures sum.passed == Count(results, Pass) && sum.warned == Count(results, Warn) && sum.failed == Count(results, Fail)
  {
    CountsAddUp(results);
    Summary(Count(results, Pass), Count(results, Warn), Count(results, Fail))
  }

  predicate HasStatus(results: seq<CheckResult>, s: Severity) {
    exists i :: 0 <= i < |results| && results[i].status == s
  }

  /** The exit policy: 2 when something failed, 1 when only warnings remain
      and the caller asked for `--strict`, 0 otherwise. */
  function ExitCode(results: seq<CheckResult>, strict: bool): (code: nat)
    ensures code == 2 <==> HasStatus(results, Fail)
    ensures code == 1 <==> !HasStatus(results, Fail) && HasStatus(results, Warn) && strict
    ensures code == 0 <==> !HasStatus(results, Fail) && (!HasStatus(results, Warn) || !strict)
  {
    var sum := ResultsSummary(results);
    if sum.failed > 0 then 2
    else if sum.warned > 0 && strict then 1
    else 0
  }

  /** A failure in any part of a report makes the whole report exit with 2. */
  lemma FailAnywhere(a: seq<CheckResult>, b: seq<CheckResult>, c: seq<CheckResult>, d: seq<CheckResult>,
                     e: seq<CheckResult>, strict: bool)
    requires HasStatus(a, Fail) || HasStatus(b, Fail) || HasStatus(c, Fail) || HasStatus(d, Fail) || HasStatus(e, Fail)
    ensures ExitCode(a + b + c + d + e, strict) == 2
  {
    ExitCodeMonotone(a, b, strict);
    ExitCodeMonotone(a + b, c, strict);
    ExitCodeMonotone(a + b + c, d, strict);
    ExitCodeMonotone(a + b + c + d, e, strict);
  }

  /** The three tiers of the gate report's conclusion. */
  datatype Conclusion = Blocked | PassedWithWarnings | Passed

  /** The conclusion line of `write_gate_report`. */
  function ConclusionOf(results: seq<CheckResult>): (c: Conclusion)
    ensures c == Blocked <==> HasStatus(results, Fail)
    ensures c == PassedWithWarnings <==> !HasStatus(results, Fail) && HasStatus(results, Warn)
    ensures c == Passed <==> !HasStatus(results, Fail) && !HasStatus(results, Warn)
  {
    var sum := ResultsSummary(results);
    if sum.failed > 0 then Blocked
    else if sum.warned > 0 then PassedWithWarnings
    else Passed
  }

  /** The report's conclusion and the exit code tell the same story: blocked
      exactly when the exit code is 2, warnings exactly when strict mode
      exits with 1, a clean pass exactly when strict mode exits with 0. */
  lemma ConclusionAgreesWithExitCode(results: seq<CheckResult>)
    ensures ConclusionOf(results) == Blocked <==> ExitCode(results, false) == 2
    ensures ConclusionOf(results) == PassedWithWarnings <==> ExitCode(results, true) == 1
    ensures ConclusionOf(results) == Passed <==> ExitCode(results, true) == 0
    ensures ExitCode(results, false) != 1
  {
  }

  /** Adding results never lowers the exit code: no check can undo another's
      verdict. */
  lemma ExitCodeMonotone(a: seq<CheckResult>, b: seq<CheckResult>, strict: bool)
    ensures ExitCode(a, strict) <= ExitCode(a + b, strict)
    ensures ExitCode(b, strict) <= ExitCode(a + b, strict)
  {
    if HasStatus(a, Fail) {
      var i :| 0 <= i < |a| && a[i].status == Fail;
      assert (a + b)[i] == a[i];
    } else if HasStatus(a, Warn) {
      var i :| 0 <= i < |a| && a[i].status == Warn;
      assert (a + b)[i] == a[i];
    }
    if HasStatus(b, Fail) {
      var i :| 0 <= i < |b| && b[i].status == Fail;
      assert (a + b)[|a| + i] == b[i];
    } else if HasStatus(b, Warn) {
      var i :| 0 <= i < |b| && b[i].status == Warn;
      assert (a + b)[|a| + i] == b[i];
    }
  }
}
