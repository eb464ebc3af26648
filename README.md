# Narrative consistency engine — a Dafny model

This project models the narrative consistency engine of the web-novel writing
kit (`scripts/narrative_engine.py`). A project is a directory of
human-edited files:

- a chapter-by-chapter sub-outline (02-子大纲.md);
- the chapter drafts in 正文, named 第NNN章.md;
- the long-range foreshadowing ledger (05-长线伏笔.csv);
- the character-state log (07-当前角色状态.md).

The engine has three commands:

- `doctor` runs the structural checks: required directories and files, the
  ledger's columns, chapter file naming and numbering gaps, and whether the
  sub-outline has chapter headings.
- `gate` re-runs those checks for one chapter and adds the draft checks:
  - the target and previous drafts exist;
  - no template placeholder is left;
  - the heading number matches;
  - the length is within the advised range;
  - the sub-outline covers the chapter;
  - every foreshadowing id is registered;
  - overdue threads are flagged;
  - the character-state log records the chapter;
  - the statistics refresh succeeds.
- `context` gathers a chapter's writing context: its sub-outline section,
  the last 1200 characters of the previous chapter, the open foreshadowing
  threads, and the five most recent character actions.

Both `doctor` and `gate` turn their results into exit code 0, 1 or 2.

The file system is replaced by a `Checks.Project` value. It holds:

- which directories and files exist;
- the texts of the sub-outline and the character-state log;
- the ledger's header and records;
- the sorted listing of 正文;
- the text of every draft.

The model works on that value as follows:

- The regular expressions become deterministic matchers
  (`Matching.HeadingAt`, `RoleRowAt`, `ForeshadowIdAt`).
  `Matching.FindAll` gives them `finditer` semantics: the matches are
  left to right and do not overlap, and scanning resumes at the end of each
  match.
- Python's `strip`, `splitlines`, `int`, `upper`, `f"{n:03d}"` and slicing
  are written out in `Text`.
- The loops of the source are methods proved against the functions that
  specify them:
  - `collect_chapter_files`, `split_suboutline_sections` and
    `workspace_checks`;
  - the two ledger filters;
  - `cmd_gate`;
  - the table and list building of `build_context_markdown`.

Where the code behaves differently from what a reader might expect, the
model follows the code:

- An action row counts wherever a `| 第N章 |` cell appears in a line, not
  only in the first cell. Across the whole log, two cells that share a `|`
  hide the second one (`RoleState.SharedPipeHidesSecondCell`).
- The heading check uses the first line-start chapter heading anywhere in
  the draft, not only a leading one.
- The foreshadowing-id pattern needs a capital `F`; only the ledger side is
  upper-cased.
- A ledger that cannot be loaded fails one check in `doctor`. In `context`
  (line 255) `load_rows` raises and no context is built; the context runs
  no structural checks. In `gate` (line 507) it raises only when the target
  draft exists, since `load_rows` runs in the draft branch after the doctor
  results and the earlier draft checks. The run then writes no report and
  exits with the interpreter's status 1 (see Findings).
- Text before the first sub-outline heading belongs to no section, and each
  section is stored stripped.
- `context` finds the previous chapter through the chapter map, which only
  holds three-digit names (line 37). The gate's previous-chapter check asks
  whether `chapter_file(chapter - 1)` exists (line 435). From chapter 1001
  on, the two disagree. The context shows the placeholder even when
  `第1000章.md` exists, and the gate's check passes
  (`Context.PreviousChapterPastThousand`).

## Model

| member | source | states |
|---|---|---|
| Text.Strip | webnovel-outline-suboutline-draft-zh/scripts/narrative_engine.py:58 | `str.strip()`: the result is no longer than the input and neither starts nor ends with whitespace |
| Text.StripBounds | webnovel-outline-suboutline-draft-zh/scripts/narrative_engine.py:58 | the stripped text is a slice of the input with only whitespace cut off on either side |
| Text.StripUnique | webnovel-outline-suboutline-draft-zh/scripts/narrative_engine.py:58 | stripping whitespace-padding around an already trimmed core gives back exactly that core |
| Text.StripIdempotent | webnovel-outline-suboutline-draft-zh/scripts/narrative_engine.py:58 | stripping twice is stripping once |
| Text.Upper | webnovel-outline-suboutline-draft-zh/scripts/narrative_engine.py:63 | `upper()` keeps the length and maps every character through the ASCII upper-casing, leaving whitespace whitespace |
| Text.UpperIdempotent | webnovel-outline-suboutline-draft-zh/scripts/narrative_engine.py:63 | upper-casing twice is upper-casing once |
| Text.UpperKeepsTrimmed | webnovel-outline-suboutline-draft-zh/scripts/narrative_engine.py:63 | upper-casing a stripped value leaves it stripped |
| Text.Decimal | webnovel-outline-suboutline-draft-zh/scripts/narrative_engine.py:83 | the decimal spelling of a number is digits reading back as the number, with no leading zero and the usual number of digits |
| Text.ZeroPad | webnovel-outline-suboutline-draft-zh/scripts/narrative_engine.py:83 | padding to a width gives that width (or the original length) without changing the value of a digit string |
| Text.Format03Digits | webnovel-outline-suboutline-draft-zh/scripts/narrative_engine.py:83 | `Format03`, `f"{n:03d}"`, spells every chapter 0–999 with exactly three digits that read back as the chapter |
| Text.LeadingZero | webnovel-outline-suboutline-draft-zh/scripts/narrative_engine.py:71 | `int()` ignores a leading zero |
| Text.DigitsValueInjective | webnovel-outline-suboutline-draft-zh/scripts/narrative_engine.py:71 | two digit strings of the same length with the same `int()` value are equal |
| Text.SplitLines | webnovel-outline-suboutline-draft-zh/scripts/narrative_engine.py:226 | `splitlines()`: no line holds a line boundary, and there are no lines exactly when the text is empty |
| Text.SplitLinesOneLine | webnovel-outline-suboutline-draft-zh/scripts/narrative_engine.py:226 | a non-empty text without a line boundary is a single line |
| Text.SplitLinesAtBreak | webnovel-outline-suboutline-draft-zh/scripts/narrative_engine.py:226 | a boundary ends the line before it and the rest is split on its own, with no empty line added for a trailing boundary |
| Text.SplitLinesAtCrLf | webnovel-outline-suboutline-draft-zh/scripts/narrative_engine.py:226 | `\r\n` ends one line, not two |
| Seqs.LexLessTransitive | webnovel-outline-suboutline-draft-zh/scripts/narrative_engine.py:510 | Python's string order used by `sorted` is transitive |
| Seqs.LexLessTotal | webnovel-outline-suboutline-draft-zh/scripts/narrative_engine.py:510 | of two different strings one sorts before the other |
| Seqs.SortedUnique | webnovel-outline-suboutline-draft-zh/scripts/narrative_engine.py:510 | `sorted(set(...))`: strictly increasing, with exactly the elements of the input |
| Matching.HeadingAt | webnovel-outline-suboutline-draft-zh/scripts/narrative_engine.py:38 | a chapter heading match starts at a line start with `第` or `#`, runs to the end of its line, and its number is the value of the first digit run inside the match, so leading zeros do not count; a line that starts `第`, digits, `章` is always matched |
| Matching.RoleRowAt | webnovel-outline-suboutline-draft-zh/scripts/narrative_engine.py:40 | an action-cell match opens and closes with a pipe character, and its number is the value of the first digit run inside the match |
| Matching.RoleRowAtFound | webnovel-outline-suboutline-draft-zh/scripts/narrative_engine.py:40 | a cell of the form pipe, `第`, digits, `章`, pipe, with no spaces, is always matched |
| Matching.HeadingExamples | webnovel-outline-suboutline-draft-zh/scripts/narrative_engine.py:38 | `## 第 012 章 起` is a heading of chapter 12 running to the end of its line; seven `#` are not a heading |
| Matching.ForeshadowIdAt | webnovel-outline-suboutline-draft-zh/scripts/narrative_engine.py:39 | an id match is `F` and three digits with a word boundary on both sides |
| Matching.FindAll | webnovel-outline-suboutline-draft-zh/scripts/narrative_engine.py:118 | `finditer`: matches in order, non-overlapping, each a real match at its start, every matching position covered by a reported match, none exactly when no position matches |
| Matching.Search | webnovel-outline-suboutline-draft-zh/scripts/narrative_engine.py:458 | `search`: some match exactly when some position matches, and then the leftmost one |
| Matching.MatchedTexts | webnovel-outline-suboutline-draft-zh/scripts/narrative_engine.py:509 | `findall` without groups: the matched slices, one per match |
| Matching.ForeshadowIdShape | webnovel-outline-suboutline-draft-zh/scripts/narrative_engine.py:39 | every id `findall` returns is `F` and three digits |
| Matching.NoChapterMarkNoMatches | webnovel-outline-suboutline-draft-zh/scripts/narrative_engine.py:38-40 | a text without `第` has no chapter heading and no action cell |
| Cells.NormalizeStatus | webnovel-outline-suboutline-draft-zh/scripts/narrative_engine.py:57-59 | the stripped status, or 未标注 exactly when it is blank (or already 未标注) |
| Cells.NormalizeStatusIdempotent | webnovel-outline-suboutline-draft-zh/scripts/narrative_engine.py:57-59 | normalising a normalised status changes nothing |
| Cells.NormalizeId | webnovel-outline-suboutline-draft-zh/scripts/narrative_engine.py:62-63 | the id is the stripped value with every ASCII letter upper-cased, so it has no lower-case ASCII letter |
| Cells.NormalizeIdIdempotent | webnovel-outline-suboutline-draft-zh/scripts/narrative_engine.py:62-63 | normalising a normalised id changes nothing |
| Cells.NormalizeIdIgnoresCase | webnovel-outline-suboutline-draft-zh/scripts/narrative_engine.py:62-63 | ids compare case-insensitively: upper-casing the raw id first gives the same normalised id |
| Cells.ExtractChapterNumFirstRun | webnovel-outline-suboutline-draft-zh/scripts/narrative_engine.py:66-71 | `ExtractChapterNum` gives no chapter exactly when the cell has no digit; otherwise the value of its first maximal digit run |
| Cells.ExtractChapterNumOfRun | webnovel-outline-suboutline-draft-zh/scripts/narrative_engine.py:66-71 | conversely, the first maximal digit run of any cell is what it yields |
| Cells.FirstDigitRunUnique | webnovel-outline-suboutline-draft-zh/scripts/narrative_engine.py:70 | a cell has only one first maximal digit run |
| Cells.ExtractChapterNumExamples | webnovel-outline-suboutline-draft-zh/scripts/narrative_engine.py:66-71 | 第012章 and ch12 and padded 12 give 12, 0 gives 0, 待定 gives none |
| Cells.EscapePipes | webnovel-outline-suboutline-draft-zh/scripts/narrative_engine.py:75 | after escaping, every pipe character is preceded by a backslash, and all-whitespace text is left alone |
| Cells.EscapeRoundTrip | webnovel-outline-suboutline-draft-zh/scripts/narrative_engine.py:75 | un-escaping the escaped value gives the value back |
| Cells.EscapeConcat | webnovel-outline-suboutline-draft-zh/scripts/narrative_engine.py:75 | escaping distributes over concatenation |
| Cells.StripEscapeCommute | webnovel-outline-suboutline-draft-zh/scripts/narrative_engine.py:75 | escaping then stripping equals stripping then escaping |
| Cells.SafeCell | webnovel-outline-suboutline-draft-zh/scripts/narrative_engine.py:74-75 | a table cell has every pipe escaped and un-escapes to the stripped value |
| Cells.CountNonWhitespace | webnovel-outline-suboutline-draft-zh/scripts/narrative_engine.py:78-79 | the count is at most the length, zero exactly for all-whitespace text, the length exactly when nothing is whitespace |
| Cells.CountNonWhitespaceConcat | webnovel-outline-suboutline-draft-zh/scripts/narrative_engine.py:78-79 | the count of a concatenation is the sum of the counts |
| Cells.CountNonWhitespaceStrip | webnovel-outline-suboutline-draft-zh/scripts/narrative_engine.py:78-79 | stripping does not change the count |
| Cells.FindPlaceholders | webnovel-outline-suboutline-draft-zh/scripts/narrative_engine.py:133-134 | a marker is reported exactly when it is one of the four markers and occurs in the text, each once and in the order the markers are declared |
| Cells.NestedPlaceholders | webnovel-outline-suboutline-draft-zh/scripts/narrative_engine.py:42-47 | a bracketed 在此写正文 marker is always reported together with the bare one |
| ChapterFiles.ChapterFileNameAccepted | webnovel-outline-suboutline-draft-zh/scripts/narrative_engine.py:82-83 | the file name `ChapterFileName` (`chapter_file`) builds for 0–999 is accepted by `CHAPTER_FILE_RE` and reads back as the chapter |
| ChapterFiles.ChapterFileNameOfKey | webnovel-outline-suboutline-draft-zh/scripts/narrative_engine.py:37 | every accepted name is the file name `chapter_file` builds for its own number |
| ChapterFiles.ChapterFileNameRejected | webnovel-outline-suboutline-draft-zh/scripts/narrative_engine.py:37 | the file name built for a chapter outside 0–999 is never accepted |
| ChapterFiles.ChapterIndex | webnovel-outline-suboutline-draft-zh/scripts/narrative_engine.py:106-112 | every accepted name is indexed under its number, the last one for a number wins, and nothing else is indexed |
| ChapterFiles.CollectChapterFiles | webnovel-outline-suboutline-draft-zh/scripts/narrative_engine.py:101-113 | the loop builds the chapter index and lists exactly the rejected names in listing order |
| ChapterFiles.ChapterListingPartition | webnovel-outline-suboutline-draft-zh/scripts/narrative_engine.py:106-112 | each listed name is either rejected or indexed, never both |
| ChapterFiles.ListedUnderOwnNumber | webnovel-outline-suboutline-draft-zh/scripts/narrative_engine.py:106-112 | chapter n has an entry exactly when `chapter_file(n)` is listed |
| ChapterFiles.SetMin | webnovel-outline-suboutline-draft-zh/scripts/narrative_engine.py:171 | `sorted_nums[0]`: the least chapter number |
| ChapterFiles.SetMax | webnovel-outline-suboutline-draft-zh/scripts/narrative_engine.py:171 | `sorted_nums[-1]`: the greatest chapter number |
| ChapterFiles.ChapterGaps | webnovel-outline-suboutline-draft-zh/scripts/narrative_engine.py:170-176 | a gap is exactly a missing number strictly between two present chapters, reported in increasing order |
| ChapterFiles.GapsBetween | webnovel-outline-suboutline-draft-zh/scripts/narrative_engine.py:172-176 | the numbers of a range absent from the set, in increasing order |
| ChapterFiles.ChapterGapsExample | webnovel-outline-suboutline-draft-zh/scripts/narrative_engine.py:170-176 | chapters 1, 2, 4 give exactly the gap 3 |
| ChapterFiles.InferNextChapter | webnovel-outline-suboutline-draft-zh/scripts/narrative_engine.py:127-130 | the proposed chapter is above every existing one; it is 1 when there is none and otherwise follows the highest existing chapter |
| Outline.Headings | webnovel-outline-suboutline-draft-zh/scripts/narrative_engine.py:118 | the headings of the sub-outline, in order and non-overlapping |
| Outline.SectionEnd | webnovel-outline-suboutline-draft-zh/scripts/narrative_engine.py:122 | a section ends no earlier than its heading and no later than the text |
| Outline.SectionTexts | webnovel-outline-suboutline-draft-zh/scripts/narrative_engine.py:119-123 | one stripped slice per heading, from the heading to the next heading or the end |
| Outline.SplitSuboutlineSections | webnovel-outline-suboutline-draft-zh/scripts/narrative_engine.py:116-124 | the method returns the section map of the text |
| Outline.CutSections | webnovel-outline-suboutline-draft-zh/scripts/narrative_engine.py:119-123 | the loop stores every heading's stripped slice under the heading's number |
| Outline.SectionMapKeys | webnovel-outline-suboutline-draft-zh/scripts/narrative_engine.py:119-123 | a chapter is a key exactly when some heading carries its number |
| Outline.SectionMapLastWins | webnovel-outline-suboutline-draft-zh/scripts/narrative_engine.py:123 | a repeated chapter number keeps the section of its last heading |
| Outline.SectionsKeys | webnovel-outline-suboutline-draft-zh/scripts/narrative_engine.py:116-124 | the sub-outline has a section for a chapter exactly when some heading names it |
| Outline.SectionsLastHeadingWins | webnovel-outline-suboutline-draft-zh/scripts/narrative_engine.py:123 | the section of a chapter is the slice under its last heading |
| Outline.SectionsEmptyIff | webnovel-outline-suboutline-draft-zh/scripts/narrative_engine.py:187-196 | no section exactly when there is no heading (the doctor's warning case) |
| Outline.SectionHoldsOneHeading | webnovel-outline-suboutline-draft-zh/scripts/narrative_engine.py:122 | no heading starts inside a section after its own |
| Outline.OrderedStarts | webnovel-outline-suboutline-draft-zh/scripts/narrative_engine.py:118 | earlier matches end before later ones start |
| Outline.NoChapterMarkNoSections | webnovel-outline-suboutline-draft-zh/scripts/narrative_engine.py:116-124 | a sub-outline without `第` has no section |
| RoleState.RecordedChapterHasCell | webnovel-outline-suboutline-draft-zh/scripts/narrative_engine.py:547 | every chapter in `RecordedChapters` comes from an action cell of the log |
| RoleState.FirstCellRecorded | webnovel-outline-suboutline-draft-zh/scripts/narrative_engine.py:547 | the first action cell of the log is always recorded |
| RoleState.SharedPipeHidesSecondCell | webnovel-outline-suboutline-draft-zh/scripts/narrative_engine.py:547 | in a row whose two cells 第1章 and 第2章 share one pipe, only chapter 1 is recorded |
| RoleState.SharedPipeScan | webnovel-outline-suboutline-draft-zh/scripts/narrative_engine.py:40 | the scan of that row finds the first cell only |
| RoleState.StripAll | webnovel-outline-suboutline-draft-zh/scripts/narrative_engine.py:225 | every line stripped, one for one |
| RoleState.ActionRowsAreActionLines | webnovel-outline-suboutline-draft-zh/scripts/narrative_engine.py:224-228 | an action row is exactly the stripped form of a log line holding an action cell |
| RoleState.LastRows | webnovel-outline-suboutline-draft-zh/scripts/narrative_engine.py:229 | `rows[-n:]`: a suffix of min(n, len) rows, the whole list when n is 0 |
| RoleState.RecentRoleActionsSuffix | webnovel-outline-suboutline-draft-zh/scripts/narrative_engine.py:223-229 | the recent actions are the last min(5, n) action rows in document order |
| RoleState.RecentRoleActionsEmptyIff | webnovel-outline-suboutline-draft-zh/scripts/narrative_engine.py:223-229 | no recent action exactly when no line holds an action cell |
| Ledger.LoadRows | webnovel-outline-suboutline-draft-zh/scripts/narrative_engine.py:90-98 | the records exactly when the header holds every required column; the no-header error exactly when there is no header; otherwise exactly the missing columns |
| Ledger.ActiveRows | webnovel-outline-suboutline-draft-zh/scripts/narrative_engine.py:253-262 | the loop keeps, in order, exactly the open rows planted no later than the chapter or with no planting number |
| Ledger.OverdueRows | webnovel-outline-suboutline-draft-zh/scripts/narrative_engine.py:522-529 | the loop keeps, in order, exactly the open rows with a planned recovery number no later than the chapter |
| Ledger.UnknownPlantingAlwaysActive | webnovel-outline-suboutline-draft-zh/scripts/narrative_engine.py:260-262 | an open thread whose planting cell has no digit is in every chapter's context |
| Ledger.UnplannedNeverOverdue | webnovel-outline-suboutline-draft-zh/scripts/narrative_engine.py:527-528 | a thread whose planned-recovery cell has no digit is never overdue |
| Ledger.OverdueStaysOverdue | webnovel-outline-suboutline-draft-zh/scripts/narrative_engine.py:522-529 | an overdue thread stays overdue in later chapters |
| Ledger.DisplayId | webnovel-outline-suboutline-draft-zh/scripts/narrative_engine.py:532 | the shown id is the normalised id, or <空ID> when that is empty; never empty |
| Ledger.OverdueIds | webnovel-outline-suboutline-draft-zh/scripts/narrative_engine.py:531-533 | the ids of the first ten overdue rows, in order |
| Ledger.UnknownIds | webnovel-outline-suboutline-draft-zh/scripts/narrative_engine.py:508-510 | sorted, each once, exactly the used ids not among the known ids |
| Ledger.KnownIds | webnovel-outline-suboutline-draft-zh/scripts/narrative_engine.py:508 | the registered ids are exactly the normalised ids of the rows whose id is not empty; each is stripped with no lower-case ASCII letter |
| Ledger.UnknownIdsEmptyIff | webnovel-outline-suboutline-draft-zh/scripts/narrative_engine.py:508-511 | no unknown id exactly when every used id is registered |
| Ledger.UsedIdShape | webnovel-outline-suboutline-draft-zh/scripts/narrative_engine.py:509 | a normalised used id is `F` and three digits |
| Ledger.WordBoundaryExamples | webnovel-outline-suboutline-draft-zh/scripts/narrative_engine.py:39 | an id written straight after a CJK character is not an id; one in full-width brackets is |
| Ledger.OverdueScenario | webnovel-outline-suboutline-draft-zh/scripts/narrative_engine.py:522-533 | a recovered thread is not overdue; an unlabelled one planned for chapter 3 is, at chapter 6 |
| Results.CountsAddUp | webnovel-outline-suboutline-draft-zh/scripts/narrative_engine.py:316-320 | every result is counted under exactly one severity |
| Results.CountConcat | webnovel-outline-suboutline-draft-zh/scripts/narrative_engine.py:316-320 | counting distributes over concatenation |
| Results.ResultsSummary | webnovel-outline-suboutline-draft-zh/scripts/narrative_engine.py:316-320 | the summary holds the number of PASS, WARN and FAIL results, which add up to the number of results; FAIL is zero exactly when no result failed, WARN likewise |
| Results.ExitCode | webnovel-outline-suboutline-draft-zh/scripts/narrative_engine.py:374-379 | 2 exactly when something failed, 1 exactly under `--strict` with warnings and no failure, 0 otherwise |
| Results.ExitCodeMonotone | webnovel-outline-suboutline-draft-zh/scripts/narrative_engine.py:569-574 | adding results never lowers the exit code |
| Results.FailAnywhere | webnovel-outline-suboutline-draft-zh/scripts/narrative_engine.py:569-571 | a failure in any part of a report gives exit code 2 |
| Results.ConclusionAgreesWithExitCode | webnovel-outline-suboutline-draft-zh/scripts/narrative_engine.py:355-360 | the report says blocked exactly when the exit code is 2, passed with warnings exactly when strict mode exits 1, passed exactly when strict mode exits 0; without `--strict` 1 never occurs |
| Results.ConclusionOf | webnovel-outline-suboutline-draft-zh/scripts/narrative_engine.py:355-360 | the report concludes blocked exactly when some result fails, passed with warnings exactly when none fails and some warns, passed otherwise |
| Results.OrderedConcat | webnovel-outline-suboutline-draft-zh/scripts/narrative_engine.py:137-198 | two runs of checks, the second ranked after the first, stay in check order together |
| Checks.DirChecks | webnovel-outline-suboutline-draft-zh/scripts/narrative_engine.py:140-145 | one existence check per required directory, in list order |
| Checks.FileChecks | webnovel-outline-suboutline-draft-zh/scripts/narrative_engine.py:147-152 | one existence check per required file, in list order |
| Checks.CheckDirs | webnovel-outline-suboutline-draft-zh/scripts/narrative_engine.py:140-145 | the loop produces the directory checks |
| Checks.CheckFiles | webnovel-outline-suboutline-draft-zh/scripts/narrative_engine.py:147-152 | the loop produces the file checks |
| Checks.LedgerCheck | webnovel-outline-suboutline-draft-zh/scripts/narrative_engine.py:154-160 | one ledger-schema result exactly when the ledger exists; it never warns, and it fails exactly when `load_rows` rejects the ledger |
| Checks.NamingVerdict | webnovel-outline-suboutline-draft-zh/scripts/narrative_engine.py:162-168 | the naming check fails exactly when some listed name breaks the 第NNN章.md rule, never warns, and lists exactly those names |
| Checks.ContinuityVerdict | webnovel-outline-suboutline-draft-zh/scripts/narrative_engine.py:170-182 | continuity warns exactly when there is no chapter or some gap, never fails, and reports the gaps of the chapter numbers |
| Checks.OutlineCheck | webnovel-outline-suboutline-draft-zh/scripts/narrative_engine.py:184-196 | one sub-outline result exactly when the sub-outline exists; it never fails, and it warns exactly when the sub-outline has no chapter heading |
| Checks.CheckChapterFiles | webnovel-outline-suboutline-draft-zh/scripts/narrative_engine.py:162-182 | the method produces the naming and continuity results |
| Checks.WorkspaceChecks | webnovel-outline-suboutline-draft-zh/scripts/narrative_engine.py:137-198 | the method produces the doctor results |
| Checks.DoctorShape | webnovel-outline-suboutline-draft-zh/scripts/narrative_engine.py:137-198 | the doctor runs 10 checks plus one per existing ledger and sub-outline, each once and in declaration order |
| Checks.ExistenceRanks | webnovel-outline-suboutline-draft-zh/scripts/narrative_engine.py:140-152 | the eight existence checks come first, in the order of the required lists |
| Checks.RequiredRanks | webnovel-outline-suboutline-draft-zh/scripts/narrative_engine.py:13-21 | each required directory and file has its own place in the check order |
| Checks.DoctorMissingRequiredFails | webnovel-outline-suboutline-draft-zh/scripts/narrative_engine.py:366-379 | a missing required directory or file makes `doctor` exit with 2 |
| Checks.DoctorExit | webnovel-outline-suboutline-draft-zh/scripts/narrative_engine.py:366-379 | `doctor` exits 2 when the project directory is missing or some check fails, 1 when only warnings are found under `--strict`, 0 otherwise |
| Checks.DoctorBrokenLedgerFails | webnovel-outline-suboutline-draft-zh/scripts/narrative_engine.py:154-160 | a ledger that cannot be loaded makes `doctor` exit with 2 |
| Checks.DoctorNoChaptersWarns | webnovel-outline-suboutline-draft-zh/scripts/narrative_engine.py:181-182 | a project without a numbered chapter never passes a strict `doctor` run |
| Checks.PreviousCheck | webnovel-outline-suboutline-draft-zh/scripts/narrative_engine.py:435-444 | warns exactly when the chapter is above 1 and the previous chapter's file is missing; never fails |
| Checks.PlaceholderCheck | webnovel-outline-suboutline-draft-zh/scripts/narrative_engine.py:446-456 | fails exactly when some placeholder marker occurs in the draft; never warns |
| Checks.HeadingCheck | webnovel-outline-suboutline-draft-zh/scripts/narrative_engine.py:458-472 | passes exactly when the first chapter heading carries the target number; otherwise warns, never fails |
| Checks.LengthCheck | webnovel-outline-suboutline-draft-zh/scripts/narrative_engine.py:474-493 | passes exactly when the count lies in the inclusive range; otherwise warns, never fails |
| Checks.CoverageCheck | webnovel-outline-suboutline-draft-zh/scripts/narrative_engine.py:495-503 | with a sub-outline, passes exactly when it has a section for the chapter and fails otherwise |
| Checks.IdCheck | webnovel-outline-suboutline-draft-zh/scripts/narrative_engine.py:505-520 | fails exactly when the draft uses an id the ledger does not register; never warns |
| Checks.OverdueCheck | webnovel-outline-suboutline-draft-zh/scripts/narrative_engine.py:522-542 | warns exactly when some ledger row is overdue at the chapter; never fails |
| Checks.OverdueDetail | webnovel-outline-suboutline-draft-zh/scripts/narrative_engine.py:530-540 | the reminder gives the full number of overdue threads but names only the first ten, in ledger order |
| Checks.RoleCheck | webnovel-outline-suboutline-draft-zh/scripts/narrative_engine.py:544-557 | with a character-state log, passes exactly when it records the chapter and fails otherwise |
| Checks.StatsCheck | webnovel-outline-suboutline-draft-zh/scripts/narrative_engine.py:559-563 | the statistics result passes exactly when the refresh succeeded and otherwise fails, never warns |
| Checks.ThreadChecks | webnovel-outline-suboutline-draft-zh/scripts/narrative_engine.py:505-542 | the ledger checks abort exactly when the ledger exists and cannot be loaded; otherwise they give nothing without a ledger, and with one the id check then the overdue check over its rows |
| Checks.CheckThreads | webnovel-outline-suboutline-draft-zh/scripts/narrative_engine.py:505-542 | the method produces the ledger checks, including their loops |
| Checks.CheckDraft | webnovel-outline-suboutline-draft-zh/scripts/narrative_engine.py:435-557 | the method produces the draft checks or the abort |
| Checks.Gate | webnovel-outline-suboutline-draft-zh/scripts/narrative_engine.py:415-563 | the method produces the gate run |
| Checks.GateExit | webnovel-outline-suboutline-draft-zh/scripts/narrative_engine.py:569-574 | 2 exactly when the run aborted or something failed, 1 exactly for warnings only under `--strict`, 0 otherwise |
| Checks.AbortedGateExitAsWritten | webnovel-outline-suboutline-draft-zh/scripts/narrative_engine.py:507 | an aborted gate run exits 1, a code no completed run without `--strict` returns, where 2 is meant |
| Checks.GateExitAsWritten | webnovel-outline-suboutline-draft-zh/scripts/narrative_engine.py:569-574 | the exit code as written: 1 for a run aborted by `load_rows`, the same code as the corrected exit for every completed run |
| Checks.BrokenLedgerExample | webnovel-outline-suboutline-draft-zh/scripts/narrative_engine.py:505-507 | a drafted chapter 1 and a ledger with only the `id` column abort the gate with exit code 1 |
| Checks.GateAbortsIff | webnovel-outline-suboutline-draft-zh/scripts/narrative_engine.py:428-507 | the gate aborts exactly when the draft exists and the ledger exists but cannot be loaded, with `load_rows`'s error |
| Checks.GateFrame | webnovel-outline-suboutline-draft-zh/scripts/narrative_engine.py:425-433 | a completed run starts with the doctor results, then the target check (passing exactly when the draft exists), and ends with the statistics refresh |
| Checks.GateParts | webnovel-outline-suboutline-draft-zh/scripts/narrative_engine.py:425-563 | where each part of a gate run sits in its results |
| Checks.GateMissingDraft | webnovel-outline-suboutline-draft-zh/scripts/narrative_engine.py:428-429 | without the draft, the gate skips every draft check, adds a failed target-exists result naming the missing file and the statistics result, and exits with 2 |
| Checks.GateInDeclarationOrder | webnovel-outline-suboutline-draft-zh/scripts/narrative_engine.py:425-563 | a completed gate run reports each check at most once and in declaration order |
| Checks.DraftChecksInclude | webnovel-outline-suboutline-draft-zh/scripts/narrative_engine.py:435-557 | the draft checks include every check that applies to the project |
| Checks.GateReportsDraftChecks | webnovel-outline-suboutline-draft-zh/scripts/narrative_engine.py:430-557 | a completed gate run on an existing draft reports every draft check |
| Checks.ReportedSeverity | webnovel-outline-suboutline-draft-zh/scripts/narrative_engine.py:569-574 | a reported failure forces exit 2; a reported warning forces a non-zero strict exit |
| Checks.GatePlaceholdersBlock | webnovel-outline-suboutline-draft-zh/scripts/narrative_engine.py:446-456 | a leftover placeholder always blocks the gate |
| Checks.GateUnknownIdBlocks | webnovel-outline-suboutline-draft-zh/scripts/narrative_engine.py:505-518 | an unregistered id in the draft always blocks the gate |
| Checks.GateOverdueReported | webnovel-outline-suboutline-draft-zh/scripts/narrative_engine.py:522-542 | with a loadable ledger the gate reports an overdue reminder that warns exactly when some thread is overdue |
| Checks.GateRoleStateReported | webnovel-outline-suboutline-draft-zh/scripts/narrative_engine.py:544-557 | with a character-state log the gate reports whether it records the chapter and fails when it does not |
| Checks.GateStrictPassMeansFinishedDraft | webnovel-outline-suboutline-draft-zh/scripts/narrative_engine.py:428-493 | a clean strict pass means the draft exists, has no placeholder, carries the right heading, has an in-range length, and follows an existing previous chapter |
| Context.ResolveChapter | webnovel-outline-suboutline-draft-zh/scripts/narrative_engine.py:388-389 | the requested chapter, or one above every numbered chapter: 1 without any, otherwise the chapter after the highest one |
| Context.SectionFor | webnovel-outline-suboutline-draft-zh/scripts/narrative_engine.py:240-241 | the chapter's section when the sub-outline has one, otherwise the placeholder |
| Context.SectionForHeadings | webnovel-outline-suboutline-draft-zh/scripts/narrative_engine.py:237-241 | the context shows a section exactly when some heading names the chapter, and then the section of the sub-outline |
| Context.FindSection | webnovel-outline-suboutline-draft-zh/scripts/narrative_engine.py:237-241 | the method produces the section or the placeholder |
| Context.LastChars | webnovel-outline-suboutline-draft-zh/scripts/narrative_engine.py:249 | the last min(n, len) characters, a suffix of the text |
| Context.PreviousTail | webnovel-outline-suboutline-draft-zh/scripts/narrative_engine.py:243-251 | the last 1200 characters of the stripped previous chapter when it is indexed and readable, otherwise the placeholder |
| Context.ReadPreviousTail | webnovel-outline-suboutline-draft-zh/scripts/narrative_engine.py:243-251 | the method produces that tail |
| Context.PreviousChapterFile | webnovel-outline-suboutline-draft-zh/scripts/narrative_engine.py:243-247 | for chapters 1 to 1000, when the listing and the readable drafts agree on chapter file names, the context quotes a previous chapter exactly when `chapter_file(chapter - 1)` exists, and it is that file, the one the gate's previous-chapter check looks at |
| Context.PreviousChapterPastThousand | webnovel-outline-suboutline-draft-zh/scripts/narrative_engine.py:243-251 | past chapter 1000, an existing `chapter_file(chapter - 1)` is never quoted, so the context shows the placeholder, while the gate's previous-chapter check passes |
| Context.ThreadCells | webnovel-outline-suboutline-draft-zh/scripts/narrative_engine.py:286-292 | a thread row has five cells, each with its pipes escaped |
| Context.ThreadLines | webnovel-outline-suboutline-draft-zh/scripts/narrative_engine.py:283-295 | one table row per active thread, in order, or the single "no active thread" row |
| Context.TableLines | webnovel-outline-suboutline-draft-zh/scripts/narrative_engine.py:283-295 | the loop produces those table rows |
| Context.RowLines | webnovel-outline-suboutline-draft-zh/scripts/narrative_engine.py:284-293 | the loop over a non-empty list of active rows writes one line per row, in ledger order |
| Context.EscapedHasNoSeparator | webnovel-outline-suboutline-draft-zh/scripts/narrative_engine.py:74-75 | an escaped cell contains no column separator |
| Context.CellsTextSeparators | webnovel-outline-suboutline-draft-zh/scripts/narrative_engine.py:285-292 | joining escaped cells gives one separator per cell |
| Context.ThreadLinesKeepFiveColumns | webnovel-outline-suboutline-draft-zh/scripts/narrative_engine.py:283-295 | every line of the thread table has exactly six column separators, whatever pipes the ledger holds |
| Context.ThreadRowSeparators | webnovel-outline-suboutline-draft-zh/scripts/narrative_engine.py:285-292 | the line of any thread has six column separators |
| Context.PlaceholderSeparators | webnovel-outline-suboutline-draft-zh/scripts/narrative_engine.py:294-295 | the placeholder line has six column separators |
| Context.ActionLines | webnovel-outline-suboutline-draft-zh/scripts/narrative_engine.py:299-303 | one bullet per recent action, in order, or the single placeholder bullet |
| Context.BulletLines | webnovel-outline-suboutline-draft-zh/scripts/narrative_engine.py:299-303 | the loop produces those bullets |
| Context.ActionLinesShape | webnovel-outline-suboutline-draft-zh/scripts/narrative_engine.py:264 | the action list has one to five lines, and the placeholder exactly when no log line has an action cell |
| Context.ActiveThreads | webnovel-outline-suboutline-draft-zh/scripts/narrative_engine.py:253-262 | the context aborts on the ledger exactly when it exists and cannot be loaded, with the loading error; otherwise it lists no thread without a ledger and the ledger's active rows with one |
| Context.BuildContext | webnovel-outline-suboutline-draft-zh/scripts/narrative_engine.py:232-303 | the method produces the context data, or the ledger error |
| Context.ContextOf | webnovel-outline-suboutline-draft-zh/scripts/narrative_engine.py:232-303 | the context fails exactly when the ledger exists and cannot be loaded; otherwise it is for the chapter asked and its thread table and action list are never empty |
| Context.ContextListsActiveThreads | webnovel-outline-suboutline-draft-zh/scripts/narrative_engine.py:253-293 | with a loadable ledger, every active thread's row appears in the thread table |
| Context.ContextListsOnlyActiveThreads | webnovel-outline-suboutline-draft-zh/scripts/narrative_engine.py:253-295 | every line of the thread table is the placeholder or the line of an active thread of the ledger |

## Left out

- Reading and writing files, argument parsing, `print_results`, report and context paths, and the timestamps are left out. The model takes the project state as a value and returns results and data.
- The Markdown wording and layout of the gate report and the context document are left out. Check names are kept exactly; each check's detail is kept as a structured `Results.Detail` value instead of its sentence.
- `run_foreshadow_stats` runs another script in a subprocess, so its outcome is a `StatsOutcome` parameter of the gate.
- `context --create-chapter` writing the draft template (lines 392-400) changes only the file system, not the context data, and is left out.
- The CSV dialect (quoting, BOM, line endings) is left out. The ledger comes in as its header and its records as column-to-value maps. A short record's missing field reads as "", as every helper does with `None`.
- The order of `sorted(glob("*.md"))` is taken as given: the listing is a parameter, already sorted.
- Paths are represented by file names, and `is_dir` and `is_file` by two name sets. Symbolic links and permissions are left out.
- `\d` and `int()` accept only ASCII digits, while Python also accepts other Unicode decimal digits. `upper()` covers ASCII letters only.
- Matching.IsWordChar: `\b` in the id pattern uses an approximation of Unicode `\w`: ASCII letters, digits and `_`, Latin-1 letters, kana, CJK ideographs and full-width alphanumerics.
- `read_utf8` raising `UnicodeDecodeError` on a file that is not valid UTF-8 (a draft, the sub-outline, the character-state log) is an uncaught crash with status 1; the model takes every text as already decoded. The sub-outline read of `doctor` at line 186 is unguarded in the same way.
- Checks.LedgerCheck: `doctor`'s `except Exception` at line 158 turns any exception of `load_rows` into a FAIL; the model covers only the two schema errors `load_rows` itself raises, not I/O or CSV errors.
- The exit of `cmd_context` and the process status of an uncaught exception outside the gate are not modelled. The context returns the ledger error instead.

## Findings

| source | as written | input that shows it | evidently intended | confidence | as-written member | corrected member |
|---|---|---|---|---|---|---|
| webnovel-outline-suboutline-draft-zh/scripts/narrative_engine.py:505-507 | `gate` calls `load_rows` outside any `try`. A ledger with a missing column raises `ValueError` after the structural checks have run. The process ends with the interpreter's status 1 and writes no report. Status 1 is the code for "only warnings, under --strict". | chapter 1 drafted, ledger header `id` only, no `--strict` | a hard failure with exit code 2, like every other failure (the doctor records the same error as a FAIL) | not executed | Checks.AbortedGateExitAsWritten | Checks.GateExit |
