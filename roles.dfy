/** The character-state document: which chapters have a `| 第N章 |` action
    cell (the gate's write-back check) and the most recent action rows (the
    context document's last five). */
module RoleState {
  import opened Wrappers
  import opened Text
  import opened Seqs
  import opened Matching

  /** The chapter numbers of all action cells `ROLE_ACTION_ROW_RE.finditer`
      finds in the whole document. */
  function RecordedChapters(text: string): set<nat> {
    var ms := FindAll(RoleActionRow, text, 0);
    set k | 0 <= k < |ms| :: ms[k].number
  }

  /** Every recorded chapter comes from a `| 第N章 |` cell of the document. */
  lemma RecordedChapterHasCell(text: string, chapter: nat)
    requires chapter in RecordedChapters(text)
    ensures exists p :: 0 <= p <= |text| && RoleRowAt(text, p).Some? && RoleRowAt(text, p).value.number == chapter
  {
    var ms := FindAll(RoleActionRow, text, 0);
    var k :| 0 <= k < |ms| && ms[k].number == chapter;
    assert MatchAt(RoleActionRow, text, ms[k].start) == Some(ms[k]);
  }

  /** The first action cell of the document is always recorded. */
  lemma FirstCellRecorded(text: string)
    requires Search(RoleActionRow, text).Some?
    ensures Search(RoleActionRow, text).value.number in RecordedChapters(text)
  {
    var ms := FindAll(RoleActionRow, text, 0);
    assert Search(RoleActionRow, text).value == ms[0];
  }

  /** Two cells sharing one `|`: the scan resumes after the closing `|` of the
      first, so the second cell is not seen and chapter 2 is not recorded. */
  lemma SharedPipeHidesSecondCell()
    ensures RecordedChapters("|第1章|第2章|") == {1}
  {
    var s := "|第1章|第2章|";
    SharedPipeScan();
    var ms := FindAll(RoleActionRow, s, 0);
    assert 1 in RecordedChapters(s) by { assert ms[0].number == 1; }
    assert forall c :: c in RecordedChapters(s) ==> c == 1;
  }

  /** The scan of `|第1章|第2章|` takes only the first cell. */
  lemma SharedPipeScan()
    ensures FindAll(RoleActionRow, "|第1章|第2章|", 0) == [Match(0, 5, 1)]
  {
    var s := "|第1章|第2章|";
    var t := Table(RoleActionRow, s);
    SharedPipeCells(s);
    assert t[0] == Some(Match(0, 5, 1)) && t[8].None?;
    assert s[5] != '|' && s[6] != '|' && s[7] != '|';
    assert t[5].None? && t[6].None? && t[7].None? && t[9].None?;
    assert Scan(t, 9) == [];
    assert Scan(t, 8) == [] && Scan(t, 7) == [] && Scan(t, 6) == [] && Scan(t, 5) == [];
    assert Scan(t, 0) == [Match(0, 5, 1)];
  }

  /** The cell at 0 runs through the shared `|` at 4; the last `|` opens no
      cell. */
  lemma SharedPipeCells(s: string)
    requires s == "|第1章|第2章|"
    ensures RoleRowAt(s, 0) == Some(Match(0, 5, 1))
    ensures RoleRowAt(s, 8).None?
  {
    assert s[0..5][2..3] == "1" && DigitsValue("1") == 1;
    assert SkipSpace(s, 1) == 1 && SkipSpace(s, 2) == 2;
    assert DigitRunEnd(s, 3) == 3 && DigitRunEnd(s, 2) == 3;
    assert SkipSpace(s, 3) == 3 && SkipSpace(s, 4) == 4;
    assert SkipSpace(s, 9) == 9;
  }

  /** `ROLE_ACTION_ROW_RE.search(line)`: the line holds an action cell somewhere. */
  predicate HasRoleRow(line: string) {
    Search(RoleActionRow, line).Some?
  }

  /** The stripped form of every line. */
  function StripAll(lines: seq<string>): (r: seq<string>)
    ensures |r| == |lines| && forall i :: 0 <= i < |lines| ==> r[i] == Strip(lines[i])
  {
    seq(|lines|, i requires 0 <= i < |lines| => Strip(lines[i]))
  }

  /** `[line.strip() for line in text.splitlines() if ROLE_ACTION_ROW_RE.search(line)]`. */
  function ActionRows(text: string): seq<string> {
    StripAll(Filter(SplitLines(text), HasRoleRow))
  }

  /** Every action row is a stripped line of the document holding an action
      cell, and every such line gives an action row. */
  lemma ActionRowsAreActionLines(text: string)
    ensures forall r :: r in ActionRows(text) ==>
      exists line :: line in SplitLines(text) && HasRoleRow(line) && Strip(line) == r
    ensures forall line :: line in SplitLines(text) && HasRoleRow(line) ==> Strip(line) in ActionRows(text)
  {
    var kept := Filter(SplitLines(text), HasRoleRow);
    forall r | r in ActionRows(text)
      ensures exists line :: line in SplitLines(text) && HasRoleRow(line) && Strip(line) == r
    {
      var i :| 0 <= i < |kept| && ActionRows(text)[i] == r;
      assert kept[i] in kept;
    }
    forall line | line in SplitLines(text) && HasRoleRow(line) ensures Strip(line) in ActionRows(text) {
      var i :| 0 <= i < |kept| && kept[i] == line;
      assert ActionRows(text)[i] == Strip(line);
    }
  }

  /** `rows[-max_rows:]`: the last `maxRows` rows, or all of them when there
      are fewer; `rows[-0:]` is the whole list. */
  function LastRows(rows: seq<string>, maxRows: nat): (r: seq<string>)
    ensures maxRows > 0 ==> |r| == if |rows| < maxRows then |rows| else maxRows
    ensures maxRows == 0 ==> |r| == |rows|
    ensures |r| <= |rows| && r == rows[|rows| - |r|..]
  {
    if maxRows == 0 || |rows| <= maxRows then rows else rows[|rows| - maxRows..]
  }

  /** `find_recent_role_actions(text)` with its default of five rows. */
  function RecentRoleActions(text: string): seq<string> {
    LastRows(ActionRows(text), 5)
  }

  /** The recent actions are the last min(5, n) action rows, in document order. */
  lemma RecentRoleActionsSuffix(text: string)
    ensures var all := ActionRows(text);
      var recent := RecentRoleActions(text);
      |recent| == (if |all| < 5 then |all| else 5) && all == all[..|all| - |recent|] + recent
  {
    var all := ActionRows(text);
    var recent := RecentRoleActions(text);
    assert all == all[..|all| - |recent|] + all[|all| - |recent|..];
  }

  /** There is no recent action exactly when no line holds an action cell. */
  lemma RecentRoleActionsEmptyIff(text: string)
    ensures RecentRoleActions(text) == [] <==>
      forall line :: line in SplitLines(text) ==> !HasRoleRow(line)
  {
    LastActionRowsEmptyIff(SplitLines(text));
  }

  /** The same, for any list of lines. */
  lemma LastActionRowsEmptyIff(lines: seq<string>)
    ensures LastRows(StripAll(Filter(lines, HasRoleRow)), 5) == [] <==> forall line :: line in lines ==> !HasRoleRow(line)
  {
    var kept := Filter(lines, HasRoleRow);
    if kept != [] {
      assert kept[0] in kept;
    }
  }
}
