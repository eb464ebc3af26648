/** The long-range foreshadowing ledger (05-长线伏笔.csv): the required-column
    check of `load_rows`, the row filters the context document and the gate
    apply to it, and the foreshadowing ids a chapter draft mentions. */
module Ledger {
  import opened Wrappers
  import opened Text
  import opened Seqs
  import opened Cells
  import opened Matching

  /** One CSV record, column name to value, as `csv.DictReader` yields it. */
  type Row = map<string, string>

  /** `row.get(column, "")`; a short record's missing field reads as "" too,
      as every helper turns `None` into "". */
  function Cell(row: Row, column: string): string {
    if column in row then row[column] else ""
  }

  /** `REQUIRED_COLUMNS`. */
  const RequiredColumns: seq<string> :=
    ["id", "主线", "伏笔内容", "首次埋设章节", "计划回收章节", "实际回收章节", "状态", "关联人物", "备注"]

  /** The ledger file, its CSV already split: the header (`None` for an empty
      file) and the records. */
  datatype LedgerFile = LedgerFile(header: Option<seq<string>>, rows: seq<Row>)

  /** Why `load_rows` raises: no header, or required columns missing from it. */
  datatype SchemaError = NoHeader | MissingColumns(columns: seq<string>)

  /** `load_rows`: the records, once the header holds every required column. */
  function LoadRows(f: LedgerFile): (r: Result<seq<Row>, SchemaError>)
    ensures r.Success? <==> f.header.Some? && forall c :: c in RequiredColumns ==> c in f.header.value
    ensures r.Success? ==> r.value == f.rows
    ensures r == Failure(NoHeader) <==> f.header.None?
    ensures r.Failure? && r.error.MissingColumns? ==>
      r.error.columns != [] && forall c :: c in r.error.columns <==> c in RequiredColumns && c !in f.header.value
  {
    match f.header
    case None => Failure(NoHeader)
    case Some(header) =>
      var missing := Filter(RequiredColumns, c => c !in header);
      if missing != [] then
        assert missing[0] in missing;
        Failure(MissingColumns(missing))
      else
        assert forall c :: c in RequiredColumns ==> c in header;
        Success(f.rows)
  }

  /** `DONE_STATUSES` and `INACTIVE_STATUSES`. */
  const Done: string := "已回收"
  const Inactive: string := "弃用"

  /** A thread still open: its normalised status is neither done nor inactive. */
  predicate IsOpen(row: Row) {
    var status := NormalizeStatus(Cell(row, "状态"));
    status != Done && status != Inactive
  }

  /** The context document's filter (lines 256-262): open, and planted no
      later than the chapter, an unknown planting chapter counting as planted. */
  predicate IsContextActive(row: Row, chapter: int) {
    IsOpen(row) &&
    match ExtractChapterNum(Cell(row, "首次埋设章节"))
    case None => true
    case Some(first) => first <= chapter
  }

  /** The gate's filter (lines 523-529): open, with a known planned recovery
      chapter no later than the chapter. */
  predicate IsOverdue(row: Row, chapter: int) {
    IsOpen(row) &&
    match ExtractChapterNum(Cell(row, "计划回收章节"))
    case None => false
    case Some(target) => target <= chapter
  }

  /** The active rows, in ledger order. */
  function ContextActiveRows(rows: seq<Row>, chapter: int): seq<Row> {
    Filter(rows, row => IsContextActive(row, chapter))
  }

  /** The overdue rows, in ledger order. */
  function OverdueRowsOf(rows: seq<Row>, chapter: int): seq<Row> {
    Filter(rows, row => IsOverdue(row, chapter))
  }

  /** The loop of `build_context_markdown` over the ledger rows. */
  method ActiveRows(rows: seq<Row>, chapter: int) returns (active: seq<Row>)
    ensures active == ContextActiveRows(rows, chapter)
  {
    active := [];
    for i := 0 to |rows|
      invariant active == ContextActiveRows(rows[..i], chapter)
    {
      var row := rows[i];
      assert rows[..i + 1] == rows[..i] + [row];
      FilterSnoc(rows[..i], row, r => IsContextActive(r, chapter));
      var status := NormalizeStatus(Cell(row, "状态"));
      if status == Done || status == Inactive {
        continue;
      }
      var firstChapter := ExtractChapterNum(Cell(row, "首次埋设章节"));
      if firstChapter.None? || firstChapter.value <= chapter {
        active := active + [row];
      }
    }
    assert rows[..|rows|] == rows;
  }

  /** The loop of `cmd_gate` that collects the overdue rows. */
  method OverdueRows(rows: seq<Row>, chapter: int) returns (overdue: seq<Row>)
    ensures overdue == OverdueRowsOf(rows, chapter)
  {
    overdue := [];
    for i := 0 to |rows|
      invariant overdue == OverdueRowsOf(rows[..i], chapter)
    {
      var row := rows[i];
      assert rows[..i + 1] == rows[..i] + [row];
      FilterSnoc(rows[..i], row, r => IsOverdue(r, chapter));
      var status := NormalizeStatus(Cell(row, "状态"));
      if status == Done || status == Inactive {
        continue;
      }
      var target := ExtractChapterNum(Cell(row, "计划回收章节"));
      if target.Some? && target.value <= chapter {
        overdue := overdue + [row];
      }
    }
    assert rows[..|rows|] == rows;
  }

  /** A thread whose planting chapter names no number is in every chapter's
      context while it stays open. */
  lemma UnknownPlantingAlwaysActive(row: Row, chapter: int)
    requires IsOpen(row)
    requires forall i :: 0 <= i < |Cell(row, "首次埋设章节")| ==> !IsDigit(Cell(row, "首次埋设章节")[i])
    ensures IsContextActive(row, chapter)
  {
    ExtractChapterNumFirstRun(Cell(row, "首次埋设章节"));
  }

  /** A thread without a planned recovery number is never overdue. */
  lemma UnplannedNeverOverdue(row: Row, chapter: int)
    requires forall i :: 0 <= i < |Cell(row, "计划回收章节")| ==> !IsDigit(Cell(row, "计划回收章节")[i])
    ensures !IsOverdue(row, chapter)
  {
    ExtractChapterNumFirstRun(Cell(row, "计划回收章节"));
  }

  /** Once overdue, a thread stays overdue in every later chapter. */
  lemma OverdueStaysOverdue(row: Row, chapter: int, later: int)
    requires IsOverdue(row, chapter) && chapter <= later
    ensures IsOverdue(row, later)
  {
  }

  /** The gate's way of naming an overdue thread: its normalised id, or <空ID>. */
  function DisplayId(row: Row): (id: string)
    ensures id != []
    ensures NormalizeId(Cell(row, "id")) != [] ==> id == NormalizeId(Cell(row, "id"))
    ensures NormalizeId(Cell(row, "id")) == [] ==> id == "<空ID>"
  {
    var id := NormalizeId(Cell(row, "id"));
    if id != [] then id else "<空ID>"
  }

  /** The ids the overdue reminder lists: those of the first ten overdue rows. */
  function OverdueIds(overdue: seq<Row>): (ids: seq<string>)
    ensures |ids| == if |overdue| < 10 then |overdue| else 10
    ensures forall i :: 0 <= i < |ids| ==> ids[i] == DisplayId(overdue[i]) && ids[i] != []
  {
    var shown := if |overdue| < 10 then overdue else overdue[..10];
    seq(|shown|, i requires 0 <= i < |shown| => DisplayId(shown[i]))
  }

  /** The normalised foreshadowing ids `FORESHADOW_ID_RE.findall` finds in a
      draft, in text order. */
  function UsedIdList(text: string): seq<string> {
    var texts := MatchedTexts(text, FindAll(ForeshadowId, text, 0));
    seq(|texts|, i requires 0 <= i < |texts| => NormalizeId(texts[i]))
  }

  /** `known_ids`: the normalised ids of the rows whose raw id is not empty. */
  function KnownIds(rows: seq<Row>): (ids: set<string>)
    ensures forall row :: row in rows && Cell(row, "id") != "" ==> NormalizeId(Cell(row, "id")) in ids
    ensures forall id :: id in ids ==> Trimmed(id) && forall i :: 0 <= i < |id| ==> !('a' <= id[i] <= 'z')
    ensures forall id :: id in ids ==> exists row :: row in rows && Cell(row, "id") != "" && NormalizeId(Cell(row, "id")) == id
  {
    set row | row in rows && Cell(row, "id") != "" :: NormalizeId(Cell(row, "id"))
  }

  /** `unknown_ids`: the ids used but not registered, sorted, each once. */
  function UnknownIds(text: string, rows: seq<Row>): (unknown: seq<string>)
    ensures StrictlySorted(unknown)
    ensures forall id :: id in unknown <==> id in UsedIdList(text) && id !in KnownIds(rows)
  {
    var known := KnownIds(rows);
    SortedUnique(Filter(UsedIdList(text), id => id !in known))
  }

  /** No unknown id exactly when every used id is registered. */
  lemma UnknownIdsEmptyIff(text: string, rows: seq<Row>)
    ensures UnknownIds(text, rows) == [] <==> forall id :: id in UsedIdList(text) ==> id in KnownIds(rows)
  {
    var unknown := UnknownIds(text, rows);
    if unknown != [] {
      assert unknown[0] in unknown;
    }
  }

  /** A used id is `F` and three digits, which normalising leaves unchanged. */
  lemma UsedIdShape(text: string, k: nat)
    requires k < |UsedIdList(text)|
    ensures var id := UsedIdList(text)[k]; |id| == 4 && id[0] == 'F' && AllDigits(id[1..])
  {
    ForeshadowIdShape(text, k);
    IdShapeNormal(MatchedTexts(text, FindAll(ForeshadowId, text, 0))[k]);
  }

  /** `F` and three digits is already normal. */
  lemma IdShapeNormal(t: string)
    requires |t| == 4 && t[0] == 'F' && AllDigits(t[1..])
    ensures NormalizeId(t) == t
  {
    assert Trimmed(t) by { assert !IsSpace(t[0]) && !IsSpace(t[3]); }
    StripTrimmed(t);
    assert Upper(t) == t;
  }

  /** `\b` in Chinese prose: a CJK character is a word character, so an id
      written straight after one is not an id, and one in full-width
      brackets is. */
  lemma WordBoundaryExamples()
    ensures ForeshadowIdAt("埋下F001", 2).None?
    ensures ForeshadowIdAt("（F001）", 1) == Some(Match(1, 5, 1))
  {
    var s := "（F001）";
    assert s[2..5] == "001";
    assert DigitsValue(s[2..5]) == 1 by {
      assert s[2..5][..2] == "00" && "00"[..1] == "0" && "0"[..0] == [];
    }
  }

  /** One ledger with a recovered thread and an unlabelled one: at chapter 6,
      only the unlabelled thread planned for chapter 3 is overdue. */
  lemma OverdueScenario()
    ensures var recovered := map["id" := "F001", "状态" := "已回收", "计划回收章节" := "5"];
      var pending := map["id" := "F002", "状态" := "", "计划回收章节" := "3"];
      OverdueRowsOf([recovered, pending], 6) == [pending]
      && OverdueIds([pending]) == ["F002"]
  {
    var recovered := map["id" := "F001", "状态" := "已回收", "计划回收章节" := "5"];
    var pending := map["id" := "F002", "状态" := "", "计划回收章节" := "3"];
    RecoveredIsClosed(recovered);
    PendingIsOverdue(pending);
    OverdueSecondOnly(recovered, pending, 6);
    PendingDisplayId(pending);
  }

  lemma OverdueSecondOnly(a: Row, b: Row, chapter: int)
    requires !IsOverdue(a, chapter) && IsOverdue(b, chapter)
    ensures OverdueRowsOf([a, b], chapter) == [b]
  {
    FilterSnoc([], a, row => IsOverdue(row, chapter));
    FilterSnoc([a], b, row => IsOverdue(row, chapter));
    assert [a, b] == [a] + [b] && [a] == [] + [a];
  }

  lemma PendingDisplayId(row: Row)
    requires row == map["id" := "F002", "状态" := "", "计划回收章节" := "3"]
    ensures OverdueIds([row]) == ["F002"]
  {
    StripTrimmed("F002");
    assert Upper("F002") == "F002";
  }

  lemma RecoveredIsClosed(row: Row)
    requires row == map["id" := "F001", "状态" := "已回收", "计划回收章节" := "5"]
    ensures !IsOverdue(row, 6)
  {
    StripTrimmed("已回收");
    assert NormalizeStatus(Cell(row, "状态")) == Done;
  }

  lemma PendingIsOverdue(row: Row)
    requires row == map["id" := "F002", "状态" := "", "计划回收章节" := "3"]
    ensures IsOverdue(row, 6)
  {
    StripTrimmed("3");
    assert ExtractChapterNum("3") == Some(3) by {
      assert FirstDigit("3", 0) == 0 && DigitRunEnd("3", 1) == 1 && DigitRunEnd("3", 0) == 1;
      assert "3"[0..1] == "3" && "3"[..0] == [];
    }
    assert Strip("") == [];
    assert NormalizeStatus(Cell(row, "状态")) == Unlabeled;
  }
}
