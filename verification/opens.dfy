/**
 * `fetchOpens`: the clinic opening-hours schema and the loop that applies it
 * to every row of the fixed-service-hours feed.
 */
module Opens {
  import opened Options
  import opened Text
  import opened Fields
  import opened Batch

  /** Source column names, as the feed labels them. */
  const IdColumn: string := "醫事機構代碼"
  const NameColumn: string := "醫事機構名稱"
  const TimeColumn: string := "看診星期"
  const NoticeColumn: string := "看診備註"
  const OpenedColumn: string := "開業狀況"

  /** One validated row; the `opened` status is validated but never kept. */
  datatype OpenRecord = OpenRecord(id: string, name: string, time: string, notice: string)

  /** The weekly grid: 3 periods by 7 days, one `0` or `1` per slot (`/^[01]{21}$/`). */
  const GridLength: nat := 21

  predicate IsGrid(s: string) {
    |s| == GridLength && forall i :: 0 <= i < |s| ==> s[i] == '0' || s[i] == '1'
  }

  /** The two replacements applied before the pattern: `N` to `1`, then `Y` to `0`. */
  function ScheduleLetters(s: string): string {
    ReplaceAll(ReplaceAll(s, 'N', '1'), 'Y', '0')
  }

  /**
   * The schedule rule (build.js:31): letters replaced, then a 21-slot pattern, empty text defaulting to empty.
   * Only text that is empty after the replacements takes the default; it is not trimmed.
   */
  function Schedule(v: Option<string>): (r: Option<string>)
    ensures r.Some? <==> v.None? || v.value == "" || IsGrid(ScheduleLetters(v.value))
    ensures r.Some? ==> r.value == "" || IsGrid(r.value)
    ensures r.Some? ==> r.value == (if v.None? then "" else ScheduleLetters(v.value))
  {
    if v.None? then Some("")
    else
      var t := ScheduleLetters(v.value);
      if t == "" then Some("")
      else if IsGrid(t) then Some(t)
      else None
  }

  /** The status filter (build.js:33): absent, or `0` after trimming; never kept in the record. */
  predicate OpenedAllowed(v: Option<string>) {
    v.None? || Trim(v.value) == "0"
  }

  /** The status passes when it is absent or a single `0` with only whitespace around it. */
  lemma OpenedStatus(t: string)
    ensures OpenedAllowed(Some(t)) <==>
      exists i :: 0 <= i < |t| && t[i] == '0' && AllSpace(t[..i]) && AllSpace(t[i + 1..])
  {
    if Trim(t) == "0" {
      ZeroHasSpaceAround(t);
    }
    if i :| 0 <= i < |t| && t[i] == '0' && AllSpace(t[..i]) && AllSpace(t[i + 1..]) {
      SpaceAroundIsZero(t, i);
    }
  }

  /** A status trimming to `0` is a `0` between two whitespace runs. */
  lemma ZeroHasSpaceAround(t: string)
    requires Trim(t) == "0"
    ensures exists i :: 0 <= i < |t| && t[i] == '0' && AllSpace(t[..i]) && AllSpace(t[i + 1..])
  {
    var a, b :| 0 <= a <= b <= |t| && Trim(t) == t[a..b] && AllSpace(t[..a]) && AllSpace(t[b..]);
    assert t[a] == '0' && b == a + 1;
  }

  /** A `0` between two whitespace runs trims to `0`. */
  lemma SpaceAroundIsZero(t: string, i: int)
    requires 0 <= i < |t| && t[i] == '0' && AllSpace(t[..i]) && AllSpace(t[i + 1..])
    ensures Trim(t) == "0"
  {
    TrimKeepsNonSpace(t, i);
    var r := Trim(t);
    var a, b :| 0 <= a <= b <= |t| && r == t[a..b] && AllSpace(t[..a]) && AllSpace(t[b..]);
    OnlyNonSpace(t, r, a, b, i);
  }

  /** What every accepted record looks like. */
  predicate ValidOpen(rec: OpenRecord) {
    && IsId(rec.id)
    && rec.name != "" && IsTrimmed(rec.name)
    && (rec.time == "" || IsGrid(rec.time))
    && IsNotice(rec.notice)
  }

  /** The `fetchOpens` schema applied to one raw row. */
  function ValidateOpen(row: Row): (r: Option<OpenRecord>)
    ensures r.Some? <==>
      && IdColumn in row && IsId(row[IdColumn])
      && NameColumn in row && !AllSpace(row[NameColumn])
      && (TimeColumn !in row || row[TimeColumn] == "" || IsGrid(ScheduleLetters(row[TimeColumn])))
      && (OpenedColumn !in row || Trim(row[OpenedColumn]) == "0")
    ensures r.Some? ==> ValidOpen(r.value)
    ensures r.Some? ==>
      && r.value.id == row[IdColumn]
      && r.value.name == Trim(row[NameColumn])
      && r.value.time == (if TimeColumn in row then ScheduleLetters(row[TimeColumn]) else "")
      && r.value.notice == NoticeText(Cell(row, NoticeColumn))
  {
    var id := AlphanumId(Cell(row, IdColumn));
    var name := RequiredText(Cell(row, NameColumn));
    var time := Schedule(Cell(row, TimeColumn));
    var notice := NoticeText(Cell(row, NoticeColumn));
    if id.Some? && name.Some? && time.Some? && OpenedAllowed(Cell(row, OpenedColumn))
    then Some(OpenRecord(id.value, name.value, time.value, notice))
    else None
  }

  /** A schedule is accepted exactly when it is 21 characters drawn from `0`, `1`, `N` and `Y`. */
  lemma ScheduleAlphabet(t: string)
    ensures IsGrid(ScheduleLetters(t)) <==>
      |t| == GridLength && forall i :: 0 <= i < |t| ==> t[i] in "01NY"
  {
    var g := ScheduleLetters(t);
    if IsGrid(g) {
      forall i | 0 <= i < |t| ensures t[i] in "01NY" {
        assert g[i] == '0' || g[i] == '1';
      }
    }
  }

  /** Twenty `N`s and a `Y` read as twenty open slots and one closed slot. */
  lemma ScheduleExample()
    ensures Schedule(Some("NNNNNNNNNNNNNNNNNNNNY")) == Some("111111111111111111110")
  {
    var g := ScheduleLetters("NNNNNNNNNNNNNNNNNNNNY");
    assert g == "111111111111111111110";
  }

  /** The row an accepted record would be read back from, under the source column names. */
  function OpenRow(rec: OpenRecord): Row {
    map[IdColumn := rec.id, NameColumn := rec.name, TimeColumn := rec.time, NoticeColumn := rec.notice]
  }

  /**
   * Validation is a normal form: every valid record, presented again as a
   * row, is accepted unchanged. With `ValidateOpen`'s own contract this says
   * the accepted records are exactly the `ValidOpen` ones.
   */
  lemma RevalidateOpen(rec: OpenRecord)
    requires ValidOpen(rec)
    ensures ValidateOpen(OpenRow(rec)) == Some(rec)
  {
    var row := OpenRow(rec);
    assert row[IdColumn] == rec.id && row[NameColumn] == rec.name;
    assert row[TimeColumn] == rec.time && row[NoticeColumn] == rec.notice;
    assert OpenedColumn !in row;
    if rec.time != "" {
      assert ScheduleLetters(rec.time) == rec.time;
    }
    if rec.name != "" {
      assert !AllSpace(rec.name) by {
        assert !IsSpace(rec.name[0]);
      }
    }
  }

  /**
   * `opened` is a filter and nothing more (`strip()`), and columns outside
   * the schema are ignored (`stripUnknown`): once the status passes, the
   * result is the one for the row without it or with any extra column.
   */
  lemma OpenedOnlyFilters(row: Row)
    requires OpenedAllowed(Cell(row, OpenedColumn))
    ensures ValidateOpen(row) == ValidateOpen(row - {OpenedColumn})
  {
    ColumnsDistinct();
    var rest := row - {OpenedColumn};
    assert Cell(rest, OpenedColumn) == None;
    assert Cell(rest, IdColumn) == Cell(row, IdColumn) && Cell(rest, NameColumn) == Cell(row, NameColumn);
    assert Cell(rest, TimeColumn) == Cell(row, TimeColumn) && Cell(rest, NoticeColumn) == Cell(row, NoticeColumn);
    SameCellsSameRecord(row, rest);
  }

  lemma IgnoresOtherColumns(row: Row, column: string, text: string)
    requires column != IdColumn && column != NameColumn && column != TimeColumn
    requires column != NoticeColumn && column != OpenedColumn
    ensures ValidateOpen(row[column := text]) == ValidateOpen(row)
  {
    SameCellsSameRecord(row, row[column := text]);
  }

  /** The schema reads the five declared cells and nothing else. */
  lemma SameCellsSameRecord(a: Row, b: Row)
    requires Cell(a, IdColumn) == Cell(b, IdColumn) && Cell(a, NameColumn) == Cell(b, NameColumn)
    requires Cell(a, TimeColumn) == Cell(b, TimeColumn) && Cell(a, NoticeColumn) == Cell(b, NoticeColumn)
    requires OpenedAllowed(Cell(a, OpenedColumn)) == OpenedAllowed(Cell(b, OpenedColumn))
    ensures ValidateOpen(a) == ValidateOpen(b)
  {
  }

  lemma ColumnsDistinct()
    ensures OpenedColumn != IdColumn && OpenedColumn != NameColumn
    ensures OpenedColumn != TimeColumn && OpenedColumn != NoticeColumn
  {
    assert OpenedColumn[0] != IdColumn[0] && OpenedColumn[0] != NameColumn[0];
    assert OpenedColumn[0] != TimeColumn[0] && OpenedColumn[0] != NoticeColumn[0];
  }

  /** A validator value for the batch loop. */
  function OpenValidator(): Row -> Option<OpenRecord> {
    row => ValidateOpen(row)
  }

  /**
   * `fetchOpens` after the download: validate every row, keep the accepted
   * records in order, count the rest.
   */
  method FetchOpens(rows: seq<Row>) returns (opens: seq<OpenRecord>, errCnt: nat)
    ensures opens == FilterMap(OpenValidator(), rows)
    ensures |opens| + errCnt == |rows|
    ensures errCnt == Rejected(OpenValidator(), rows)
    ensures forall j :: 0 <= j < |opens| ==> ValidOpen(opens[j])
  {
    opens, errCnt := RunBatch(OpenValidator(), rows);
    FilterMapImages(OpenValidator(), rows);
  }
}
