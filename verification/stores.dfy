/**
 * `fetchNhiStores`: the rapid-test-kit stock schema, the source timestamp
 * check that precedes it, the `strtr` pass over the free-text fields, and
 * the loop over the live stock feed.
 */
module Stores {
  import opened Options
  import opened Text
  import opened Numbers
  import opened CharMap
  import opened Fields
  import opened Batch

  /** Source column names, as the live stock feed labels them. */
  const AddrColumn: string := "醫事機構地址"
  const AmountColumn: string := "快篩試劑截至目前結餘存貨數量"
  const IdColumn: string := "醫事機構代碼"
  const LatColumn: string := "緯度"
  const LngColumn: string := "經度"
  const NameColumn: string := "醫事機構名稱"
  const NoticeColumn: string := "備註"
  const TelColumn: string := "醫事機構電話"
  const TestkitColumn: string := "廠牌項目"
  const SourceTimeColumn: string := "來源資料時間"

  /** One stock record; `updatedAt` is in Unix seconds. */
  datatype Store = Store(
    addr: string, amount: int, id: string, lat: real, lng: real,
    name: string, notice: string, tel: string, testkit: string, updatedAt: int)

  /** The coordinate windows of the covered territory. */
  const LatMin: real := 21.0
  const LatMax: real := 28.0
  const LngMin: real := 117.0
  const LngMax: real := 123.0

  /** The number a cell reads as: Joi converts the trimmed text. */
  function Number(s: string): Option<real> {
    ParseDecimal(Trim(s))
  }

  /** The integer and minimum rules on a converted number: a safe integer that is not negative. */
  predicate IsCount(x: real) {
    x.Floor as real == x && 0.0 <= x <= MaxSafeInteger as real
  }

  predicate CountText(s: string) {
    Number(s).Some? && IsCount(Number(s).value)
  }

  predicate WindowText(s: string, lo: real, hi: real) {
    Number(s).Some? && lo <= Number(s).value <= hi
  }

  /** The required stock count rule (build.js:64): a whole number, not negative. */
  function Amount(v: Option<string>): (r: Option<int>)
    ensures r.Some? <==> v.Some? && CountText(v.value)
    ensures r.Some? ==> 0 <= r.value <= MaxSafeInteger && r.value as real == Number(v.value).value
  {
    if v.None? then None
    else match Number(v.value)
      case Some(x) => if IsCount(x) then Some(x.Floor) else None
      case None => None
  }

  /**
   * The required coordinate rule (build.js:66-67): a number inside `[lo, hi]`, with `0` declared empty. The text `0` is
   * converted to the number 0 before `empty('0')` is consulted, so it is the
   * range that turns it away.
   */
  function Coordinate(v: Option<string>, lo: real, hi: real): (r: Option<real>)
    ensures r.Some? <==> v.Some? && WindowText(v.value, lo, hi)
    ensures r.Some? ==> lo <= r.value <= hi && r.value == Number(v.value).value
  {
    if v.None? then None
    else match Number(v.value)
      case Some(x) => if lo <= x <= hi then Some(x) else None
      case None => None
  }

  /** A cell holding text other than whitespace, as the required trimmed text rule demands. */
  predicate HasText(row: Row, column: string) {
    column in row && !AllSpace(row[column])
  }

  /**
   * The text handed to the date parser: the cell, or `undefined` when the
   * cell is missing (a template literal), followed by the `+0800` offset.
   */
  function TimeText(row: Row): string {
    Cell(row, SourceTimeColumn).GetOr("undefined") + "+0800"
  }

  /** The Joi schema proper, given the already-parsed timestamp. */
  function StoreSchema(row: Row, updatedAt: int): (r: Option<Store>)
    ensures r.Some? <==>
      && HasText(row, AddrColumn) && HasText(row, NameColumn)
      && HasText(row, TelColumn) && HasText(row, TestkitColumn)
      && IdColumn in row && IsId(row[IdColumn])
      && AmountColumn in row && CountText(row[AmountColumn])
      && LatColumn in row && WindowText(row[LatColumn], LatMin, LatMax)
      && LngColumn in row && WindowText(row[LngColumn], LngMin, LngMax)
    ensures r.Some? ==>
      && r.value.id == row[IdColumn]
      && r.value.name == Trim(row[NameColumn]) && r.value.testkit == Trim(row[TestkitColumn])
      && r.value.addr == Trim(row[AddrColumn]) && r.value.tel == Trim(row[TelColumn])
      && r.value.notice == NoticeText(Cell(row, NoticeColumn))
      && r.value.amount as real == Number(row[AmountColumn]).value
      && r.value.lat == Number(row[LatColumn]).value
      && r.value.lng == Number(row[LngColumn]).value
      && r.value.updatedAt == updatedAt
  {
    var addr := RequiredText(Cell(row, AddrColumn));
    var amount := Amount(Cell(row, AmountColumn));
    var id := AlphanumId(Cell(row, IdColumn));
    var lat := Coordinate(Cell(row, LatColumn), LatMin, LatMax);
    var lng := Coordinate(Cell(row, LngColumn), LngMin, LngMax);
    var name := RequiredText(Cell(row, NameColumn));
    var notice := NoticeText(Cell(row, NoticeColumn));
    var tel := RequiredText(Cell(row, TelColumn));
    var testkit := RequiredText(Cell(row, TestkitColumn));
    if addr.Some? && amount.Some? && id.Some? && lat.Some? && lng.Some?
       && name.Some? && tel.Some? && testkit.Some?
    then Some(Store(addr.value, amount.value, id.value, lat.value, lng.value,
                    name.value, notice, tel.value, testkit.value, updatedAt))
    else None
  }

  /** `strtr` over `addr`, `notice` and `tel`; every other field is left as it is. */
  function Normalize(s: Store): (r: Store)
    ensures r.(addr := s.addr, notice := s.notice, tel := s.tel) == s
    ensures IsNormal(r.addr) && IsNormal(r.notice) && IsNormal(r.tel)
    ensures |r.addr| == |s.addr| && |r.notice| == |s.notice| && |r.tel| == |s.tel|
  {
    s.(addr := Strtr(s.addr), notice := Strtr(s.notice), tel := Strtr(s.tel))
  }

  lemma NormalizeIdempotent(s: Store)
    ensures Normalize(Normalize(s)) == Normalize(s)
  {
    StrtrIdempotent(s.addr);
    StrtrIdempotent(s.notice);
    StrtrIdempotent(s.tel);
  }

  /** What every record the live feed yields looks like. */
  predicate ValidStore(s: Store) {
    && IsId(s.id)
    && s.name != "" && IsTrimmed(s.name)
    && s.testkit != "" && IsTrimmed(s.testkit)
    && s.addr != "" && IsTrimmed(s.addr) && IsNormal(s.addr)
    && s.tel != "" && IsTrimmed(s.tel) && IsNormal(s.tel)
    && IsTrimmed(s.notice) && IsNormal(s.notice)
    && 0 <= s.amount <= MaxSafeInteger
    && LatMin <= s.lat <= LatMax
    && LngMin <= s.lng <= LngMax
  }

  /**
   * One iteration of the `fetchNhiStores` loop body: the timestamp must
   * parse, the schema must accept, and the free-text fields are then
   * normalised. `parseTime` stands for the date library.
   */
  function ValidateStore(row: Row, parseTime: string -> Option<int>): (r: Option<Store>)
    ensures r.Some? <==>
      && parseTime(TimeText(row)).Some?
      && HasText(row, AddrColumn) && HasText(row, NameColumn)
      && HasText(row, TelColumn) && HasText(row, TestkitColumn)
      && IdColumn in row && IsId(row[IdColumn])
      && AmountColumn in row && CountText(row[AmountColumn])
      && LatColumn in row && WindowText(row[LatColumn], LatMin, LatMax)
      && LngColumn in row && WindowText(row[LngColumn], LngMin, LngMax)
    ensures r.Some? ==> ValidStore(r.value)
    ensures r.Some? ==>
      && r.value.id == row[IdColumn]
      && r.value.name == Trim(row[NameColumn])
      && r.value.testkit == Trim(row[TestkitColumn])
      && r.value.addr == Strtr(Trim(row[AddrColumn]))
      && r.value.tel == Strtr(Trim(row[TelColumn]))
      && r.value.notice == Strtr(NoticeText(Cell(row, NoticeColumn)))
      && r.value.amount as real == Number(row[AmountColumn]).value
      && r.value.lat == Number(row[LatColumn]).value
      && r.value.lng == Number(row[LngColumn]).value
      && r.value.updatedAt == parseTime(TimeText(row)).value
  {
    match parseTime(TimeText(row))
    case None => None
    case Some(t) =>
      match StoreSchema(row, t)
      case None => None
      case Some(s) =>
        var n := Normalize(s);
        StrtrKeepsTrimmed(s.addr);
        StrtrKeepsTrimmed(s.tel);
        StrtrKeepsTrimmed(s.notice);
        Some(n)
  }

  /** A coordinate that reads as zero is out of both windows, so the row is dropped. */
  lemma ZeroCoordinateRejected(row: Row, parseTime: string -> Option<int>)
    requires Cell(row, LatColumn) == Some("0") || Cell(row, LngColumn) == Some("0")
    ensures ValidateStore(row, parseTime) == None
  {
    NumberOfZero();
    assert !WindowText("0", LatMin, LatMax) && !WindowText("0", LngMin, LngMax);
  }

  lemma NumberOfZero()
    ensures Number("0") == Some(0.0)
  {
    ParseDecimalText(0);
    assert DecimalText(0) == "0";
    assert IsTrimmed("0");
  }

  /** The amount cell holding the decimal text of `n` is accepted exactly up to 2^53 - 1. */
  lemma AmountOfDecimalText(n: nat)
    ensures Amount(Some(DecimalText(n))) == (if n <= MaxSafeInteger then Some(n) else None)
  {
    NumberOfDecimalText(n);
    assert (n as real).Floor == n;
  }

  lemma NumberOfDecimalText(n: nat)
    ensures Number(DecimalText(n)) == Some(n as real)
  {
    ParseDecimalText(n);
    DigitsTrimmed(DecimalText(n));
  }

  lemma DigitsTrimmed(t: string)
    requires |t| > 0 && AllDigits(t)
    ensures IsTrimmed(t) && Trim(t) == t
  {
    assert IsDigit(t[0]) && IsDigit(t[|t| - 1]);
  }

  /** A negative amount is rejected, not clamped to zero. */
  lemma NegativeAmountRejected(n: nat)
    requires n > 0
    ensures Amount(Some("-" + DecimalText(n))) == None
  {
    ParseDecimalText(n);
    var t := DecimalText(n);
    var u := "-" + t;
    assert IsTrimmed(u) by {
      assert u[|u| - 1] == t[|t| - 1];
      assert IsDigit(t[|t| - 1]);
    }
    assert Number(u) == Some(-(n as real));
  }

  function StoreValidator(parseTime: string -> Option<int>): Row -> Option<Store> {
    row => ValidateStore(row, parseTime)
  }

  /**
   * `fetchNhiStores` after the download: every row either yields one
   * normalised record, in input order, or is counted.
   */
  method FetchNhiStores(rows: seq<Row>, parseTime: string -> Option<int>)
    returns (stores: seq<Store>, errCnt: nat)
    ensures stores == FilterMap(StoreValidator(parseTime), rows)
    ensures |stores| + errCnt == |rows|
    ensures errCnt == Rejected(StoreValidator(parseTime), rows)
    ensures forall j :: 0 <= j < |stores| ==> ValidStore(stores[j])
  {
    stores, errCnt := RunBatch(StoreValidator(parseTime), rows);
    FilterMapImages(StoreValidator(parseTime), rows);
  }
}
