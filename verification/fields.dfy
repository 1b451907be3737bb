/**
 * Raw CSV rows and the per-field Joi rules both schemas are built from.
 * A row maps column names to cell text; a missing key is an absent cell
 * (`undefined` on the JavaScript side).
 */
module Fields {
  import opened Options
  import opened Text

  type Row = map<string, string>

  function Cell(row: Row, column: string): (r: Option<string>)
    ensures r.Some? <==> column in row
    ensures r.Some? ==> r.value == row[column]
  {
    if column in row then Some(row[column]) else None
  }

  /** A non-empty run of ASCII letters and digits. */
  predicate IsId(s: string) {
    |s| > 0 && forall i :: 0 <= i < |s| ==> IsAsciiAlnum(s[i])
  }

  /** A notice as the schemas leave it: empty, or trimmed text other than the placeholder `-`. */
  predicate IsNotice(s: string) {
    s == "" || (IsTrimmed(s) && s != "-")
  }

  /**
   * The required alphanumeric id rule (build.js:29): no trimming; an absent cell fails
   * `required`, an empty one fails `string.empty`, anything else must be
   * alphanumeric.
   */
  function AlphanumId(v: Option<string>): (r: Option<string>)
    ensures r.Some? <==> v.Some? && IsId(v.value)
    ensures r.Some? ==> r.value == v.value
  {
    if v.Some? && v.value != "" && forall i :: 0 <= i < |v.value| ==> IsAsciiAlnum(v.value[i])
    then v else None
  }

  /**
   * The required trimmed text rule (build.js:30): the cell is trimmed first; absent or
   * all-whitespace text is rejected.
   */
  function RequiredText(v: Option<string>): (r: Option<string>)
    ensures r.Some? <==> v.Some? && !AllSpace(v.value)
    ensures r.Some? ==> r.value == Trim(v.value) && r.value != [] && IsTrimmed(r.value)
  {
    if v.None? then None
    else
      var t := Trim(v.value);
      if t == "" then None else Some(t)
  }

  /**
   * The optional notice rule (build.js:32), whose placeholder reads as empty: never
   * rejects; the placeholders `-` and empty text (after trimming) and an
   * absent cell all become the empty default.
   */
  function NoticeText(v: Option<string>): (r: string)
    ensures IsNotice(r)
    ensures r == "" <==> v.None? || Trim(v.value) == "" || Trim(v.value) == "-"
    ensures r != "" ==> r == Trim(v.value)
  {
    if v.None? then ""
    else
      var t := Trim(v.value);
      if t == "-" || t == "" then "" else t
  }
}
