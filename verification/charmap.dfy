/**
 * `CHAR_MAP` and `strtr`: a one-for-one substitution of full-width digits,
 * full-width punctuation and the line feed by plain ASCII characters, applied
 * to the address, notice and telephone fields of stock records.
 */
module CharMap {
  import opened Text

  /** The two strings `CHAR_MAP` is zipped from: the i-th key maps to the i-th value. */
  const MapKeys: string := "０１２３４５６７８９／：；（）～〜。\n"
  const MapValues: string := "0123456789/:;()~~;;"

  predicate IsKey(c: char) {
    c in MapKeys
  }

  /** The image of one character under `CHAR_MAP`, or the character itself when it is not a key. */
  function MapChar(c: char): char {
    match c
    case '０' => '0'
    case '１' => '1'
    case '２' => '2'
    case '３' => '3'
    case '４' => '4'
    case '５' => '5'
    case '６' => '6'
    case '７' => '7'
    case '８' => '8'
    case '９' => '9'
    case '／' => '/'   // U+FF0F
    case '：' => ':'   // U+FF1A
    case '；' => ';'   // U+FF1B
    case '（' => '('   // U+FF08
    case '）' => ')'   // U+FF09
    case '～' => '~'   // U+FF5E full-width tilde
    case '〜' => '~'   // U+301C wave dash
    case '。' => ';'   // U+3002 ideographic full stop
    case '\n' => ';'
    case _ => c
  }

  /** `MapChar` is exactly the zipped table: keys go to their paired value, all else is fixed. */
  lemma MapCharIsZippedTable()
    ensures |MapKeys| == |MapValues| == 19
    ensures forall i :: 0 <= i < |MapKeys| ==> MapChar(MapKeys[i]) == MapValues[i]
    ensures forall c :: !IsKey(c) ==> MapChar(c) == c
  {
  }

  /** No replacement is itself a key, a non-ASCII character or whitespace. */
  lemma ReplacementsArePlain(c: char)
    ensures !IsKey(MapChar(c))
    ensures IsKey(c) ==> MapChar(c) < 128 as char && !IsSpace(MapChar(c))
  {
    MapCharIsZippedTable();
    KeysAreWide();
    if IsKey(c) {
      var i :| 0 <= i < |MapKeys| && MapKeys[i] == c;
      ValuesAreAscii();
    }
  }

  /** Every replacement is printable ASCII between `(` and `~`. */
  lemma ValuesAreAscii()
    ensures forall i :: 0 <= i < |MapValues| ==> '(' <= MapValues[i] <= '~'
  {
  }

  /** Every key is the line feed or lies at or above U+3000. */
  lemma KeysAreWide()
    ensures forall d :: IsKey(d) ==> d == '\n' || d >= '\U{3000}'
  {
  }

  /** No character of `s` is a key of the table. */
  predicate IsNormal(s: string) {
    forall i :: 0 <= i < |s| ==> !IsKey(s[i])
  }

  /** The `strtr` helper (build.js:75): every character mapped through the table, in place. */
  function Strtr(s: string): (r: string)
    ensures |r| == |s|
    ensures forall i :: 0 <= i < |s| ==> r[i] == MapChar(s[i])
    ensures IsNormal(r)
  {
    var r := seq(|s|, i requires 0 <= i < |s| => MapChar(s[i]));
    assert IsNormal(r) by {
      forall i | 0 <= i < |r| {
        ReplacementsArePlain(s[i]);
      }
    }
    r
  }

  /** A string is left unchanged exactly when it holds no key of the table. */
  lemma StrtrFixesExactlyNormal(s: string)
    ensures Strtr(s) == s <==> IsNormal(s)
  {
    if IsNormal(s) {
      MapCharIsZippedTable();
    }
  }

  lemma StrtrIdempotent(s: string)
    ensures Strtr(Strtr(s)) == Strtr(s)
  {
    StrtrFixesExactlyNormal(Strtr(s));
  }

  /** The substitution works character by character, so it distributes over concatenation. */
  lemma StrtrConcat(a: string, b: string)
    ensures Strtr(a + b) == Strtr(a) + Strtr(b)
  {
    assert forall i :: 0 <= i < |a + b| ==> Strtr(a + b)[i] == (Strtr(a) + Strtr(b))[i];
  }

  /** A trimmed field stays trimmed, and non-empty, after substitution. */
  lemma StrtrKeepsTrimmed(s: string)
    requires IsTrimmed(s)
    ensures IsTrimmed(Strtr(s))
    ensures Strtr(s) == [] <==> s == []
  {
    if s != [] {
      MapCharIsZippedTable();
      ReplacementsArePlain(s[0]);
      ReplacementsArePlain(s[|s| - 1]);
    }
  }

  /** A full-width house number in an address becomes ASCII digits. */
  lemma AddressExample()
    ensures Strtr("台北市１２３號") == "台北市123號"
  {
    var r := Strtr("台北市１２３號");
    assert r[3] == '1' && r[4] == '2' && r[5] == '3';
  }
}
