/**
 * Character classes and string helpers shared by both schemas: the
 * ECMAScript `String.prototype.trim` whitespace set, trimming itself,
 * the `alphanum` character class and single-character replacement.
 */
module Text {

  /** ECMAScript WhiteSpace and LineTerminator code points, the set `trim` removes. */
  predicate IsSpace(c: char) {
    || c == '\t' || c == '\n' || c == '\U{000B}' || c == '\U{000C}' || c == '\r'
    || c == ' ' || c == '\U{00A0}' || c == '\U{1680}'
    || ('\U{2000}' <= c <= '\U{200A}')
    || c == '\U{2028}' || c == '\U{2029}' || c == '\U{202F}' || c == '\U{205F}'
    || c == '\U{3000}' || c == '\U{FEFF}'
  }

  predicate AllSpace(s: string) {
    forall i :: 0 <= i < |s| ==> IsSpace(s[i])
  }

  /** Neither end of `s` is whitespace. */
  predicate IsTrimmed(s: string) {
    s == [] || (!IsSpace(s[0]) && !IsSpace(s[|s| - 1]))
  }

  /** Drops leading whitespace: the result is the suffix of `s` after its whitespace prefix. */
  function TrimStart(s: string): (r: string)
    ensures |r| <= |s| && r == s[|s| - |r|..]
    ensures r == [] || !IsSpace(r[0])
    ensures forall i :: 0 <= i < |s| - |r| ==> IsSpace(s[i])
  {
    if |s| > 0 && IsSpace(s[0]) then TrimStart(s[1..]) else s
  }

  /** Drops trailing whitespace: the result is the prefix of `s` before its whitespace suffix. */
  function TrimEnd(s: string): (r: string)
    ensures |r| <= |s| && r == s[..|r|]
    ensures r == [] || !IsSpace(r[|r| - 1])
    ensures forall i :: |r| <= i < |s| ==> IsSpace(s[i])
  {
    if |s| > 0 && IsSpace(s[|s| - 1]) then TrimEnd(s[..|s| - 1]) else s
  }

  /** `String.prototype.trim`, as Joi's `.trim()` applies it during conversion. */
  function Trim(s: string): (r: string)
    ensures IsTrimmed(r)
    ensures |r| <= |s|
    ensures IsTrimmed(s) ==> r == s
    ensures r == [] <==> AllSpace(s)
    ensures exists a, b :: 0 <= a <= b <= |s| && r == s[a..b] && AllSpace(s[..a]) && AllSpace(s[b..])
  {
    var t := TrimStart(s);
    var r := TrimEnd(t);
    TrimSlice(s, t, r);
    r
  }

  /** `t` cuts whitespace off the front of `s` and `r` off the back of `t`: `r` is a slice of `s` between whitespace. */
  lemma TrimSlice(s: string, t: string, r: string)
    requires |t| <= |s| && t == s[|s| - |t|..] && forall i :: 0 <= i < |s| - |t| ==> IsSpace(s[i])
    requires |r| <= |t| && r == t[..|r|] && forall i :: |r| <= i < |t| ==> IsSpace(t[i])
    ensures exists a, b :: 0 <= a <= b <= |s| && r == s[a..b] && AllSpace(s[..a]) && AllSpace(s[b..])
  {
    var a := |s| - |t|;
    var b := a + |r|;
    var head, tail := s[..a], s[b..];
    assert AllSpace(head) by {
      forall i | 0 <= i < |head| ensures IsSpace(head[i]) {
        assert head[i] == s[i];
      }
    }
    assert AllSpace(tail) by {
      forall i | 0 <= i < |tail| ensures IsSpace(tail[i]) {
        assert tail[i] == t[|r| + i];
      }
    }
    assert r == s[a..b];
  }

  /** Trimming text that holds a non-whitespace character leaves something. */
  lemma TrimKeepsNonSpace(t: string, i: int)
    requires 0 <= i < |t| && !IsSpace(t[i])
    ensures Trim(t) != []
  {
  }

  /**
   * When `t[i]` is the one character of `t` that is not whitespace, any
   * non-empty trimmed slice `t[a..b]` between whitespace is exactly that
   * character.
   */
  lemma OnlyNonSpace(t: string, r: string, a: int, b: int, i: int)
    requires 0 <= a <= b <= |t| && 0 <= i < |t|
    requires r == t[a..b] && r != [] && IsTrimmed(r)
    requires AllSpace(t[..a]) && AllSpace(t[b..])
    requires !IsSpace(t[i]) && AllSpace(t[..i]) && AllSpace(t[i + 1..])
    ensures a == i && b == i + 1 && r == [t[i]]
  {
    assert r[0] == t[a] && r[|r| - 1] == t[b - 1];
    assert forall j :: 0 <= j < a ==> IsSpace(t[j]) by {
      forall j | 0 <= j < a ensures IsSpace(t[j]) {
        assert t[..a][j] == t[j];
      }
    }
    assert forall j :: 0 <= j < i ==> IsSpace(t[j]) by {
      forall j | 0 <= j < i ensures IsSpace(t[j]) {
        assert t[..i][j] == t[j];
      }
    }
    assert forall j :: b <= j < |t| ==> IsSpace(t[j]) by {
      forall j | b <= j < |t| ensures IsSpace(t[j]) {
        assert t[b..][j - b] == t[j];
      }
    }
    assert forall j :: i < j < |t| ==> IsSpace(t[j]) by {
      forall j | i < j < |t| ensures IsSpace(t[j]) {
        assert t[i + 1..][j - (i + 1)] == t[j];
      }
    }
  }

  /** The class of Joi's `alphanum()` rule, `/^[a-zA-Z0-9]+$/`. */
  predicate IsAsciiAlnum(c: char) {
    ('a' <= c <= 'z') || ('A' <= c <= 'Z') || ('0' <= c <= '9')
  }

  /** Replaces every occurrence of the character `a` with `b` (a global `String.replace`). */
  function ReplaceAll(s: string, a: char, b: char): (r: string)
    ensures |r| == |s|
    ensures forall i :: 0 <= i < |s| ==> r[i] == (if s[i] == a then b else s[i])
    ensures a != b ==> a !in r
  {
    seq(|s|, i requires 0 <= i < |s| => if s[i] == a then b else s[i])
  }
}
