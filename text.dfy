/**
  The JavaScript string built-ins the recipe logic relies on:
  `String.prototype.trim`, `toLowerCase` and `includes`.
 */
module Text {

  /** The code points `trim` removes: ECMAScript WhiteSpace and LineTerminator. */
  predicate IsJsSpace(c: char) {
    || c == '\t' || c == '\n' || c == '\U{B}' || c == '\U{C}' || c == '\r' || c == ' '
    || c == '\U{A0}' || c == '\U{1680}' || ('\U{2000}' <= c <= '\U{200A}')
    || c == '\U{2028}' || c == '\U{2029}' || c == '\U{202F}' || c == '\U{205F}'
    || c == '\U{3000}' || c == '\U{FEFF}'
  }

  /** Every character of `s` is whitespace (the empty string included). */
  ghost predicate IsBlank(s: string) {
    forall i | 0 <= i < |s| :: IsJsSpace(s[i])
  }

  /** `s` with its leading whitespace removed. */
  function TrimStart(s: string): (r: string)
    ensures |r| <= |s| && r == s[|s| - |r|..]
    ensures r == [] || !IsJsSpace(r[0])
    ensures IsBlank(s[..|s| - |r|])
  {
    if s != [] && IsJsSpace(s[0]) then TrimStart(s[1..]) else s
  }

  /** `s` with its trailing whitespace removed. */
  function TrimEnd(s: string): (r: string)
    ensures |r| <= |s| && r == s[..|r|]
    ensures r == [] || !IsJsSpace(r[|r| - 1])
    ensures IsBlank(s[|r|..])
  {
    if s != [] && IsJsSpace(s[|s| - 1]) then TrimEnd(s[..|s| - 1]) else s
  }

  /** `s.trim()`: `s` without its leading and its trailing whitespace. */
  function Trim(s: string): (r: string)
    ensures |r| <= |s|
    ensures r == [] || (!IsJsSpace(r[0]) && !IsJsSpace(r[|r| - 1]))
    ensures exists a, b | 0 <= a <= b <= |s| :: r == s[a..b] && IsBlank(s[..a]) && IsBlank(s[b..])
  {
    var t := TrimStart(s);
    var r := TrimEnd(t);
    var a, b := |s| - |t|, |s| - |t| + |r|;
    assert r == s[a..b];
    assert s[b..] == t[|r|..];
    r
  }

  /** A string trims to nothing exactly when it is all whitespace: `!s.trim()` in the source. */
  lemma TrimEmptyIffBlank(s: string)
    ensures Trim(s) == [] <==> IsBlank(s)
  {
  }

  /**
    `toLowerCase` on one character. Only the upper-case letters a recipe name or unit
    can plausibly contain are mapped: ASCII, Latin-1 and the ligature Œ.
   */
  function LowerChar(c: char): (r: char)
    ensures r == c || ('A' <= c <= 'Z') || ('\U{C0}' <= c <= '\U{DE}') || c == '\U{152}'
  {
    if 'A' <= c <= 'Z' then (c as int + 32) as char
    else if '\U{C0}' <= c <= '\U{DE}' && c != '\U{D7}' then (c as int + 32) as char
    else if c == '\U{152}' then '\U{153}'
    else c
  }

  /** `s.toLowerCase()`, character by character. */
  function Lower(s: string): (r: string)
    ensures |r| == |s|
    ensures forall i | 0 <= i < |s| :: r[i] == LowerChar(s[i])
  {
    if s == [] then [] else [LowerChar(s[0])] + Lower(s[1..])
  }

  /** `t` occurs in `s` starting at index `i`. */
  ghost predicate OccursAt(s: string, t: string, i: int) {
    0 <= i && i + |t| <= |s| && s[i..i + |t|] == t
  }

  /** `s.includes(t)`: `t` occurs somewhere in `s` (the empty string occurs everywhere). */
  function Includes(s: string, t: string): (b: bool)
    ensures b <==> exists i :: OccursAt(s, t, i)
  {
    if |t| <= |s| && s[..|t|] == t then
      assert OccursAt(s, t, 0);
      true
    else if s == [] then
      false
    else
      var b := Includes(s[1..], t);
      if b then
        assert exists i :: OccursAt(s, t, i) by {
          var i :| OccursAt(s[1..], t, i);
          assert 0 <= i && i + |t| <= |s| - 1 && s[1..][i..i + |t|] == t;
          forall k | 0 <= k < |t| ensures s[i + 1 + k] == t[k] {
            assert t[k] == s[1..][i + k];
          }
          assert s[i + 1..i + 1 + |t|] == t;
          assert OccursAt(s, t, i + 1);
        }
        b
      else
        assert forall i | OccursAt(s, t, i) :: OccursAt(s[1..], t, i - 1) by {
          forall i | OccursAt(s, t, i) ensures OccursAt(s[1..], t, i - 1) {
            assert i != 0;
            assert s[1..][i - 1..i - 1 + |t|] == s[i..i + |t|];
          }
        }
        b
  }
}
