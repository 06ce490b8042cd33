/**
 The part of JavaScript's `String.prototype.trim` the session page relies on:
 it strips white space and line terminators (as ECMAScript defines them) from
 both ends of a string.
 */
module JsText {

  /** ECMAScript WhiteSpace (TAB, VT, FF, ZWNBSP and every Unicode Zs code point)
      and LineTerminator (LF, CR, LS, PS). */
  predicate IsWhitespace(c: char) {
    || c == '\t' || c == '\U{B}' || c == '\U{C}' || c == '\U{FEFF}'
    || c == ' ' || c == '\U{A0}' || c == '\U{1680}' || ('\U{2000}' <= c <= '\U{200A}')
    || c == '\U{202F}' || c == '\U{205F}' || c == '\U{3000}'
    || c == '\n' || c == '\r' || c == '\U{2028}' || c == '\U{2029}'
  }

  /** Every character of `s` is white space (vacuously so for ""). */
  predicate AllWhitespace(s: string) {
    forall i :: 0 <= i < |s| ==> IsWhitespace(s[i])
  }

  /** Drops leading white space. */
  function TrimStart(s: string): string {
    if s != [] && IsWhitespace(s[0]) then TrimStart(s[1..]) else s
  }

  /** Drops trailing white space. */
  function TrimEnd(s: string): string {
    if s != [] && IsWhitespace(s[|s| - 1]) then TrimEnd(s[..|s| - 1]) else s
  }

  /** `TrimStart` keeps a suffix that is empty or starts with a visible
      character, and everything it drops is white space. */
  lemma {:induction false} TrimStartDropsWhitespace(s: string)
    ensures var r := TrimStart(s);
            |r| <= |s| && r == s[|s| - |r|..] && AllWhitespace(s[..|s| - |r|])
            && (r != [] ==> !IsWhitespace(r[0]))
  {
    if s != [] && IsWhitespace(s[0]) {
      TrimStartDropsWhitespace(s[1..]);
      var r := TrimStart(s);
      assert s[..|s| - |r|] == [s[0]] + s[1..][..|s| - 1 - |r|];
    }
  }

  /** `TrimEnd` keeps a prefix that is empty or ends with a visible character,
      and everything it drops is white space. */
  lemma {:induction false} TrimEndDropsWhitespace(s: string)
    ensures var r := TrimEnd(s);
            |r| <= |s| && r == s[..|r|] && AllWhitespace(s[|r|..])
            && (r != [] ==> !IsWhitespace(r[|r| - 1]))
  {
    if s != [] && IsWhitespace(s[|s| - 1]) {
      var init := s[..|s| - 1];
      TrimEndDropsWhitespace(init);
      var r := TrimEnd(s);
      assert s[|r|..] == init[|r|..] + [s[|s| - 1]];
      assert init[..|r|] == s[..|r|];
    }
  }

  /** `s.trim()`: a slice of `s` with no white space at either end; it is empty
      exactly when `s` consists of white space only. */
  function Trim(s: string): (r: string)
    ensures |r| <= |s|
    ensures r != [] ==> !IsWhitespace(r[0]) && !IsWhitespace(r[|r| - 1])
    ensures |r| == 0 <==> AllWhitespace(s)
    ensures exists k :: 0 <= k <= |s| - |r| && r == s[k..k + |r|]
                        && AllWhitespace(s[..k]) && AllWhitespace(s[k + |r|..])
  {
    var t := TrimStart(s);
    TrimStartDropsWhitespace(s);
    var r := TrimEnd(t);
    TrimEndDropsWhitespace(t);
    var k := |s| - |t|;
    assert s[k..k + |r|] == r && s[k + |r|..] == t[|r|..];
    if r == [] then
      assert AllWhitespace(t);
      assert s == s[..|s| - |t|] + t;
      r
    else
      assert !AllWhitespace(s) by {
        var k := |s| - |t|;
        assert s[k] == t[0];
        assert t[0] == r[0];
      }
      r
  }

  /** `s.trim().length === 0`. */
  predicate IsBlank(s: string) {
    |Trim(s)| == 0
  }

  /** Appending text that has a visible character makes a string non-blank,
      whatever it was before and whatever follows. */
  lemma {:induction false} VisibleTextIsNotBlank(before: string, text: string, after: string, i: nat)
    requires i < |text| && !IsWhitespace(text[i])
    ensures !IsBlank(before + text + after)
  {
    var s := before + text + after;
    assert s[|before| + i] == text[i];
  }
}
