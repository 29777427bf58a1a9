/**
 * The three string operations of the JavaScript standard library that the
 * customer store relies on: String.prototype.trim, toLowerCase and includes.
 * Strings are sequences of characters.
 */
module JsText {

  /** WhiteSpace and LineTerminator code points of ECMAScript: exactly what `trim` strips. */
  predicate IsJsWhitespace(c: char) {
    || c == '\t' || c == '\n' || c == '\U{000B}' || c == '\U{000C}' || c == '\r' || c == ' '
    || c == '\U{00A0}' || c == '\U{1680}'
    || ('\U{2000}' <= c <= '\U{200A}')
    || c == '\U{2028}' || c == '\U{2029}' || c == '\U{202F}' || c == '\U{205F}'
    || c == '\U{3000}' || c == '\U{FEFF}'
  }

  predicate AllWhitespace(s: string) {
    forall i :: 0 <= i < |s| ==> IsJsWhitespace(s[i])
  }

  /** Scanning forward from `i`: the end of the whitespace run that starts there. */
  function SkipWhitespaceForward(s: string, i: nat): (e: nat)
    requires i <= |s|
    ensures i <= e <= |s|
    ensures forall j :: i <= j < e ==> IsJsWhitespace(s[j])
    ensures e < |s| ==> !IsJsWhitespace(s[e])
    decreases |s| - i
  {
    if i < |s| && IsJsWhitespace(s[i]) then SkipWhitespaceForward(s, i + 1) else i
  }

  /** Scanning backward from `e`, never below `lo`: the start of the whitespace run that ends there. */
  function SkipWhitespaceBackward(s: string, lo: nat, e: nat): (b: nat)
    requires lo <= e <= |s|
    ensures lo <= b <= e
    ensures forall j :: b <= j < e ==> IsJsWhitespace(s[j])
    ensures b > lo ==> !IsJsWhitespace(s[b - 1])
    decreases e
  {
    if e > lo && IsJsWhitespace(s[e - 1]) then SkipWhitespaceBackward(s, lo, e - 1) else e
  }

  /**
   * String.prototype.trim: the longest infix of `s` that neither starts nor
   * ends with whitespace, the characters cut away on both sides being whitespace.
   */
  function Trim(s: string): (r: string)
    ensures |r| <= |s|
    ensures r != [] ==> !IsJsWhitespace(r[0]) && !IsJsWhitespace(r[|r| - 1])
    ensures r == [] <==> AllWhitespace(s)
    ensures exists a :: CutAt(s, r, a)
  {
    var a := SkipWhitespaceForward(s, 0);
    var b := SkipWhitespaceBackward(s, a, |s|);
    assert CutAt(s, s[a..b], a);
    s[a..b]
  }

  /** `r` sits in `s` at position `a`, with only whitespace before and after it. */
  predicate CutAt(s: string, r: string, a: nat) {
    && a + |r| <= |s| && s[a..a + |r|] == r
    && (forall j :: 0 <= j < a ==> IsJsWhitespace(s[j]))
    && (forall j :: a + |r| <= j < |s| ==> IsJsWhitespace(s[j]))
  }

  /** No character of `s` is an upper-case ASCII letter. */
  predicate NoUpperAscii(s: string) {
    forall i :: 0 <= i < |s| ==> !('A' <= s[i] <= 'Z')
  }

  function LowerChar(c: char): char {
    if 'A' <= c <= 'Z' then (c as int + 32) as char else c
  }

  /**
   * String.prototype.toLowerCase on the ASCII letters: each upper-case ASCII
   * letter becomes its lower-case form, every other character is kept.
   */
  function ToLowerCase(s: string): (r: string)
    ensures |r| == |s|
    ensures NoUpperAscii(r)
    ensures forall i :: 0 <= i < |r| ==> r[i] == s[i] || ('A' <= s[i] <= 'Z' && r[i] as int == s[i] as int + 32)
  {
    seq(|s|, i requires 0 <= i < |s| => LowerChar(s[i]))
  }

  /**
   * String.prototype.includes: `t` occurs in `s` as a contiguous infix. The
   * empty string occurs in every string, an occurrence at any position
   * counts, and nothing longer than `s` occurs.
   */
  function Includes(s: string, t: string): (b: bool)
    ensures t == [] ==> b
    ensures forall i :: OccursAt(s, t, i) ==> b
    ensures b ==> |t| <= |s|
  {
    assert t == [] ==> OccursAt(s, t, 0);
    exists i :: 0 <= i <= |s| - |t| && OccursAt(s, t, i)
  }

  /** Trimming a string without upper-case ASCII letters leaves none. */
  lemma TrimKeepsNoUpper(s: string)
    requires NoUpperAscii(s)
    ensures NoUpperAscii(Trim(s))
  {
    var t := Trim(s);
    var a: nat :| CutAt(s, t, a);
    forall k | 0 <= k < |t| ensures !('A' <= t[k] <= 'Z') {
      assert t[k] == s[a + k];
    }
  }

  /** Every infix of a string without upper-case ASCII letters is without them too. */
  lemma IncludedKeepsNoUpper(s: string, t: string)
    requires NoUpperAscii(s) && Includes(s, t)
    ensures NoUpperAscii(t)
  {
    var i :| 0 <= i <= |s| - |t| && OccursAt(s, t, i);
    forall k | 0 <= k < |t| ensures !('A' <= t[k] <= 'Z') {
      assert t[k] == s[i + k];
    }
  }

  predicate OccursAt(s: string, t: string, i: nat) {
    i + |t| <= |s| && s[i..i + |t|] == t
  }

  /** `t` occurs in `s` at position `i` when ASCII letter case is ignored. */
  predicate OccursAtIgnoringCase(s: string, t: string, i: nat) {
    i + |t| <= |s| && forall k :: 0 <= k < |t| ==> LowerChar(t[k]) == LowerChar(s[i + k])
  }
}
