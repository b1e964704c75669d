/** Characters and String.prototype.trim as the contact-form rules in js/main.js use them. */
module JsText {

  /** ECMAScript WhiteSpace and LineTerminator code points. `\s` in a regular expression
      and String.prototype.trim use this same set. */
  predicate IsSpace(c: char) {
    var n := c as int;
    n == 0x09 || n == 0x0A || n == 0x0B || n == 0x0C || n == 0x0D || n == 0x20
    || n == 0xA0 || n == 0x1680 || (0x2000 <= n <= 0x200A) || n == 0x2028 || n == 0x2029
    || n == 0x202F || n == 0x205F || n == 0x3000 || n == 0xFEFF
  }

  /** `\d`: an ASCII decimal digit. */
  predicate IsDigit(c: char) {
    '0' <= c <= '9'
  }

  /** Every character is whitespace (the empty string included). */
  predicate AllSpace(s: string) {
    forall k :: 0 <= k < |s| ==> IsSpace(s[k])
  }

  /** Drops the leading whitespace: what is dropped is all whitespace, what is kept is a
      suffix of `s` that does not start with whitespace. */
  function TrimStart(s: string): (r: string)
    ensures |r| <= |s| && r == s[|s| - |r|..]
    ensures forall k :: 0 <= k < |s| - |r| ==> IsSpace(s[k])
    ensures r == [] || !IsSpace(r[0])
  {
    if s != [] && IsSpace(s[0]) then TrimStart(s[1..]) else s
  }

  /** Drops the trailing whitespace: what is kept is a prefix of `s` that does not end
      with whitespace, and everything after it is whitespace. */
  function TrimEnd(s: string): (r: string)
    ensures |r| <= |s| && r == s[..|r|]
    ensures forall k :: |r| <= k < |s| ==> IsSpace(s[k])
    ensures r == [] || !IsSpace(r[|r| - 1])
  {
    if s != [] && IsSpace(s[|s| - 1]) then TrimEnd(s[..|s| - 1]) else s
  }

  /** `r` is the part of `s` starting at `a`, and everything before and after it is
      whitespace. */
  predicate CutFrom(s: string, r: string, a: int) {
    && 0 <= a <= |s| - |r|
    && (forall k :: 0 <= k < |r| ==> r[k] == s[a + k])
    && (forall k :: 0 <= k < a ==> IsSpace(s[k]))
    && (forall k :: a + |r| <= k < |s| ==> IsSpace(s[k]))
  }

  /** Cutting whitespace off the front of `s` and then off the back leaves a part of `s`
      with only whitespace around it. */
  lemma CutTwice(s: string, t: string, r: string, a: int)
    requires 0 <= a <= |s| && t == s[a..] && forall k :: 0 <= k < a ==> IsSpace(s[k])
    requires |r| <= |t| && r == t[..|r|] && forall k :: |r| <= k < |t| ==> IsSpace(t[k])
    ensures CutFrom(s, r, a)
  {
    forall k | 0 <= k < |r| ensures r[k] == s[a + k] {
      assert r[k] == t[k];
    }
    forall k | a + |r| <= k < |s| ensures IsSpace(s[k]) {
      assert s[k] == t[k - a];
    }
  }

  /** String.prototype.trim. The test `value.trim() === ''` holds exactly when every
      character of the value is whitespace. */
  function Trim(s: string): (r: string)
    ensures |r| <= |s|
    ensures r == [] <==> AllSpace(s)
    ensures r == [] || (!IsSpace(r[0]) && !IsSpace(r[|r| - 1]))
  {
    var t := TrimStart(s);
    var r := TrimEnd(t);
    assert r != [] ==> r[0] == t[0];
    r
  }

  /** Trimming removes leading and trailing whitespace and nothing else: the result is a
      part of the value with only whitespace before and after it. */
  lemma TrimRemovesOnlyEnds(s: string)
    ensures exists a :: 0 <= a <= |s| && CutFrom(s, Trim(s), a)
  {
    var t := TrimStart(s);
    var a := |s| - |t|;
    CutTwice(s, t, TrimEnd(t), a);
    assert Trim(s) == TrimEnd(t);
    assert CutFrom(s, Trim(s), a);
  }
}
