/** The handful of Python string operations the core relies on: `str.isspace`,
    `str.lower`, `str.strip`, `str.rstrip(c)` and the `in` substring test. */
module Text {

  /** Python's `str.isspace` for a single character: the ASCII separators
      (tab to carriage return, the four information separators, space) and the
      Unicode space characters. `\s` in a `re` pattern over `str` uses the same set. */
  predicate IsSpace(c: char) {
    var k := c as int;
    (0x09 <= k <= 0x0D) || (0x1C <= k <= 0x20) || k == 0x85 || k == 0xA0 || k == 0x1680
    || (0x2000 <= k <= 0x200A) || k == 0x2028 || k == 0x2029 || k == 0x202F || k == 0x205F
    || k == 0x3000
  }

  /** An ASCII decimal digit. */
  predicate IsDigit(c: char) {
    '0' <= c <= '9'
  }

  predicate AllDigits(s: string) {
    forall i :: 0 <= i < |s| ==> IsDigit(s[i])
  }

  predicate IsLetter(c: char) {
    ('a' <= c <= 'z') || ('A' <= c <= 'Z')
  }

  predicate IsUpper(c: char) {
    'A' <= c <= 'Z'
  }

  function LowerChar(c: char): char {
    if IsUpper(c) then (c as int - 'A' as int + 'a' as int) as char else c
  }

  /** `s.lower()`, restricted to the ASCII letters. */
  function Lower(s: string): (r: string)
    ensures |r| == |s|
    ensures forall i :: 0 <= i < |s| ==> r[i] == LowerChar(s[i])
    ensures forall i :: 0 <= i < |r| ==> !IsUpper(r[i])
  {
    if |s| == 0 then "" else [LowerChar(s[0])] + Lower(s[1..])
  }

  /** Lower-casing twice is lower-casing once. */
  lemma LowerIdempotent(s: string)
    ensures Lower(Lower(s)) == Lower(s)
  {
    var t := Lower(s);
    assert forall i :: 0 <= i < |t| ==> Lower(t)[i] == t[i];
  }

  /** `part` occurs in `text` starting at index `i`. */
  predicate OccursAt(text: string, part: string, i: nat) {
    i + |part| <= |text| && text[i..i + |part|] == part
  }

  /** Python's `part in text` for strings. */
  predicate Contains(text: string, part: string) {
    exists i: nat :: i <= |text| && OccursAt(text, part, i)
  }

  predicate AllSpaces(s: string) {
    forall i :: 0 <= i < |s| ==> IsSpace(s[i])
  }

  /** `s.lstrip()`: drops the longest all-whitespace prefix. */
  function LStripSpaces(s: string): (r: string)
    ensures |r| <= |s| && r == s[|s| - |r|..]
    ensures AllSpaces(s[..|s| - |r|])
    ensures |r| > 0 ==> !IsSpace(r[0])
  {
    if |s| > 0 && IsSpace(s[0]) then LStripSpaces(s[1..]) else s
  }

  /** `s.rstrip()`: drops the longest all-whitespace suffix. */
  function RStripSpaces(s: string): (r: string)
    ensures |r| <= |s| && r == s[..|r|]
    ensures AllSpaces(s[|r|..])
    ensures |r| > 0 ==> !IsSpace(r[|r| - 1])
  {
    if |s| > 0 && IsSpace(s[|s| - 1]) then RStripSpaces(s[..|s| - 1]) else s
  }

  /** `s.strip()`: the result is a contiguous slice of `s`, everything cut off
      on either side is whitespace, and the result neither starts nor ends
      with whitespace. */
  function Strip(s: string): (r: string)
    ensures exists a: nat, b: nat :: a <= b <= |s| && r == s[a..b] && AllSpaces(s[..a]) && AllSpaces(s[b..])
    ensures |r| > 0 ==> !IsSpace(r[0]) && !IsSpace(r[|r| - 1])
  {
    var t := LStripSpaces(s);
    var r := RStripSpaces(t);
    StripSlice(s, t, r);
    var a := |s| - |t|;
    var b := a + |r|;
    assert r == s[a..b] && AllSpaces(s[..a]) && AllSpaces(s[b..]);
    r
  }

  /** Cutting a prefix and then a suffix leaves a slice of the original. */
  lemma StripSlice(s: string, t: string, r: string)
    requires |t| <= |s| && t == s[|s| - |t|..]
    requires |r| <= |t| && r == t[..|r|] && AllSpaces(t[|r|..])
    ensures r == s[|s| - |t|..|s| - |t| + |r|]
    ensures AllSpaces(s[|s| - |t| + |r|..])
  {
    assert s[|s| - |t| + |r|..] == t[|r|..];
  }

  /** `strip` leaves a string alone exactly when neither end is whitespace. */
  lemma StripFixedPoint(s: string)
    ensures Strip(s) == s <==> (|s| == 0 || (!IsSpace(s[0]) && !IsSpace(s[|s| - 1])))
  {
    if |s| > 0 && !IsSpace(s[0]) && !IsSpace(s[|s| - 1]) {
      assert LStripSpaces(s) == s;
      assert RStripSpaces(s) == s;
    }
  }

  /** Stripping a string that is already stripped changes nothing. */
  lemma StripIdempotent(s: string)
    ensures Strip(Strip(s)) == Strip(s)
  {
    var t := Strip(s);
    assert LStripSpaces(t) == t;
  }

  /** `s.rstrip(c)` for a single character `c`. */
  function RStripChar(s: string, c: char): (r: string)
    ensures |r| <= |s| && r == s[..|r|]
    ensures forall i :: |r| <= i < |s| ==> s[i] == c
    ensures |r| > 0 ==> r[|r| - 1] != c
  {
    if |s| > 0 && s[|s| - 1] == c then RStripChar(s[..|s| - 1], c) else s
  }
}
