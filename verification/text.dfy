/**
 * The three string operations of Python the classification relies on:
 * `str.strip()`, `str.lower()` and the substring test `part in s`.
 */
module Text {

  /** The characters `str.isspace()` accepts, which is what `str.strip()` removes. */
  predicate IsSpace(c: char) {
    || ('\t' <= c <= '\r')
    || ('\U{1C}' <= c <= ' ')
    || c == '\U{85}' || c == '\U{A0}' || c == '\U{1680}'
    || ('\U{2000}' <= c <= '\U{200A}')
    || c == '\U{2028}' || c == '\U{2029}' || c == '\U{202F}' || c == '\U{205F}' || c == '\U{3000}'
  }

  function TrimStart(s: string): (r: string)
    ensures |r| <= |s| && r == s[|s| - |r|..]
    ensures |r| > 0 ==> !IsSpace(r[0])
    ensures forall i :: 0 <= i < |s| - |r| ==> IsSpace(s[i])
  {
    if |s| > 0 && IsSpace(s[0]) then TrimStart(s[1..]) else s
  }

  function TrimEnd(s: string): (r: string)
    ensures |r| <= |s| && r == s[..|r|]
    ensures |r| > 0 ==> !IsSpace(r[|r| - 1])
    ensures forall i :: |r| <= i < |s| ==> IsSpace(s[i])
  {
    if |s| > 0 && IsSpace(s[|s| - 1]) then TrimEnd(s[..|s| - 1]) else s
  }

  /** A value the Python code treats as missing, `not s.strip()`: nothing but white space. */
  predicate IsBlank(s: string) {
    forall i :: 0 <= i < |s| ==> IsSpace(s[i])
  }

  /**
   * Python's `s.strip()`: the longest piece of `s` that neither starts nor
   * ends with white space. It is empty exactly when `s` is blank.
   */
  function Strip(s: string): (r: string)
    ensures exists a :: StrippedAt(s, r, a)
    ensures |r| > 0 ==> !IsSpace(r[0]) && !IsSpace(r[|r| - 1])
    ensures r == "" <==> IsBlank(s)
  {
    var t := TrimStart(s);
    var r := TrimEnd(t);
    TrimmedPiece(s, t, r);
    r
  }

  /** What the two trims leave: a piece of `s` with only white space around it. */
  lemma TrimmedPiece(s: string, t: string, r: string)
    requires |t| <= |s| && t == s[|s| - |t|..] && forall i :: 0 <= i < |s| - |t| ==> IsSpace(s[i])
    requires |t| > 0 ==> !IsSpace(t[0])
    requires |r| <= |t| && r == t[..|r|] && forall i :: |r| <= i < |t| ==> IsSpace(t[i])
    ensures StrippedAt(s, r, |s| - |t|)
    ensures r == "" <==> IsBlank(s)
  {
    var a := |s| - |t|;
    assert s[a..a + |r|] == r;
    assert forall i :: a + |r| <= i < |s| ==> s[i] == t[i - a];
    if r != "" {
      assert s[a] == r[0];
    }
  }

  /**
   * `r` occurs in `s` at index `a`, and every character of `s` before and
   * after that occurrence is white space.
   */
  predicate StrippedAt(s: string, r: string, a: int) {
    && OccursAt(s, r, a)
    && (forall i :: 0 <= i < a ==> IsSpace(s[i]))
    && (forall i :: a + |r| <= i < |s| ==> IsSpace(s[i]))
  }

  /**
   * `Strip` is the only piece of `s` that is surrounded by white space only
   * and neither starts nor ends with white space.
   */
  lemma StripUnique(s: string, t: string, a: int)
    requires StrippedAt(s, t, a)
    requires |t| > 0 ==> !IsSpace(t[0]) && !IsSpace(t[|t| - 1])
    ensures t == Strip(s)
  {
    var r := Strip(s);
    var b :| StrippedAt(s, r, b);
    if |t| == 0 {
      assert IsBlank(s);
    } else {
      assert !IsBlank(s) by { assert s[a] == t[0]; }
      // Both pieces start at the first non-space character of `s` and end at the last one.
      assert s[b] == r[0] && s[a] == t[0];
      assert s[b + |r| - 1] == r[|r| - 1] && s[a + |t| - 1] == t[|t| - 1];
      assert a == b && |t| == |r|;
    }
  }

  /**
   * Python's `str.lower()` on one character, for ASCII and Latin-1 letters
   * (the range that covers the Portuguese names and words in this program).
   */
  function LowerChar(c: char): (r: char)
    ensures 'A' <= c <= 'Z' ==> r as int == c as int + 32
    ensures !('A' <= c <= 'Z') && !('\U{C0}' <= c <= '\U{DE}') ==> r == c
    ensures 'a' <= r <= 'z' || r == c || '\U{E0}' <= r <= '\U{FE}'
  {
    if 'A' <= c <= 'Z' || ('\U{C0}' <= c <= '\U{DE}' && c != '\U{D7}') then
      (c as int + 32) as char
    else
      c
  }

  function Lower(s: string): string {
    seq(|s|, i requires 0 <= i < |s| => LowerChar(s[i]))
  }

  /** `part` occurs in `s` starting at index `i`. */
  predicate OccursAt(s: string, part: string, i: int) {
    0 <= i <= |s| - |part| && s[i..i + |part|] == part
  }

  /** Python's substring test `part in s` (the empty string is in every string). */
  predicate Contains(s: string, part: string) {
    exists i | 0 <= i <= |s| - |part| :: OccursAt(s, part, i)
  }
}
