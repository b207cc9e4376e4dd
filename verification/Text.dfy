/** Python string methods, on ASCII text. */
module Text {

  /** The ASCII characters that `strip()` removes. */
  const WHITESPACE: string := [' ', '\t', '\n', '\r', 11 as char, 12 as char]

  function StripLeft(s: string, chars: string): (r: string)
    ensures |r| <= |s| && (r != [] ==> r[0] !in chars) && (forall c :: c in r ==> c in s)
  {
    if s != [] && s[0] in chars then StripLeft(s[1..], chars) else s
  }

  function StripRight(s: string, chars: string): (r: string)
    ensures r <= s && (r != [] ==> r[|r| - 1] !in chars)
  {
    if s != [] && s[|s| - 1] in chars then StripRight(s[..|s| - 1], chars) else s
  }

  /** `s.strip(chars)` */
  function Strip(s: string, chars: string): string {
    StripRight(StripLeft(s, chars), chars)
  }

  /** `s.lower()` and `s.upper()` */
  function Lower(s: string): string {
    seq(|s|, i requires 0 <= i < |s| => if 'A' <= s[i] <= 'Z' then s[i] - 'A' + 'a' else s[i])
  }

  function Upper(s: string): string {
    seq(|s|, i requires 0 <= i < |s| => if 'a' <= s[i] <= 'z' then s[i] - 'a' + 'A' else s[i])
  }

  /** Text without lower-case letters and outer whitespace is left alone. */
  lemma Normalised(s: string)
    requires s != [] && s[0] !in WHITESPACE && s[|s| - 1] !in WHITESPACE
    requires forall i :: 0 <= i < |s| ==> !('a' <= s[i] <= 'z')
    ensures Upper(Strip(s, WHITESPACE)) == s
  {
  }

  // ---------- what the methods promise ----------

  /** The same letter, in either case. */
  predicate SameLetter(a: char, b: char) {
    || a == b
    || ('A' <= a <= 'Z' && 'a' <= b <= 'z' && a - 'A' == b - 'a')
    || ('a' <= a <= 'z' && 'A' <= b <= 'Z' && a - 'a' == b - 'A')
  }

  /** Equal up to the case of letters. */
  predicate SameText(a: string, b: string) {
    |a| == |b| && forall i :: 0 <= i < |a| ==> SameLetter(a[i], b[i])
  }

  /** Only the case of letters changes. */
  lemma CaseExact(s: string)
    ensures SameText(Upper(s), s) && forall i :: 0 <= i < |s| ==> !('a' <= Upper(s)[i] <= 'z')
    ensures SameText(Lower(s), s) && forall i :: 0 <= i < |s| ==> !('A' <= Lower(s)[i] <= 'Z')
  {
  }

  lemma LowerSame(a: string, b: string)
    ensures Lower(a) == Lower(b) <==> SameText(a, b)
  {
    if Lower(a) == Lower(b) {
      assert |a| == |Lower(a)| == |b|;
      forall i | 0 <= i < |a| ensures SameLetter(a[i], b[i]) { assert Lower(a)[i] == Lower(b)[i]; }
    }
  }

  predicate Blank(c: char) {
    c == ' ' || c == '\t' || c == '\n' || c == '\r' || c == 11 as char || c == 12 as char
  }

  /** `core` is `s` without the whitespace around it. */
  ghost predicate Stripped(s: string, core: string) {
    exists left, right :: StrippedBy(s, left, core, right)
  }

  ghost predicate StrippedBy(s: string, left: string, core: string, right: string) {
    && s == left + core + right
    && (forall i :: 0 <= i < |left| ==> Blank(left[i])) && (forall i :: 0 <= i < |right| ==> Blank(right[i]))
    && (core == [] || (!Blank(core[0]) && !Blank(core[|core| - 1])))
  }

  lemma WhitespaceBlank(c: char)
    ensures c in WHITESPACE <==> Blank(c)
  {
  }

  lemma {:induction false} StripLeftExact(s: string) returns (left: string)
    ensures s == left + StripLeft(s, WHITESPACE) && forall i :: 0 <= i < |left| ==> Blank(left[i])
  {
    left := [];
    if s != [] {
      WhitespaceBlank(s[0]);
      if s[0] in WHITESPACE {
        var more := StripLeftExact(s[1..]);
        left := [s[0]] + more;
      }
    }
  }

  lemma {:induction false} StripRightExact(s: string) returns (right: string)
    ensures s == StripRight(s, WHITESPACE) + right && forall i :: 0 <= i < |right| ==> Blank(right[i])
  {
    right := [];
    if s != [] {
      var last := s[|s| - 1];
      WhitespaceBlank(last);
      if last in WHITESPACE {
        var more := StripRightExact(s[..|s| - 1]);
        right := more + [last];
      }
    }
  }

  lemma StripExact(s: string)
    ensures Stripped(s, Strip(s, WHITESPACE))
  {
    var left := StripLeftExact(s);
    var rest := StripLeft(s, WHITESPACE);
    var right := StripRightExact(rest);
    var core := Strip(s, WHITESPACE);
    assert s == left + (core + right) == left + core + right;
    if core != [] {
      assert core[0] == rest[0];
      WhitespaceBlank(core[0]);
      WhitespaceBlank(core[|core| - 1]);
    }
    assert StrippedBy(s, left, core, right);
  }
}
