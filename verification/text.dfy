/**
 * The few Python `str` operations the validators rely on:
 * `isspace`/`strip()`, `isdigit()` and `in`.
 */
module Text {

  /** Python's `str.isspace` for one character: bidirectional classes WS, B, S and category Zs. */
  predicate IsSpace(c: char)
  {
    || c == ' ' || c == '\t' || c == '\n' || c == '\r' || c == '\U{000B}' || c == '\U{000C}'
    || ('\U{001C}' <= c <= '\U{001F}')
    || c == '\U{0085}' || c == '\U{00A0}' || c == '\U{1680}'
    || ('\U{2000}' <= c <= '\U{200A}')
    || c == '\U{2028}' || c == '\U{2029}' || c == '\U{202F}' || c == '\U{205F}' || c == '\U{3000}'
  }

  /** Every character is whitespace (the empty string included). */
  predicate IsBlank(s: string)
  {
    forall k :: 0 <= k < |s| ==> IsSpace(s[k])
  }

  /** Python's `s.lstrip()`. */
  function StripLeft(s: string): (r: string)
    ensures |r| <= |s| && r == s[|s| - |r|..]
    ensures r == [] || !IsSpace(r[0])
    ensures IsBlank(s[..|s| - |r|])
  {
    if s == [] || !IsSpace(s[0]) then s
    else
      var r := StripLeft(s[1..]);
      assert s[1..][..|s| - 1 - |r|] == s[1..|s| - |r|];
      r
  }

  /** Python's `s.rstrip()`. */
  function StripRight(s: string): (r: string)
    ensures |r| <= |s| && r == s[..|r|]
    ensures r == [] || !IsSpace(r[|r| - 1])
    ensures IsBlank(s[|r|..])
  {
    if s == [] || !IsSpace(s[|s| - 1]) then s
    else
      var r := StripRight(s[..|s| - 1]);
      assert s[..|s| - 1][|r|..] == s[|r|..|s| - 1];
      r
  }

  /**
   * Python's `s.strip()` with no argument: the `lstrip` result less a blank
   * tail, with no whitespace left at either end.
   */
  function Strip(s: string): (r: string)
    ensures |r| <= |s|
    ensures r <= StripLeft(s) && IsBlank(StripLeft(s)[|r|..])
    ensures r == [] || (!IsSpace(r[0]) && !IsSpace(r[|r| - 1]))
  {
    StripRight(StripLeft(s))
  }

  /** `s.strip() == ""` exactly when every character of `s` is whitespace. */
  lemma StripEmptyIffBlank(s: string)
    ensures Strip(s) == "" <==> IsBlank(s)
  {
    var l := StripLeft(s);
    if Strip(s) == "" {
      assert IsBlank(l[0..]) by { assert l[0..] == l; }
      assert l == [];
      assert s[..|s|] == s;
    } else {
      var r := Strip(s);
      assert r == l[..|r|];
      assert !IsSpace(l[|r| - 1]);
      assert s[|s| - |l| + |r| - 1] == l[|r| - 1];
    }
  }

  /** ASCII decimal digit. */
  predicate IsDigit(c: char)
  {
    '0' <= c <= '9'
  }

  /** Every character is an ASCII digit (the empty string included). */
  predicate AllDigits(s: string)
  {
    forall k :: 0 <= k < |s| ==> IsDigit(s[k])
  }

  /**
   * Python's `str.isdigit()`, restricted to ASCII digits: non-empty and
   * digits only, so the empty string, a sign or surrounding whitespace fails it.
   */
  predicate IsDigits(s: string)
    ensures IsDigits(s) ==> s != [] && !IsSpace(s[0]) && s[0] != '-' && s[0] != '+'
    ensures IsDigits(s) ==> !IsSpace(s[|s| - 1])
  {
    |s| > 0 && AllDigits(s)
  }

  /** No line break inside `s`. */
  predicate NoNewline(s: string)
  {
    forall k :: 0 <= k < |s| ==> s[k] != '\n'
  }
}
