/** Case mapping of strings, restricted to the ASCII letters: `'a'..'z'` and
    `'A'..'Z'` are exchanged, every other character is left as it is.
    JavaScript's `toUpperCase` agrees with this on ASCII text. Java's
    `String.toLowerCase()` uses the default locale and agrees with this on
    ASCII text except under a Turkish or Azerbaijani locale, where `'I'`
    becomes the dotless `'\u0131'`; those locales are not modelled. */
module Ascii {

  predicate IsLower(c: char)
  {
    'a' <= c <= 'z'
  }

  predicate IsUpper(c: char)
  {
    'A' <= c <= 'Z'
  }

  function Upper(c: char): (u: char)
    ensures !IsLower(u)
    ensures IsLower(c) || u == c
  {
    if IsLower(c) then (c as int - 'a' as int + 'A' as int) as char else c
  }

  function Lower(c: char): (l: char)
    ensures !IsUpper(l)
    ensures IsUpper(c) || l == c
  {
    if IsUpper(c) then (c as int - 'A' as int + 'a' as int) as char else c
  }

  /** Upper-casing leaves no lower-case letter and changes nothing else. */
  function UpperStr(s: string): (u: string)
    ensures |u| == |s|
    ensures forall i :: 0 <= i < |s| ==> u[i] == Upper(s[i])
    ensures forall i :: 0 <= i < |u| ==> !IsLower(u[i])
    ensures forall i :: 0 <= i < |s| && !IsLower(s[i]) ==> u[i] == s[i]
  {
    seq(|s|, i requires 0 <= i < |s| => Upper(s[i]))
  }

  /** Lower-casing leaves no upper-case letter and changes nothing else. */
  function LowerStr(s: string): (l: string)
    ensures |l| == |s|
    ensures forall i :: 0 <= i < |s| ==> l[i] == Lower(s[i])
    ensures forall i :: 0 <= i < |l| ==> !IsUpper(l[i])
    ensures forall i :: 0 <= i < |s| && !IsUpper(s[i]) ==> l[i] == s[i]
  {
    seq(|s|, i requires 0 <= i < |s| => Lower(s[i]))
  }

  /** Lower-casing forgets exactly what upper-casing forgets: two characters
      agree after one mapping iff they agree after the other. */
  lemma {:induction false} FoldsAgree(a: char, b: char)
    ensures Upper(a) == Upper(b) <==> Lower(a) == Lower(b)
  {
    if IsLower(a) || IsUpper(a) || IsLower(b) || IsUpper(b) {
    }
  }

  lemma LowerOfUpper(c: char)
    ensures Lower(Upper(c)) == Lower(c)
  {
  }

  lemma UpperOfLower(c: char)
    ensures Upper(Lower(c)) == Upper(c)
  {
  }

  /** A string is its own upper-case form exactly when it holds no
      lower-case letter; likewise for lower-casing. */
  lemma UpperStrFixpoints(s: string)
    ensures UpperStr(s) == s <==> forall i :: 0 <= i < |s| ==> !IsLower(s[i])
    ensures LowerStr(s) == s <==> forall i :: 0 <= i < |s| ==> !IsUpper(s[i])
  {
    if forall i :: 0 <= i < |s| ==> !IsLower(s[i]) {
      assert forall i :: 0 <= i < |s| ==> UpperStr(s)[i] == s[i];
    }
    if forall i :: 0 <= i < |s| ==> !IsUpper(s[i]) {
      assert forall i :: 0 <= i < |s| ==> LowerStr(s)[i] == s[i];
    }
  }

  /** Mapping the case twice is mapping it once. */
  lemma CaseIdempotent(s: string)
    ensures UpperStr(UpperStr(s)) == UpperStr(s)
    ensures LowerStr(LowerStr(s)) == LowerStr(s)
  {
    UpperStrFixpoints(UpperStr(s));
    UpperStrFixpoints(LowerStr(s));
  }

  /** Lower-casing forgets an earlier upper-casing, and upper-casing an
      earlier lower-casing: both forms identify the same strings. */
  lemma {:induction false} CaseForgets(s: string)
    ensures LowerStr(UpperStr(s)) == LowerStr(s)
    ensures UpperStr(LowerStr(s)) == UpperStr(s)
  {
    forall i | 0 <= i < |s|
      ensures LowerStr(UpperStr(s))[i] == LowerStr(s)[i]
      ensures UpperStr(LowerStr(s))[i] == UpperStr(s)[i]
    {
      LowerOfUpper(s[i]);
      UpperOfLower(s[i]);
    }
  }

  /** Case mapping works piecewise on a concatenation. */
  lemma CaseAppend(a: string, b: string)
    ensures UpperStr(a + b) == UpperStr(a) + UpperStr(b)
    ensures LowerStr(a + b) == LowerStr(a) + LowerStr(b)
  {
  }
}
