/** Occurrences of one text in another, and equality of texts but for case. */
module Texts {
  predicate At(s: string, t: string, i: int) {
    0 <= i <= |s| - |t| && s[i..i + |t|] == t
  }

  /** `str::contains`. */
  predicate Contains(s: string, t: string) {
    exists i :: 0 <= i <= |s| - |t| && At(s, t, i)
  }

  lemma ContainsMiddle(a: string, t: string, b: string)
    ensures Contains(a + t + b, t)
  {
    assert At(a + t + b, t, |a|);
  }

  lemma ContainsPart(a: string, s: string, b: string, t: string)
    requires Contains(s, t)
    ensures Contains(a + s + b, t)
  {
    var i :| 0 <= i <= |s| - |t| && At(s, t, i);
    var whole := a + s + b;
    assert whole[|a| + i..|a| + i + |t|] == s[i..i + |t|];
    assert At(whole, t, |a| + i);
  }

  lemma ContainsInFront(s: string, b: string, t: string)
    requires Contains(s, t)
    ensures Contains(s + b, t)
  {
    ContainsPart("", s, b, t);
    assert "" + s + b == s + b;
  }

  lemma ContainsBehind(a: string, s: string, t: string)
    requires Contains(s, t)
    ensures Contains(a + s, t)
  {
    ContainsPart(a, s, "", t);
    assert a + s + "" == a + s;
  }

  lemma ContainsTransitive(s: string, t: string, u: string)
    requires Contains(s, t) && Contains(t, u)
    ensures Contains(s, u)
  {
    var i :| 0 <= i <= |s| - |t| && At(s, t, i);
    assert s == s[..i] + t + s[i + |t|..];
    ContainsPart(s[..i], t, s[i + |t|..], u);
  }

  lemma OccurrenceInFront(s: string, b: string, t: string)
    requires Contains(s, t) && t != ""
    ensures exists i :: 0 <= i < |s| && At(s + b, t, i)
  {
    var i :| 0 <= i <= |s| - |t| && At(s, t, i);
    assert (s + b)[i..i + |t|] == s[i..i + |t|];
    assert At(s + b, t, i);
  }

  lemma LongEnough(s: string, t: string)
    requires Contains(s, t)
    ensures |t| <= |s| && (|t| == |s| ==> t == s)
  {
    var i :| 0 <= i <= |s| - |t| && At(s, t, i);
    assert s[0..|s|] == s;
  }

  /** The same character, the case of the letters A to Z aside. */
  predicate SameLetter(a: char, b: char) {
    || a == b
    || ('A' <= a <= 'Z' && b as int == a as int + 32)
    || ('A' <= b <= 'Z' && a as int == b as int + 32)
  }

  predicate SameLetters(a: string, b: string) {
    |a| == |b| && forall i :: 0 <= i < |a| ==> SameLetter(a[i], b[i])
  }
}
