/** Java's String.trim, which the mappers and the emptiness checks apply to user text.
    Like Java, it strips every leading and trailing character whose code is at most U+0020. */
module Strings {

  predicate IsTrimmable(c: char) {
    c <= ' '
  }

  /** A string is blank when every character is trimmable. */
  predicate IsBlank(s: string) {
    forall i :: 0 <= i < |s| ==> IsTrimmable(s[i])
  }

  function TrimStart(s: string): (r: string)
    ensures |r| <= |s| && r == s[|s| - |r|..]
    ensures r == [] || !IsTrimmable(r[0])
    ensures IsBlank(s[..|s| - |r|])
  {
    if |s| > 0 && IsTrimmable(s[0]) then
      var r := TrimStart(s[1..]);
      assert s[1..][..|s| - 1 - |r|] == s[1..|s| - |r|];
      r
    else s
  }

  function TrimEnd(s: string): (r: string)
    ensures |r| <= |s| && r == s[..|r|]
    ensures r == [] || !IsTrimmable(r[|r| - 1])
    ensures IsBlank(s[|r|..])
  {
    if |s| > 0 && IsTrimmable(s[|s| - 1]) then
      var r := TrimEnd(s[..|s| - 1]);
      assert s[..|s| - 1][|r|..] + [s[|s| - 1]] == s[|r|..];
      r
    else s
  }

  /** r is s with a blank prefix and a blank suffix cut off. */
  predicate IsTrimmedFrom(r: string, s: string)
  {
    exists i, j :: 0 <= i <= j <= |s| && r == s[i..j] && IsBlank(s[..i]) && IsBlank(s[j..])
  }

  /** String.trim(): the input with its trimmable prefix and suffix cut off, so that what is left
      neither starts nor ends with a trimmable character. */
  function Trim(s: string): (r: string)
    ensures |r| <= |s|
    ensures r == [] || (!IsTrimmable(r[0]) && !IsTrimmable(r[|r| - 1]))
  {
    TrimEnd(TrimStart(s))
  }

  /** What trim leaves is the input minus a blank prefix and a blank suffix. */
  lemma TrimCutsBlankEnds(s: string)
    ensures IsTrimmedFrom(Trim(s), s)
  {
    var a := TrimStart(s);
    var r := TrimEnd(a);
    var i := |s| - |a|;
    assert r == s[i..i + |r|];
    assert s[i + |r|..] == a[|r|..];
  }

  /** String.length(): the number of UTF-16 code units, where a character above U+FFFF is a
      surrogate pair and counts twice. */
  function JavaLength(s: string): (n: nat)
    ensures |s| <= n <= 2 * |s|
  {
    if s == [] then 0
    else
      var n := JavaLength(s[..|s| - 1]);
      assert forall i :: 0 <= i < |s| - 1 ==> s[..|s| - 1][i] == s[i];
      n + (if s[|s| - 1] as int > 0xFFFF then 2 else 1)
  }

  /** Java's length equals the number of characters exactly when no character lies above U+FFFF. */
  lemma {:induction false} JavaLengthIsCharCount(s: string)
    ensures JavaLength(s) == |s| <==> forall i :: 0 <= i < |s| ==> s[i] as int <= 0xFFFF
  {
    if s != [] {
      JavaLengthIsCharCount(s[..|s| - 1]);
      assert forall i :: 0 <= i < |s| - 1 ==> s[..|s| - 1][i] == s[i];
    }
  }

  /** A text made only of characters above U+FFFF is twice as long for Java as it has characters. */
  lemma {:induction false} JavaLengthOfSupplementary(s: string)
    requires forall i :: 0 <= i < |s| ==> s[i] as int > 0xFFFF
    ensures JavaLength(s) == 2 * |s|
  {
    if s != [] {
      JavaLengthOfSupplementary(s[..|s| - 1]);
    }
  }

  /** Trimming leaves nothing exactly when the string is blank. */
  lemma {:induction false} TrimEmptyIffBlank(s: string)
    ensures Trim(s) == [] <==> IsBlank(s)
  {
    var a := TrimStart(s);
    if a == [] {
      assert s[..|s|] == s;
    } else {
      assert !IsTrimmable(a[0]);
      assert a[0..][0] == a[0];
      assert s[|s| - |a|] == a[0];
    }
  }

  /** Trimming twice is trimming once. */
  lemma TrimIdempotent(s: string)
    ensures Trim(Trim(s)) == Trim(s)
  {
    var r := Trim(s);
    if r != [] {
      assert TrimStart(r) == r;
      assert TrimEnd(r) == r;
    }
  }
}
