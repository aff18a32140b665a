/** The two JavaScript string operations the component relies on:
    `String.prototype.trim` and the `length` property, which counts
    UTF-16 code units rather than characters. */
module JsString {

  /** The code points ECMAScript classes as WhiteSpace or LineTerminator,
      which are exactly the ones `trim` strips from both ends. */
  predicate IsWhitespace(c: char)
  {
    var n := c as int;
    n == 0x0009 || n == 0x000A || n == 0x000B || n == 0x000C || n == 0x000D
    || n == 0x0020 || n == 0x00A0 || n == 0x1680 || (0x2000 <= n <= 0x200A)
    || n == 0x2028 || n == 0x2029 || n == 0x202F || n == 0x205F || n == 0x3000
    || n == 0xFEFF
  }

  predicate AllWhitespace(s: string)
  {
    forall k :: 0 <= k < |s| ==> IsWhitespace(s[k])
  }

  /** The index of the first non-whitespace character of `s` at or after
      `i`, or `|s|` when there is none. */
  function SkipForward(s: string, i: nat): (j: nat)
    requires i <= |s|
    ensures i <= j <= |s|
    ensures forall k :: i <= k < j ==> IsWhitespace(s[k])
    ensures j < |s| ==> !IsWhitespace(s[j])
    decreases |s| - i
  {
    if i < |s| && IsWhitespace(s[i]) then SkipForward(s, i + 1) else i
  }

  /** The index just after the last non-whitespace character of `s` before
      `j`, or 0 when there is none. */
  function SkipBackward(s: string, j: nat): (i: nat)
    requires j <= |s|
    ensures i <= j
    ensures forall k :: i <= k < j ==> IsWhitespace(s[k])
    ensures i > 0 ==> !IsWhitespace(s[i - 1])
  {
    if j > 0 && IsWhitespace(s[j - 1]) then SkipBackward(s, j - 1) else j
  }

  /** `s` with its leading whitespace removed. */
  function TrimStart(s: string): (r: string)
    ensures |r| <= |s| && r == s[|s| - |r|..]
    ensures AllWhitespace(s[..|s| - |r|])
    ensures r == [] || !IsWhitespace(r[0])
  {
    var i := SkipForward(s, 0);
    assert forall k :: 0 <= k < i ==> s[..i][k] == s[k];
    s[i..]
  }

  /** `s` with its trailing whitespace removed. */
  function TrimEnd(s: string): (r: string)
    ensures |r| <= |s| && r == s[..|r|]
    ensures AllWhitespace(s[|r|..])
    ensures r == [] || !IsWhitespace(r[|r| - 1])
  {
    var j := SkipBackward(s, |s|);
    assert forall k :: j <= k < |s| ==> s[j..][k - j] == s[k];
    s[..j]
  }

  /** JavaScript's `s.trim()`: whitespace removed from both ends, so that
      what is left, if anything, starts and ends with a non-blank character
      (`TrimIsMiddle` says which part of `s` that is). */
  function Trim(s: string): (r: string)
    ensures |r| <= |s|
    ensures r == [] || (!IsWhitespace(r[0]) && !IsWhitespace(r[|r| - 1]))
  {
    TrimEnd(TrimStart(s))
  }

  /** `trim()` is the middle part of `s`: it starts where the leading run
      of whitespace ends, and only whitespace lies on either side of it. */
  lemma TrimIsMiddle(s: string)
    ensures
      var i := |s| - |TrimStart(s)|;
      && 0 <= i <= |s| - |Trim(s)|
      && Trim(s) == s[i..i + |Trim(s)|]
      && AllWhitespace(s[..i])
      && AllWhitespace(s[i + |Trim(s)|..])
  {
    var t := TrimStart(s);
    var r := TrimEnd(t);
    var i := |s| - |t|;
    assert t == s[i..];
    assert r == t[..|r|];
    assert r == s[i..i + |r|];
    assert s[i + |r|..] == t[|r|..];
  }

  /** A string trims to nothing exactly when every one of its characters is
      whitespace. */
  lemma TrimEmptyIffAllWhitespace(s: string)
    ensures Trim(s) == [] <==> AllWhitespace(s)
  {
    var t := TrimStart(s);
    var u := TrimEnd(t);
    assert t != [] ==> t[0] == s[|s| - |t|];
    assert forall j :: 0 <= j < |s| - |t| ==> s[j] == s[..|s| - |t|][j];
    assert forall j :: |u| <= j < |t| ==> t[j] == t[|u|..][j - |u|];
  }

  /** The test `s.trim() === ''`: a draft is blank exactly when every one of
      its characters is whitespace; in particular the empty draft is. */
  predicate IsBlank(s: string)
    ensures IsBlank(s) <==> AllWhitespace(s)
  {
    TrimEmptyIffAllWhitespace(s);
    Trim(s) == ""
  }

  /** The number of UTF-16 code units of `s`, which is what a JavaScript
      string's `length` reports: characters outside the Basic Multilingual
      Plane are stored as a surrogate pair and count twice. With
      `Utf16LengthConcat` this fixes the length of every string. */
  function Utf16Length(s: string): (n: nat)
    ensures |s| <= n <= 2 * |s|
    ensures |s| == 1 ==> n == if s[0] as int < 0x10000 then 1 else 2
    ensures n == |s| <==> forall k :: 0 <= k < |s| ==> s[k] as int < 0x10000
    ensures n == 2 * |s| <==> forall k :: 0 <= k < |s| ==> s[k] as int >= 0x10000
  {
    if s == [] then 0
    else
      var n := Utf16Length(s[1..]);
      assert forall k :: 1 <= k < |s| ==> s[k] == s[1..][k - 1];
      (if s[0] as int < 0x10000 then 1 else 2) + n
  }

  /** The length of a concatenation is the sum of the lengths. */
  lemma {:induction false} Utf16LengthConcat(a: string, b: string)
    ensures Utf16Length(a + b) == Utf16Length(a) + Utf16Length(b)
    decreases |a|
  {
    if a != [] {
      assert (a + b)[0] == a[0] && (a + b)[1..] == a[1..] + b;
      Utf16LengthConcat(a[1..], b);
    } else {
      assert a + b == b;
    }
  }
}
