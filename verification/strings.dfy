/** The Python string operations the source uses: `in`, `startswith`, `rfind`,
    `strip`, `lower`, `str(int)` and `sep.join`. */
module Strings {

  /** `sub` occurs in `s` starting at index `i`. */
  predicate OccursAt(s: string, sub: string, i: int)
  {
    0 <= i && i + |sub| <= |s| && s[i..i + |sub|] == sub
  }

  /** `sub` is a substring of `s`. */
  predicate IsSubstring(s: string, sub: string)
  {
    exists i | 0 <= i <= |s| :: OccursAt(s, sub, i)
  }

  /** `s.startswith(prefix)`. */
  predicate StartsWith(s: string, prefix: string)
  {
    |prefix| <= |s| && s[..|prefix|] == prefix
  }

  /** `sub in s`, scanning from the left. */
  predicate Contains(s: string, sub: string)
    decreases |s|
  {
    StartsWith(s, sub) || (|s| > 0 && Contains(s[1..], sub))
  }

  lemma OccursAtShift(s: string, sub: string, i: int)
    requires |s| > 0 && 0 <= i
    ensures OccursAt(s[1..], sub, i) <==> OccursAt(s, sub, i + 1)
  {
    if 0 <= i && i + |sub| <= |s| - 1 {
      assert s[1..][i..i + |sub|] == s[i + 1..i + 1 + |sub|];
    }
  }

  /** The scanning definition of `in` agrees with "occurs at some index". */
  lemma {:induction false} ContainsIffOccurs(s: string, sub: string)
    ensures Contains(s, sub) <==> exists i :: OccursAt(s, sub, i)
    decreases |s|
  {
    if StartsWith(s, sub) {
      assert OccursAt(s, sub, 0);
    } else if |s| == 0 {
    } else {
      ContainsIffOccurs(s[1..], sub);
      if exists i :: OccursAt(s, sub, i) {
        var i :| OccursAt(s, sub, i);
        if i > 0 {
          OccursAtShift(s, sub, i - 1);
        }
      }
      if exists i :: OccursAt(s[1..], sub, i) {
        var i :| OccursAt(s[1..], sub, i);
        OccursAtShift(s, sub, i);
      }
    }
  }

  /** The scanning `in` is exactly "is a substring". */
  lemma ContainsIffSubstring(s: string, sub: string)
    ensures Contains(s, sub) <==> IsSubstring(s, sub)
  {
    ContainsIffOccurs(s, sub);
    if IsSubstring(s, sub) {
      var i :| 0 <= i <= |s| && OccursAt(s, sub, i);
    }
  }

  /** A string never contains a longer one. */
  lemma NotContainsLonger(s: string, sub: string)
    requires |sub| > |s|
    ensures !Contains(s, sub)
  {
    ContainsIffOccurs(s, sub);
  }

  /** Containment survives adding text on either side. */
  lemma ContainsInContext(a: string, s: string, b: string, sub: string)
    requires Contains(s, sub)
    ensures Contains(a + s + b, sub)
  {
    ContainsIffOccurs(s, sub);
    ContainsIffOccurs(a + s + b, sub);
    var i :| OccursAt(s, sub, i);
    assert (a + s + b)[|a| + i..|a| + i + |sub|] == s[i..i + |sub|];
    assert OccursAt(a + s + b, sub, |a| + i);
  }

  /** An occurrence inside a slice is an occurrence in the whole string. */
  lemma OccursInSlice(s: string, lo: int, hi: int, sub: string, i: int)
    requires 0 <= lo <= hi <= |s|
    requires OccursAt(s[lo..hi], sub, i)
    ensures OccursAt(s, sub, lo + i)
  {
    var t := s[lo..hi];
    assert forall k | 0 <= k < |sub| :: s[lo + i + k] == t[i + k] == sub[k];
    assert s[lo + i..lo + i + |sub|] == sub;
  }

  /** Highest `i <= k` at which `sub` occurs, or -1. */
  function RFindBelow(s: string, sub: string, k: int): (r: int)
    ensures r == -1 || (0 <= r <= k && OccursAt(s, sub, r))
    ensures forall i :: r < i <= k ==> !OccursAt(s, sub, i)
    decreases if k < 0 then 0 else k + 1
  {
    if k < 0 then -1
    else if OccursAt(s, sub, k) then k
    else RFindBelow(s, sub, k - 1)
  }

  /** `s.rfind(sub)`: the index of the last occurrence of `sub`, or -1 when there is none. */
  function RFind(s: string, sub: string): (r: int)
    ensures r == -1 <==> forall i :: !OccursAt(s, sub, i)
    ensures r != -1 ==> OccursAt(s, sub, r) && forall i :: r < i ==> !OccursAt(s, sub, i)
  {
    RFindBelow(s, sub, |s| - |sub|)
  }

  /** Python's `str.isspace` for one character: the exact set `str.strip()` removes. */
  predicate IsSpace(c: char)
  {
    || ('\t' <= c <= '\r')
    || ('\U{1c}' <= c <= ' ')
    || c == '\U{85}' || c == '\U{a0}' || c == '\U{1680}'
    || ('\U{2000}' <= c <= '\U{200a}')
    || c == '\U{2028}' || c == '\U{2029}' || c == '\U{202f}' || c == '\U{205f}' || c == '\U{3000}'
  }

  /** How many whitespace characters `s` starts with. */
  function LeadingSpaces(s: string): (n: nat)
    ensures n <= |s|
    ensures forall i | 0 <= i < n :: IsSpace(s[i])
    ensures n < |s| ==> !IsSpace(s[n])
    decreases |s|
  {
    if |s| > 0 && IsSpace(s[0]) then
      var n := 1 + LeadingSpaces(s[1..]);
      assert forall i | 1 <= i < |s| :: s[i] == s[1..][i - 1];
      n
    else 0
  }

  /** How many whitespace characters `s` ends with. */
  function TrailingSpaces(s: string): (n: nat)
    ensures n <= |s|
    ensures forall i | |s| - n <= i < |s| :: IsSpace(s[i])
    ensures n < |s| ==> !IsSpace(s[|s| - n - 1])
    decreases |s|
  {
    if |s| > 0 && IsSpace(s[|s| - 1]) then
      var n := 1 + TrailingSpaces(s[..|s| - 1]);
      assert forall i | 0 <= i < |s| - 1 :: s[i] == s[..|s| - 1][i];
      n
    else 0
  }

  /** `s.lstrip()`: drops leading whitespace and nothing else. */
  function TrimStart(s: string): (r: string)
    ensures |r| <= |s| && r == s[|s| - |r|..]
    ensures forall i | 0 <= i < |s| - |r| :: IsSpace(s[i])
    ensures |r| > 0 ==> !IsSpace(r[0])
  {
    s[LeadingSpaces(s)..]
  }

  /** `s.rstrip()`: drops trailing whitespace and nothing else. */
  function TrimEnd(s: string): (r: string)
    ensures |r| <= |s| && r == s[..|r|]
    ensures forall i | |r| <= i < |s| :: IsSpace(s[i])
    ensures |r| > 0 ==> !IsSpace(r[|r| - 1])
  {
    s[..|s| - TrailingSpaces(s)]
  }

  /** `r` is what is left of `s` once `k` leading and some number of trailing
      characters, all whitespace, are removed. */
  predicate IsStripOf(s: string, r: string, k: nat)
  {
    && k + |r| <= |s|
    && r == s[k..k + |r|]
    && (forall i | 0 <= i < k :: IsSpace(s[i]))
    && (forall i | k + |r| <= i < |s| :: IsSpace(s[i]))
  }

  /** `s.strip()`: the substring left once whitespace is removed from both ends, which
      then neither starts nor ends with whitespace. */
  function Strip(s: string): (r: string)
    ensures |r| <= |s|
    ensures IsSubstring(s, r)
    ensures exists k: nat :: IsStripOf(s, r, k)
    ensures |r| > 0 ==> !IsSpace(r[0]) && !IsSpace(r[|r| - 1])
  {
    var t := TrimStart(s);
    var r := TrimEnd(t);
    TrimBothStrips(s);
    StripOccurs(s, r, |s| - |t|);
    TrimBothEnds(s);
    r
  }

  /** What is left after stripping occurs in the string where the prefix ends. */
  lemma StripOccurs(s: string, r: string, k: nat)
    requires IsStripOf(s, r, k)
    ensures |r| <= |s| && OccursAt(s, r, k) && IsSubstring(s, r)
  {
    assert 0 <= k <= |s| && OccursAt(s, r, k);
  }

  /** After trimming both ends, neither end is whitespace. */
  lemma TrimBothEnds(s: string)
    ensures var r := TrimEnd(TrimStart(s));
      |r| > 0 ==> !IsSpace(r[0]) && !IsSpace(r[|r| - 1])
  {
    var t := TrimStart(s);
    var r := TrimEnd(t);
    if |r| > 0 {
      assert r[0] == t[0];
    }
  }

  /** Trimming the start and then the end removes a whitespace prefix and suffix. */
  lemma TrimBothStrips(s: string)
    ensures var t := TrimStart(s);
      IsStripOf(s, TrimEnd(t), |s| - |t|)
  {
    var t := TrimStart(s);
    var r := TrimEnd(t);
    var k := |s| - |t|;
    assert s[k..k + |r|] == t[..|r|];
    forall i | k + |r| <= i < |s| ensures IsSpace(s[i]) {
      assert s[i] == t[i - k];
    }
  }

  /** `lstrip` removes exactly a whitespace prefix. */
  lemma TrimStartSpaces(pre: string, x: string)
    requires forall i | 0 <= i < |pre| :: IsSpace(pre[i])
    requires |x| > 0 && !IsSpace(x[0])
    ensures TrimStart(pre + x) == x
  {
    var s := pre + x;
    var n := LeadingSpaces(s);
    assert s[|pre|] == x[0];
    assert forall i | 0 <= i < |pre| :: s[i] == pre[i];
    assert n == |pre|;
    assert s[|pre|..] == x;
  }

  /** `rstrip` removes exactly a whitespace suffix. */
  lemma TrimEndSpaces(x: string, post: string)
    requires forall i | 0 <= i < |post| :: IsSpace(post[i])
    requires |x| > 0 && !IsSpace(x[|x| - 1])
    ensures TrimEnd(x + post) == x
  {
    var s := x + post;
    var n := TrailingSpaces(s);
    assert s[|x| - 1] == x[|x| - 1];
    assert forall i | |x| <= i < |s| :: s[i] == post[i - |x|];
    assert n == |post|;
    assert s[..|x|] == x;
  }

  /** `strip` of a word padded with whitespace is the word. */
  lemma StripPadded(pre: string, x: string, post: string)
    requires forall i | 0 <= i < |pre| :: IsSpace(pre[i])
    requires forall i | 0 <= i < |post| :: IsSpace(post[i])
    requires |x| > 0 && !IsSpace(x[0]) && !IsSpace(x[|x| - 1])
    ensures Strip(pre + x + post) == x
  {
    assert pre + x + post == pre + (x + post);
    TrimStartSpaces(pre, x + post);
    TrimEndSpaces(x, post);
  }

  /** `c.lower()` for ASCII letters. */
  function LowerChar(c: char): char
  {
    if 'A' <= c <= 'Z' then (c as int + 32) as char else c
  }

  /** `s.lower()`, character by character. */
  function Lower(s: string): string
  {
    seq(|s|, i requires 0 <= i < |s| => LowerChar(s[i]))
  }

  lemma LowerConcat(a: string, b: string)
    ensures Lower(a + b) == Lower(a) + Lower(b)
  {
  }

  /** Lower-casing commutes with slicing. */
  lemma LowerSlice(s: string, i: int, j: int)
    requires 0 <= i <= j <= |s|
    ensures Lower(s)[i..j] == Lower(s[i..j])
  {
  }

  /** A string without capital letters is its own lower case. */
  lemma LowerNoCapitals(s: string)
    requires forall k | 0 <= k < |s| :: !('A' <= s[k] <= 'Z')
    ensures Lower(s) == s
  {
  }

  /** The decimal digit `d`. */
  function DigitChar(d: int): char
    requires 0 <= d < 10
  {
    ('0' as int + d) as char
  }

  /** `str(n)` for a non-negative integer: its decimal digits, most significant first. */
  function NatToString(n: nat): (r: string)
    ensures |r| >= 1
    ensures forall i | 0 <= i < |r| :: '0' <= r[i] <= '9'
    ensures n >= 10 ==> |r| >= 2
  {
    if n < 10 then [DigitChar(n)] else NatToString(n / 10) + [DigitChar(n % 10)]
  }

  /** Distinct numbers print differently, so `"qa_" + str(i)` ids never collide. */
  lemma {:induction false} NatToStringInjective(a: nat, b: nat)
    requires NatToString(a) == NatToString(b)
    ensures a == b
  {
    var s := NatToString(a);
    if a < 10 && b < 10 {
      assert [DigitChar(a)] == [DigitChar(b)];
    } else if a >= 10 && b >= 10 {
      var sa := NatToString(a / 10);
      var sb := NatToString(b / 10);
      assert s[|s| - 1] == DigitChar(a % 10) == DigitChar(b % 10);
      assert sa == s[..|s| - 1] == sb;
      NatToStringInjective(a / 10, b / 10);
    }
  }

  /** Strings with a common prefix are equal only if the rests are. */
  lemma PrefixCancel(p: string, a: string, b: string)
    requires p + a == p + b
    ensures a == b
  {
    assert a == (p + a)[|p|..];
    assert b == (p + b)[|p|..];
  }

  /** `sep.join(parts)`. */
  function Join(parts: seq<string>, sep: string): string
  {
    if |parts| == 0 then ""
    else if |parts| == 1 then parts[0]
    else Join(parts[..|parts| - 1], sep) + sep + parts[|parts| - 1]
  }

  /** A joined string starts with its first part. */
  lemma {:induction false} JoinStartsWithFirst(parts: seq<string>, sep: string)
    requires |parts| > 0
    ensures StartsWith(Join(parts, sep), parts[0])
  {
    if |parts| > 1 {
      var init := parts[..|parts| - 1];
      JoinStartsWithFirst(init, sep);
      assert init[0] == parts[0];
      var j := Join(init, sep);
      assert (j + sep + parts[|parts| - 1])[..|parts[0]|] == j[..|parts[0]|];
    }
  }

  /** A run of `n` copies of `c`. */
  function Repeat(c: char, n: nat): (r: string)
    ensures |r| == n && forall i | 0 <= i < n :: r[i] == c
  {
    seq(n, _ => c)
  }
}
