/** The string operations the source calls: `toLowerCase`, `includes`,
    `trim`, `split` and `join`, over ASCII. */
module Strings {

  /** `toLowerCase` on one character (ASCII letters only). */
  function LowerChar(c: char): char
  {
    if 'A' <= c <= 'Z' then (c as int + 32) as char else c
  }

  predicate IsLower(s: string)
  {
    forall i :: 0 <= i < |s| ==> !('A' <= s[i] <= 'Z')
  }

  /** `s.toLowerCase()`. */
  function Lower(s: string): (r: string)
    ensures |r| == |s|
    ensures forall i :: 0 <= i < |s| ==> r[i] == LowerChar(s[i])
    ensures IsLower(r)
  {
    seq(|s|, i requires 0 <= i < |s| => LowerChar(s[i]))
  }

  /** Lowering leaves an already lower-case string alone, so lowering twice is lowering once. */
  lemma LowerIdempotent(s: string)
    ensures IsLower(s) ==> Lower(s) == s
    ensures Lower(Lower(s)) == Lower(s)
  {
    assert IsLower(Lower(s));
  }

  /** `s.includes(sub)`: `sub` occurs at some position of `s`. */
  predicate Contains(s: string, sub: string)
    decreases |s|
  {
    |sub| <= |s| && (s[..|sub|] == sub || (s != [] && Contains(s[1..], sub)))
  }

  /** The white space `trim` removes (its ASCII part). */
  predicate IsSpace(c: char)
  {
    c == ' ' || c == '\t' || c == '\n' || c == '\r' || c as int == 11 || c as int == 12
  }

  /** Nothing but white space. */
  predicate AllSpace(s: string)
  {
    forall i :: 0 <= i < |s| ==> IsSpace(s[i])
  }

  /** Neither end is white space. */
  predicate IsTrimmed(s: string)
  {
    s == [] || (!IsSpace(s[0]) && !IsSpace(s[|s| - 1]))
  }

  function TrimStart(s: string): (r: string)
    ensures |r| <= |s| && r == s[|s| - |r|..]
    ensures AllSpace(s[..|s| - |r|])
    ensures r == [] || !IsSpace(r[0])
  {
    if s != [] && IsSpace(s[0]) then TrimStart(s[1..]) else s
  }

  function TrimEnd(s: string): (r: string)
    ensures |r| <= |s| && r == s[..|r|]
    ensures AllSpace(s[|r|..])
    ensures r == [] || !IsSpace(r[|r| - 1])
  {
    if s != [] && IsSpace(s[|s| - 1]) then TrimEnd(s[..|s| - 1]) else s
  }

  /** `s` is `k` white-space characters, then `r`, then white space only. */
  predicate Padded(s: string, k: int, r: string)
  {
    0 <= k <= |s| - |r| && s == s[..k] + r + s[k + |r|..] && AllSpace(s[..k]) && AllSpace(s[k + |r|..])
  }

  /** `s.trim()`: `s` is some white space, then the result, then some white space, and the result
      neither starts nor ends with white space. */
  function Trim(s: string): (r: string)
    ensures IsTrimmed(r)
    ensures |r| <= |s|
    ensures exists k :: Padded(s, k, r)
  {
    var r := TrimEnd(TrimStart(s));
    TrimStartThenEnd(s);
    assert Padded(s, |s| - |TrimStart(s)|, r);
    r
  }

  /** Trimming the start and then the end removes only white space, from the two ends. */
  lemma TrimStartThenEnd(s: string)
    ensures Padded(s, |s| - |TrimStart(s)|, TrimEnd(TrimStart(s)))
  {
    var t := TrimStart(s);
    PaddedBySlices(s, |s| - |t|, t, TrimEnd(t));
  }

  /** White space cut off the front (leaving `t`) and then off the back of `t` (leaving `r`). */
  lemma PaddedBySlices(s: string, k: int, t: string, r: string)
    requires 0 <= k <= |s| && t == s[k..] && AllSpace(s[..k])
    requires |r| <= |t| && r == t[..|r|] && AllSpace(t[|r|..])
    ensures Padded(s, k, r)
  {
    assert s[k + |r|..] == t[|r|..];
    assert s[k..k + |r|] == r;
    assert s == s[..k] + s[k..k + |r|] + s[k + |r|..];
  }

  /** Trimming a trimmed string changes nothing, and neither does a space put in front of it. */
  lemma TrimSpacePrefixed(s: string)
    requires IsTrimmed(s)
    ensures Trim(s) == s
    ensures Trim(" " + s) == s
  {
    if s == [] {
      assert " " + s == " " && " "[1..] == "";
      assert TrimStart(" ") == TrimStart("") == "";
      assert Trim(" ") == TrimEnd("") == "";
    } else {
      assert TrimStart(s) == s;
      assert TrimEnd(s) == s;
      assert Trim(s) == s;
      assert (" " + s)[0] == ' ' && (" " + s)[1..] == s;
      assert TrimStart(" " + s) == TrimStart(s);
      assert Trim(" " + s) == TrimEnd(s);
    }
  }

  /** `s.split(sep)` for a one-character separator: never empty; `"".split(",")` is `[""]`. */
  function Split(s: string, sep: char): (r: seq<string>)
    ensures |r| >= 1
    ensures forall i :: 0 <= i < |r| ==> sep !in r[i]
  {
    if s == [] then [""]
    else if s[0] == sep then [""] + Split(s[1..], sep)
    else
      var rest := Split(s[1..], sep);
      [[s[0]] + rest[0]] + rest[1..]
  }

  /** `xs.join(sep)`. */
  function Join(xs: seq<string>, sep: string): string
  {
    if xs == [] then ""
    else if |xs| == 1 then xs[0]
    else xs[0] + sep + Join(xs[1..], sep)
  }

  /** A string without the separator splits into itself. */
  lemma {:induction false} SplitNoSeparator(s: string, sep: char)
    requires sep !in s
    ensures Split(s, sep) == [s]
  {
    if s != [] {
      SplitNoSeparator(s[1..], sep);
      assert [s[0]] + s[1..] == s;
    }
  }

  /** Splitting at the first separator: the piece before it, then the split of the rest. */
  lemma {:induction false} SplitAtFirst(a: string, sep: char, b: string)
    requires sep !in a
    ensures Split(a + [sep] + b, sep) == [a] + Split(b, sep)
  {
    if a == [] {
      assert a + [sep] + b == [sep] + b;
      assert ([sep] + b)[1..] == b;
    } else {
      var s := a + [sep] + b;
      assert s[0] == a[0] && s[0] != sep;
      assert s[1..] == a[1..] + [sep] + b;
      SplitAtFirst(a[1..], sep, b);
      assert [a[0]] + a[1..] == a;
    }
  }

  /** An occurrence at a known position is an occurrence. */
  lemma {:induction false} ContainsAt(s: string, sub: string, k: nat)
    requires k + |sub| <= |s| && s[k..][..|sub|] == sub
    ensures Contains(s, sub)
    decreases k
  {
    if k > 0 {
      assert s[1..][k - 1..] == s[k..];
      ContainsAt(s[1..], sub, k - 1);
    }
  }
}
