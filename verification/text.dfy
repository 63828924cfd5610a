/**
 * Character-level operations of Python's `str` that the engine relies on:
 * `strip`, `lstrip("0")`, clamped slicing, the substring test `in`,
 * `count` and `replace`.
 */
module Text {

  /**
   * `str.isspace()`: the characters of Unicode category Zs or of
   * bidirectional class WS, B or S, which are the ones `strip()` removes.
   */
  predicate IsSpace(c: char) {
    var k := c as int;
    if k <= 0xA0 then k == 32 || 9 <= k <= 13 || 28 <= k <= 31 || k == 0x85 || k == 0xA0
    else k == 0x1680 || 0x2000 <= k <= 0x200A || k == 0x2028 || k == 0x2029 || k == 0x202F || k == 0x205F || k == 0x3000
  }

  /** `s.lstrip()`: drops leading whitespace. */
  function TrimLeft(s: string): (r: string)
    ensures |r| <= |s| && r == s[|s| - |r|..]
    ensures forall k :: 0 <= k < |s| - |r| ==> IsSpace(s[k])
    ensures |r| > 0 ==> !IsSpace(r[0])
  {
    if |s| > 0 && IsSpace(s[0]) then TrimLeft(s[1..]) else s
  }

  /** `s.rstrip()`: drops trailing whitespace. */
  function TrimRight(s: string): (r: string)
    ensures |r| <= |s| && r == s[..|r|]
    ensures forall k :: |r| <= k < |s| ==> IsSpace(s[k])
    ensures |r| > 0 ==> !IsSpace(r[|r| - 1])
  {
    if |s| > 0 && IsSpace(s[|s| - 1]) then TrimRight(s[..|s| - 1]) else s
  }

  /** `s.strip()`: the longest middle part with no whitespace at either end. */
  function Strip(s: string): (r: string)
    ensures |r| > 0 ==> !IsSpace(r[0]) && !IsSpace(r[|r| - 1])
    ensures |s| > 0 && !IsSpace(s[0]) && !IsSpace(s[|s| - 1]) ==> r == s
  {
    TrimRight(TrimLeft(s))
  }

  /** What `strip()` removes is whitespace at the two ends, and nothing else. */
  lemma StripRemovesEnds(s: string)
    ensures exists i :: StrippedAt(s, Strip(s), i)
  {
    StripWitness(s, TrimLeft(s), Strip(s));
  }

  /** `r` is `s[i..i + |r|]` and everything of `s` outside that part is whitespace. */
  predicate StrippedAt(s: string, r: string, i: int) {
    && OccursAt(r, s, i)
    && (forall k :: 0 <= k < i ==> IsSpace(s[k]))
    && (forall k :: i + |r| <= k < |s| ==> IsSpace(s[k]))
  }

  lemma StripWitness(s: string, l: string, r: string)
    requires |l| <= |s| && l == s[|s| - |l|..] && |r| <= |l| && r == l[..|r|]
    requires forall k :: 0 <= k < |s| - |l| ==> IsSpace(s[k])
    requires forall k :: |r| <= k < |l| ==> IsSpace(l[k])
    ensures StrippedAt(s, r, |s| - |l|)
  {
    var i := |s| - |l|;
    var m := |r|;
    assert s[i..][..m] == s[i..i + m];
    forall k | i + m <= k < |s|
      ensures IsSpace(s[k])
    {
      assert s[k] == l[k - i];
    }
  }

  /** `s.lstrip(c)`: drops leading copies of `c`. */
  function StripLeading(s: string, c: char): (r: string)
    ensures |r| <= |s| && r == s[|s| - |r|..]
    ensures forall k :: 0 <= k < |s| - |r| ==> s[k] == c
    ensures |r| > 0 ==> r[0] != c
  {
    if |s| > 0 && s[0] == c then StripLeading(s[1..], c) else s
  }

  /** `s[a:b]` for non-negative bounds: Python clamps both bounds to the length and yields "" when they cross. */
  function Slice(s: string, a: nat, b: nat): (r: string)
    ensures b <= |s| && a <= b ==> r == s[a..b]
    ensures |r| <= |s| && (a >= |s| || b <= a ==> r == [])
  {
    var hi := if b <= |s| then b else |s|;
    if a < hi then s[a..hi] else []
  }

  /** `pat` occurs in `s` starting at index `i`. */
  predicate OccursAt(pat: string, s: string, i: int) {
    0 <= i && i + |pat| <= |s| && s[i..i + |pat|] == pat
  }

  /** `pat in s`, computed by scanning; its contract states the meaning. */
  predicate Contains(pat: string, s: string)
    ensures Contains(pat, s) <==> exists i :: OccursAt(pat, s, i)
    decreases |s|
  {
    if |pat| <= |s| && s[..|pat|] == pat then
      assert OccursAt(pat, s, 0);
      true
    else if |s| == 0 then
      assert forall i :: !OccursAt(pat, s, i);
      false
    else
      var rest := Contains(pat, s[1..]);
      assert forall i :: OccursAt(pat, s[1..], i) <==> OccursAt(pat, s, i + 1);
      assert forall i :: OccursAt(pat, s, i) && i > 0 ==> OccursAt(pat, s[1..], i - 1);
      rest
  }

  /** `s.count(pat)` for non-empty `pat`: non-overlapping occurrences, scanning left to right. */
  function Count(s: string, pat: string): nat
    requires |pat| > 0
    decreases |s|
  {
    if |s| < |pat| then 0
    else if s[..|pat|] == pat then 1 + Count(s[|pat|..], pat)
    else Count(s[1..], pat)
  }

  /** Python's `"".replace`-with-empty-pattern behaviour: `repl` before every character and at the end. */
  function Interleave(s: string, repl: string): string
    decreases |s|
  {
    if |s| == 0 then repl else repl + [s[0]] + Interleave(s[1..], repl)
  }

  /** `s.replace(target, repl)`: every non-overlapping occurrence, leftmost first. */
  function ReplaceAll(s: string, target: string, repl: string): string
    decreases |s|
  {
    if |target| == 0 then Interleave(s, repl)
    else if |s| < |target| then s
    else if s[..|target|] == target then repl + ReplaceAll(s[|target|..], target, repl)
    else [s[0]] + ReplaceAll(s[1..], target, repl)
  }

  /** Without an occurrence of `target`, `replace` changes nothing. */
  lemma {:induction false} ReplaceAbsent(s: string, target: string, repl: string)
    requires |target| > 0 && !Contains(target, s)
    ensures ReplaceAll(s, target, repl) == s
    decreases |s|
  {
    if |s| >= |target| {
      assert !OccursAt(target, s, 0);
      assert forall i :: OccursAt(target, s[1..], i) ==> OccursAt(target, s, i + 1);
      ReplaceAbsent(s[1..], target, repl);
      assert [s[0]] + s[1..] == s;
    }
  }

  /** The length of the result grows by |repl| - |target| for each occurrence replaced. */
  lemma {:induction false} ReplaceLength(s: string, target: string, repl: string)
    requires |target| > 0
    ensures |ReplaceAll(s, target, repl)| == |s| + Count(s, target) * (|repl| - |target|)
    decreases |s|
  {
    if |s| < |target| {
    } else if s[..|target|] == target {
      var rest := s[|target|..];
      ReplaceLength(rest, target, repl);
      assert ReplaceAll(s, target, repl) == repl + ReplaceAll(rest, target, repl);
      assert Count(s, target) == 1 + Count(rest, target);
      Distribute(Count(rest, target), |repl| - |target|);
    } else {
      ReplaceLength(s[1..], target, repl);
    }
  }

  lemma Distribute(c: int, d: int)
    ensures (1 + c) * d == d + c * d
  {
  }

  /** Replacing text with text of the same width keeps the line width: the fixed-width layout survives a patch. */
  lemma SameWidthReplaceKeepsLength(s: string, target: string, repl: string)
    requires |target| > 0 && |repl| == |target|
    ensures |ReplaceAll(s, target, repl)| == |s|
  {
    ReplaceLength(s, target, repl);
  }

  /** Replacing text by itself is the identity. */
  lemma {:induction false} ReplaceByItself(s: string, target: string)
    ensures ReplaceAll(s, target, target) == s
    decreases |s|
  {
    if |target| == 0 {
      if |s| > 0 {
        ReplaceByItself(s[1..], target);
        assert [s[0]] + s[1..] == s;
      }
    } else if |s| < |target| {
    } else if s[..|target|] == target {
      ReplaceByItself(s[|target|..], target);
      assert s[..|target|] + s[|target|..] == s;
    } else {
      ReplaceByItself(s[1..], target);
      assert [s[0]] + s[1..] == s;
    }
  }
}
