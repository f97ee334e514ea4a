/**
 The few functions of Go's `strings` package that the redirector uses, on
 `string` (a sequence of characters standing for Go's bytes).
 */
module GoStrings {

  /** strings.HasPrefix */
  predicate HasPrefix(s: string, prefix: string) {
    |prefix| <= |s| && s[..|prefix|] == prefix
  }

  /** strings.HasSuffix */
  predicate HasSuffix(s: string, suffix: string) {
    |suffix| <= |s| && s[|s| - |suffix|..] == suffix
  }

  /** strings.TrimSuffix: removes one copy of `suffix` from the end of `s`, if it is there. */
  function TrimSuffix(s: string, suffix: string): (t: string)
    ensures HasSuffix(s, suffix) ==> t + suffix == s
    ensures !HasSuffix(s, suffix) ==> t == s
  {
    if HasSuffix(s, suffix) then s[..|s| - |suffix|] else s
  }

  /**
   strings.IndexByte: the index of the first `c` in `s`, or -1 when there is none.
   */
  function IndexByte(s: string, c: char): (i: int)
    ensures -1 <= i < |s|
    ensures i == -1 <==> c !in s
    ensures 0 <= i ==> s[i] == c && c !in s[..i]
    decreases |s|
  {
    if s == [] then -1
    else if s[0] == c then 0
    else
      var k := IndexByte(s[1..], c);
      if k == -1 then -1 else k + 1
  }

  /** Any index holding the first `c` is the one IndexByte returns. */
  lemma IndexByteAt(s: string, c: char, i: nat)
    requires i < |s| && s[i] == c && c !in s[..i]
    ensures IndexByte(s, c) == i
  {
    assert s[i] in s;
  }

  /** `sub` occurs in `s` starting at index `i`. */
  predicate OccursAt(s: string, sub: string, i: nat) {
    i + |sub| <= |s| && s[i..i + |sub|] == sub
  }

  /** strings.Contains: `sub` occurs somewhere in `s`. */
  function Contains(s: string, sub: string): (b: bool)
    ensures b <==> exists i: nat :: OccursAt(s, sub, i)
    decreases |s|
  {
    if HasPrefix(s, sub) then
      assert OccursAt(s, sub, 0);
      true
    else if s == [] then
      false
    else
      var b := Contains(s[1..], sub);
      if b then
        var i: nat :| OccursAt(s[1..], sub, i);
        assert s[i + 1..i + 1 + |sub|] == s[1..][i..i + |sub|];
        assert OccursAt(s, sub, i + 1);
        true
      else
        assert forall i: nat :: OccursAt(s, sub, i) ==> i > 0 && OccursAt(s[1..], sub, i - 1) by {
          forall i: nat | OccursAt(s, sub, i) ensures i > 0 && OccursAt(s[1..], sub, i - 1) {
            assert s[1..][i - 1..i - 1 + |sub|] == s[i..i + |sub|];
          }
        }
        false
  }

  /** A string ends in what was appended to it, and trimming that gives the front back. */
  lemma HasSuffixConcat(front: string, suffix: string)
    ensures HasSuffix(front + suffix, suffix)
    ensures TrimSuffix(front + suffix, suffix) == front
  {
    assert (front + suffix)[|front|..] == suffix;
    assert (front + suffix)[..|front|] == front;
  }

  /** What a string ends in, once a common tail is cut off both, the front still ends in. */
  lemma HasSuffixCancel(front: string, suffix: string, tail: string)
    ensures HasSuffix(front + tail, suffix + tail) ==> HasSuffix(front, suffix)
  {
    if HasSuffix(front + tail, suffix + tail) {
      var s := front + tail;
      assert s[..|front|] == front;
      assert front[|front| - |suffix|..] == s[|s| - |suffix + tail|..][..|suffix|];
    }
  }

  /** A string contains whatever stands in its middle. */
  lemma ContainsMiddle(a: string, sub: string, b: string)
    ensures Contains(a + sub + b, sub)
  {
    var s := a + sub + b;
    assert s[|a|..|a| + |sub|] == sub;
    assert OccursAt(s, sub, |a|);
  }

  /** HasPrefix holds exactly when `s` is `prefix` followed by something. */
  lemma HasPrefixConcat(prefix: string, rest: string)
    ensures HasPrefix(prefix + rest, prefix)
    ensures (prefix + rest)[|prefix|..] == rest
  {
    assert (prefix + rest)[..|prefix|] == prefix;
  }
}
