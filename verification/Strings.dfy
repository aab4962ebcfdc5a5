/** Searching in strings. */
module Strings {

  /** First position of `c` in `s` at or after `from`, or -1. */
  function Find(s: string, c: char, from: nat): (i: int)
    ensures i == -1 || (from <= i < |s| && s[i] == c)
    ensures forall k | from <= k < (if i == -1 then |s| else i) :: s[k] != c
    decreases |s| - from
  {
    if from >= |s| then -1 else if s[from] == c then from else Find(s, c, from + 1)
  }
}
