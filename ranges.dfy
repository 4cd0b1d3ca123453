/** Integer ranges as the launcher uses them: `range(n)` for sequential
    seeds and `np.arange(a, b)` for the seeds one worker runs. */
module Ranges {

  /** `np.arange(a, b)`: the integers from `a` up to but excluding `b`, in
      increasing order; empty when `b <= a`. */
  function Range(a: int, b: int): (r: seq<int>)
    ensures |r| == if b <= a then 0 else b - a
    decreases b - a
  {
    if b <= a then [] else Range(a, b - 1) + [b - 1]
  }

  /** The `i`-th element of a range is `a + i`. */
  lemma {:induction false} RangeAt(a: int, b: int, i: nat)
    requires i < b - a
    ensures Range(a, b)[i] == a + i
    decreases b - a
  {
    if i < b - 1 - a {
      RangeAt(a, b - 1, i);
    }
  }

  /** A value is in a range exactly when it lies between the bounds. */
  lemma RangeHas(a: int, b: int, x: int)
    ensures x in Range(a, b) <==> a <= x < b
  {
    if a <= x < b {
      RangeAt(a, b, x - a);
    }
    if x in Range(a, b) {
      var i :| 0 <= i < |Range(a, b)| && Range(a, b)[i] == x;
      RangeAt(a, b, i);
    }
  }

  /** Two adjacent ranges together make the range spanning both. */
  lemma {:induction false} RangeAppend(a: int, b: int, c: int)
    requires a <= b <= c
    ensures Range(a, b) + Range(b, c) == Range(a, c)
    decreases c - b
  {
    if b < c {
      RangeAppend(a, b, c - 1);
      assert Range(a, b) + Range(b, c) == (Range(a, b) + Range(b, c - 1)) + [c - 1];
    }
  }

  /** No value occurs twice in a sequence. */
  predicate Distinct(s: seq<int>) {
    forall i, j :: 0 <= i < j < |s| ==> s[i] != s[j]
  }

  lemma RangeDistinct(a: int, b: int)
    ensures Distinct(Range(a, b))
  {
    forall i, j | 0 <= i < j < |Range(a, b)| ensures Range(a, b)[i] != Range(a, b)[j] {
      RangeAt(a, b, i);
      RangeAt(a, b, j);
    }
  }
}
