/** The Python list builtins the optimizer relies on: `sum` over integers and
    the slices `s[start:]` and `s[:stop]`, with Python's rules for negative
    and out-of-range bounds. */
module PySeq {

  /** `sum(s)`, accumulated from the left as Python does. */
  function Sum(s: seq<int>): int
  {
    if s == [] then 0 else Sum(s[..|s| - 1]) + s[|s| - 1]
  }

  lemma {:induction false} SumAppend(a: seq<int>, b: seq<int>)
    ensures Sum(a + b) == Sum(a) + Sum(b)
  {
    if b == [] {
      assert a + b == a;
    } else {
      SumAppend(a, b[..|b| - 1]);
      assert (a + b)[..|a + b| - 1] == a + b[..|b| - 1];
    }
  }

  /** Replacing one element changes the sum by the difference. */
  lemma {:induction false} SumUpdate(s: seq<int>, k: int, v: int)
    requires 0 <= k < |s|
    ensures Sum(s[k := v]) == Sum(s) - s[k] + v
  {
    var n := |s| - 1;
    if k == n {
      assert s[k := v][..n] == s[..n];
    } else {
      assert s[k := v][..n] == s[..n][k := v];
      SumUpdate(s[..n], k, v);
    }
  }

  /** A list of n integers each in [lo, hi] sums to a value in [n*lo, n*hi]. */
  lemma {:induction false} SumBounds(s: seq<int>, lo: int, hi: int)
    requires forall i :: 0 <= i < |s| ==> lo <= s[i] <= hi
    ensures |s| * lo <= Sum(s) <= |s| * hi
  {
    if s != [] {
      var n := |s| - 1;
      SumBounds(s[..n], lo, hi);
      assert |s| * lo == n * lo + lo && |s| * hi == n * hi + hi;
    }
  }

  /** The index Python uses for a slice bound `b` on a list of length n:
      negative bounds count from the end, and the result is clamped to [0, n]. */
  function SliceIndex(b: int, n: nat): (k: nat)
    ensures k <= n
  {
    if b < 0 then (if n + b < 0 then 0 else n + b)
    else if b > n then n else b
  }

  /** A negative bound -m with m <= n means the same position as n - m, and
      a bound within [0, n] is used as it is; so every bound from -n to n
      names a position counted either from the front or from the end. */
  lemma SliceIndexFromEnd(b: int, n: nat)
    ensures 0 < -b <= n ==> SliceIndex(b, n) == SliceIndex(b + n, n)
    ensures 0 <= b <= n ==> SliceIndex(b, n) == b
  {
  }

  /** `s[start:]`: a suffix of s. */
  function SliceFrom<T>(s: seq<T>, start: int): (r: seq<T>)
    ensures |r| <= |s| && r == s[|s| - |r|..]
    ensures 0 <= start <= |s| ==> |r| == |s| - start
    ensures start < 0 && 0 <= |s| + start ==> |r| == -start
    ensures start > |s| ==> r == []
    ensures |s| + start < 0 ==> r == s
  {
    s[SliceIndex(start, |s|)..]
  }

  /** `s[:stop]`: a prefix of s. */
  function SliceTo<T>(s: seq<T>, stop: int): (r: seq<T>)
    ensures |r| <= |s| && r == s[..|r|]
    ensures 0 <= stop <= |s| ==> |r| == stop
    ensures stop < 0 && 0 <= |s| + stop ==> |r| == |s| + stop
    ensures stop > |s| ==> r == s
    ensures |s| + stop < 0 ==> r == []
  {
    s[..SliceIndex(stop, |s|)]
  }
}
