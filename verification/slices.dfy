/** Python's list slicing with integer bounds. */
module Slices {

  /** The position a slice bound `n` denotes in a list of length `len`: a
      negative bound counts from the end, and bounds are clamped. */
  function Bound(len: nat, n: int): (b: nat)
    ensures b <= len
    ensures 0 <= n <= len ==> b == n
    ensures n > len ==> b == len
    ensures n < 0 ==> b == if len + n >= 0 then len + n else 0
  {
    if n >= 0 then (if n <= len then n else len)
    else if len + n >= 0 then len + n
    else 0
  }

  /** `xs[:n]` */
  function SliceTo<T>(xs: seq<T>, n: int): (r: seq<T>)
    ensures |r| <= |xs| && r == xs[..|r|]
    ensures n >= 0 ==> |r| == if n <= |xs| then n else |xs|
    ensures n < 0 ==> |r| == if |xs| + n >= 0 then |xs| + n else 0
  {
    xs[..Bound(|xs|, n)]
  }

  /** `xs[n:]` */
  function SliceFrom<T>(xs: seq<T>, n: int): (r: seq<T>)
    ensures |r| <= |xs| && r == xs[|xs| - |r|..]
    ensures n >= 0 ==> |r| == if n <= |xs| then |xs| - n else 0
    ensures n < 0 ==> |r| == if |xs| + n >= 0 then -n else |xs|
  {
    xs[Bound(|xs|, n)..]
  }

  /** `xs[:n] + xs[n:] == xs` for every integer `n`. */
  lemma SliceSplit<T>(xs: seq<T>, n: int)
    ensures SliceTo(xs, n) + SliceFrom(xs, n) == xs
    ensures |SliceTo(xs, n)| + |SliceFrom(xs, n)| == |xs|
  {
    var b := Bound(|xs|, n);
    assert xs[..b] + xs[b..] == xs;
  }
}
