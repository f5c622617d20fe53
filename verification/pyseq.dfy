/** Python's slicing of `bytes` and lists with step 1, on Dafny sequences. */
module PySeq {
  import opened Results

  /** How Python normalises one slice bound against a length `n`. */
  function ClampBound(i: int, n: nat): (b: nat)
    ensures b <= n
  {
    if i < 0 then (if i + n < 0 then 0 else i + n)
    else if i > n then n
    else i
  }

  /** `s[start:stop]`: absent bounds default to the ends, negative bounds count from the end, and nothing raises. */
  function Slice<T>(s: seq<T>, start: Option<int>, stop: Option<int>): (r: seq<T>)
    ensures |r| <= |s|
    ensures forall x :: x in r ==> x in s
  {
    var lo := if start.Some? then ClampBound(start.value, |s|) else 0;
    var hi := if stop.Some? then ClampBound(stop.value, |s|) else |s|;
    if lo < hi then s[lo..hi] else []
  }

  /** A half-open range inside the sequence is taken as it is. */
  lemma SliceHalfOpen<T>(s: seq<T>, a: int, b: int)
    requires 0 <= a <= b <= |s|
    ensures Slice(s, Some(a), Some(b)) == s[a..b]
  {
  }

  /** `s[:k]` keeps the first `k` elements, or all of them when there are fewer. */
  lemma SlicePrefix<T>(s: seq<T>, k: nat)
    ensures Slice(s, None, Some(k)) == if k <= |s| then s[..k] else s
  {
  }

  /** `s[-k:]` keeps the last `k` elements, or all of them when there are fewer. */
  lemma SliceSuffix<T>(s: seq<T>, k: int)
    requires 0 < k
    ensures Slice(s, Some(-k), None) == if k <= |s| then s[|s| - k..] else s
  {
  }

  /** Python's resolution of a negative index: add the length once. */
  function Wrap(k: int, n: nat): int {
    if k < 0 then k + n else k
  }

  /** Slicing commutes with an element-wise map. */
  lemma SliceMap<T, U>(s: seq<T>, f: T -> U, t: seq<U>, start: Option<int>, stop: Option<int>)
    requires |t| == |s|
    requires forall i :: 0 <= i < |s| ==> t[i] == f(s[i])
    ensures |Slice(t, start, stop)| == |Slice(s, start, stop)|
    ensures forall i :: 0 <= i < |Slice(s, start, stop)| ==> Slice(t, start, stop)[i] == f(Slice(s, start, stop)[i])
  {
  }
}
