/** The small helpers of the TweakScale `Tools` class that the resolver calls
    (`Max`, `Min`, `Closest`, `Clamp`), the padding with `"".Repeat()`, and the
    `ZipFilter` extension that filters one array by a gate on a parallel array. */
module Tools {

  function Abs(x: real): real {
    if x < 0.0 then -x else x
  }

  /** `Enumerable.Max` of a non-empty array. */
  function Max(s: seq<real>): (r: real)
    requires |s| > 0
    ensures r in s
    ensures forall i :: 0 <= i < |s| ==> s[i] <= r
  {
    if |s| == 1 then s[0]
    else
      var m := Max(s[1..]);
      if s[0] >= m then s[0] else m
  }

  /** `Enumerable.Min` of a non-empty array. */
  function Min(s: seq<real>): (r: real)
    requires |s| > 0
    ensures r in s
    ensures forall i :: 0 <= i < |s| ==> r <= s[i]
  {
    if |s| == 1 then s[0]
    else
      var m := Min(s[1..]);
      if s[0] <= m then s[0] else m
  }

  /** `r` is one of the values of `s` at the least distance from `x`. */
  predicate IsNearest(x: real, s: seq<real>, r: real) {
    r in s && forall i :: 0 <= i < |s| ==> Abs(r - x) <= Abs(s[i] - x)
  }

  /** `Tools.Closest(x, values)`: an element of `values` at the least distance from
      `x` (the earliest one on a tie); `x` itself when there are no values. */
  function Closest(x: real, s: seq<real>): (r: real)
    ensures |s| == 0 ==> r == x
    ensures |s| > 0 ==> IsNearest(x, s, r)
  {
    if |s| == 0 then x
    else if |s| == 1 then s[0]
    else
      var c := Closest(x, s[..|s| - 1]);
      assert forall i :: 0 <= i < |s| - 1 ==> s[i] == s[..|s| - 1][i];
      if Abs(s[|s| - 1] - x) < Abs(c - x) then s[|s| - 1] else c
  }

  /** `Tools.Clamp(x, min, max)`. */
  function Clamp(x: real, lo: real, hi: real): (r: real)
    ensures lo <= hi ==> lo <= r <= hi
    ensures lo <= x <= hi ==> r == x
    ensures x < lo ==> r == lo
    ensures lo <= x && hi < x ==> r == hi
    ensures r == x || r == lo || r == hi
  {
    if x < lo then lo else if x > hi then hi else x
  }

  /** `s.Concat(fill.Repeat()).Take(n)` for an `s` no longer than `n`. */
  function PadRight<T>(s: seq<T>, n: nat, fill: T): (r: seq<T>)
    requires |s| <= n
    ensures |r| == n && r[..|s|] == s
    ensures forall i :: |s| <= i < n ==> r[i] == fill
  {
    s + seq(n - |s|, _ => fill)
  }

  /** `xs.ZipFilter(keys, keep)`: walk `xs` and `keys` side by side, stopping at the
      end of the shorter one, and keep `xs[i]` exactly when `keep(keys[i])`. */
  function ZipFilter<T>(xs: seq<T>, keys: seq<string>, keep: string -> bool): (r: seq<T>)
    ensures |r| <= |xs|
  {
    if |xs| == 0 || |keys| == 0 then []
    else (if keep(keys[0]) then [xs[0]] else []) + ZipFilter(xs[1..], keys[1..], keep)
  }

  /** The indices `i` in `[lo, hi)` with `keep(keys[i])`, in increasing order. */
  function KeptFrom(keys: seq<string>, keep: string -> bool, lo: nat, hi: nat): (r: seq<nat>)
    requires hi <= |keys|
    ensures forall j :: 0 <= j < |r| ==> lo <= r[j] < hi
    decreases hi - lo
  {
    if lo >= hi then []
    else (if keep(keys[lo]) then [lo] else []) + KeptFrom(keys, keep, lo + 1, hi)
  }

  /** The elements of `xs` at the positions `idx`, in that order. */
  function Select<T>(xs: seq<T>, idx: seq<nat>): (r: seq<T>)
    requires forall j :: 0 <= j < |idx| ==> idx[j] < |xs|
    ensures |r| == |idx|
    ensures forall j :: 0 <= j < |idx| ==> r[j] == xs[idx[j]]
  {
    seq(|idx|, j requires 0 <= j < |idx| => xs[idx[j]])
  }

  /** An index lies in `KeptFrom(keys, keep, lo, hi)` exactly when it is in range and
      its key passes the gate. */
  lemma {:induction false} KeptFromMembers(keys: seq<string>, keep: string -> bool, lo: nat, hi: nat, i: nat)
    requires hi <= |keys|
    ensures i in KeptFrom(keys, keep, lo, hi) <==> lo <= i < hi && keep(keys[i])
    decreases hi - lo
  {
    if lo < hi {
      KeptFromMembers(keys, keep, lo + 1, hi, i);
    }
  }

  /** `KeptFrom` lists its indices in strictly increasing order, so the gate never
      reorders or repeats a step. */
  lemma {:induction false} KeptFromIncreasing(keys: seq<string>, keep: string -> bool, lo: nat, hi: nat)
    requires hi <= |keys|
    ensures forall j, k :: 0 <= j < k < |KeptFrom(keys, keep, lo, hi)| ==>
      KeptFrom(keys, keep, lo, hi)[j] < KeptFrom(keys, keep, lo, hi)[k]
    decreases hi - lo
  {
    if lo < hi {
      KeptFromIncreasing(keys, keep, lo + 1, hi);
    }
  }

  /** `ZipFilter` keeps exactly the elements at the indices that `KeptFrom` lists. */
  lemma {:induction false} ZipFilterSelects<T>(xs: seq<T>, keys: seq<string>, keep: string -> bool, lo: nat)
    requires lo <= |xs| && lo <= |keys|
    ensures var n := if |xs| < |keys| then |xs| else |keys|;
      ZipFilter(xs[lo..], keys[lo..], keep) == Select(xs, KeptFrom(keys, keep, lo, n))
    decreases |xs| - lo
  {
    var n := if |xs| < |keys| then |xs| else |keys|;
    if lo < n {
      assert xs[lo..][1..] == xs[lo + 1..];
      assert keys[lo..][1..] == keys[lo + 1..];
      ZipFilterSelects(xs, keys, keep, lo + 1);
      var head: seq<nat> := if keep(keys[lo]) then [lo] else [];
      var tail := KeptFrom(keys, keep, lo + 1, n);
      assert KeptFrom(keys, keep, lo, n) == head + tail;
      SelectConcat(xs, head, tail);
      assert Select(xs, head) == if keep(keys[lo]) then [xs[lo]] else [];
      assert ZipFilter(xs[lo..], keys[lo..], keep)
        == (if keep(keys[lo]) then [xs[lo]] else []) + ZipFilter(xs[lo + 1..], keys[lo + 1..], keep);
    }
  }

  /** Selecting at two index lists one after the other is selecting at each in turn. */
  lemma SelectConcat<T>(xs: seq<T>, a: seq<nat>, b: seq<nat>)
    requires forall j :: 0 <= j < |a| ==> a[j] < |xs|
    requires forall j :: 0 <= j < |b| ==> b[j] < |xs|
    ensures Select(xs, a + b) == Select(xs, a) + Select(xs, b)
  {
    assert forall j :: 0 <= j < |a| ==> (a + b)[j] == a[j];
    assert forall j :: 0 <= j < |b| ==> (a + b)[|a| + j] == b[j];
  }

  /** When the gate passes every key, `ZipFilter` is the zip's truncation of `xs`. */
  lemma {:induction false} ZipFilterAllKept<T>(xs: seq<T>, keys: seq<string>, keep: string -> bool)
    requires forall i :: 0 <= i < |keys| ==> keep(keys[i])
    ensures ZipFilter(xs, keys, keep) == if |xs| <= |keys| then xs else xs[..|keys|]
  {
    if |xs| > 0 && |keys| > 0 {
      ZipFilterAllKept(xs[1..], keys[1..], keep);
      if |xs| > |keys| {
        assert xs[..|keys|] == [xs[0]] + xs[1..][..|keys| - 1];
      } else {
        assert xs == [xs[0]] + xs[1..];
      }
    }
  }
}
