/** Latent-space vectors, distance metrics and the "first minimum" that both
    latent-space searches compute. */
module Metrics {
  import opened Results

  /** A latent-space fingerprint, as loaded from a text file. */
  type Vector = seq<real>

  /** A distance function of the scientific library. `apply` receives the
      optional third (p-norm) argument; None is a call with two arguments.
      `isMinkowski` tells whether it is `distance.minkowski`, and `name` is the
      function's `__name__`. */
  datatype Metric = Metric(name: string, isMinkowski: bool, apply: (Vector, Vector, Option<int>) -> real)

  /** `metric(a, b)`: the two-argument call. */
  function TwoArgCall(m: Metric, a: Vector, b: Vector): (d: real)
  {
    m.apply(a, b, None)
  }

  /** The `float("inf")` a scan starts from, or the best distance seen so far. */
  datatype Bound = Infinity | Finite(value: real)

  /** `d < bound` where the bound may be infinite. */
  predicate Below(d: real, b: Bound)
  {
    b.Infinity? || d < b.value
  }

  /** The error of a scan over an empty candidate list: the loop body never
      runs, so `closest_family` is never bound and reading it raises. */
  datatype ScanError = ClosestFamilyUnbound

  /** `k` is the first index attaining the minimum of `ds`. */
  ghost predicate IsFirstMin(ds: seq<real>, k: int)
  {
    0 <= k < |ds| &&
    (forall i :: 0 <= i < |ds| ==> ds[k] <= ds[i]) &&
    (forall i :: 0 <= i < k ==> ds[k] < ds[i])
  }

  /** A reference definition of the first minimum. */
  function FirstMin(ds: seq<real>): (k: nat)
    requires |ds| > 0
    ensures IsFirstMin(ds, k)
  {
    if |ds| == 1 then 0
    else
      var k := FirstMin(ds[..|ds| - 1]);
      if ds[|ds| - 1] < ds[k] then |ds| - 1 else k
  }

  /** The first minimum is unique, so a scan described by `IsFirstMin` has one
      possible answer. */
  lemma FirstMinUnique(ds: seq<real>, k1: int, k2: int)
    requires IsFirstMin(ds, k1) && IsFirstMin(ds, k2)
    ensures k1 == k2
  {
    assert ds[k1] <= ds[k2] && ds[k2] <= ds[k1];
  }

  /** After a scan of the first `n` distances with the strict `<`: nothing
      seen yet and the bound is infinite, or `k` is the first minimum so far
      and the bound holds its distance. */
  ghost predicate ScannedUpTo(ds: seq<real>, n: nat, bound: Bound, k: int)
    requires n <= |ds|
  {
    if n == 0 then bound.Infinity?
    else IsFirstMin(ds[..n], k) && bound == Finite(ds[k])
  }

  /** One step of the scan keeps `ScannedUpTo`. */
  lemma ScanStep(ds: seq<real>, n: nat, bound: Bound, k: int)
    requires n < |ds| && ScannedUpTo(ds, n, bound, k)
    ensures Below(ds[n], bound) ==> ScannedUpTo(ds, n + 1, Finite(ds[n]), n)
    ensures !Below(ds[n], bound) ==> ScannedUpTo(ds, n + 1, bound, k)
  {
    assert forall i :: 0 <= i < n ==> ds[..n + 1][i] == ds[..n][i];
  }
}
