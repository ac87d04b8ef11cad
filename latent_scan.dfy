/** The nearest-latent-space branch of `search -nl1` (CLI/search.py:121-131):
    a linear scan over every file under `Latent_spaces/` for the smallest
    distance to the new latent space. */
module LatentScan {
  import opened Results
  import opened Metrics
  import PyText

  /** What is printed: the family name cut out of the file path, the metric's
      name and the smallest distance. */
  datatype Nearest = Nearest(family: string, metric: string, distance: real)

  /** The directory prefix of every candidate path. */
  const LatentDir: string := "Latent_spaces/"

  /** `path[14:len(path)-4]`: the path without its first 14 and last 4
      characters, empty when the path is too short to have both. */
  function FamilyNameOf(path: string): (name: string)
    ensures |path| >= 18 ==> name == path[14..|path| - 4]
    ensures |path| < 18 ==> name == []
  {
    PyText.Slice(path, 14, |path| - 4)
  }

  /** For the files the scan sees the cut leaves exactly the family name. */
  lemma FamilyNameOfLatentFile(family: string)
    ensures FamilyNameOf(LatentDir + family + ".txt") == family
  {
    var path := LatentDir + family + ".txt";
    assert path[14..|path| - 4] == family;
  }

  /** The distance from the new latent space to every candidate, in list order. */
  ghost function Distances(a1: Vector, files: seq<string>, m: Metric, load: string -> Vector): (ds: seq<real>)
    ensures |ds| == |files|
    ensures forall j :: 0 <= j < |files| ==> ds[j] == TwoArgCall(m, a1, load(files[j]))
  {
    seq(|files|, j requires 0 <= j < |files| => TwoArgCall(m, a1, load(files[j])))
  }

  /** The scan, with `np.loadtxt` as `load` and the glob result as `files`.
      The metric is called with two arguments only, so `-p` has no effect
      here. */
  method NearestLatent(a1: Vector, files: seq<string>, m: Metric, load: string -> Vector)
    returns (r: Result<Nearest, ScanError>)
    ensures r.Err? <==> |files| == 0
    ensures r.Ok? ==> exists k ::
      IsFirstMin(Distances(a1, files, m, load), k) &&
      r.value == Nearest(FamilyNameOf(files[k]), m.name, Distances(a1, files, m, load)[k])
  {
    ghost var ds := Distances(a1, files, m, load);
    var minDist := Infinity;
    var closestFamily: Option<string> := None;
    ghost var k := -1;
    for j := 0 to |files|
      invariant ScannedUpTo(ds, j, minDist, k)
      invariant j == 0 <==> closestFamily.None?
      invariant j > 0 ==> 0 <= k < j && closestFamily == Some(files[k])
    {
      ScanStep(ds, j, minDist, k);
      if Below(TwoArgCall(m, a1, load(files[j])), minDist) {
        minDist := Finite(TwoArgCall(m, a1, load(files[j])));
        closestFamily := Some(files[j]);
        k := j;
      }
    }
    if closestFamily.None? {
      return Err(ClosestFamilyUnbound);
    }
    assert ds[..|files|] == ds;
    r := Ok(Nearest(FamilyNameOf(closestFamily.value), m.name, minDist.value));
  }
}
