/** The `SearchLS` class (CLI/SearchLS.py): the nearest-latent-space search
    of the packaged command, run once when the object is built. */
module SearchLatentSpace {
  import opened Results
  import opened Metrics
  import PyText

  /** The record the search returns (its class is not part of this model):
      the query's name, the metric's name, the closest family and its
      distance. */
  datatype SearchOutput = SearchOutput(lsName: string, metric: string, family: string, distance: real)

  /** What the search takes from the package's `load_files` module: the query
      loader, the list of candidate file names and the candidate loader. */
  datatype Catalog = Catalog(loadLsFile: string -> Vector, latentSpaceList: seq<string>, loadFamily: string -> Vector)

  /** The metric call of `do_search`: Minkowski also receives `p_norm`. */
  function Measure(m: Metric, a: Vector, b: Vector, pNorm: int): (d: real)
  {
    if m.isMinkowski then m.apply(a, b, Some(pNorm)) else m.apply(a, b, None)
  }

  /** `p_norm` reaches Minkowski as its third argument and no other metric:
      for those the distance does not depend on it and is the plain
      two-argument call. This only unfolds `Measure` and carries no proof
      weight; what ties the search to it is `DoSearch` being proved to use
      `Distances`. */
  lemma PNormOnlyReachesMinkowski(m: Metric, a: Vector, b: Vector, p: int, q: int)
    ensures m.isMinkowski ==> Measure(m, a, b, p) == m.apply(a, b, Some(p))
    ensures !m.isMinkowski ==> Measure(m, a, b, p) == Measure(m, a, b, q) == TwoArgCall(m, a, b)
  {
  }

  /** `name[:-4]`: the name without its last four characters, empty when it is
      shorter than that. */
  function TrimExtension(name: string): (r: string)
    ensures |name| >= 4 ==> r == name[..|name| - 4]
    ensures |name| < 4 ==> r == []
  {
    PyText.Slice(name, 0, -4)
  }

  /** A candidate file `<family>.txt` is reported as `<family>`. */
  lemma TrimExtensionOfTxt(family: string)
    ensures TrimExtension(family + ".txt") == family
  {
    assert (family + ".txt")[..|family|] == family;
  }

  /** The distance from the query to every candidate, in list order. */
  ghost function Distances(data: Vector, m: Metric, pNorm: int, catalog: Catalog): (ds: seq<real>)
    ensures |ds| == |catalog.latentSpaceList|
    ensures forall i :: 0 <= i < |ds| ==>
      ds[i] == Measure(m, data, catalog.loadFamily(catalog.latentSpaceList[i]), pNorm)
  {
    seq(|catalog.latentSpaceList|, i requires 0 <= i < |catalog.latentSpaceList| =>
      Measure(m, data, catalog.loadFamily(catalog.latentSpaceList[i]), pNorm))
  }

  /** `r` is what `do_search` gives: a failure for an empty list, otherwise the
      first candidate at the smallest distance, named without its extension. */
  ghost predicate IsSearchResult(lsName: string, data: Vector, m: Metric, pNorm: int, catalog: Catalog,
                                 r: Result<SearchOutput, ScanError>)
  {
    var ds := Distances(data, m, pNorm, catalog);
    if |catalog.latentSpaceList| == 0 then r == Err(ClosestFamilyUnbound)
    else exists k ::
      IsFirstMin(ds, k) &&
      r == Ok(SearchOutput(lsName, m.name, TrimExtension(catalog.latentSpaceList[k]), ds[k]))
  }

  /** There is exactly one such result, and its distance is no greater than the
      distance to any candidate. */
  lemma SearchResultIsClosest(lsName: string, data: Vector, m: Metric, pNorm: int, catalog: Catalog,
                              r1: Result<SearchOutput, ScanError>, r2: Result<SearchOutput, ScanError>)
    requires IsSearchResult(lsName, data, m, pNorm, catalog, r1)
    requires IsSearchResult(lsName, data, m, pNorm, catalog, r2)
    ensures r1 == r2
    ensures r1.Ok? ==> forall i :: 0 <= i < |catalog.latentSpaceList| ==>
      r1.value.distance <= Distances(data, m, pNorm, catalog)[i]
  {
    var ds := Distances(data, m, pNorm, catalog);
    if |catalog.latentSpaceList| > 0 {
      var k1 :| IsFirstMin(ds, k1) &&
        r1 == Ok(SearchOutput(lsName, m.name, TrimExtension(catalog.latentSpaceList[k1]), ds[k1]));
      var k2 :| IsFirstMin(ds, k2) &&
        r2 == Ok(SearchOutput(lsName, m.name, TrimExtension(catalog.latentSpaceList[k2]), ds[k2]));
      FirstMinUnique(ds, k1, k2);
    }
  }

  class SearchLS {
    var lsName: string
    var lsData: Vector
    var metric: Metric
    var pNorm: int
    var result: Result<SearchOutput, ScanError>

    /** Stores the arguments and the loaded query, then runs the search once
        and keeps its outcome. */
    constructor (ls: string, metric: Metric, pNorm: int, catalog: Catalog)
      ensures lsName == ls && lsData == catalog.loadLsFile(ls)
      ensures this.metric == metric && this.pNorm == pNorm
      ensures IsSearchResult(ls, lsData, metric, pNorm, catalog, result)
    {
      lsName := ls;
      lsData := catalog.loadLsFile(ls);
      this.metric := metric;
      this.pNorm := pNorm;
      result := Err(ClosestFamilyUnbound);
      new;
      result := DoSearch(catalog);
    }

    /** `do_search`: a scan with the strict `<` from an infinite bound. */
    method DoSearch(catalog: Catalog) returns (r: Result<SearchOutput, ScanError>)
      ensures IsSearchResult(lsName, lsData, metric, pNorm, catalog, r)
    {
      ghost var ds := Distances(lsData, metric, pNorm, catalog);
      var list := catalog.latentSpaceList;
      var minDist := Infinity;
      var closestFamily: Option<string> := None;
      ghost var k := -1;
      for i := 0 to |list|
        invariant ScannedUpTo(ds, i, minDist, k)
        invariant i == 0 <==> closestFamily.None?
        invariant i > 0 ==> 0 <= k < i && closestFamily == Some(list[k])
      {
        ScanStep(ds, i, minDist, k);
        var distanceResult;
        if metric.isMinkowski {
          distanceResult := metric.apply(lsData, catalog.loadFamily(list[i]), Some(pNorm));
        } else {
          distanceResult := metric.apply(lsData, catalog.loadFamily(list[i]), None);
        }
        if Below(distanceResult, minDist) {
          minDist := Finite(distanceResult);
          closestFamily := Some(list[i]);
          k := i;
        }
      }
      if closestFamily.None? {
        return Err(ClosestFamilyUnbound);
      }
      assert ds[..|list|] == ds;
      r := Ok(SearchOutput(lsName, metric.name, TrimExtension(closestFamily.value), minDist.value));
    }
  }
}
