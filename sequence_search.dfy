/** The sequence-reconstruction search of `search -ns` (CLI/search.py:18-91):
    every family whose trained length can hold the query gets the query padded
    with gaps to that length, the family's decoder reconstructs it, and the
    family whose reconstruction matches best is reported. */
module SequenceSearch {
  import opened Results
  import PyText

  /** The gap character used for padding. */
  const Gap: char := '-'

  /** A row of `seq_lengths.csv`: a family and the sequence length its network
      was trained on. */
  datatype Family = Family(name: string, size: int)

  /** A family's trained network followed by the argmax back to letters: from
      the family name and the padded query to the reconstructed sequence. The
      reshape to `seq_length` positions fixes the length of its output. */
  type Decoder = d: (string, string) -> string
    | forall family, padded :: |d(family, padded)| == |padded|
    witness (family: string, padded: string) => padded

  /** The exception the search can raise: a family of size 0 with an empty
      query leaves an empty padded query, and decoding it fails (the network
      call and the letter lookup of search.py:64-74 have nothing to work on);
      the division of search.py:84 would divide by zero after it. */
  datatype SearchError = EmptyPaddedQuery

  /** What is printed at the end: the chosen family and its accuracy. */
  datatype Closest = Closest(family: string, accuracy: real)

  /** Whether the family takes part at all (the skip test of search.py:41). */
  predicate Eligible(f: Family, query: string)
  {
    f.size >= |query|
  }

  /** The gaps before the query: half the difference, rounded down. */
  function LeftGaps(size: int, len: nat): (l: nat)
    requires len <= size
    ensures 2 * l <= size - len <= 2 * l + 1
  {
    (size - len) / 2
  }

  /** The gaps after the query: what is left, one more than before the query
      when the difference is odd. */
  function RightGaps(size: int, len: nat): (r: nat)
    requires len <= size
    ensures LeftGaps(size, len) + len + r == size
    ensures LeftGaps(size, len) <= r <= LeftGaps(size, len) + 1
  {
    size - len - LeftGaps(size, len)
  }

  lemma GapsAgree(size: int, len: nat, left: int, right: int)
    requires len <= size && left == (size - len) / 2 && right == size - len - left
    ensures left == LeftGaps(size, len) && right == RightGaps(size, len)
  {
  }

  /** The query centred in a string of the family's length. */
  function Pad(query: string, size: int): (p: string)
    requires |query| <= size
    ensures |p| == size
    ensures p[LeftGaps(size, |query|)..LeftGaps(size, |query|) + |query|] == query
    ensures forall i :: 0 <= i < LeftGaps(size, |query|) ==> p[i] == Gap
    ensures forall i :: LeftGaps(size, |query|) + |query| <= i < size ==> p[i] == Gap
  {
    PyText.Repeat(Gap, LeftGaps(size, |query|)) + query + PyText.Repeat(Gap, RightGaps(size, |query|))
  }

  /** The number of positions where the two strings agree. */
  function MatchCount(x: string, y: string): (c: nat)
    requires |x| == |y|
    ensures c <= |x|
  {
    if |x| == 0 then 0
    else MatchCount(x[..|x| - 1], y[..|y| - 1]) + (if x[|x| - 1] == y[|y| - 1] then 1 else 0)
  }

  /** At most every position matches, and all of them do exactly when the
      strings are equal. */
  lemma {:induction false} MatchCountBounds(x: string, y: string)
    requires |x| == |y|
    ensures MatchCount(x, y) <= |x|
    ensures MatchCount(x, y) == |x| <==> x == y
  {
    if |x| > 0 {
      var n := |x| - 1;
      MatchCountBounds(x[..n], y[..n]);
      assert x == x[..n] + [x[n]] && y == y[..n] + [y[n]];
      if x == y {
        assert x[..n] == y[..n];
      }
    }
  }

  /** The inner loop of search.py:78-83. */
  method CountMatches(x: string, y: string) returns (count: nat)
    requires |x| == |y|
    ensures count == MatchCount(x, y)
  {
    count := 0;
    var j := 0;
    while j < |x|
      invariant 0 <= j <= |x|
      invariant count == MatchCount(x[..j], y[..j])
    {
      assert x[..j + 1][..j] == x[..j] && y[..j + 1][..j] == y[..j];
      if x[j] == y[j] {
        count := count + 1;
      }
      j := j + 1;
    }
    assert x[..j] == x && y[..j] == y;
  }

  /** A fraction `c / n` with `c <= n` lies in [0, 1] and is 1 only for `c == n`. */
  lemma FractionBounds(c: nat, n: nat)
    requires 0 < n && c <= n
    ensures 0.0 <= c as real / n as real <= 1.0
    ensures c as real / n as real == 1.0 <==> c == n
  {
    var q := c as real / n as real;
    assert q * n as real == c as real;
  }

  /** The reconstruction accuracy: the fraction of matching positions. */
  function Accuracy(x: string, y: string): (acc: real)
    requires |x| == |y| > 0
    ensures 0.0 <= acc <= 1.0
    ensures acc == 1.0 <==> x == y
  {
    MatchCountBounds(x, y);
    FractionBounds(MatchCount(x, y), |x|);
    MatchCount(x, y) as real / |x| as real
  }

  /** How one family fares against the query. */
  datatype Score = Skipped | Undefined | Scored(accuracy: real)

  function ScoreOf(query: string, f: Family, decode: Decoder): (s: Score)
    ensures s.Skipped? <==> f.size < |query|
    ensures s.Undefined? <==> f.size == 0 && query == []
    ensures s.Scored? ==> 0.0 <= s.accuracy <= 1.0
    ensures s.Scored? ==> (s.accuracy == 1.0 <==> decode(f.name, Pad(query, f.size)) == Pad(query, f.size))
  {
    if !Eligible(f, query) then Skipped
    else if f.size == 0 then Undefined
    else
      var padded := Pad(query, f.size);
      Scored(Accuracy(decode(f.name, padded), padded))
  }

  /** The score of an eligible family of positive length, spelled out. */
  lemma ScoreOfEligible(query: string, f: Family, decode: Decoder)
    requires Eligible(f, query) && f.size > 0
    ensures ScoreOf(query, f, decode) ==
      Scored(MatchCount(decode(f.name, Pad(query, f.size)), Pad(query, f.size)) as real / f.size as real)
  {
  }

  /** The score of every family, in file order. */
  ghost function Scores(query: string, families: seq<Family>, decode: Decoder): (s: seq<Score>)
    ensures |s| == |families|
    ensures forall j :: 0 <= j < |families| ==> s[j] == ScoreOf(query, families[j], decode)
  {
    seq(|families|, j requires 0 <= j < |families| => ScoreOf(query, families[j], decode))
  }

  /** `c` is what the loop holds after the first `n` families, with `k` the
      index of the family it chose (negative for the initial `'none'`). */
  ghost predicate LeadsAfter(scores: seq<Score>, families: seq<Family>, n: nat, c: Closest, k: int)
    requires n <= |scores| == |families|
  {
    if k < 0 then
      c == Closest("none", 0.0) &&
      forall j :: 0 <= j < n && scores[j].Scored? ==> scores[j].accuracy == 0.0
    else
      k < n && scores[k].Scored? &&
      c == Closest(families[k].name, scores[k].accuracy) &&
      c.accuracy > 0.0 &&
      (forall j :: 0 <= j < n && scores[j].Scored? ==> scores[j].accuracy <= c.accuracy) &&
      (forall j :: 0 <= j < k && scores[j].Scored? ==> scores[j].accuracy < c.accuracy)
  }

  /** `c` is the first family in file order that attains the highest
      accuracy, or `'none'` with 0 when no family scores above 0. */
  ghost predicate IsFirstBest(query: string, families: seq<Family>, decode: Decoder, c: Closest)
  {
    var scores := Scores(query, families, decode);
    exists k :: k < |families| && LeadsAfter(scores, families, |families|, c, k)
  }

  /** One family further: a skipped family changes nothing, a strictly better
      accuracy takes over, an equal or worse one leaves the leader. */
  lemma LeadsAfterStep(scores: seq<Score>, families: seq<Family>, i: nat, c: Closest, k: int)
    requires i < |scores| == |families| && k < i
    requires LeadsAfter(scores, families, i, c, k)
    ensures scores[i].Skipped? ==> LeadsAfter(scores, families, i + 1, c, k)
    ensures scores[i].Scored? && scores[i].accuracy > c.accuracy ==>
      LeadsAfter(scores, families, i + 1, Closest(families[i].name, scores[i].accuracy), i)
    ensures scores[i].Scored? && 0.0 <= scores[i].accuracy <= c.accuracy ==>
      LeadsAfter(scores, families, i + 1, c, k)
  {
  }

  /** The body of the family loop of `new_sequence` (search.py:38-84): skip,
      or pad, decode and measure. */
  method ScoreFamily(query: string, f: Family, decode: Decoder) returns (s: Score)
    ensures s == ScoreOf(query, f, decode)
  {
    var testSeq := query;
    if f.size < |testSeq| {
      return Skipped;
    }
    var leftGaps := (f.size - |testSeq|) / 2;
    var rightGaps := f.size - |testSeq| - leftGaps;
    GapsAgree(f.size, |testSeq|, leftGaps, rightGaps);
    testSeq := PyText.Repeat(Gap, leftGaps) + testSeq + PyText.Repeat(Gap, rightGaps);
    var x := decode(f.name, testSeq);
    var count := CountMatches(x, testSeq);
    if |x| == 0 {
      return Undefined;
    }
    ScoreOfEligible(query, f, decode);
    s := Scored(count as real / |x| as real);
  }

  /** `new_sequence` with the file reads replaced by its inputs. */
  method NewSequence(query: string, families: seq<Family>, decode: Decoder) returns (r: Result<Closest, SearchError>)
    ensures r.Err? ==> exists i :: 0 <= i < |families| && ScoreOf(query, families[i], decode).Undefined?
    ensures r.Ok? ==> forall i :: 0 <= i < |families| ==> !ScoreOf(query, families[i], decode).Undefined?
    ensures r.Ok? ==> IsFirstBest(query, families, decode, r.value)
  {
    ghost var scores := Scores(query, families, decode);
    var maxAcc := 0.0;
    var chosenFamily := "none";
    ghost var k := -1;
    var i := 0;
    while i < |families|
      invariant 0 <= i <= |families|
      invariant k < i
      invariant forall j :: 0 <= j < i ==> !scores[j].Undefined?
      invariant LeadsAfter(scores, families, i, Closest(chosenFamily, maxAcc), k)
    {
      LeadsAfterStep(scores, families, i, Closest(chosenFamily, maxAcc), k);
      var score := ScoreFamily(query, families[i], decode);
      match score {
        case Skipped =>
        case Undefined =>
          assert ScoreOf(query, families[i], decode).Undefined?;
          return Err(EmptyPaddedQuery);
        case Scored(acc) =>
          if acc > maxAcc {
            maxAcc := acc;
            chosenFamily := families[i].name;
            k := i;
          }
      }
      i := i + 1;
    }
    r := Ok(Closest(chosenFamily, maxAcc));
    assert forall j :: 0 <= j < |families| ==> !ScoreOf(query, families[j], decode).Undefined?;
    assert LeadsAfter(scores, families, |families|, r.value, k);
  }

  /** The description above determines the result: two results that both
      satisfy it are equal. */
  lemma FirstBestUnique(query: string, families: seq<Family>, decode: Decoder, c1: Closest, c2: Closest)
    requires IsFirstBest(query, families, decode, c1)
    requires IsFirstBest(query, families, decode, c2)
    ensures c1 == c2
  {
    var scores := Scores(query, families, decode);
    var k1 :| k1 < |families| && LeadsAfter(scores, families, |families|, c1, k1);
    var k2 :| k2 < |families| && LeadsAfter(scores, families, |families|, c2, k2);
  }

  /** The result is never better than perfect, and no family beats it. */
  lemma FirstBestIsMaximum(query: string, families: seq<Family>, decode: Decoder, c: Closest)
    requires IsFirstBest(query, families, decode, c)
    ensures 0.0 <= c.accuracy <= 1.0
    ensures forall j :: 0 <= j < |families| && ScoreOf(query, families[j], decode).Scored? ==>
      ScoreOf(query, families[j], decode).accuracy <= c.accuracy
  {
    var scores := Scores(query, families, decode);
    var k :| k < |families| && LeadsAfter(scores, families, |families|, c, k);
  }

  /** When every family is skipped, or every eligible family has accuracy 0,
      the answer is `'none'` with 0; otherwise it is a family that scored. */
  lemma NoneExactlyWhenNothingScores(query: string, families: seq<Family>, decode: Decoder, c: Closest)
    requires IsFirstBest(query, families, decode, c)
    ensures (forall j :: 0 <= j < |families| && ScoreOf(query, families[j], decode).Scored? ==>
               ScoreOf(query, families[j], decode).accuracy == 0.0)
            <==> c == Closest("none", 0.0)
  {
    var scores := Scores(query, families, decode);
    var k :| k < |families| && LeadsAfter(scores, families, |families|, c, k);
  }

  /** Only the eligible families' decoders are ever consulted: two decoders that
      agree on every eligible family's padded query give the same answer. */
  lemma ResultIgnoresSkippedFamilies(query: string, families: seq<Family>, d1: Decoder, d2: Decoder, c: Closest)
    requires forall j :: 0 <= j < |families| && Eligible(families[j], query) ==>
      d1(families[j].name, Pad(query, families[j].size)) == d2(families[j].name, Pad(query, families[j].size))
    ensures IsFirstBest(query, families, d1, c) <==> IsFirstBest(query, families, d2, c)
  {
    assert Scores(query, families, d1) == Scores(query, families, d2);
  }
}
