/** The three string distances, tabulated and handed to the adaptive random order. */
module SpreadOrder {

  import AdaptiveRandom
  import DistanceMap
  import EditDistance
  import PaddedDistance

  datatype Measure = Edit | Hamming | Manhattan

  function Between(m: Measure, s: string, t: string): real {
    match m
    case Edit => EditDistance.Distance(s, t) as real
    case Hamming => PaddedDistance.Hamming(s, t) as real
    case Manhattan => PaddedDistance.Manhattan(s, t) as real
  }

  lemma BetweenSymmetric(m: Measure, s: string, t: string)
    ensures Between(m, s, t) == Between(m, t, s)
  {
    EditDistance.Symmetric(s, t);
    PaddedDistance.PaddedSymmetric(s, t);
  }

  lemma BetweenTriangle(m: Measure, a: string, b: string, c: string)
    ensures Between(m, a, c) <= Between(m, a, b) + Between(m, b, c)
  {
    EditDistance.Triangle(a, b, c);
    PaddedDistance.PaddedTriangle(a, b, c);
  }

  /** The measurement of two files, given what they contain. */
  ghost function MeasuredBy(m: Measure, text: string -> string): (string, string) -> real {
    (a, b) => Between(m, text(a), text(b))
  }

  /** The distance the selection loop sees between test i and test j. */
  ghost function Seen(t: DistanceMap.Table, tests: seq<string>): AdaptiveRandom.Dist {
    (i: nat, j: nat) => if i < |tests| && j < |tests| then DistanceMap.Lookup(t, tests[i], tests[j]) else 0.0
  }

  lemma SeenIs(m: Measure, text: string -> string, t: DistanceMap.Table, tests: seq<string>, i: nat, j: nat)
    requires DistanceMap.Measured(t, tests, MeasuredBy(m, text)) && i < |tests| && j < |tests|
    requires DistanceMap.Known(t, tests[i], tests[j])
    ensures Seen(t, tests)(i, j) == Between(m, text(tests[i]), text(tests[j]))
  {
    hide Between, DistanceMap.Measured, DistanceMap.Lookup;
    BetweenSymmetric(m, text(tests[i]), text(tests[j]));
    DistanceMap.LookupIs(t, tests, MeasuredBy(m, text), tests[i], tests[j]);
  }

  /** When every test has a file, the table gives a symmetric distance with the triangle inequality. */
  lemma SeenIsMetric(m: Measure, text: string -> string, t: DistanceMap.Table, tests: seq<string>)
    requires DistanceMap.Measured(t, tests, MeasuredBy(m, text))
    requires forall i, j :: 0 <= i < |tests| && 0 <= j < |tests| ==> DistanceMap.Known(t, tests[i], tests[j])
    ensures AdaptiveRandom.Metric(Seen(t, tests), |tests|)
  {
    hide Seen, Between, DistanceMap.Known, DistanceMap.Measured;
    var d, n := Seen(t, tests), |tests|;
    forall x: nat, y: nat | x < n && y < n ensures d(x, y) == d(y, x) {
      SeenIs(m, text, t, tests, x, y);
      SeenIs(m, text, t, tests, y, x);
      BetweenSymmetric(m, text(tests[x]), text(tests[y]));
    }
    forall x: nat, y: nat, z: nat | x < n && y < n && z < n ensures d(x, z) <= d(x, y) + d(y, z) {
      SeenIs(m, text, t, tests, x, z);
      SeenIs(m, text, t, tests, x, y);
      SeenIs(m, text, t, tests, y, z);
      BetweenTriangle(m, text(tests[x]), text(tests[y]), text(tests[z]));
    }
  }

  /** The whole pipeline: tabulate the distances of present tests, order them with full samples, and the first
      k tests lie within twice the least radius that any k tests can achieve. */
  lemma SpreadIsTwiceOptimal(m: Measure, text: string -> string, t: DistanceMap.Table, tests: seq<string>,
                             order: seq<nat>, sample: nat, k: nat, centres: seq<nat>, r: real, x: nat)
    requires DistanceMap.Measured(t, tests, MeasuredBy(m, text))
    requires forall i, j :: 0 <= i < |tests| && 0 <= j < |tests| ==> DistanceMap.Known(t, tests[i], tests[j])
    requires AdaptiveRandom.Permutation(order, |tests|) && |tests| - 1 <= sample
    requires forall i :: 0 < i < |tests| ==> AdaptiveRandom.Picked(Seen(t, tests), order, i, sample, |tests|)
    requires 0 < k <= |tests| && |centres| <= k && x < |tests|
    requires AdaptiveRandom.Covers(Seen(t, tests), |tests|, centres, r)
    ensures exists i :: 0 <= i < k && Between(m, text(tests[order[i]]), text(tests[x])) <= 2.0 * r
  {
    hide Seen, Between, DistanceMap.Known, DistanceMap.Measured, AdaptiveRandom.Picked, AdaptiveRandom.Covers;
    var d := Seen(t, tests);
    SeenIsMetric(m, text, t, tests);
    AdaptiveRandom.FullSamplesAreFarthestFirst(d, order, sample);
    AdaptiveRandom.TwiceOptimal(d, order, k, centres, r, x);
    AdaptiveRandom.NearIsLeast(d, order[..k], x);
    var i :| 0 <= i < k && AdaptiveRandom.Near(d, order[..k], x) == d(order[..k][i], x);
    SeenIs(m, text, t, tests, order[i], x);
  }
}
