/** Model of ml_insights/calibration_utils.py: the knot selection of prob_calibration_function,
    the natural cubic spline basis expansion, the calibration function it returns
    (calibrate_scores, with the force_prob clip) and mean_squared_error_trunc.
    Scores and probabilities are `real`; the fitted sklearn regressor is an abstract predictor. */
module CalibrationUtils {

  datatype Option<T> = None | Some(value: T)

  // ---------------------------------------------------------------------------
  // Ordered sequences: np.sort and np.unique
  // ---------------------------------------------------------------------------

  predicate Sorted(s: seq<real>) {
    forall i, j :: 0 <= i < j < |s| ==> s[i] <= s[j]
  }

  predicate StrictlyIncreasing(s: seq<real>) {
    forall i, j :: 0 <= i < j < |s| ==> s[i] < s[j]
  }

  predicate NoDuplicates<T(==)>(s: seq<T>) {
    forall i, j :: 0 <= i < j < |s| ==> s[i] != s[j]
  }

  /** Inserts x into a sorted sequence, keeping it sorted. */
  function Insert(x: real, s: seq<real>): (r: seq<real>)
    requires Sorted(s)
    ensures Sorted(r)
    ensures multiset(r) == multiset(s) + multiset{x}
    ensures r[0] == (if s == [] || x <= s[0] then x else s[0])
  {
    if s == [] then [x]
    else if x <= s[0] then [x] + s
    else
      var rest := Insert(x, s[1..]);
      assert s == [s[0]] + s[1..];
      assert s[0] <= rest[0];
      [s[0]] + rest
  }

  /** np.sort: the sorted rearrangement of s. */
  function Sort(s: seq<real>): (r: seq<real>)
    ensures Sorted(r)
    ensures multiset(r) == multiset(s)
  {
    if s == [] then []
    else
      assert s == [s[0]] + s[1..];
      Insert(s[0], Sort(s[1..]))
  }

  /** Keeps the first of every run of equal neighbours of a sorted sequence. */
  function DropRepeats(s: seq<real>): (r: seq<real>)
    requires Sorted(s)
    ensures StrictlyIncreasing(r)
    ensures forall x :: x in r <==> x in s
    ensures |s| > 0 ==> |r| > 0 && r[0] == s[0]
  {
    if |s| <= 1 then s
    else if s[0] == s[1] then
      assert s == [s[0]] + s[1..];
      DropRepeats(s[1..])
    else
      assert s == [s[0]] + s[1..];
      [s[0]] + DropRepeats(s[1..])
  }

  /** np.unique: the distinct values of s in increasing order. */
  function Unique(s: seq<real>): (r: seq<real>)
    ensures StrictlyIncreasing(r)
    ensures forall x :: x in r <==> x in s
  {
    var sorted := Sort(s);
    assert forall x :: x in sorted <==> x in s by {
      forall x ensures x in sorted <==> x in s {
        assert x in sorted <==> x in multiset(sorted);
        assert x in s <==> x in multiset(s);
      }
    }
    DropRepeats(sorted)
  }

  lemma {:induction false} MultiplicityAtMostOne<T>(s: seq<T>, v: T)
    requires NoDuplicates(s)
    ensures multiset(s)[v] <= 1
  {
    if s != [] {
      var init := s[..|s| - 1];
      assert s == init + [s[|s| - 1]];
      assert NoDuplicates(init);
      MultiplicityAtMostOne(init, v);
      if s[|s| - 1] == v {
        assert v !in init;
      }
    }
  }

  lemma RepeatedValueMultiplicity<T>(s: seq<T>, i: nat, j: nat)
    requires i < j < |s| && s[i] == s[j]
    ensures multiset(s)[s[i]] >= 2
  {
    assert s == s[..i] + [s[i]] + s[i + 1..j] + [s[j]] + s[j + 1..];
  }

  /** A rearrangement of a sequence without repeated values has none either. */
  lemma NoDuplicatesRearranged<T>(a: seq<T>, b: seq<T>)
    requires NoDuplicates(a) && multiset(a) == multiset(b)
    ensures NoDuplicates(b)
  {
    forall i, j | 0 <= i < j < |b| ensures b[i] != b[j] {
      if b[i] == b[j] {
        RepeatedValueMultiplicity(b, i, j);
        MultiplicityAtMostOne(a, b[i]);
        assert false;
      }
    }
  }

  /** Sorting values that are pairwise distinct yields a strictly increasing sequence
      of the same length and the same values. */
  lemma SortDistinct(c: seq<real>)
    requires NoDuplicates(c)
    ensures StrictlyIncreasing(Sort(c))
    ensures |Sort(c)| == |c|
    ensures forall x :: x in Sort(c) <==> x in c
  {
    var r := Sort(c);
    NoDuplicatesRearranged(c, r);
    assert |r| == |multiset(r)| == |multiset(c)| == |c|;
    forall x ensures x in r <==> x in c {
      assert x in r <==> x in multiset(r);
      assert x in c <==> x in multiset(c);
    }
  }

  // ---------------------------------------------------------------------------
  // Python slicing and random.shuffle
  // ---------------------------------------------------------------------------

  /** Python's s[:m] on a 1-D array: a negative stop counts from the end. */
  function PrefixSlice(s: seq<real>, m: int): (r: seq<real>)
    ensures |r| == (if m >= 0 then (if m <= |s| then m else |s|)
                    else (if |s| + m >= 0 then |s| + m else 0))
    ensures r == s[..|r|]
  {
    if m >= 0 then (if m <= |s| then s[..m] else s)
    else if |s| + m >= 0 then s[..|s| + m]
    else []
  }

  /** The raw output of the seeded generator: for a shuffle of a sequence of the given length,
      the value drawn at the given step. random.seed(random_state) fixes this function. */
  type Draws = (nat, nat) -> nat

  function Swap(s: seq<real>, i: nat, j: nat): (r: seq<real>)
    requires i < |s| && j < |s|
    ensures |r| == |s| && multiset(r) == multiset(s)
  {
    s[i := s[j]][j := s[i]]
  }

  /** The steps of random.shuffle still to do on positions below k: for i from k-1 down to 1,
      swap position i with a position j drawn from 0..i. */
  function ShuffleBelow(s: seq<real>, k: nat, draws: Draws): (r: seq<real>)
    requires k <= |s|
    ensures |r| == |s| && multiset(r) == multiset(s)
    decreases k
  {
    if k <= 1 then s
    else
      var i := k - 1;
      var j := draws(|s|, i) % (i + 1);
      ShuffleBelow(Swap(s, i, j), i, draws)
  }

  /** random.shuffle: a rearrangement of s chosen by the draws. */
  function Shuffle(s: seq<real>, draws: Draws): (r: seq<real>)
    ensures |r| == |s| && multiset(r) == multiset(s)
  {
    ShuffleBelow(s, |s|, draws)
  }

  // ---------------------------------------------------------------------------
  // Knot selection (prob_calibration_function, knots == 'sample')
  // ---------------------------------------------------------------------------

  /** True when the number of distinct scores exceeds max_knots under the 'sample' policy,
      which is when the knot set is reduced. */
  predicate Capped(scores: seq<real>, sampleKnots: bool, maxKnots: int) {
    sampleKnots && |Unique(scores)| > maxKnots
  }

  /** The reduced knot candidates before sorting: smallest and biggest distinct score, then
      the first max_knots - 2 of the shuffled interior distinct scores. */
  function ReducedKnots(knotVec: seq<real>, maxKnots: int, draws: Draws): (r: seq<real>)
    requires |knotVec| > 0
    ensures |r| >= 2 && r[0] == knotVec[0] && r[1] == knotVec[|knotVec| - 1]
    ensures |knotVec| >= 2 ==> multiset(r[2..]) <= multiset(knotVec[1..|knotVec| - 1])
    ensures |knotVec| >= 2 && maxKnots >= 2 ==> |r| == 2 + Min(maxKnots - 2, |knotVec| - 2)
  {
    var smallest, biggest := knotVec[0], knotVec[|knotVec| - 1];
    var inter := if |knotVec| >= 2 then knotVec[1..|knotVec| - 1] else [];
    var shuffled := Shuffle(inter, draws);
    var prefix := PrefixSlice(shuffled, maxKnots - 2);
    assert shuffled == prefix + shuffled[|prefix|..];
    assert ([smallest, biggest] + prefix)[2..] == prefix;
    [smallest, biggest] + prefix
  }

  function Min(a: int, b: int): int { if a <= b then a else b }

  /** The knot vector of prob_calibration_function. None stands for the IndexError raised by
      knot_vec[0] when there are no scores at all and the cap still applies (max_knots < 0). */
  function SelectKnots(scores: seq<real>, sampleKnots: bool, maxKnots: int, draws: Draws): (r: Option<seq<real>>)
    ensures r.None? <==> Capped(scores, sampleKnots, maxKnots) && |scores| == 0
  {
    var knotVec := Unique(scores);
    if sampleKnots && |knotVec| > maxKnots then
      if |knotVec| == 0 then
        assert forall x :: x !in scores;
        None
      else
        Some(Sort(ReducedKnots(knotVec, maxKnots, draws)))
    else
      assert |scores| > 0 ==> scores[0] in knotVec;
      Some(knotVec)
  }

  /** A rearrangement of the interior of a strictly increasing sequence holds distinct values,
      each of them strictly between the two ends. */
  lemma InteriorRearranged(knotVec: seq<real>, s: seq<real>)
    requires StrictlyIncreasing(knotVec) && |knotVec| >= 2
    requires multiset(s) == multiset(knotVec[1..|knotVec| - 1])
    ensures NoDuplicates(s)
    ensures forall x :: x in s ==> x in knotVec && knotVec[0] < x < knotVec[|knotVec| - 1]
  {
    var inter := knotVec[1..|knotVec| - 1];
    assert NoDuplicates(inter);
    NoDuplicatesRearranged(inter, s);
    forall x | x in s ensures x in knotVec && knotVec[0] < x < knotVec[|knotVec| - 1] {
      assert x in multiset(s);
      assert x in inter;
      var k :| 0 <= k < |inter| && inter[k] == x;
      assert knotVec[k + 1] == x;
    }
  }

  /** Two distinct values followed by distinct values different from both are pairwise distinct. */
  lemma PairThenDistinct(a: real, b: real, p: seq<real>)
    requires a != b && a !in p && b !in p && NoDuplicates(p)
    ensures NoDuplicates([a, b] + p)
  {
    var c := [a, b] + p;
    forall i, j | 0 <= i < j < |c| ensures c[i] != c[j] {
      if i >= 2 {
        assert c[i] == p[i - 2] && c[j] == p[j - 2];
      } else if j >= 2 {
        assert c[j] == p[j - 2];
      }
    }
  }

  /** r lists distinct values of knotVec and holds both of its extremes. */
  predicate DistinctWithExtremes(r: seq<real>, knotVec: seq<real>)
    requires |knotVec| > 0
  {
    NoDuplicates(r) && (forall x :: x in r ==> x in knotVec) &&
    knotVec[0] in r && knotVec[|knotVec| - 1] in r
  }

  /** The two extremes followed by a prefix of a rearranged interior are pairwise distinct values
      of the knot vector. */
  lemma ExtremesThenInterior(knotVec: seq<real>, shuffled: seq<real>, prefix: seq<real>)
    requires StrictlyIncreasing(knotVec) && |knotVec| >= 2
    requires multiset(shuffled) == multiset(knotVec[1..|knotVec| - 1])
    requires |prefix| <= |shuffled| && prefix == shuffled[..|prefix|]
    ensures DistinctWithExtremes([knotVec[0], knotVec[|knotVec| - 1]] + prefix, knotVec)
  {
    var r := [knotVec[0], knotVec[|knotVec| - 1]] + prefix;
    InteriorRearranged(knotVec, shuffled);
    assert forall x :: x in prefix ==> x in shuffled;
    assert NoDuplicates(prefix);
    PairThenDistinct(knotVec[0], knotVec[|knotVec| - 1], prefix);
    assert r[0] == knotVec[0] && r[1] == knotVec[|knotVec| - 1];
  }

  /** The candidates of ReducedKnots from at least two distinct values are pairwise distinct,
      are drawn from those values, and include the extremes. */
  lemma ReducedKnotsDistinct(knotVec: seq<real>, maxKnots: int, draws: Draws)
    requires StrictlyIncreasing(knotVec) && |knotVec| >= 2
    ensures DistinctWithExtremes(ReducedKnots(knotVec, maxKnots, draws), knotVec)
    ensures |ReducedKnots(knotVec, maxKnots, draws)|
            == 2 + |PrefixSlice(Shuffle(knotVec[1..|knotVec| - 1], draws), maxKnots - 2)|
  {
    var shuffled := Shuffle(knotVec[1..|knotVec| - 1], draws);
    ExtremesThenInterior(knotVec, shuffled, PrefixSlice(shuffled, maxKnots - 2));
  }

  /** If the cap does not apply, the knots are exactly the distinct scores in increasing order,
      whatever the knots argument. */
  lemma SelectKnotsUncapped(scores: seq<real>, sampleKnots: bool, maxKnots: int, draws: Draws)
    requires !Capped(scores, sampleKnots, maxKnots)
    ensures SelectKnots(scores, sampleKnots, maxKnots, draws).Some?
    ensures var knots := SelectKnots(scores, sampleKnots, maxKnots, draws).value;
            StrictlyIncreasing(knots) && (forall x :: x in knots <==> x in scores)
  {
  }

  /** A strictly increasing selection from a strictly increasing sequence that keeps both of its
      extremes starts and ends with them. */
  lemma SortedEndpoints(knots: seq<real>, knotVec: seq<real>)
    requires StrictlyIncreasing(knots) && StrictlyIncreasing(knotVec) && |knotVec| > 0
    requires forall x :: x in knots ==> x in knotVec
    requires knotVec[0] in knots && knotVec[|knotVec| - 1] in knots
    ensures |knots| > 0 && knots[0] == knotVec[0] && knots[|knots| - 1] == knotVec[|knotVec| - 1]
  {
    assert knots[0] in knotVec;
    assert knots[|knots| - 1] in knotVec;
  }

  /** A strictly increasing sequence holding exactly the values of a nonempty sequence starts
      with its smallest value and ends with its largest. */
  lemma IncreasingExtremes(u: seq<real>, scores: seq<real>)
    requires StrictlyIncreasing(u) && (forall x :: x in u <==> x in scores) && |scores| > 0
    ensures |u| > 0
    ensures u[0] in scores && (forall x :: x in scores ==> u[0] <= x)
    ensures u[|u| - 1] in scores && (forall x :: x in scores ==> x <= u[|u| - 1])
  {
    var first := scores[0];
    assert first in scores;
    assert first in u <==> first in scores;
    forall x | x in scores ensures u[0] <= x <= u[|u| - 1] {
      assert x in u;
      var k :| 0 <= k < |u| && u[k] == x;
      assert k == 0 || u[0] < u[k];
      assert k == |u| - 1 || u[k] < u[|u| - 1];
    }
  }

  /** Sorting the reduced candidates of at least two distinct values gives a strictly increasing
      sequence of those values that starts with the smallest and ends with the largest. */
  lemma SortedReducedKnots(knotVec: seq<real>, maxKnots: int, draws: Draws)
    requires StrictlyIncreasing(knotVec) && |knotVec| >= 2
    ensures var knots := Sort(ReducedKnots(knotVec, maxKnots, draws));
            StrictlyIncreasing(knots) &&
            |knots| == 2 + |PrefixSlice(Shuffle(knotVec[1..|knotVec| - 1], draws), maxKnots - 2)| &&
            (forall x :: x in knots ==> x in knotVec) &&
            knots[0] == knotVec[0] && knots[|knots| - 1] == knotVec[|knotVec| - 1]
  {
    var c := ReducedKnots(knotVec, maxKnots, draws);
    ReducedKnotsDistinct(knotVec, maxKnots, draws);
    SortDistinct(c);
    SortedEndpoints(Sort(c), knotVec);
  }

  /** If the cap applies with max_knots >= 2, the knots are max_knots distinct observed scores in
      increasing order, beginning with the smallest score and ending with the largest. */
  lemma SelectKnotsCapped(scores: seq<real>, sampleKnots: bool, maxKnots: int, draws: Draws)
    requires Capped(scores, sampleKnots, maxKnots) && maxKnots >= 2
    ensures SelectKnots(scores, sampleKnots, maxKnots, draws).Some?
    ensures var knots := SelectKnots(scores, sampleKnots, maxKnots, draws).value;
            |knots| == maxKnots && StrictlyIncreasing(knots) &&
            (forall x :: x in knots ==> x in scores) &&
            knots[0] in scores && (forall x :: x in scores ==> knots[0] <= x) &&
            knots[maxKnots - 1] in scores && (forall x :: x in scores ==> x <= knots[maxKnots - 1])
  {
    var knotVec := Unique(scores);
    var n := |knotVec|;
    var knots := Sort(ReducedKnots(knotVec, maxKnots, draws));
    assert SelectKnots(scores, sampleKnots, maxKnots, draws) == Some(knots);
    SortedReducedKnots(knotVec, maxKnots, draws);
    assert |PrefixSlice(Shuffle(knotVec[1..n - 1], draws), maxKnots - 2)| == maxKnots - 2;
    IncreasingExtremes(knotVec, scores);
  }

  /** For a single distinct score v under the cap, the knots are [v, v]. */
  lemma DoubledSingleKnot(knotVec: seq<real>, maxKnots: int, draws: Draws)
    requires |knotVec| == 1
    ensures Sort(ReducedKnots(knotVec, maxKnots, draws)) == [knotVec[0], knotVec[0]]
  {
    var v := knotVec[0];
    var c := ReducedKnots(knotVec, maxKnots, draws);
    assert c == [v, v];
    var knots := Sort(c);
    assert multiset(knots) == multiset{v, v};
    assert |knots| == 2;
    assert knots[0] in multiset(knots) && knots[1] in multiset(knots);
  }

  /** What every knot vector of the fitter satisfies: its knots are observed scores, it is strictly
      increasing except for a doubled single knot [v, v], and for nonempty scores it starts with
      the smallest score and ends with the largest. */
  predicate KnotsOfScores(knots: seq<real>, scores: seq<real>) {
    (forall x :: x in knots ==> x in scores) &&
    (StrictlyIncreasing(knots) || (|knots| == 2 && knots[0] == knots[1])) &&
    (|scores| > 0 ==>
       |knots| > 0 &&
       knots[0] in scores && (forall x :: x in scores ==> knots[0] <= x) &&
       knots[|knots| - 1] in scores && (forall x :: x in scores ==> x <= knots[|knots| - 1]))
  }

  lemma UniqueKnotsOfScores(scores: seq<real>)
    ensures KnotsOfScores(Unique(scores), scores)
  {
    if |scores| > 0 {
      IncreasingExtremes(Unique(scores), scores);
    }
  }

  lemma ReducedKnotsOfScores(knotVec: seq<real>, scores: seq<real>, maxKnots: int, draws: Draws)
    requires StrictlyIncreasing(knotVec) && (forall x :: x in knotVec <==> x in scores)
    requires |knotVec| > 0
    ensures KnotsOfScores(Sort(ReducedKnots(knotVec, maxKnots, draws)), scores)
    ensures |Sort(ReducedKnots(knotVec, maxKnots, draws))| >= 2
  {
    var first := knotVec[0];
    assert first in knotVec <==> first in scores;
    IncreasingExtremes(knotVec, scores);
    if |knotVec| == 1 {
      DoubledSingleKnot(knotVec, maxKnots, draws);
    } else {
      ReducedKnotsOfDistinct(knotVec, scores, maxKnots, draws);
    }
  }

  lemma ReducedKnotsOfDistinct(knotVec: seq<real>, scores: seq<real>, maxKnots: int, draws: Draws)
    requires StrictlyIncreasing(knotVec) && (forall x :: x in knotVec <==> x in scores)
    requires |knotVec| >= 2 && |scores| > 0
    requires knotVec[0] in scores && (forall x :: x in scores ==> knotVec[0] <= x)
    requires knotVec[|knotVec| - 1] in scores && (forall x :: x in scores ==> x <= knotVec[|knotVec| - 1])
    ensures KnotsOfScores(Sort(ReducedKnots(knotVec, maxKnots, draws)), scores)
    ensures |Sort(ReducedKnots(knotVec, maxKnots, draws))| >= 2
  {
    var knots := Sort(ReducedKnots(knotVec, maxKnots, draws));
    SortedReducedKnots(knotVec, maxKnots, draws);
    forall x | x in knots ensures x in scores {
      assert x in knotVec;
      assert x in knotVec <==> x in scores;
    }
  }

  /** The knot vector has the two entries the basis needs: two distinct scores, or one distinct
      score doubled by the cap. */
  predicate EnoughKnots(scores: seq<real>, sampleKnots: bool, maxKnots: int) {
    |Unique(scores)| >= 2 || (|Unique(scores)| == 1 && Capped(scores, sampleKnots, maxKnots))
  }

  /** Every knot vector the fitter can produce satisfies KnotsOfScores, and it has at least two
      knots exactly when there are two distinct scores, or one distinct score under the cap. */
  lemma SelectKnotsShape(scores: seq<real>, sampleKnots: bool, maxKnots: int, draws: Draws)
    requires SelectKnots(scores, sampleKnots, maxKnots, draws).Some?
    ensures var knots := SelectKnots(scores, sampleKnots, maxKnots, draws).value;
            KnotsOfScores(knots, scores) &&
            (|knots| >= 2 <==> EnoughKnots(scores, sampleKnots, maxKnots))
  {
    if Capped(scores, sampleKnots, maxKnots) {
      ReducedKnotsOfScores(Unique(scores), scores, maxKnots, draws);
    } else {
      UniqueKnotsOfScores(scores);
    }
  }

  // ---------------------------------------------------------------------------
  // Natural cubic spline basis (_natural_cubic_spline_basis_expansion)
  // ---------------------------------------------------------------------------

  function Cube(v: real): real { v * v * v }

  /** np.maximum(v, 0) */
  function PositivePart(v: real): real { if v > 0.0 then v else 0.0 }

  /** Knots the basis can be built on: at least two (columns 0 and 1 must exist), and when derived
      columns exist, no knot before the last equals the last, so no denominator is zero. */
  predicate ValidKnots(knots: seq<real>) {
    |knots| >= 2 &&
    (|knots| > 2 ==> forall j :: 0 <= j < |knots| - 1 ==> knots[j] != knots[|knots| - 1])
  }

  /** func_d for the 1-based knot index k:
      (max(x - knots[k-1], 0)^3 - max(x - knots[K-1], 0)^3) / (knots[K-1] - knots[k-1]). */
  function TruncatedCubic(knots: seq<real>, k: nat, x: real): (r: real)
    requires ValidKnots(knots) && |knots| > 2 && 1 <= k <= |knots| - 1
    ensures x <= knots[k - 1] && x <= knots[|knots| - 1] ==> r == 0.0
  {
    var last := knots[|knots| - 1];
    (Cube(PositivePart(x - knots[k - 1])) - Cube(PositivePart(x - last))) / (last - knots[k - 1])
  }

  /** Between its own knot and the last knot, d_k is the plain cubic (x - knots[k-1])^3 scaled by
      the knot gap: the second truncated power has not started yet. */
  lemma TruncatedCubicBeforeLastKnot(knots: seq<real>, k: nat, x: real)
    requires ValidKnots(knots) && |knots| > 2 && 1 <= k <= |knots| - 1
    requires knots[k - 1] <= x <= knots[|knots| - 1]
    ensures TruncatedCubic(knots, k, x) == Cube(x - knots[k - 1]) / (knots[|knots| - 1] - knots[k - 1])
  {
    assert PositivePart(x - knots[|knots| - 1]) == 0.0;
    assert PositivePart(x - knots[k - 1]) == x - knots[k - 1];
  }

  /** func_H for the 1-based knot index k: d_k(x) - d_{K-1}(x). */
  function NaturalSplineTerm(knots: seq<real>, k: nat, x: real): (r: real)
    requires ValidKnots(knots) && |knots| > 2 && 1 <= k <= |knots| - 2
    ensures x <= knots[k - 1] && x <= knots[|knots| - 2] && x <= knots[|knots| - 1] ==> r == 0.0
  {
    TruncatedCubic(knots, k, x) - TruncatedCubic(knots, |knots| - 1, x)
  }

  /** Entry of column c of the basis for a score x: 1, then x, then func_H(c - 1). */
  function BasisValue(knots: seq<real>, c: nat, x: real): real
    requires ValidKnots(knots) && c < |knots|
  {
    if c == 0 then 1.0
    else if c == 1 then x
    else NaturalSplineTerm(knots, c - 1, x)
  }

  /** One row of the basis matrix, for one score. */
  function BasisRow(knots: seq<real>, x: real): seq<real>
    requires ValidKnots(knots)
  {
    seq(|knots|, c requires 0 <= c < |knots| => BasisValue(knots, c, x))
  }

  /** The basis matrix as a sequence of rows, one per score. */
  function BasisMatrix(xpts: seq<real>, knots: seq<real>): seq<seq<real>>
    requires ValidKnots(knots)
  {
    seq(|xpts|, i requires 0 <= i < |xpts| => BasisRow(knots, xpts[i]))
  }

  /** _natural_cubic_spline_basis_expansion: allocates a zero N x K matrix, fills column 0 with
      ones and column 1 with the scores, then column i + 1 with func_H(i) for i in 1..K-2. */
  method NaturalCubicSplineBasisExpansion(xpts: seq<real>, knots: seq<real>) returns (outmat: array2<real>)
    requires ValidKnots(knots)
    ensures outmat.Length0 == |xpts| && outmat.Length1 == |knots|
    ensures forall i :: 0 <= i < |xpts| ==> outmat[i, 0] == 1.0 && outmat[i, 1] == xpts[i]
    ensures forall i, c :: 0 <= i < |xpts| && 0 <= c < |knots| ==> outmat[i, c] == BasisValue(knots, c, xpts[i])
    ensures forall i, c :: 0 <= i < |xpts| && 0 <= c < |knots| ==> outmat[i, c] == BasisMatrix(xpts, knots)[i][c]
  {
    var numKnots := |knots|;
    var numPts := |xpts|;
    outmat := new real[numPts, numKnots]((_, _) => 0.0);
    forall r | 0 <= r < numPts {
      outmat[r, 0] := 1.0;
    }
    forall r | 0 <= r < numPts {
      outmat[r, 1] := xpts[r];
    }
    for i := 1 to numKnots - 1
      invariant forall r, c :: 0 <= r < numPts && 0 <= c <= i ==> outmat[r, c] == BasisValue(knots, c, xpts[r])
    {
      forall r | 0 <= r < numPts {
        outmat[r, i + 1] := NaturalSplineTerm(knots, i, xpts[r]);
      }
    }
  }

  /** A score at or below the first knot gets 0 in every derived column. */
  lemma BasisZeroAtOrBelowFirstKnot(knots: seq<real>, c: nat, x: real)
    requires StrictlyIncreasing(knots) && |knots| > 2
    requires 2 <= c < |knots| && x <= knots[0]
    ensures ValidKnots(knots) && BasisValue(knots, c, x) == 0.0
  {
    var last := |knots| - 1;
    assert ValidKnots(knots);
    assert PositivePart(x - knots[c - 2]) == 0.0;
    assert PositivePart(x - knots[last - 1]) == 0.0;
    assert PositivePart(x - knots[last]) == 0.0;
  }

  /** (p^3 - q^3) / (p - q) = p^2 + pq + q^2 */
  lemma CubeDifferenceQuotient(p: real, q: real)
    requires p != q
    ensures (Cube(p) - Cube(q)) / (p - q) == p * p + p * q + q * q
  {
    assert Cube(p) - Cube(q) == (p - q) * (p * p + p * q + q * q);
  }

  /** Beyond the last knot every derived column is linear in the score (the natural boundary
      condition): column c equals (b - a) * (3x - a - b - l) with a = knots[c-2], b = knots[K-2],
      l = knots[K-1]. */
  lemma BasisLinearBeyondLastKnot(knots: seq<real>, c: nat, x: real)
    requires StrictlyIncreasing(knots) && |knots| > 2
    requires 2 <= c < |knots| && x >= knots[|knots| - 1]
    ensures ValidKnots(knots)
    ensures var a, b, l := knots[c - 2], knots[|knots| - 2], knots[|knots| - 1];
            BasisValue(knots, c, x) == (b - a) * (3.0 * x - a - b - l)
  {
    var a, b, l := knots[c - 2], knots[|knots| - 2], knots[|knots| - 1];
    assert ValidKnots(knots);
    assert a < l && b < l;
    var pa, pb, q := x - a, x - b, x - l;
    assert PositivePart(pa) == pa && PositivePart(pb) == pb && PositivePart(q) == q;
    CubeDifferenceQuotient(pa, q);
    CubeDifferenceQuotient(pb, q);
    assert pa - q == l - a && pb - q == l - b;
    assert TruncatedCubic(knots, c - 1, x) == pa * pa + pa * q + q * q;
    assert TruncatedCubic(knots, |knots| - 1, x) == pb * pb + pb * q + q * q;
    assert pa * pa + pa * q - pb * pb - pb * q == (pa - pb) * (pa + pb + q);
  }

  // ---------------------------------------------------------------------------
  // force_prob clipping and mean_squared_error_trunc
  // ---------------------------------------------------------------------------

  /** The two np.where steps: values below eps become eps, then values above 1 - eps become
      1 - eps. */
  function Clip(v: real, eps: real): (r: real)
    ensures eps <= 0.5 ==> eps <= r <= 1.0 - eps
    ensures eps <= v <= 1.0 - eps ==> r == v
    ensures eps > 0.5 ==> r == 1.0 - eps
  {
    var raised := if v < eps then eps else v;
    if raised > 1.0 - eps then 1.0 - eps else raised
  }

  lemma ClipIdempotent(v: real, eps: real)
    ensures Clip(Clip(v, eps), eps) == Clip(v, eps)
  {
  }

  /** Clipping preserves the order of scores. */
  lemma ClipMonotone(v: real, w: real, eps: real)
    requires v <= w
    ensures Clip(v, eps) <= Clip(w, eps)
  {
  }

  function ClipAll(v: seq<real>, eps: real): (r: seq<real>)
    ensures |r| == |v| && forall i :: 0 <= i < |v| ==> r[i] == Clip(v[i], eps)
  {
    seq(|v|, i requires 0 <= i < |v| => Clip(v[i], eps))
  }

  /** The square of one difference, computed as |d| * |d|. The solver does not derive the sign
      or the bound of a product of one term with itself, so the factors are bound to two names
      a and b and the facts come from the product lemmas below, which state them for two
      separate factors. */
  function Square(d: real): (r: real)
    ensures r == 0.0 <==> d == 0.0
    ensures r >= 0.0
    ensures -1.0 <= d <= 1.0 ==> r <= 1.0
  {
    if d == 0.0 then 0.0
    else
      var a := if d < 0.0 then -d else d;
      var b := a;
      PositiveProduct(a, b);
      if a <= 1.0 then ProductAtMostOne(a, b); a * b else a * b
  }

  lemma PositiveProduct(a: real, b: real)
    requires a > 0.0 && b > 0.0
    ensures a * b > 0.0
  {
  }

  lemma ProductAtMostOne(a: real, b: real)
    requires 0.0 <= a <= 1.0 && 0.0 <= b <= 1.0
    ensures a * b <= 1.0
  {
    ProductAtMostRight(a, b);
  }

  lemma ProductAtMostRight(a: real, b: real)
    requires 0.0 <= a <= 1.0 && 0.0 <= b
    ensures a * b <= b
  {
  }

  /** Sum over positions of (yTrue[i] - yPred[i])^2. */
  function SquaredErrorSum(yTrue: seq<real>, yPred: seq<real>): (r: real)
    requires |yTrue| == |yPred|
    ensures r >= 0.0
    ensures r == 0.0 <==> yTrue == yPred
    ensures (forall i :: 0 <= i < |yTrue| ==> 0.0 <= yTrue[i] <= 1.0 && 0.0 <= yPred[i] <= 1.0) ==> r <= |yTrue| as real
  {
    if |yTrue| == 0 then 0.0
    else
      assert yTrue == [yTrue[0]] + yTrue[1..] && yPred == [yPred[0]] + yPred[1..];
      Square(yTrue[0] - yPred[0]) + SquaredErrorSum(yTrue[1..], yPred[1..])
  }

  lemma QuotientBounds(total: real, count: real)
    requires count > 0.0
    ensures total >= 0.0 ==> total / count >= 0.0
    ensures total / count == 0.0 <==> total == 0.0
    ensures total <= count ==> total / count <= 1.0
  {
  }

  /** mean_squared_error_trunc: the average squared error after clipping the predictions into
      [eps, 1 - eps]. None stands for the NaN that np.average gives on empty input. */
  function MeanSquaredErrorTrunc(yTrue: seq<real>, yPred: seq<real>, eps: real): (r: Option<real>)
    requires |yTrue| == |yPred|
    ensures r.None? <==> |yTrue| == 0
    ensures r.Some? ==> r.value >= 0.0
    ensures r.Some? ==> (r.value == 0.0 <==> forall i :: 0 <= i < |yTrue| ==> yTrue[i] == Clip(yPred[i], eps))
    ensures r.Some? && 0.0 <= eps <= 0.5 && (forall i :: 0 <= i < |yTrue| ==> 0.0 <= yTrue[i] <= 1.0) ==> r.value <= 1.0
  {
    if |yTrue| == 0 then None
    else
      var clipped := ClipAll(yPred, eps);
      var total := SquaredErrorSum(yTrue, clipped);
      assert (forall i :: 0 <= i < |yTrue| ==> yTrue[i] == Clip(yPred[i], eps)) ==> yTrue == clipped;
      QuotientBounds(total, |yTrue| as real);
      Some(total / |yTrue| as real)
  }

  // ---------------------------------------------------------------------------
  // The calibration function returned by prob_calibration_function
  // ---------------------------------------------------------------------------

  datatype CalibrationMethod = Logistic | Ridge

  /** The regularisation strengths searched: the default 10**np.linspace(lo, hi, count), kept
      symbolic, or the caller's own values. */
  datatype Grid = LogSpace(lowExponent: int, highExponent: int, count: nat) | Values(values: seq<real>)

  /** reg_param_vec: the string 'default' or an explicit list. */
  datatype RegParams = DefaultGrid | Explicit(strengths: seq<real>)

  /** The fit of LogisticRegressionCV (scored by log loss) or RidgeCV (scored by
      mean_squared_error_trunc) on a basis matrix and targets, with 5-fold inner search over the
      grid: returns the fitted row predictor (predict_proba(.)[:, 1] for logistic, predict for ridge).
      None stands for a fit that raises (for instance a single class in the targets, or fewer
      samples than the 5 inner folds). */
  type Regression = (CalibrationMethod, Grid, seq<seq<real>>, seq<real>) -> Option<seq<real> -> real>

  /** The keyword options of prob_calibration_function other than method; draws stands for the
      generator that random.seed(random_state) sets up. */
  datatype CalibOptions = CalibOptions(
    regParams: RegParams, sampleKnots: bool, forceProb: bool, eps: real, maxKnots: int, draws: Draws)

  /** The defaults: 'default' grid, knots='sample', force_prob=True, eps=1e-15, max_knots=200. */
  function DefaultOptions(draws: Draws): (o: CalibOptions)
    ensures o.regParams.DefaultGrid? && o.sampleKnots && o.forceProb
    ensures o.eps == 1e-15 && 0.0 < o.eps < 0.5 && o.maxKnots == 200
  {
    CalibOptions(DefaultGrid, true, true, 1e-15, 200, draws)
  }

  /** reg_param_vec after the 'default' check: 43 strengths from 10^-4 to 10^10 for logistic,
      from 10^-7 to 10^7 for ridge; an explicit list is passed through. */
  function ResolveGrid(regParams: RegParams, calibMethod: CalibrationMethod): (g: Grid)
    ensures regParams.Explicit? ==> g == Values(regParams.strengths)
    ensures regParams.DefaultGrid? ==> g.LogSpace? && g.count == 43
    ensures regParams.DefaultGrid? && calibMethod.Logistic? ==> g.lowExponent == -4 && g.highExponent == 10
    ensures regParams.DefaultGrid? && calibMethod.Ridge? ==> g.lowExponent == -7 && g.highExponent == 7
  {
    match regParams
    case Explicit(strengths) => Values(strengths)
    case DefaultGrid =>
      match calibMethod
      case Logistic => LogSpace(-4, 10, 43)
      case Ridge => LogSpace(-7, 7, 43)
  }

  /** calibrate_scores as a value: the knot vector fixed at fit time, the fitted regressor and the
      clipping options. */
  datatype CalibrationFunction = CalibrationFunction(
    knots: seq<real>, calibMethod: CalibrationMethod, predict: seq<real> -> real, forceProb: bool, eps: real)

  /** The calibrated probability of one new score. */
  function CalibratedScore(cf: CalibrationFunction, x: real): real
    requires ValidKnots(cf.knots)
  {
    var raw := cf.predict(BasisRow(cf.knots, x));
    if cf.calibMethod.Ridge? && cf.forceProb then Clip(raw, cf.eps) else raw
  }

  /** calibrate_scores: rebuilds the basis of the new scores on the fitted knots, predicts, and for
      ridge with force_prob clips into [eps, 1 - eps]. */
  function CalibrateScores(cf: CalibrationFunction, newScores: seq<real>): (r: seq<real>)
    requires ValidKnots(cf.knots)
    ensures |r| == |newScores|
    ensures forall i :: 0 <= i < |newScores| ==> r[i] == CalibratedScore(cf, newScores[i])
    ensures cf.calibMethod.Ridge? && cf.forceProb && cf.eps <= 0.5 ==>
            forall i :: 0 <= i < |r| ==> cf.eps <= r[i] <= 1.0 - cf.eps
  {
    var basisExp := BasisMatrix(newScores, cf.knots);
    var outvec := seq(|basisExp|, i requires 0 <= i < |basisExp| => cf.predict(basisExp[i]));
    if cf.calibMethod.Ridge? && cf.forceProb then ClipAll(outvec, cf.eps) else outvec
  }

  /** Two new scores that are equal calibrate to the same probability, whatever else is in the
      batch: the knots are not recomputed from the new scores. */
  lemma CalibrateScoresPointwise(cf: CalibrationFunction, s: seq<real>, t: seq<real>, i: nat, j: nat)
    requires ValidKnots(cf.knots)
    requires i < |s| && j < |t| && s[i] == t[j]
    ensures CalibrateScores(cf, s)[i] == CalibrateScores(cf, t)[j]
  {
  }

  /** prob_calibration_function: selects the knots, builds the basis of the training scores,
      fits the regression and closes over the result. None stands for the IndexError raised when
      fewer than two knots are left, and for a regression fit that raises. */
  function ProbCalibrationFunction(truth: seq<real>, scores: seq<real>, calibMethod: CalibrationMethod,
                                   opts: CalibOptions, regress: Regression): (r: Option<CalibrationFunction>)
    ensures r.Some? ==> EnoughKnots(scores, opts.sampleKnots, opts.maxKnots)
    ensures r.Some? ==> SelectKnots(scores, opts.sampleKnots, opts.maxKnots, opts.draws) == Some(r.value.knots)
    ensures EnoughKnots(scores, opts.sampleKnots, opts.maxKnots) ==>
              var knots := SelectKnots(scores, opts.sampleKnots, opts.maxKnots, opts.draws);
              knots.Some? && ValidKnots(knots.value) &&
              (r.Some? <==> regress(calibMethod, ResolveGrid(opts.regParams, calibMethod),
                                    BasisMatrix(scores, knots.value), truth).Some?)
    ensures r.Some? ==>
              ValidKnots(r.value.knots) && KnotsOfScores(r.value.knots, scores) &&
              r.value.calibMethod == calibMethod && r.value.forceProb == opts.forceProb && r.value.eps == opts.eps &&
              Some(r.value.predict) == regress(calibMethod, ResolveGrid(opts.regParams, calibMethod),
                                               BasisMatrix(scores, r.value.knots), truth)
  {
    match SelectKnots(scores, opts.sampleKnots, opts.maxKnots, opts.draws)
    case None => None
    case Some(knotVec) =>
      SelectKnotsShape(scores, opts.sampleKnots, opts.maxKnots, opts.draws);
      if |knotVec| < 2 then None
      else
        var xMat := BasisMatrix(scores, knotVec);
        match regress(calibMethod, ResolveGrid(opts.regParams, calibMethod), xMat, truth)
        case None => None
        case Some(predictor) => Some(CalibrationFunction(knotVec, calibMethod, predictor, opts.forceProb, opts.eps))
  }
}
