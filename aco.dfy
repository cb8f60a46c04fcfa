/** The Ant Colony Optimization engine: ants build open tours from a start
    city to an end city, and a pheromone matrix kept in place is evaporated
    and reinforced along those tours once per generation. */
module Aco {
  import opened Matrix

  datatype Option<T> = None | Some(value: T)

  /** One ant's tour of a generation together with its length. */
  datatype AntTour = AntTour(tour: seq<nat>, distance: real)

  /** The best solution kept so far. A `None` distance stands for the initial
      +infinity, a `None` tour for "no tour yet". */
  datatype Incumbent = Incumbent(distance: Option<real>, tour: Option<seq<nat>>)

  /** `d < best`, where `None` is +infinity. */
  predicate Improves(d: real, best: Option<real>) {
    best.None? || d < best.value
  }

  /** `a <= b` on the reals extended with +infinity (`None`). */
  predicate AtMost(a: Option<real>, b: Option<real>) {
    b.None? || (a.Some? && a.value <= b.value)
  }

  /** Later entries are never larger than earlier ones. */
  ghost predicate NonIncreasing(h: seq<Option<real>>) {
    forall i, j :: 0 <= i < j < |h| ==> AtMost(h[j], h[i])
  }

  // ---------------------------------------------------------------------
  // Tours

  function Elems(s: seq<nat>): set<nat> {
    set x | x in s
  }

  /** The cities `0 .. n - 1`. */
  function Range(n: nat): set<nat> {
    if n == 0 then {} else Range(n - 1) + {n - 1}
  }

  ghost predicate InRange(s: seq<nat>, n: nat) {
    forall k :: 0 <= k < |s| ==> s[k] < n
  }

  ghost predicate Distinct(s: seq<nat>) {
    forall k, l :: 0 <= k < l < |s| ==> s[k] != s[l]
  }

  /** `s` lists `n` distinct cities, each below `n`. */
  ghost predicate IsPermutation(s: seq<nat>, n: nat) {
    |s| == n && InRange(s, n) && Distinct(s)
  }

  /** `s` is a permutation of the `n` cities from `start` to `end`. */
  ghost predicate IsTour(s: seq<nat>, n: nat, start: nat, end: nat) {
    IsPermutation(s, n) && 0 < n && s[0] == start && s[n - 1] == end
  }

  /** City `c` may be chosen next: it exists, is unvisited and is not the end city. */
  ghost predicate IsCandidate(c: nat, n: nat, visited: set<nat>, endCity: nat) {
    c < n && c !in visited && c != endCity
  }

  lemma {:induction false} RangeSize(n: nat)
    ensures |Range(n)| == n
    ensures forall c: nat :: c in Range(n) <==> c < n
  {
    if n > 0 {
      RangeSize(n - 1);
    }
  }

  lemma {:induction false} SubsetSize(a: set<nat>, b: set<nat>)
    requires a <= b
    ensures |a| <= |b|
    decreases |a|
  {
    if a != {} {
      var x :| x in a;
      SubsetSize(a - {x}, b - {x});
    }
  }

  lemma {:induction false} DistinctElemsSize(s: seq<nat>)
    requires Distinct(s)
    ensures |Elems(s)| == |s|
  {
    if |s| > 0 {
      var init := s[..|s| - 1];
      assert s == init + [s[|s| - 1]];
      assert Elems(s) == Elems(init) + {s[|s| - 1]};
      assert s[|s| - 1] !in Elems(init);
      DistinctElemsSize(init);
    }
  }

  /** A permutation of the `n` cities contains every one of them. */
  lemma PermutationCoversAll(s: seq<nat>, n: nat)
    requires IsPermutation(s, n)
    ensures forall c: nat :: c < n ==> c in s
  {
    DistinctElemsSize(s);
    RangeSize(n);
    forall c: nat | c < n
      ensures c in s
    {
      if c !in s {
        assert Elems(s) <= Range(n) - {c};
        SubsetSize(Elems(s), Range(n) - {c});
        assert false;
      }
    }
  }

  /** While fewer than `n - 1` cities are visited, some candidate remains. */
  lemma UnvisitedCityExists(n: nat, visited: set<nat>, endCity: nat)
    requires endCity < n && |visited| + 1 < n
    ensures exists c: nat :: IsCandidate(c, n, visited, endCity)
  {
    var rest := Range(n) - {endCity};
    RangeSize(n);
    assert |rest| == n - 1;
    assert !(rest <= visited) by {
      if rest <= visited {
        SubsetSize(rest, visited);
      }
    }
    var c :| c in rest && c !in visited;
    assert IsCandidate(c, n, visited, endCity);
  }

  lemma ProductNonNegative(a: real, b: real)
    requires 0.0 <= a && 0.0 <= b
    ensures 0.0 <= a * b
  {
  }

  // ---------------------------------------------------------------------
  // Tour length

  /** Sum of `d[tour[k], tour[k + 1]]` over consecutive pairs. */
  ghost function PathLength(d: array2<real>, tour: seq<nat>): real
    reads d
    requires InRange(tour, d.Length0) && InRange(tour, d.Length1)
    decreases |tour|
  {
    if |tour| <= 1 then 0.0
    else PathLength(d, tour[..|tour| - 1]) + d[tour[|tour| - 2], tour[|tour| - 1]]
  }

  /** Tour lengths over a non-negative matrix are non-negative. */
  lemma {:induction false} PathLengthNonNegative(d: array2<real>, tour: seq<nat>)
    requires InRange(tour, d.Length0) && InRange(tour, d.Length1)
    requires NonNegative(d)
    ensures 0.0 <= PathLength(d, tour)
    decreases |tour|
  {
    if |tour| > 1 {
      PathLengthNonNegative(d, tour[..|tour| - 1]);
    }
  }

  /** A tour of at least two cities that never stays in place has positive
      length when every off-diagonal distance is positive. */
  lemma {:induction false} PathLengthPositive(d: array2<real>, tour: seq<nat>)
    requires InRange(tour, d.Length0) && InRange(tour, d.Length1)
    requires PositiveOffDiagonal(d)
    requires 2 <= |tour|
    requires forall k :: 0 <= k < |tour| - 1 ==> tour[k] != tour[k + 1]
    ensures 0.0 < PathLength(d, tour)
    decreases |tour|
  {
    if |tour| > 2 {
      PathLengthPositive(d, tour[..|tour| - 1]);
    }
  }

  /** Every open tour over at least two cities has positive length when every
      off-diagonal distance is positive. */
  lemma TourLengthPositive(d: array2<real>, tour: seq<nat>, n: nat, start: nat, end: nat)
    requires IsSquare(d, n) && PositiveOffDiagonal(d)
    requires IsTour(tour, n, start, end) && start != end
    ensures 0.0 < PathLength(d, tour)
  {
    assert forall k :: 0 <= k < |tour| - 1 ==> tour[k] != tour[k + 1];
    PathLengthPositive(d, tour);
  }

  // ---------------------------------------------------------------------
  // Pheromone deposits

  /** An entry `x` after evaporation at rate `rate`. */
  function Evaporated(rate: real, x: real): real { (1.0 - rate) * x }

  /** How often one step from `a` to `b` reinforces entry `[i, j]`: once as
      `[a, b]` and once as `[b, a]`. */
  function Hit(a: nat, b: nat, i: nat, j: nat): nat {
    (if a == i && b == j then 1 else 0) + (if b == i && a == j then 1 else 0)
  }

  /** How often the first `k` steps of `tour` reinforce entry `[i, j]`. */
  function EdgeHits(tour: seq<nat>, k: nat, i: nat, j: nat): nat
    requires k == 0 || k < |tour|
  {
    if k == 0 then 0 else EdgeHits(tour, k - 1, i, j) + Hit(tour[k - 1], tour[k], i, j)
  }

  /** `(i, j)` or `(j, i)` occurs as two consecutive cities of `tour`. */
  ghost predicate HasEdge(tour: seq<nat>, i: nat, j: nat) {
    exists e :: 0 <= e < |tour| - 1 &&
      ((tour[e] == i && tour[e + 1] == j) || (tour[e] == j && tour[e + 1] == i))
  }

  /** Number of steps of `tour`. */
  function Steps(tour: seq<nat>): nat {
    if |tour| == 0 then 0 else |tour| - 1
  }

  /** What one step from `a` to `b` adds to entry `[i, j]` when each of its
      two reinforcements, `[a, b]` and `[b, a]`, adds `share`. */
  function StepDeposit(a: nat, b: nat, share: real, i: nat, j: nat): real {
    (if a == i && b == j then share else 0.0) + (if b == i && a == j then share else 0.0)
  }

  /** What the first `k` steps of `tour` add to entry `[i, j]`. */
  function TourDeposit(tour: seq<nat>, k: nat, share: real, i: nat, j: nat): real
    requires k == 0 || k < |tour|
  {
    if k == 0 then 0.0
    else TourDeposit(tour, k - 1, share, i, j) + StepDeposit(tour[k - 1], tour[k], share, i, j)
  }

  ghost predicate PositiveDistances(runs: seq<AntTour>) {
    forall k :: 0 <= k < |runs| ==> 0.0 < runs[k].distance
  }

  /** Total amount added to entry `[i, j]` by the tours in `runs`, each
      tour depositing `q / distance` per reinforcement. */
  ghost function Deposit(runs: seq<AntTour>, q: real, i: nat, j: nat): real
    requires PositiveDistances(runs)
  {
    if runs == [] then 0.0
    else
      var last := runs[|runs| - 1];
      Deposit(runs[..|runs| - 1], q, i, j) + TourDeposit(last.tour, Steps(last.tour), q / last.distance, i, j)
  }

  /** Taking one more tour of `runs` adds that tour's deposit. */
  lemma DepositStep(runs: seq<AntTour>, a: nat, q: real, i: nat, j: nat)
    requires PositiveDistances(runs) && a < |runs|
    ensures PositiveDistances(runs[..a]) && PositiveDistances(runs[..a + 1])
    ensures Deposit(runs[..a + 1], q, i, j) ==
      Deposit(runs[..a], q, i, j) + TourDeposit(runs[a].tour, Steps(runs[a].tour), q / runs[a].distance, i, j)
  {
    assert runs[..a + 1][..a] == runs[..a];
  }

  lemma Distribute(a: real, b: real, c: real)
    ensures a * (b + c) == a * b + a * c
  {
  }

  /** One step adds `share` once per reinforcement of `[i, j]`. */
  lemma StepDepositCounts(a: nat, b: nat, share: real, i: nat, j: nat)
    ensures StepDeposit(a, b, share, i, j) == share * (Hit(a, b, i, j) as real)
  {
    if Hit(a, b, i, j) == 2 {
      assert share * 2.0 == share + share;
    }
  }

  /** The first `k` steps add `share` once per reinforcement of `[i, j]`. */
  lemma {:induction false} TourDepositCounts(tour: seq<nat>, k: nat, share: real, i: nat, j: nat)
    requires k == 0 || k < |tour|
    ensures TourDeposit(tour, k, share, i, j) == share * (EdgeHits(tour, k, i, j) as real)
  {
    if k > 0 {
      TourDepositCounts(tour, k - 1, share, i, j);
      StepDepositCounts(tour[k - 1], tour[k], share, i, j);
      var before, hit := EdgeHits(tour, k - 1, i, j) as real, Hit(tour[k - 1], tour[k], i, j) as real;
      assert EdgeHits(tour, k, i, j) as real == before + hit;
      Distribute(share, before, hit);
    }
  }

  /** The first `k` steps add nothing to an entry they never reinforce. */
  lemma {:induction false} TourDepositZero(tour: seq<nat>, k: nat, share: real, i: nat, j: nat)
    requires k == 0 || k < |tour|
    requires EdgeHits(tour, k, i, j) == 0
    ensures TourDeposit(tour, k, share, i, j) == 0.0
  {
    if k > 0 {
      TourDepositZero(tour, k - 1, share, i, j);
    }
  }

  /** With a non-negative share the first `k` steps add nothing negative,
      and with a positive share they add a positive amount to an entry they
      reinforce. */
  lemma {:induction false} TourDepositSign(tour: seq<nat>, k: nat, share: real, i: nat, j: nat)
    requires k == 0 || k < |tour|
    requires 0.0 <= share
    ensures 0.0 <= TourDeposit(tour, k, share, i, j)
    ensures 0.0 < share && 0 < EdgeHits(tour, k, i, j) ==> 0.0 < TourDeposit(tour, k, share, i, j)
  {
    if k > 0 {
      TourDepositSign(tour, k - 1, share, i, j);
    }
  }

  lemma {:induction false} EdgeHitsSymmetric(tour: seq<nat>, k: nat, i: nat, j: nat)
    requires k == 0 || k < |tour|
    ensures EdgeHits(tour, k, i, j) == EdgeHits(tour, k, j, i)
  {
    if k > 0 {
      EdgeHitsSymmetric(tour, k - 1, i, j);
    }
  }

  /** Entry `[i, j]` is reinforced by the first `k` steps exactly when one of
      them goes between `i` and `j`, in either direction. */
  lemma {:induction false} EdgeHitsPositive(tour: seq<nat>, k: nat, i: nat, j: nat)
    requires k == 0 || k < |tour|
    ensures 0 < EdgeHits(tour, k, i, j) <==>
      exists e :: 0 <= e < k &&
        ((tour[e] == i && tour[e + 1] == j) || (tour[e] == j && tour[e + 1] == i))
  {
    if k > 0 {
      EdgeHitsPositive(tour, k - 1, i, j);
      var e := k - 1;
      if (tour[e] == i && tour[e + 1] == j) || (tour[e] == j && tour[e + 1] == i) {
        assert Hit(tour[e], tour[e + 1], i, j) > 0;
      }
    }
  }

  /** A tour reinforces `[i, j]` exactly when it passes between `i` and `j`. */
  lemma EdgeCountPositive(tour: seq<nat>, i: nat, j: nat)
    ensures 0 < EdgeHits(tour, Steps(tour), i, j) <==> HasEdge(tour, i, j)
  {
    EdgeHitsPositive(tour, Steps(tour), i, j);
  }

  /** The deposit on `[i, j]` equals the deposit on `[j, i]`. */
  lemma {:induction false} DepositSymmetric(runs: seq<AntTour>, q: real, i: nat, j: nat)
    requires PositiveDistances(runs)
    ensures Deposit(runs, q, i, j) == Deposit(runs, q, j, i)
  {
    if runs != [] {
      var last := runs[|runs| - 1];
      var share := q / last.distance;
      DepositSymmetric(runs[..|runs| - 1], q, i, j);
      TourDepositCounts(last.tour, Steps(last.tour), share, i, j);
      TourDepositCounts(last.tour, Steps(last.tour), share, j, i);
      EdgeHitsSymmetric(last.tour, Steps(last.tour), i, j);
    }
  }

  /** With a non-negative deposit scale no deposit is negative. */
  lemma {:induction false} DepositNonNegative(runs: seq<AntTour>, q: real, i: nat, j: nat)
    requires PositiveDistances(runs)
    requires 0.0 <= q
    ensures 0.0 <= Deposit(runs, q, i, j)
  {
    if runs != [] {
      var last := runs[|runs| - 1];
      DepositNonNegative(runs[..|runs| - 1], q, i, j);
      TourDepositSign(last.tour, Steps(last.tour), q / last.distance, i, j);
    }
  }

  /** An entry that no tour passes over in either direction receives nothing. */
  lemma {:induction false} DepositOffTours(runs: seq<AntTour>, q: real, i: nat, j: nat)
    requires PositiveDistances(runs)
    requires forall k :: 0 <= k < |runs| ==> !HasEdge(runs[k].tour, i, j)
    ensures Deposit(runs, q, i, j) == 0.0
  {
    if runs != [] {
      var last := runs[|runs| - 1];
      var init := runs[..|runs| - 1];
      assert forall k :: 0 <= k < |init| ==> init[k] == runs[k];
      DepositOffTours(init, q, i, j);
      assert !HasEdge(last.tour, i, j);
      EdgeCountPositive(last.tour, i, j);
      TourDepositZero(last.tour, Steps(last.tour), q / last.distance, i, j);
    }
  }

  /** With a positive deposit scale, an entry that some tour passes over
      receives a positive amount. */
  lemma {:induction false} DepositOnTours(runs: seq<AntTour>, q: real, i: nat, j: nat)
    requires PositiveDistances(runs)
    requires 0.0 < q
    requires exists k :: 0 <= k < |runs| && HasEdge(runs[k].tour, i, j)
    ensures 0.0 < Deposit(runs, q, i, j)
  {
    var last := runs[|runs| - 1];
    var init := runs[..|runs| - 1];
    var share := q / last.distance;
    assert 0.0 < share;
    EdgeCountPositive(last.tour, i, j);
    TourDepositSign(last.tour, Steps(last.tour), share, i, j);
    if HasEdge(last.tour, i, j) {
      DepositNonNegative(init, q, i, j);
    } else {
      var k :| 0 <= k < |runs| && HasEdge(runs[k].tour, i, j);
      assert k < |init| && init[k] == runs[k];
      DepositOnTours(init, q, i, j);
    }
  }

  // ---------------------------------------------------------------------
  // Best-so-far bookkeeping

  /** The incumbent after the tours of `runs` were offered in order to
      `best`, each replacing it when strictly shorter. */
  function BestAfter(best: Incumbent, runs: seq<AntTour>): Incumbent {
    if runs == [] then best
    else
      var prev := BestAfter(best, runs[..|runs| - 1]);
      var last := runs[|runs| - 1];
      if Improves(last.distance, prev.distance) then Incumbent(Some(last.distance), Some(last.tour))
      else prev
  }

  /** The new best distance is the minimum of the old one and every distance
      of the generation: at most each of them and equal to one of them. */
  lemma {:induction false} BestAfterIsMinimum(best: Incumbent, runs: seq<AntTour>)
    ensures AtMost(BestAfter(best, runs).distance, best.distance)
    ensures forall k :: 0 <= k < |runs| ==> AtMost(BestAfter(best, runs).distance, Some(runs[k].distance))
    ensures BestAfter(best, runs).distance == best.distance ||
      exists k :: 0 <= k < |runs| && BestAfter(best, runs).distance == Some(runs[k].distance)
  {
    if runs != [] {
      var init := runs[..|runs| - 1];
      BestAfterIsMinimum(best, init);
      var prev := BestAfter(best, init);
      forall k | 0 <= k < |init|
        ensures AtMost(prev.distance, Some(runs[k].distance))
      {
        assert init[k] == runs[k];
      }
      if prev.distance != best.distance {
        var k :| 0 <= k < |init| && prev.distance == Some(init[k].distance);
        assert init[k] == runs[k];
      }
    }
  }

  /** The best tour changes only when some tour is strictly shorter than the
      old best; then it is a tour that improves on the old best and is
      strictly shorter than every earlier tour, taken together with its
      distance (with `BestAfterIsMinimum`, the first tour of minimum length). */
  lemma {:induction false} BestAfterReplaces(best: Incumbent, runs: seq<AntTour>)
    ensures (forall k :: 0 <= k < |runs| ==> !Improves(runs[k].distance, best.distance)) ==>
      BestAfter(best, runs) == best
    ensures (exists k :: 0 <= k < |runs| && Improves(runs[k].distance, best.distance)) ==>
      exists k :: 0 <= k < |runs| && Improves(runs[k].distance, best.distance) &&
        BestAfter(best, runs) == Incumbent(Some(runs[k].distance), Some(runs[k].tour)) &&
        forall l :: 0 <= l < k ==> runs[k].distance < runs[l].distance
  {
    if runs != [] {
      var init := runs[..|runs| - 1];
      var last := runs[|runs| - 1];
      BestAfterReplaces(best, init);
      BestAfterIsMinimum(best, init);
      var prev := BestAfter(best, init);
      if exists k :: 0 <= k < |init| && Improves(init[k].distance, best.distance) {
        var k :| 0 <= k < |init| && Improves(init[k].distance, best.distance) &&
          prev == Incumbent(Some(init[k].distance), Some(init[k].tour)) &&
          forall l :: 0 <= l < k ==> init[k].distance < init[l].distance;
        assert init[k] == runs[k];
        if Improves(last.distance, prev.distance) {
          var n := |runs| - 1;
          forall l | 0 <= l < n
            ensures runs[n].distance < runs[l].distance
          {
            assert init[l] == runs[l];
          }
        } else {
          forall l | 0 <= l < k
            ensures runs[k].distance < runs[l].distance
          {
            assert init[l] == runs[l];
          }
        }
      } else {
        assert prev == best;
        forall l | 0 <= l < |init|
          ensures !Improves(runs[l].distance, best.distance)
        {
          assert init[l] == runs[l];
        }
        if Improves(last.distance, best.distance) {
          var n := |runs| - 1;
          forall l | 0 <= l < n
            ensures runs[n].distance < runs[l].distance
          {
            assert !Improves(runs[l].distance, best.distance);
          }
        }
      }
    }
  }

  /** The bookkeeping the engine keeps between generations: the best distance
      and tour are set together, the best tour is a permutation of the `n`
      cities, and the history never increases and ends with the best distance. */
  ghost predicate IncumbentOk(best: Incumbent, history: seq<Option<real>>, n: nat) {
    (best.distance.Some? <==> best.tour.Some?) &&
    (best.tour.Some? ==> IsPermutation(best.tour.value, n)) &&
    NonIncreasing(history) &&
    (|history| > 0 ==> history[|history| - 1] == best.distance)
  }

  // ---------------------------------------------------------------------
  // Average distance

  function TotalDistance(runs: seq<AntTour>): real {
    if runs == [] then 0.0 else TotalDistance(runs[..|runs| - 1]) + runs[|runs| - 1].distance
  }

  /** Arithmetic mean of the distances; `None` for no tours, where NumPy's
      mean yields NaN. */
  function Mean(runs: seq<AntTour>): Option<real> {
    if |runs| == 0 then None else Some(TotalDistance(runs) / (|runs| as real))
  }

  lemma {:induction false} TotalAtLeast(runs: seq<AntTour>, m: real)
    requires forall k :: 0 <= k < |runs| ==> m <= runs[k].distance
    ensures (|runs| as real) * m <= TotalDistance(runs)
  {
    if runs != [] {
      var init := runs[..|runs| - 1];
      assert forall k :: 0 <= k < |init| ==> init[k] == runs[k];
      TotalAtLeast(init, m);
      assert (|runs| as real) * m == (|init| as real) * m + m;
    }
  }

  /** A value at most every distance is at most their mean. */
  lemma MeanAtLeast(runs: seq<AntTour>, m: real)
    requires forall k :: 0 <= k < |runs| ==> m <= runs[k].distance
    ensures Mean(runs).Some? <==> runs != []
    ensures runs != [] ==> m <= Mean(runs).value
  {
    if runs != [] {
      TotalAtLeast(runs, m);
      var len := |runs| as real;
      assert m == (len * m) / len;
    }
  }

  /** One generation of tours keeps the bookkeeping consistent once its best
      distance is appended to the history; the best distance never grows and
      is at most the generation's mean. */
  lemma GenerationKeepsIncumbent(best: Incumbent, history: seq<Option<real>>, runs: seq<AntTour>,
                                 n: nat, start: nat, end: nat)
    requires IncumbentOk(best, history, n)
    requires forall k :: 0 <= k < |runs| ==> IsTour(runs[k].tour, n, start, end)
    ensures IncumbentOk(BestAfter(best, runs), history + [BestAfter(best, runs).distance], n)
    ensures AtMost(BestAfter(best, runs).distance, best.distance)
    ensures Mean(runs).Some? ==> AtMost(BestAfter(best, runs).distance, Mean(runs))
  {
    var next := BestAfter(best, runs);
    BestAfterIsMinimum(best, runs);
    BestAfterReplaces(best, runs);
    if next != best {
      var k :| 0 <= k < |runs| && next == Incumbent(Some(runs[k].distance), Some(runs[k].tour));
      assert IsTour(runs[k].tour, n, start, end);
    }
    var h := history + [next.distance];
    forall i, j | 0 <= i < j < |h|
      ensures AtMost(h[j], h[i])
    {
      if j == |history| && i < |history| - 1 {
        assert AtMost(history[|history| - 1], history[i]);
      }
    }
    if runs != [] {
      assert AtMost(next.distance, Some(runs[0].distance));
      MeanAtLeast(runs, next.distance.value);
    }
  }

  // ---------------------------------------------------------------------
  // The engine

  class AntColonyOptimization {
    const distances: array2<real>
    const numCities: nat
    const numAnts: nat
    /** Weight of the pheromone term in the selection weights, which this model leaves abstract. */
    const alpha: real
    /** Weight of the distance term in the selection weights, which this model leaves abstract. */
    const beta: real
    const evaporationRate: real
    const q: real
    /** The pheromone matrix: the array is fixed, its entries change in place. */
    const pheromones: array2<real>
    var bestTour: Option<seq<nat>>
    var bestDistance: Option<real>
    var history: seq<Option<real>>

    /** Both matrices are `numCities` by `numCities`, and are distinct arrays. */
    ghost predicate Shaped() {
      IsSquare(distances, numCities) && IsSquare(pheromones, numCities) &&
      pheromones != distances
    }

    /** Shape of the two matrices and symmetry of the pheromones. */
    ghost predicate MatrixValid()
      reads pheromones
    {
      Shaped() && Symmetric(pheromones)
    }

    /** The best-so-far bookkeeping: the best distance and tour are set
        together, the best tour is a permutation, the history never
        increases and ends with the best distance. */
    ghost predicate IncumbentValid()
      reads this
    {
      IncumbentOk(Incumbent(bestDistance, bestTour), history, numCities)
    }

    ghost predicate Valid()
      reads this, pheromones
    {
      MatrixValid() && IncumbentValid()
    }

    /** Every run is an open tour from `startCity` to `endCity` over all the
        cities, and carries its own length. */
    ghost predicate Measured(runs: seq<AntTour>, startCity: nat, endCity: nat)
      reads distances
    {
      forall k :: 0 <= k < |runs| ==> MeasuredRun(runs[k], startCity, endCity)
    }

    /** `run` is an open tour from `startCity` to `endCity` over all the
        cities, and carries its own length. */
    ghost predicate MeasuredRun(run: AntTour, startCity: nat, endCity: nat)
      reads distances
    {
      IsSquare(distances, numCities) &&
      IsTour(run.tour, numCities, startCity, endCity) &&
      run.distance == PathLength(distances, run.tour)
    }

    constructor (distanceMatrix: array2<real>, numAnts: nat, alpha: real, beta: real,
                 evaporationRate: real, q: real)
      requires distanceMatrix.Length0 == distanceMatrix.Length1
      ensures Valid() && fresh(pheromones)
      ensures distances == distanceMatrix && numCities == distanceMatrix.Length0
      ensures this.numAnts == numAnts && this.alpha == alpha && this.beta == beta
      ensures this.evaporationRate == evaporationRate && this.q == q
      ensures forall i, j :: 0 <= i < numCities && 0 <= j < numCities ==> pheromones[i, j] == 1.0
      ensures NonNegative(pheromones)
      ensures bestTour == None && bestDistance == None && history == []
    {
      var n := distanceMatrix.Length0;
      distances := distanceMatrix;
      numCities := n;
      this.numAnts := numAnts;
      this.alpha := alpha;
      this.beta := beta;
      this.evaporationRate := evaporationRate;
      this.q := q;
      pheromones := new real[n, n]((i, j) => 1.0);
      bestTour := None;
      bestDistance := None;
      history := [];
    }

    /** Length of `tour`, summed step by step. */
    method CalculateDistance(tour: seq<nat>) returns (distance: real)
      requires InRange(tour, distances.Length0) && InRange(tour, distances.Length1)
      ensures distance == PathLength(distances, tour)
      ensures |tour| <= 1 ==> distance == 0.0
    {
      distance := 0.0;
      var i := 0;
      while i + 1 < |tour|
        invariant i == 0 || i < |tour|
        invariant distance == PathLength(distances, tour[..if |tour| == 0 then 0 else i + 1])
      {
        assert tour[..i + 2][..i + 1] == tour[..i + 1];
        distance := distance + distances[tour[i], tour[i + 1]];
        i := i + 1;
      }
      assert tour[..if |tour| == 0 then 0 else i + 1] == tour;
    }

    /** Picks an unvisited city other than `endCity`, or `endCity` when none
        is left. The weighted random draw is a nondeterministic choice. */
    method SelectNextCity(currentCity: nat, visited: set<nat>, endCity: nat) returns (next: nat)
      ensures (exists c: nat :: IsCandidate(c, numCities, visited, endCity)) ==>
        IsCandidate(next, numCities, visited, endCity)
      ensures (forall c: nat :: !IsCandidate(c, numCities, visited, endCity)) ==> next == endCity
    {
      var candidates: seq<nat> := [];
      for city := 0 to numCities
        invariant forall c: nat :: c in candidates <==> c < city && IsCandidate(c, numCities, visited, endCity)
      {
        if city !in visited && city != endCity {
          candidates := candidates + [city];
        }
      }
      if candidates == [] {
        return endCity;
      }
      assert candidates[0] in candidates;
      next :| next in candidates;
    }

    /** One ant's tour: distinct chosen cities, then the end city. */
    method ConstructSolution(startCity: nat, endCity: nat) returns (tour: seq<nat>)
      requires startCity < numCities && endCity < numCities && startCity != endCity
      ensures IsTour(tour, numCities, startCity, endCity)
      ensures forall c: nat :: c < numCities ==> c in tour
    {
      tour := [startCity];
      var visited := {startCity};
      var currentCity := startCity;
      while |tour| < numCities - 1
        invariant 1 <= |tour| <= numCities - 1
        invariant tour[0] == startCity
        invariant InRange(tour, numCities) && Distinct(tour)
        invariant forall k :: 0 <= k < |tour| ==> tour[k] != endCity
        invariant forall c :: c in visited <==> c in tour
        invariant |visited| == |tour|
        decreases numCities - |tour|
      {
        UnvisitedCityExists(numCities, visited, endCity);
        var next := SelectNextCity(currentCity, visited, endCity);
        tour := tour + [next];
        visited := visited + {next};
        currentCity := next;
      }
      tour := tour + [endCity];
      PermutationCoversAll(tour, numCities);
    }

    /** Multiplies every entry by `factor`. */
    method Evaporate(factor: real)
      requires Shaped()
      modifies pheromones
      ensures forall r, c :: 0 <= r < numCities && 0 <= c < numCities ==>
        pheromones[r, c] == factor * old(pheromones[r, c])
    {
      var n := numCities;
      for i := 0 to n
        invariant forall r, c :: 0 <= r < n && 0 <= c < n ==>
          pheromones[r, c] == if r < i then factor * old(pheromones[r, c]) else old(pheromones[r, c])
      {
        for j := 0 to n
          invariant forall r, c :: 0 <= r < n && 0 <= c < n ==>
            pheromones[r, c] == if r < i || (r == i && c < j) then factor * old(pheromones[r, c]) else old(pheromones[r, c])
        {
          pheromones[i, j] := pheromones[i, j] * factor;
        }
      }
    }

    /** Adds `deposit` to `[x, y]` and then to `[y, x]`. */
    method Reinforce(x: nat, y: nat, deposit: real)
      requires Shaped() && x < numCities && y < numCities
      modifies pheromones
      ensures forall r, c :: 0 <= r < numCities && 0 <= c < numCities ==>
        pheromones[r, c] == old(pheromones[r, c]) + StepDeposit(x, y, deposit, r, c)
    {
      pheromones[x, y] := pheromones[x, y] + deposit;
      pheromones[y, x] := pheromones[y, x] + deposit;
    }

    /** Adds `deposit` to both directions of every step of `tour`. */
    method DepositAlong(tour: seq<nat>, deposit: real)
      requires Shaped() && InRange(tour, numCities)
      modifies pheromones
      ensures forall r, c :: 0 <= r < numCities && 0 <= c < numCities ==>
        pheromones[r, c] == old(pheromones[r, c]) + TourDeposit(tour, Steps(tour), deposit, r, c)
    {
      var n := numCities;
      var k := 0;
      while k + 1 < |tour|
        invariant k == 0 || k < |tour|
        invariant forall r, c :: 0 <= r < n && 0 <= c < n ==>
          pheromones[r, c] == old(pheromones[r, c]) + TourDeposit(tour, k, deposit, r, c)
      {
        Reinforce(tour[k], tour[k + 1], deposit);
        k := k + 1;
      }
    }

    /** Evaporates every entry, then adds `q / distance` of every tour to
        both directions of each of its steps. */
    method UpdatePheromones(allTours: seq<AntTour>)
      requires MatrixValid()
      requires PositiveDistances(allTours)
      requires forall k :: 0 <= k < |allTours| ==> InRange(allTours[k].tour, numCities)
      modifies pheromones
      ensures MatrixValid()
      ensures forall i, j :: 0 <= i < numCities && 0 <= j < numCities ==>
        pheromones[i, j] == Evaporated(evaporationRate, old(pheromones[i, j])) + Deposit(allTours, q, i, j)
      ensures old(NonNegative(pheromones)) && 0.0 <= evaporationRate <= 1.0 && 0.0 <= q ==>
        NonNegative(pheromones)
    {
      var n := numCities;
      var factor := 1.0 - evaporationRate;
      Evaporate(factor);
      for a := 0 to |allTours|
        invariant PositiveDistances(allTours[..a])
        invariant forall r, c :: 0 <= r < n && 0 <= c < n ==>
          pheromones[r, c] == Evaporated(evaporationRate, old(pheromones[r, c])) + Deposit(allTours[..a], q, r, c)
      {
        var deposit := q / allTours[a].distance;
        DepositAlong(allTours[a].tour, deposit);
        forall r, c | 0 <= r < n && 0 <= c < n
          ensures pheromones[r, c] == Evaporated(evaporationRate, old(pheromones[r, c])) + Deposit(allTours[..a + 1], q, r, c)
        {
          DepositStep(allTours, a, q, r, c);
        }
      }
      assert allTours[..|allTours|] == allTours;
      forall i, j | 0 <= i < n && 0 <= j < n
        ensures pheromones[i, j] == pheromones[j, i]
      {
        DepositSymmetric(allTours, q, i, j);
      }
      if old(NonNegative(pheromones)) && 0.0 <= evaporationRate <= 1.0 && 0.0 <= q {
        forall i, j | 0 <= i < n && 0 <= j < n
          ensures 0.0 <= pheromones[i, j]
        {
          DepositNonNegative(allTours, q, i, j);
          assert 0.0 <= old(pheromones[i, j]);
          ProductNonNegative(factor, old(pheromones[i, j]));
        }
      }
    }

    /** One ant builds its tour and measures it. */
    method RunAnt(startCity: nat, endCity: nat) returns (run: AntTour)
      requires Shaped()
      requires startCity < numCities && endCity < numCities && startCity != endCity
      requires PositiveOffDiagonal(distances)
      ensures MeasuredRun(run, startCity, endCity) && 0.0 < run.distance
    {
      var tour := ConstructSolution(startCity, endCity);
      var distance := CalculateDistance(tour);
      TourLengthPositive(distances, tour, numCities, startCity, endCity);
      run := AntTour(tour, distance);
    }

    /** The ants of one generation build and measure their tours in turn;
        each tour strictly shorter than the best so far replaces it. */
    method ConstructGeneration(startCity: nat, endCity: nat) returns (runs: seq<AntTour>)
      requires Shaped()
      requires startCity < numCities && endCity < numCities && startCity != endCity
      requires PositiveOffDiagonal(distances)
      modifies this
      ensures |runs| == numAnts
      ensures Measured(runs, startCity, endCity)
      ensures PositiveDistances(runs)
      ensures Incumbent(bestDistance, bestTour) == BestAfter(Incumbent(old(bestDistance), old(bestTour)), runs)
      ensures history == old(history)
    {
      ghost var start := Incumbent(bestDistance, bestTour);
      runs := [];
      for ant := 0 to numAnts
        invariant |runs| == ant
        invariant Measured(runs, startCity, endCity)
        invariant PositiveDistances(runs)
        invariant Incumbent(bestDistance, bestTour) == BestAfter(start, runs)
        invariant history == old(history)
      {
        var run := RunAnt(startCity, endCity);
        ghost var before := runs;
        runs := runs + [run];
        assert runs[..|runs| - 1] == before;
        if Improves(run.distance, bestDistance) {
          bestDistance := Some(run.distance);
          bestTour := Some(run.tour);
        }
      }
    }

    /** One generation: every ant builds and measures a tour, the best-so-far
        is kept, the pheromones are updated and the history is extended. */
    method RunIteration(startCity: nat, endCity: nat)
      returns (tour: Option<seq<nat>>, distance: Option<real>, average: Option<real>,
               ghost allTours: seq<AntTour>)
      requires Valid()
      requires startCity < numCities && endCity < numCities && startCity != endCity
      requires PositiveOffDiagonal(distances)
      modifies this, pheromones
      ensures Valid()
      ensures |allTours| == numAnts
      ensures Measured(allTours, startCity, endCity)
      ensures PositiveDistances(allTours)
      ensures Incumbent(bestDistance, bestTour) ==
        BestAfter(Incumbent(old(bestDistance), old(bestTour)), allTours)
      ensures AtMost(bestDistance, old(bestDistance))
      ensures history == old(history) + [bestDistance]
      ensures forall i, j :: 0 <= i < numCities && 0 <= j < numCities ==>
        pheromones[i, j] == Evaporated(evaporationRate, old(pheromones[i, j])) + Deposit(allTours, q, i, j)
      ensures old(NonNegative(pheromones)) && 0.0 <= evaporationRate <= 1.0 && 0.0 <= q ==>
        NonNegative(pheromones)
      ensures tour == bestTour && distance == bestDistance && average == Mean(allTours)
      ensures average.Some? ==> AtMost(distance, average)
    {
      ghost var start := Incumbent(bestDistance, bestTour);
      var runs := ConstructGeneration(startCity, endCity);
      UpdatePheromones(runs);
      assert forall i, j :: 0 <= i < numCities && 0 <= j < numCities ==>
        pheromones[i, j] == Evaporated(evaporationRate, old(pheromones[i, j])) + Deposit(runs, q, i, j);
      history := history + [bestDistance];
      average := Mean(runs);
      tour, distance, allTours := bestTour, bestDistance, runs;
      GenerationKeepsIncumbent(start, old(history), runs, numCities, startCity, endCity);
    }
  }
}
