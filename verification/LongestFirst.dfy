/** Why placing the most frequent bytes first is nearly optimal: the bound of
    R. L. Graham ("Bounds on multiprocessing timing anomalies", 1969) for scheduling
    longest jobs first. */
module LongestFirst {
  import opened BucketMass

  /** A complete table over n buckets. */
  predicate IsTable(table: seq<nat>, histogram: seq<nat>, n: nat) {
    |table| == |histogram| && forall b :: 0 <= b < |table| ==> table[b] < n
  }

  /** The fullest bucket of a table. */
  function Fullest(table: seq<nat>, histogram: seq<nat>, n: nat): nat
    requires |table| == |histogram|
  {
    Largest(Masses(table, histogram, n))
  }

  /** Every load is within 4/3 - 1/(3n) of the fullest bucket of any table. */
  ghost predicate WithinFourThirds(load: seq<nat>, histogram: seq<nat>) {
    forall other :: IsTable(other, histogram, |load|) ==> BelowFourThirds(load, Fullest(other, histogram, |load|))
  }

  predicate BelowFourThirds(load: seq<nat>, best: nat) {
    forall k :: 0 <= k < |load| ==> 3 * |load| * load[k] <= (4 * |load| - 1) * best
  }

  // ----- weights -----

  /** Bytes so heavy that no bucket holds them beside another one count twice. */
  function Weights(done: seq<bool>, histogram: seq<nat>, t: nat): (w: seq<nat>)
    requires |done| == |histogram|
    ensures |w| == |histogram|
  {
    seq(|histogram|, c requires 0 <= c < |histogram| => if done[c] && histogram[c] > t then 2 else 1)
  }

  /** A bucket with more mass than t weighs at least two. */
  lemma {:induction false} FullWeighsTwo(table: seq<nat>, done: seq<bool>, histogram: seq<nat>, t: nat, n: nat, k: nat)
    requires n <= |table| == |done| == |histogram|
    ensures var w := Mass(table, done, Weights(done, histogram, t), n, k);
      (w == 0 ==> Mass(table, done, histogram, n, k) == 0) && (w == 1 ==> Mass(table, done, histogram, n, k) <= t)
  {
    if n > 0 {
      FullWeighsTwo(table, done, histogram, t, n - 1, k);
    }
  }

  /** A bucket that weighs three holds more than any bucket can: its bytes are each
      heavier than a third of `best`, and the double ones leave no room for h. */
  lemma {:induction false} ThreeIsTooMuch(table: seq<nat>, done: seq<bool>, histogram: seq<nat>, w: seq<nat>, best: nat, h: nat, n: nat, k: nat)
    requires n <= |table| == |done| == |histogram| == |w| && h <= best < 3 * h
    requires forall c :: 0 <= c < |done| && done[c] ==> histogram[c] >= h && (w[c] == 1 || (w[c] == 2 && histogram[c] > best - h))
    ensures var v, m := Mass(table, done, w, n, k), Mass(table, done, histogram, n, k);
      (v >= 1 ==> m >= h) && (v >= 2 ==> m >= 2 * h || m > best - h) && (v >= 3 ==> m > best)
  {
    if n > 0 {
      ThreeIsTooMuch(table, done, histogram, w, best, h, n - 1, k);
    }
  }

  lemma {:induction false} SumAtLeast(s: seq<nat>, low: nat)
    requires forall i :: 0 <= i < |s| ==> s[i] >= low
    ensures Sum(s) >= |s| * low
  {
    if s != [] {
      SumAtLeast(s[..|s| - 1], low);
      MulAdd(|s| - 1, 1, low);
    }
  }

  lemma {:induction false} PlacedAtMost(done: seq<bool>, histogram: seq<nat>, n: nat)
    requires n <= |done| == |histogram|
    ensures Placed(done, histogram, n) <= Placed(All(|done|), histogram, n)
  {
    if n > 0 {
      PlacedAtMost(done, histogram, n - 1);
    }
  }

  lemma {:induction false} MassAtMost(table: seq<nat>, done: seq<bool>, histogram: seq<nat>, n: nat, k: nat)
    requires n <= |table| == |done| == |histogram|
    ensures Mass(table, done, histogram, n, k) <= Mass(table, All(|done|), histogram, n, k)
  {
    if n > 0 {
      MassAtMost(table, done, histogram, n - 1, k);
    }
  }

  lemma MassBelowFullest(table: seq<nat>, done: seq<bool>, histogram: seq<nat>, n: nat, k: nat)
    requires |table| == |done| == |histogram| && k < n
    ensures Mass(table, done, histogram, |table|, k) <= Fullest(table, histogram, n)
  {
    MassAtMost(table, done, histogram, |table|, k);
    assert Masses(table, histogram, n)[k] <= Fullest(table, histogram, n);
  }

  function MassesOf(table: seq<nat>, done: seq<bool>, histogram: seq<nat>, n: nat): (masses: seq<nat>)
    requires |table| == |done| == |histogram|
    ensures |masses| == n
  {
    seq(n, k requires 0 <= k < n => Mass(table, done, histogram, |table|, k))
  }

  /** Some bucket of any table weighs three when 2n + 1 is to be placed. */
  lemma Pigeonhole(other: seq<nat>, done: seq<bool>, w: seq<nat>, n: nat) returns (k: nat)
    requires |other| == |done| == |w| && (forall b :: 0 <= b < |other| ==> other[b] < n)
    requires Placed(done, w, |w|) > n * 2
    ensures k < n && Mass(other, done, w, |other|, k) >= 3
  {
    var masses := MassesOf(other, done, w, n);
    MassesTotal(other, done, w, |other|, masses);
    if forall i :: 0 <= i < n ==> masses[i] <= 2 {
      SumAtMost(masses, 2);
      assert false;
    }
    k :| 0 <= k < n && masses[k] > 2;
  }

  /** If every bucket is fuller than `best - h`, the bytes placed weigh 2n. */
  lemma PlacedWeigh(table: seq<nat>, done: seq<bool>, load: seq<nat>, histogram: seq<nat>, t: nat)
    requires Ledger(table, done, load, histogram) && forall k :: 0 <= k < |load| ==> load[k] > t
    ensures Placed(done, Weights(done, histogram, t), |done|) >= |load| * 2
  {
    var w := Weights(done, histogram, t);
    var masses := MassesOf(table, done, w, |load|);
    forall k | 0 <= k < |load| ensures masses[k] >= 2 {
      FullWeighsTwo(table, done, histogram, t, |table|, k);
    }
    SumAtLeast(masses, 2);
    MassesTotal(table, done, w, |table|, masses);
  }

  /** A byte heavier than a third of the best possible fits under it. */
  lemma HeavyByteFits(table: seq<nat>, done: seq<bool>, load: seq<nat>, histogram: seq<nat>, b: nat, k: nat, other: seq<nat>)
    requires Ledger(table, done, load, histogram) && b < |table| && !done[b] && k < |load|
    requires forall i :: 0 <= i < |load| ==> load[k] <= load[i]
    requires forall c :: 0 <= c < |done| && done[c] ==> histogram[c] >= histogram[b]
    requires IsTable(other, histogram, |load|) && Fullest(other, histogram, |load|) < 3 * histogram[b]
    ensures load[k] + histogram[b] <= Fullest(other, histogram, |load|)
  {
    var n, h, best := |load|, histogram[b], Fullest(other, histogram, |load|);
    MassCovers(other, All(|other|), histogram, |other|, b);
    assert Masses(other, histogram, n)[other[b]] <= best;
    if load[k] + h > best {
      var t := best - h;
      var w, done' := Weights(done, histogram, t), done[b := true];
      PlacedWeigh(table, done, load, histogram, t);
      PlacedAfterPlacing(done, w, |w|, b);
      var j := Pigeonhole(other, done', w, n);
      ThreeIsTooMuch(other, done', histogram, w, best, h, |other|, j);
      MassBelowFullest(other, done', histogram, n, j);
      assert false;
    }
  }

  /** A lighter byte adds at most a third to the average. */
  lemma LightByteFits(table: seq<nat>, done: seq<bool>, load: seq<nat>, histogram: seq<nat>, b: nat, k: nat, other: seq<nat>)
    requires Ledger(table, done, load, histogram) && b < |table| && !done[b] && k < |load|
    requires forall i :: 0 <= i < |load| ==> load[k] <= load[i]
    requires IsTable(other, histogram, |load|) && 3 * histogram[b] <= Fullest(other, histogram, |load|)
    ensures 3 * |load| * (load[k] + histogram[b]) <= (4 * |load| - 1) * Fullest(other, histogram, |load|)
  {
    var n, h, best := |load|, histogram[b], Fullest(other, histogram, |load|);
    SumAtLeast(load, load[k]);
    PlacedAfterPlacing(done, histogram, |done|, b);
    PlacedAtMost(done[b := true], histogram, |done|);
    AllPlaced(histogram, |histogram|);
    assert histogram[..|histogram|] == histogram;
    FullestBucket(other, histogram, n);
    AverageArithmetic(n, load[k], h, best);
  }

  lemma AverageArithmetic(n: nat, load: nat, h: nat, best: nat)
    requires n > 0 && n * load + h <= n * best && 3 * h <= best
    ensures 3 * n * (load + h) <= (4 * n - 1) * best
  {
    MulMonotone(n - 1, 3 * h, best);
    assert 3 * n * (load + h) == 3 * (n * load) + 3 * (n * h);
    assert (n - 1) * (3 * h) == 3 * (n * h) - 3 * h;
    assert (4 * n - 1) * best == 3 * (n * best) + (n - 1) * best;
  }

  /** Placing the next lighter byte in a least loaded bucket keeps the bound. */
  lemma PlaceKeepsFourThirds(table: seq<nat>, done: seq<bool>, load: seq<nat>, histogram: seq<nat>, b: nat, k: nat)
    requires Ledger(table, done, load, histogram) && b < |table| && !done[b] && k < |load|
    requires forall i :: 0 <= i < |load| ==> load[k] <= load[i]
    requires forall c :: 0 <= c < |done| && done[c] ==> histogram[c] >= histogram[b]
    requires WithinFourThirds(load, histogram)
    ensures WithinFourThirds(load[k := load[k] + histogram[b]], histogram)
  {
    var n := |load|;
    forall other | IsTable(other, histogram, n)
      ensures BelowFourThirds(load[k := load[k] + histogram[b]], Fullest(other, histogram, n))
    {
      var best := Fullest(other, histogram, n);
      assert BelowFourThirds(load, best);
      if 3 * histogram[b] <= best {
        LightByteFits(table, done, load, histogram, b, k, other);
      } else {
        HeavyByteFits(table, done, load, histogram, b, k, other);
        BestIsBelow(n, load[k] + histogram[b], best);
      }
    }
  }

  lemma BestIsBelow(n: nat, x: nat, best: nat)
    requires n > 0 && x <= best
    ensures 3 * n * x <= (4 * n - 1) * best
  {
    MulMonotone(3 * n, x, best);
    MulAdd(3 * n, n - 1, best);
  }

  lemma EmptyIsWithin(load: seq<nat>, histogram: seq<nat>)
    requires forall k :: 0 <= k < |load| ==> load[k] == 0
    ensures WithinFourThirds(load, histogram)
  {
    forall other | IsTable(other, histogram, |load|) ensures BelowFourThirds(load, Fullest(other, histogram, |load|)) {
      forall k | 0 <= k < |load| ensures 3 * |load| * load[k] <= (4 * |load| - 1) * Fullest(other, histogram, |load|) {
        BestIsBelow(|load|, 0, Fullest(other, histogram, |load|));
      }
    }
  }
}
