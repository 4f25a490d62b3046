/** Frequency mass: what a byte-to-bucket table, as far as it is filled in, puts into
    each bucket, and what that adds up to. */
module BucketMass {

  function Sum(s: seq<nat>): nat {
    if s == [] then 0 else Sum(s[..|s| - 1]) + s[|s| - 1]
  }

  /** Frequency mass that the first n bytes of a table, as far as done, put
      into bucket k. */
  function Mass(table: seq<nat>, done: seq<bool>, histogram: seq<nat>, n: nat, k: nat): nat
    requires n <= |table| == |done| == |histogram|
  {
    if n == 0 then 0
    else
      var last := if done[n - 1] && table[n - 1] == k then histogram[n - 1] else 0;
      Mass(table, done, histogram, n - 1, k) + last
  }

  /** Frequency mass of the assigned bytes. */
  function Placed(done: seq<bool>, histogram: seq<nat>, n: nat): nat
    requires n <= |done| == |histogram|
  {
    if n == 0 then 0
    else
      var last := if done[n - 1] then histogram[n - 1] else 0;
      Placed(done, histogram, n - 1) + last
  }

  function All(n: nat): (all: seq<bool>)
    ensures |all| == n && forall i :: 0 <= i < n ==> all[i]
  {
    seq(n, _ => true)
  }

  /** The mass of a bucket of a complete table. */
  function MassOf(table: seq<nat>, histogram: seq<nat>, k: nat): nat
    requires |table| == |histogram|
  {
    Mass(table, All(|table|), histogram, |table|, k)
  }

  /** The masses of the buckets of a complete table. */
  function Masses(table: seq<nat>, histogram: seq<nat>, buckets: nat): (masses: seq<nat>)
    requires |table| == |histogram|
    ensures |masses| == buckets
  {
    seq(buckets, k requires 0 <= k < buckets => MassOf(table, histogram, k))
  }

  // ----- the ledger of loads -----

  /** The loads are the masses of what has been done. */
  ghost predicate Ledger(table: seq<nat>, done: seq<bool>, load: seq<nat>, histogram: seq<nat>) {
    && |table| == |done| == |histogram|
    && (forall b :: 0 <= b < |table| ==> table[b] < |load|)
    && (forall k :: 0 <= k < |load| ==> load[k] == Mass(table, done, histogram, |table|, k))
    && Sum(load) == Placed(done, histogram, |table|)
  }

  /** No bucket exceeds another by more than m. */
  ghost predicate Balanced(load: seq<nat>, m: nat) {
    forall i, j :: 0 <= i < |load| && 0 <= j < |load| ==> load[i] <= load[j] + m
  }

  lemma {:induction false} MassAfterPlacing(table: seq<nat>, done: seq<bool>, histogram: seq<nat>, n: nat, b: nat, bucket: nat, k: nat)
    requires n <= |table| == |done| == |histogram| && b < |table| && !done[b]
    ensures Mass(table[b := bucket], done[b := true], histogram, n, k) ==
      Mass(table, done, histogram, n, k) + if b < n && k == bucket then histogram[b] else 0
  {
    if n > 0 {
      MassAfterPlacing(table, done, histogram, n - 1, b, bucket, k);
    }
  }

  lemma {:induction false} PlacedAfterPlacing(done: seq<bool>, histogram: seq<nat>, n: nat, b: nat)
    requires n <= |done| == |histogram| && b < |done| && !done[b]
    ensures Placed(done[b := true], histogram, n) == Placed(done, histogram, n) + if b < n then histogram[b] else 0
  {
    if n > 0 {
      PlacedAfterPlacing(done, histogram, n - 1, b);
    }
  }

  lemma {:induction false} SumAfterAdding(s: seq<nat>, k: nat, more: nat)
    requires k < |s|
    ensures Sum(s[k := s[k] + more]) == Sum(s) + more
  {
    var n := |s| - 1;
    var s' := s[k := s[k] + more];
    if k < n {
      assert s'[..n] == s[..n][k := s[k] + more];
      SumAfterAdding(s[..n], k, more);
    } else {
      assert s'[..n] == s[..n];
    }
  }

  lemma PlaceKeepsLedger(table: seq<nat>, done: seq<bool>, load: seq<nat>, histogram: seq<nat>, b: nat, k: nat)
    requires Ledger(table, done, load, histogram)
    requires b < |table| && !done[b] && k < |load|
    ensures Ledger(table[b := k], done[b := true], load[k := load[k] + histogram[b]], histogram)
  {
    forall j | 0 <= j < |load| {
      MassAfterPlacing(table, done, histogram, |table|, b, k, j);
    }
    PlacedAfterPlacing(done, histogram, |table|, b);
    SumAfterAdding(load, k, histogram[b]);
  }

  ghost predicate AtMost(histogram: seq<nat>, m: nat) {
    forall b :: 0 <= b < |histogram| ==> histogram[b] <= m
  }

  lemma {:induction false} ZeroSum(s: seq<nat>)
    requires forall i :: 0 <= i < |s| ==> s[i] == 0
    ensures Sum(s) == 0
  {
    if s != [] {
      ZeroSum(s[..|s| - 1]);
    }
  }

  function Largest(s: seq<nat>): (m: nat)
    ensures AtMost(s, m) && (s == [] || m in s)
  {
    if s == [] then 0
    else
      var rest, last := Largest(s[..|s| - 1]), s[|s| - 1];
      if last >= rest then last else rest
  }

  lemma {:induction false} AllPlaced(histogram: seq<nat>, n: nat)
    requires n <= |histogram|
    ensures Placed(All(|histogram|), histogram, n) == Sum(histogram[..n])
  {
    if n > 0 {
      AllPlaced(histogram, n - 1);
      assert histogram[..n][..n - 1] == histogram[..n - 1];
    }
  }

  lemma {:induction false} SumAtMost(s: seq<nat>, high: nat)
    requires forall i :: 0 <= i < |s| ==> s[i] <= high
    ensures Sum(s) <= |s| * high
  {
    if s != [] {
      SumAtMost(s[..|s| - 1], high);
      assert |s| * high == (|s| - 1) * high + high;
    }
  }

  /** Each element is within m of the k-th one, which is counted once. */
  lemma {:induction false} SumNear(s: seq<nat>, high: nat, m: nat)
    requires forall i :: 0 <= i < |s| ==> high <= s[i] + m
    ensures |s| * high <= Sum(s) + |s| * m
  {
    if s != [] {
      SumNear(s[..|s| - 1], high, m);
      assert |s| * high == (|s| - 1) * high + high && |s| * m == (|s| - 1) * m + m;
    }
  }

  lemma {:induction false} SumRemoved(s: seq<nat>, k: nat)
    requires k < |s|
    ensures Sum(s) == Sum(s[..k] + s[k + 1..]) + s[k]
  {
    var n := |s| - 1;
    var rest := s[..k] + s[k + 1..];
    if k < n {
      SumRemoved(s[..n], k);
      assert rest[..n - 1] == s[..n][..k] + s[..n][k + 1..];
    } else {
      assert rest == s[..n];
    }
  }

  /** A table's fullest bucket holds its share of the total and any one byte. */
  lemma FullestBucket(other: seq<nat>, histogram: seq<nat>, n: nat)
    requires histogram != [] && |other| == |histogram| && forall b :: 0 <= b < |other| ==> other[b] < n
    ensures Sum(histogram) <= n * Largest(Masses(other, histogram, n))
    ensures Largest(histogram) <= Largest(Masses(other, histogram, n))
  {
    var theirs := Masses(other, histogram, n);
    assert histogram[..|histogram|] == histogram;
    MassesTotal(other, All(|other|), histogram, |other|, theirs);
    AllPlaced(histogram, |histogram|);
    SumAtMost(theirs, Largest(theirs));
    var b :| 0 <= b < |histogram| && histogram[b] == Largest(histogram);
    MassCovers(other, All(|other|), histogram, |other|, b);
    assert theirs[other[b]] <= Largest(theirs);
  }

  lemma {:induction false} MassCovers(table: seq<nat>, done: seq<bool>, histogram: seq<nat>, n: nat, b: nat)
    requires b < n <= |table| == |done| == |histogram| && done[b]
    ensures histogram[b] <= Mass(table, done, histogram, n, table[b])
  {
    if b < n - 1 {
      MassCovers(table, done, histogram, n - 1, b);
    }
  }

  /** The masses of the buckets add up to what has been placed. */
  lemma {:induction false} MassesTotal(table: seq<nat>, done: seq<bool>, histogram: seq<nat>, n: nat, masses: seq<nat>)
    requires n <= |table| == |done| == |histogram| && forall b :: 0 <= b < n && done[b] ==> table[b] < |masses|
    requires forall k :: 0 <= k < |masses| ==> masses[k] == Mass(table, done, histogram, n, k)
    ensures Sum(masses) == Placed(done, histogram, n)
  {
    if n == 0 {
      ZeroSum(masses);
    } else if done[n - 1] {
      var k, h := table[n - 1], histogram[n - 1];
      var before := masses[k := masses[k] - h];
      MassesTotal(table, done, histogram, n - 1, before);
      SumAfterAdding(before, k, h);
      assert before[k := before[k] + h] == masses;
    } else {
      MassesTotal(table, done, histogram, n - 1, masses);
    }
  }

  // ----- products -----

  lemma MulMonotone(n: nat, x: nat, y: nat)
    requires x <= y
    ensures n * x <= n * y
  {
  }

  lemma MulAdd(a: nat, b: nat, x: nat)
    ensures (a + b) * x == a * x + b * x
  {
  }
}
