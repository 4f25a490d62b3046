/** The greedy byte-to-bucket assignment: pattern bytes are spread over separate
    buckets, the rest is balanced by frequency. */
module BucketBalance {
  import opened Common
  import opened BitSelection
  import opened BucketMass
  import opened LongestFirst

  // ----- choosing a bucket -----

  /** The o-th position of a cyclic scan. */
  function Cyclic(start: nat, o: nat, n: nat): (i: nat)
    requires n > 0
    ensures i < n
  {
    (start + o) % n
  }

  /** The idx-th bucket is the first minimum of a cyclic scan over the buckets
      that are not excluded. */
  ghost predicate FirstMinimum(load: seq<nat>, excluded: seq<bool>, start: nat, idx: nat)
    requires |load| == |excluded| > 0
  {
    && idx < |load| && !excluded[idx]
    && exists at :: 0 <= at < |load| && FirstMinimumAt(load, excluded, start, idx, at, |load|)
  }

  ghost predicate FirstMinimumAt(load: seq<nat>, excluded: seq<bool>, start: nat, idx: nat, at: nat, seen: nat)
    requires |load| == |excluded| > 0
  {
    && idx == Cyclic(start, at, |load|) && !excluded[idx] && at < seen
    && (forall o :: 0 <= o < at && !excluded[Cyclic(start, o, |load|)] ==> load[idx] < load[Cyclic(start, o, |load|)])
    && (forall o :: 0 <= o < seen && !excluded[Cyclic(start, o, |load|)] ==> load[idx] <= load[Cyclic(start, o, |load|)])
  }

  /** A full cyclic scan meets every bucket. */
  lemma ScanMeets(start: nat, n: nat, i: nat) returns (o: nat)
    requires i < n
    ensures o < n && Cyclic(start, o, n) == i
  {
    var s := start % n;
    o := if i >= s then i - s else i - s + n;
    assert start == n * (start / n) + s;
    if i >= s {
      assert start + o == n * (start / n) + i;
      RemainderIs(start + o, n, start / n, i);
    } else {
      assert start + o == n * (start / n + 1) + i;
      RemainderIs(start + o, n, start / n + 1, i);
    }
  }

  /** How far ahead of `start` position i lies, going up and round. */
  function Ahead(start: nat, i: nat, n: nat): int {
    if i >= start then i - start else i - start + n
  }

  /** A least loaded bucket, and of these the one met first going up from `start`. */
  ghost predicate NearestLeast(load: seq<nat>, excluded: seq<bool>, start: nat, idx: nat)
    requires |load| == |excluded| > 0
  {
    && idx < |load| && !excluded[idx]
    && forall i :: 0 <= i < |load| && !excluded[i] ==>
         load[idx] < load[i] || (load[idx] == load[i] && Ahead(start, idx, |load|) <= Ahead(start, i, |load|))
  }

  lemma CyclicIsAhead(start: nat, o: nat, n: nat)
    requires start < n && o < n
    ensures Ahead(start, Cyclic(start, o, n), n) == o
  {
    if start + o >= n {
      RemainderIs(start + o, n, 1, start + o - n);
    }
  }

  lemma FirstMinimumIsNearest(load: seq<nat>, excluded: seq<bool>, start: nat, idx: nat)
    requires |load| == |excluded| > 0 && start < |load| && FirstMinimum(load, excluded, start, idx)
    ensures NearestLeast(load, excluded, start, idx)
  {
    var n := |load|;
    var at :| 0 <= at < n && FirstMinimumAt(load, excluded, start, idx, at, n);
    CyclicIsAhead(start, at, n);
    forall i | 0 <= i < n && !excluded[i]
      ensures load[idx] < load[i] || (load[idx] == load[i] && Ahead(start, idx, n) <= Ahead(start, i, n))
    {
      var o := ScanMeets(start, n, i);
      CyclicIsAhead(start, o, n);
      assert load[idx] <= load[Cyclic(start, o, n)];
      assert o < at ==> load[idx] < load[Cyclic(start, o, n)];
    }
  }

  lemma NearestIsLeast(load: seq<nat>, start: nat, idx: nat)
    requires |load| > 0 && NearestLeast(load, NoneExcluded(|load|), start, idx)
    ensures forall i :: 0 <= i < |load| ==> load[idx] <= load[i]
  {
  }

  function NoneExcluded(n: nat): (none: seq<bool>)
    ensures |none| == n && forall i :: 0 <= i < n ==> !none[i]
  {
    seq(n, _ => false)
  }

  method MinLoadBucketFrom(load: seq<nat>, cursor: nat) returns (idx: nat)
    requires |load| > 0
    ensures NearestLeast(load, NoneExcluded(|load|), cursor % |load|, idx)
  {
    var n := |load|;
    var start := cursor % n;
    idx := start;
    var least := load[start];
    ghost var at := 0;
    assert Cyclic(start, 0, n) == start;
    for offset := 1 to n
      invariant idx < n && least == load[idx]
      invariant FirstMinimumAt(load, NoneExcluded(n), start, idx, at, offset)
    {
      var i := Cyclic(start, offset, n);
      if load[i] < least {
        least, idx, at := load[i], i, offset;
      }
    }
    FirstMinimumIsNearest(load, NoneExcluded(n), start, idx);
  }

  /** The scan aborts when every bucket is excluded, so callers must leave one. */
  method MinLoadBucketExcluding(load: seq<nat>, excluded: seq<bool>, cursor: nat) returns (idx: nat)
    requires |load| == |excluded| > 0 && exists k :: 0 <= k < |excluded| && !excluded[k]
    ensures NearestLeast(load, excluded, cursor % |load|, idx)
  {
    var n := |load|;
    var start := cursor % n;
    var found, least := false, 0;
    idx := 0;
    ghost var at := 0;
    for offset := 0 to n
      invariant idx < n && (found ==> least == load[idx])
      invariant found ==> FirstMinimumAt(load, excluded, start, idx, at, offset)
      invariant !found ==> forall o :: 0 <= o < offset ==> excluded[Cyclic(start, o, n)]
    {
      var i := Cyclic(start, offset, n);
      if excluded[i] {
        continue;
      }
      if !found || load[i] < least {
        found, least, idx, at := true, load[i], i, offset;
      }
    }
    if !found {
      var k :| 0 <= k < |excluded| && !excluded[k];
      var o := ScanMeets(start, n, k);
      assert false;
    }
    FirstMinimumIsNearest(load, excluded, start, idx);
  }

  lemma PlaceKeepsBalance(load: seq<nat>, k: nat, more: nat, m: nat)
    requires Balanced(load, m) && k < |load| && more <= m
    requires forall i :: 0 <= i < |load| ==> load[k] <= load[i]
    ensures Balanced(load[k := load[k] + more], m)
  {
  }

  // ----- the two phases -----

  ghost predicate InUse(table: seq<nat>, done: seq<bool>, k: nat)
    requires |table| == |done|
  {
    exists b :: 0 <= b < |table| && done[b] && table[b] == k
  }

  ghost predicate Separate(table: seq<nat>, done: seq<bool>)
    requires |table| == |done|
  {
    forall b, c :: 0 <= b < c < |table| && done[b] && done[c] ==> table[b] != table[c]
  }

  /** Pattern phase: the used buckets are those of the bytes placed so far, and
      as long as they fit every byte has a bucket of its own. */
  ghost predicate PatternState(table: seq<nat>, done: seq<bool>, load: seq<nat>, used: seq<bool>) {
    && |table| == |done| && |used| == |load|
    && (forall k :: 0 <= k < |used| ==> (used[k] <==> InUse(table, done, k)))
    && (forall k :: 0 <= k < |used| && !used[k] ==> load[k] == 0)
    && Count(used) == (if Count(done) <= |used| then Count(done) else |used|)
    && (Count(done) <= |used| ==> Separate(table, done))
  }

  lemma {:induction false} CountSet(bits: seq<bool>, k: nat)
    requires k < |bits|
    ensures Count(bits[k := true]) == Count(bits) + if bits[k] then 0 else 1
  {
    if k > 0 {
      assert bits[k := true][1..] == bits[1..][k - 1 := true];
      CountSet(bits[1..], k - 1);
    } else {
      assert bits[0 := true][1..] == bits[1..];
    }
  }

  lemma InUseAfterPlacing(table: seq<nat>, done: seq<bool>, b: nat, bucket: nat, k: nat)
    requires |table| == |done| && b < |table| && !done[b]
    ensures InUse(table[b := bucket], done[b := true], k) <==> (InUse(table, done, k) || k == bucket)
  {
    var table', done' := table[b := bucket], done[b := true];
    if InUse(table, done, k) {
      var c :| 0 <= c < |table| && done[c] && table[c] == k;
      assert done'[c] && table'[c] == k;
    }
    if k == bucket {
      assert done'[b] && table'[b] == k;
    }
  }

  lemma PlacePattern(table: seq<nat>, done: seq<bool>, load: seq<nat>, used: seq<bool>, b: nat, bucket: nat, more: nat)
    requires PatternState(table, done, load, used)
    requires b < |table| && !done[b] && bucket < |load|
    requires used[bucket] ==> forall k :: 0 <= k < |used| ==> used[k]
    ensures PatternState(table[b := bucket], done[b := true], load[bucket := load[bucket] + more], used[bucket := true])
  {
    forall k | 0 <= k < |used| {
      InUseAfterPlacing(table, done, b, bucket, k);
    }
    CountSet(done, b);
    CountSet(used, bucket);
    CountBounds(used);
    if Count(done) + 1 <= |used| {
      assert !used[bucket];
    }
  }

  /** A bucket no pattern byte uses yet, while there is one; either way no bucket
      carries less. */
  method PatternBucket(load: seq<nat>, used: seq<bool>, cursor: nat) returns (bucket: nat)
    requires |load| == |used| > 0 && forall k :: 0 <= k < |used| && !used[k] ==> load[k] == 0
    ensures bucket < |load| && forall i :: 0 <= i < |load| ==> load[bucket] <= load[i]
    ensures used[bucket] ==> forall k :: 0 <= k < |used| ==> used[k]
  {
    if forall k :: 0 <= k < |used| ==> used[k] {
      bucket := MinLoadBucketFrom(load, cursor);
      NearestIsLeast(load, cursor % |load|, bucket);
    } else {
      bucket := MinLoadBucketExcluding(load, used, cursor);
    }
  }

  /** Distinct pattern bytes go to distinct buckets of the lowest mass. */
  method PatternPhase(bucketCount: nat, histogram: seq<nat>, patternUnique: seq<bool>, ghost m: nat)
    returns (table: seq<nat>, done: seq<bool>, load: seq<nat>, cursor: nat, ghost used: seq<bool>)
    requires bucketCount > 0 && |patternUnique| == |histogram| && AtMost(histogram, m)
    ensures |load| == bucketCount && Ledger(table, done, load, histogram) && Balanced(load, m)
    ensures PatternState(table, done, load, used) && done == patternUnique
  {
    var n := |histogram|;
    table, done, load := seq(n, _ => 0), NoneExcluded(n), seq(bucketCount, _ => 0);
    var patternBucketUsed := NoneExcluded(bucketCount);
    cursor := 0;
    NothingPlaced(table, histogram, bucketCount);
    for b := 0 to n
      invariant |load| == bucketCount && Ledger(table, done, load, histogram) && Balanced(load, m)
      invariant PatternState(table, done, load, patternBucketUsed)
      invariant forall c :: 0 <= c < n ==> (done[c] <==> c < b && patternUnique[c])
    {
      if !patternUnique[b] {
        continue;
      }
      var bucket := PatternBucket(load, patternBucketUsed, cursor);
      PlaceKeepsLedger(table, done, load, histogram, b, bucket);
      PlacePattern(table, done, load, patternBucketUsed, b, bucket, histogram[b]);
      PlaceKeepsBalance(load, bucket, histogram[b], m);
      table := table[b := bucket];
      done := done[b := true];
      patternBucketUsed := patternBucketUsed[bucket := true];
      load := load[bucket := load[bucket] + histogram[b]];
      cursor := (bucket + 1) % bucketCount;
    }
    used := patternBucketUsed;
  }

  lemma {:induction false} NothingMass(table: seq<nat>, done: seq<bool>, histogram: seq<nat>, n: nat, k: nat)
    requires n <= |table| == |done| == |histogram| && forall b :: 0 <= b < |done| ==> !done[b]
    ensures Mass(table, done, histogram, n, k) == 0 && Placed(done, histogram, n) == 0
  {
    if n > 0 {
      NothingMass(table, done, histogram, n - 1, k);
    }
  }

  lemma NothingPlaced(table: seq<nat>, histogram: seq<nat>, bucketCount: nat)
    requires bucketCount > 0 && |table| == |histogram| && forall b :: 0 <= b < |table| ==> table[b] == 0
    ensures var done, load, used := NoneExcluded(|table|), seq(bucketCount, _ => 0), NoneExcluded(bucketCount);
      Ledger(table, done, load, histogram) && PatternState(table, done, load, used)
  {
    var done, load := NoneExcluded(|table|), seq(bucketCount, _ => 0);
    forall k | 0 <= k < bucketCount {
      NothingMass(table, done, histogram, |table|, k);
    }
    NothingMass(table, done, histogram, |table|, 0);
    ZeroSum(load);
    CountBounds(done);
    CountBounds(NoneExcluded(bucketCount));
  }

  /** Descending frequency, ties by the smaller byte. */
  predicate Before(histogram: seq<nat>, a: nat, b: nat)
    requires a < |histogram| && b < |histogram|
  {
    histogram[a] > histogram[b] || (histogram[a] == histogram[b] && a < b)
  }

  ghost predicate ByFrequency(histogram: seq<nat>, order: seq<nat>) {
    && (forall i :: 0 <= i < |order| ==> order[i] < |histogram|)
    && (forall i, j :: 0 <= i < j < |order| ==> Before(histogram, order[i], order[j]))
  }

  function InsertByFrequency(histogram: seq<nat>, order: seq<nat>, b: nat): (r: seq<nat>)
    requires b < |histogram| && b !in order && ByFrequency(histogram, order)
    ensures ByFrequency(histogram, r) && forall c :: c in r <==> c in order || c == b
  {
    if order == [] || Before(histogram, b, order[0]) then [b] + order
    else
      var rest := InsertByFrequency(histogram, order[1..], b);
      assert forall c :: c in rest ==> c < |histogram| && Before(histogram, order[0], c);
      [order[0]] + rest
  }

  /** The bytes not placed yet, most frequent first. */
  function Remaining(histogram: seq<nat>, done: seq<bool>, n: nat): (r: seq<nat>)
    requires n <= |done| == |histogram|
    ensures ByFrequency(histogram, r) && forall c: nat :: c in r <==> c < n && !done[c]
  {
    if n == 0 then []
    else
      var rest := Remaining(histogram, done, n - 1);
      if done[n - 1] then rest else InsertByFrequency(histogram, rest, n - 1)
  }

  /** The byte would not see a lower load in another bucket: without it, its own
      bucket carries no more than any other. */
  ghost predicate SettledByte(table: seq<nat>, load: seq<nat>, histogram: seq<nat>, b: nat)
    requires |table| == |histogram|
  {
    b < |table| && table[b] < |load| && forall j :: 0 <= j < |load| ==> load[table[b]] <= load[j] + histogram[b]
  }

  ghost predicate Settled(table: seq<nat>, load: seq<nat>, histogram: seq<nat>, placed: seq<nat>) {
    |table| == |histogram| && forall b :: b in placed ==> SettledByte(table, load, histogram, b)
  }

  /** This is where the descending order matters: the byte placed last is lightest. */
  lemma PlaceKeepsSettled(table: seq<nat>, load: seq<nat>, histogram: seq<nat>, placed: seq<nat>, b: nat, k: nat)
    requires Settled(table, load, histogram, placed) && ByFrequency(histogram, placed + [b])
    requires k < |load| && forall i :: 0 <= i < |load| ==> load[k] <= load[i]
    ensures b < |table| && Settled(table[b := k], load[k := load[k] + histogram[b]], histogram, placed + [b])
  {
    var order, table', load' := placed + [b], table[b := k], load[k := load[k] + histogram[b]];
    assert order[|placed|] == b;
    forall c | c in order ensures SettledByte(table', load', histogram, c) {
      if c in placed {
        var i :| 0 <= i < |placed| && placed[i] == c;
        assert order[i] == c && Before(histogram, order[i], order[|placed|]);
        assert SettledByte(table, load, histogram, c);
      }
    }
  }

  lemma DescendingSoFar(histogram: seq<nat>, order: seq<nat>, i: nat)
    requires ByFrequency(histogram, order) && i < |order|
    ensures forall c :: c in order[..i] ==> c < |histogram| && histogram[c] >= histogram[order[i]]
  {
    forall c | c in order[..i] ensures c < |histogram| && histogram[c] >= histogram[order[i]] {
      var j :| 0 <= j < i && order[..i][j] == c;
      assert Before(histogram, order[j], order[i]);
    }
  }

  /** Every remaining byte goes to a least loaded bucket. */
  method GreedyPhase(table0: seq<nat>, done0: seq<bool>, load0: seq<nat>, cursor0: nat, histogram: seq<nat>, ghost m: nat)
    returns (table: seq<nat>, load: seq<nat>)
    requires |load0| > 0 && Ledger(table0, done0, load0, histogram) && Balanced(load0, m) && AtMost(histogram, m)
    ensures |load| == |load0| && Ledger(table, All(|table|), load, histogram) && Balanced(load, m)
    ensures forall b :: 0 <= b < |table| && done0[b] ==> table[b] == table0[b]
    ensures Settled(table, load, histogram, Remaining(histogram, done0, |histogram|))
    ensures (forall b :: 0 <= b < |done0| ==> !done0[b]) && WithinFourThirds(load0, histogram) ==> WithinFourThirds(load, histogram)
  {
    var n := |histogram|;
    var remaining := Remaining(histogram, done0, n);
    var cursor: nat := cursor0;
    table, load := table0, load0;
    ghost var done := done0;
    for i := 0 to |remaining|
      invariant |load| == |load0| && Ledger(table, done, load, histogram) && Balanced(load, m)
      invariant forall b :: 0 <= b < n ==> (done[b] <==> done0[b] || b in remaining[..i])
      invariant forall b :: 0 <= b < n && done0[b] ==> table[b] == table0[b]
      invariant Settled(table, load, histogram, remaining[..i])
      invariant (forall b :: 0 <= b < n ==> !done0[b]) && WithinFourThirds(load0, histogram) ==> WithinFourThirds(load, histogram)
    {
      var b := remaining[i];
      assert remaining[..i + 1] == remaining[..i] + [b];
      assert b in remaining && !done[b];
      var bucket := MinLoadBucketFrom(load, cursor);
      NearestIsLeast(load, cursor % |load|, bucket);
      PlaceKeepsLedger(table, done, load, histogram, b, bucket);
      PlaceKeepsBalance(load, bucket, histogram[b], m);
      PlaceKeepsSettled(table, load, histogram, remaining[..i], b, bucket);
      if (forall c :: 0 <= c < n ==> !done0[c]) && WithinFourThirds(load0, histogram) {
        DescendingSoFar(histogram, remaining, i);
        PlaceKeepsFourThirds(table, done, load, histogram, b, bucket);
      }
      cursor := (bucket + 1) % |load|;
      table := table[b := bucket];
      done := done[b := true];
      load := load[bucket := load[bucket] + histogram[b]];
    }
    assert remaining[..|remaining|] == remaining;
    assert done == All(n);
  }

  ghost predicate BalancedTable(table: seq<nat>, histogram: seq<nat>, bucketCount: nat) {
    && |table| == |histogram|
    && (forall b :: 0 <= b < |table| ==> table[b] < bucketCount)
    && Sum(Masses(table, histogram, bucketCount)) == Sum(histogram)
    && forall m :: AtMost(histogram, m) ==> Balanced(Masses(table, histogram, bucketCount), m)
  }

  lemma NothingIsWithin(table: seq<nat>, done: seq<bool>, load: seq<nat>, histogram: seq<nat>)
    requires Ledger(table, done, load, histogram) && forall b :: 0 <= b < |done| ==> !done[b]
    ensures WithinFourThirds(load, histogram)
  {
    forall k | 0 <= k < |load| ensures load[k] == 0 {
      NothingMass(table, done, histogram, |table|, k);
    }
    EmptyIsWithin(load, histogram);
  }

  lemma SettledMasses(table: seq<nat>, load: seq<nat>, histogram: seq<nat>, done: seq<bool>)
    requires |table| == |histogram| == |done| && Settled(table, load, histogram, Remaining(histogram, done, |histogram|))
    requires forall k :: 0 <= k < |load| ==> load[k] == MassOf(table, histogram, k)
    ensures forall b, j :: 0 <= b < |table| && !done[b] && 0 <= j < |load| ==>
      MassOf(table, histogram, table[b]) <= MassOf(table, histogram, j) + histogram[b]
  {
    forall b, j | 0 <= b < |table| && !done[b] && 0 <= j < |load|
      ensures MassOf(table, histogram, table[b]) <= MassOf(table, histogram, j) + histogram[b]
    {
      assert b in Remaining(histogram, done, |histogram|);
      assert SettledByte(table, load, histogram, b);
    }
  }

  /** The optimized table is in range, its masses add up to the histogram, no two
      buckets differ by more than the largest frequency, and pattern bytes have
      buckets of their own when they fit (and use every bucket when they do not),
      and no other byte would meet a lower mass in another bucket. Without pattern
      bytes no table at all has a fullest bucket below 3n/(4n - 1) of this one's. */
  method OptimizedMappingTable(bucketCount: nat, histogram: seq<nat>, patternUnique: seq<bool>) returns (table: seq<nat>)
    requires 1 <= bucketCount <= 256 && |histogram| == |patternUnique| == 256
    ensures BalancedTable(table, histogram, bucketCount)
    ensures Count(patternUnique) <= bucketCount ==> Separate(table, patternUnique)
    ensures Count(patternUnique) >= bucketCount ==> forall k :: 0 <= k < bucketCount ==> InUse(table, patternUnique, k)
    ensures forall b, j :: 0 <= b < 256 && !patternUnique[b] && 0 <= j < bucketCount ==>
      MassOf(table, histogram, table[b]) <= MassOf(table, histogram, j) + histogram[b]
    ensures Count(patternUnique) == 0 ==> WithinFourThirds(Masses(table, histogram, bucketCount), histogram)
  {
    ghost var m := Largest(histogram);
    var table0, done, load0, cursor, used := PatternPhase(bucketCount, histogram, patternUnique, m);
    if Count(patternUnique) == 0 {
      CountBounds(patternUnique);
      NothingIsWithin(table0, done, load0, histogram);
    }
    var load;
    table, load := GreedyPhase(table0, done, load0, cursor, histogram, m);
    LedgerIsTable(table, load, histogram, m);
    SettledMasses(table, load, histogram, done);
    PatternSpread(table0, table, load0, done, used);
  }

  /** A complete ledger describes the masses of the table. */
  lemma LedgerIsTable(table: seq<nat>, load: seq<nat>, histogram: seq<nat>, m: nat)
    requires Ledger(table, All(|table|), load, histogram) && Balanced(load, m)
    requires histogram != [] && m == Largest(histogram)
    ensures load == Masses(table, histogram, |load|) && BalancedTable(table, histogram, |load|)
  {
    AllPlaced(histogram, |histogram|);
    assert histogram[..|histogram|] == histogram;
    assert load == Masses(table, histogram, |load|);
  }

  /** Later placements leave the pattern bytes where they are. */
  lemma PatternSpread(table0: seq<nat>, table: seq<nat>, load: seq<nat>, done: seq<bool>, used: seq<bool>)
    requires PatternState(table0, done, load, used) && |table| == |table0|
    requires forall b :: 0 <= b < |table| && done[b] ==> table[b] == table0[b]
    ensures Count(done) <= |load| ==> Separate(table, done)
    ensures Count(done) >= |load| ==> forall k :: 0 <= k < |load| ==> InUse(table, done, k)
  {
    CountBounds(used);
    forall k | 0 <= k < |load| && Count(done) >= |load| ensures InUse(table, done, k) {
      assert InUse(table0, done, k);
    }
  }

  // ----- what balance buys -----

  /** A fullest bucket is at most the average plus its share of one frequency. */
  lemma LoadNearAverage(masses: seq<nat>, m: nat, k: nat)
    requires Balanced(masses, m) && k < |masses|
    ensures |masses| * masses[k] <= Sum(masses) + (|masses| - 1) * m
  {
    var rest := masses[..k] + masses[k + 1..];
    SumRemoved(masses, k);
    SumNear(rest, masses[k], m);
    MulAdd(|masses| - 1, 1, masses[k]);
  }

  lemma TwiceTheMost(n: nat, load: nat, total: nat, m: nat, most: nat)
    requires n > 0 && n * load <= total + (n - 1) * m && total <= n * most && m <= most
    ensures n * load <= (2 * n - 1) * most
  {
    MulMonotone(n - 1, m, most);
    MulAdd(n, n - 1, most);
  }

  /** Approximation bound: the fullest bucket of a balanced table is less than
      twice as full as the fullest bucket of any other table. */
  lemma NearOptimal(table: seq<nat>, other: seq<nat>, histogram: seq<nat>, n: nat, k: nat)
    requires histogram != [] && BalancedTable(table, histogram, n) && k < n
    requires |other| == |histogram| && forall b :: 0 <= b < |other| ==> other[b] < n
    ensures n * Masses(table, histogram, n)[k] <= (2 * n - 1) * Largest(Masses(other, histogram, n))
  {
    var mine := Masses(table, histogram, n);
    LoadNearAverage(mine, Largest(histogram), k);
    FullestBucket(other, histogram, n);
    TwiceTheMost(n, mine[k], Sum(histogram), Largest(histogram), Largest(Masses(other, histogram, n)));
  }
}
