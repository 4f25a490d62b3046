/** String fingerprints: one bit per bucket of bytes. A value can hold a pattern
    only if its fingerprint covers the pattern's. */
module Fingerprint {
  import opened Common
  import opened AndThenPdep

  type Byte = b: nat | b < 256
  type Bytes = seq<Byte>

  /** The four u64 words of a fingerprint. */
  type Words = ws: seq<Word> | |ws| == 4 witness seq(4, _ => seq(64, _ => false))

  datatype ByteBucketMap = ByteBucketMap(bucketCount: nat, table: seq<Byte>) {
    ghost predicate Valid() {
      1 <= bucketCount <= 256 && |table| == 256 && forall b :: 0 <= b < 256 ==> table[b] < bucketCount
    }
  }

  datatype Stats = Stats(rows: nat, nulls: nat, filteredOut: nat, candidates: nat, falsePos: nat, actualPresent: nat)

  /** The buckets a byte string touches. */
  function Buckets(bytes: Bytes, mapping: ByteBucketMap): set<Byte>
    requires |mapping.table| == 256
  {
    set b | b in bytes :: mapping.table[b]
  }

  /** Bit `k & 63` of word `k >> 6`. */
  function BitAt(ws: Words, k: Byte): bool { ws[k / 64][k % 64] }

  ghost predicate Encodes(ws: Words, buckets: set<Byte>) {
    forall k: Byte :: BitAt(ws, k) <==> k in buckets
  }

  method FromBytes(bytes: Bytes, mapping: ByteBucketMap) returns (ws: Words)
    requires mapping.Valid()
    ensures Encodes(ws, Buckets(bytes, mapping))
  {
    ws := [Zero(), Zero(), Zero(), Zero()];
    for i := 0 to |bytes|
      invariant Encodes(ws, Buckets(bytes[..i], mapping))
    {
      var bucket := mapping.table[bytes[i]];
      assert bytes[..i + 1] == bytes[..i] + [bytes[i]];
      assert Buckets(bytes[..i + 1], mapping) == Buckets(bytes[..i], mapping) + {bucket};
      SetBit(ws, bucket);
      ws := ws[bucket / 64 := BitOr(ws[bucket / 64], OneUnboundedShl(bucket % 64))];
    }
    assert bytes[..|bytes|] == bytes;
  }

  lemma SetBit(ws: Words, bucket: Byte)
    ensures var ws': Words := ws[bucket / 64 := BitOr(ws[bucket / 64], OneUnboundedShl(bucket % 64))];
      forall k: Byte :: BitAt(ws', k) <==> (BitAt(ws, k) || k == bucket)
  {
    var ws': Words := ws[bucket / 64 := BitOr(ws[bucket / 64], OneUnboundedShl(bucket % 64))];
    forall k: Byte ensures BitAt(ws', k) <==> (BitAt(ws, k) || k == bucket) {
      assert k == 64 * (k / 64) + k % 64 && bucket == 64 * (bucket / 64) + bucket % 64;
    }
  }

  function MightContain(value: Words, pattern: Words): bool {
    && BitAnd(value[0], pattern[0]) == pattern[0]
    && BitAnd(value[1], pattern[1]) == pattern[1]
    && BitAnd(value[2], pattern[2]) == pattern[2]
    && BitAnd(value[3], pattern[3]) == pattern[3]
  }

  lemma CoversWord(value: Word, pattern: Word)
    ensures BitAnd(value, pattern) == pattern <==> forall i :: 0 <= i < 64 && pattern[i] ==> value[i]
  {
    var both := BitAnd(value, pattern);
    assert (forall i :: 0 <= i < 64 ==> both[i] == pattern[i]) ==> both == pattern;
    assert forall i :: 0 <= i < 64 ==> both[i] == (value[i] && pattern[i]);
  }

  /** The word test is exactly inclusion of the bucket sets. */
  lemma MightContainExactly(value: Words, pattern: Words, inValue: set<Byte>, inPattern: set<Byte>)
    requires Encodes(value, inValue) && Encodes(pattern, inPattern)
    ensures MightContain(value, pattern) <==> inPattern <= inValue
  {
    forall w | 0 <= w < 4
      ensures BitAnd(value[w], pattern[w]) == pattern[w] <==> forall i :: 0 <= i < 64 && pattern[w][i] ==> value[w][i]
    {
      CoversWord(value[w], pattern[w]);
    }
    if MightContain(value, pattern) {
      forall k | k in inPattern ensures k in inValue {
        assert BitAt(pattern, k);
        assert BitAt(value, k);
      }
    }
    if inPattern <= inValue {
      forall w, i | 0 <= w < 4 && 0 <= i < 64 && pattern[w][i] ensures value[w][i] {
        var k: Byte := 64 * w + i;
        assert BitAt(pattern, k) && BitAt(value, k);
      }
    }
  }

  predicate OccursAt(pattern: Bytes, value: Bytes, at: nat) {
    at + |pattern| <= |value| && value[at..at + |pattern|] == pattern
  }

  predicate Contains(value: Bytes, pattern: Bytes) {
    exists at :: 0 <= at <= |value| && OccursAt(pattern, value, at)
  }

  /** A value holds a pattern when it is the pattern with something before and after. */
  lemma ContainsExactly(value: Bytes, pattern: Bytes)
    ensures Contains(value, pattern) <==> exists before, after :: value == before + pattern + after
  {
    if at :| 0 <= at <= |value| && OccursAt(pattern, value, at) {
      assert value == value[..at] + pattern + value[at + |pattern|..];
    }
    if before, after :| value == before + pattern + after {
      assert OccursAt(pattern, value, |before|);
    }
  }

  /** No false negatives, for any byte-to-bucket map. */
  lemma ContainedPasses(value: Bytes, pattern: Bytes, mapping: ByteBucketMap)
    requires mapping.Valid() && Contains(value, pattern)
    ensures Buckets(pattern, mapping) <= Buckets(value, mapping)
  {
    var at :| 0 <= at <= |value| && OccursAt(pattern, value, at);
    forall b | b in pattern ensures b in value {
      var i :| 0 <= i < |pattern| && pattern[i] == b;
      assert value[at + i] == value[at..at + |pattern|][i];
    }
  }

  function CountRows(values: seq<Option<Bytes>>, keep: Option<Bytes> -> bool): nat {
    if values == [] then 0
    else CountRows(values[..|values| - 1], keep) + if keep(values[|values| - 1]) then 1 else 0
  }

  /** A row matches in a full scan: not null, readable as text, and holds the pattern. */
  predicate Matches(row: Option<Bytes>, pattern: Bytes, isText: Bytes -> bool) {
    row.Some? && isText(row.value) && Contains(row.value, pattern)
  }

  predicate FilteredOut(row: Option<Bytes>, pattern: Bytes, mapping: ByteBucketMap)
    requires |mapping.table| == 256
  {
    row.Some? && !(Buckets(pattern, mapping) <= Buckets(row.value, mapping))
  }

  function Matching(pattern: Bytes, isText: Bytes -> bool): Option<Bytes> -> bool {
    row => Matches(row, pattern, isText)
  }

  function Missing(pattern: Bytes, mapping: ByteBucketMap): Option<Bytes> -> bool
    requires |mapping.table| == 256
  {
    row => FilteredOut(row, pattern, mapping)
  }

  function Null(): Option<Bytes> -> bool {
    (row: Option<Bytes>) => row.None?
  }

  /** The string study passes every value as text; the binary one tests for UTF-8.
      Filtering first loses no match, and every row lands in exactly one class. */
  method EvalIter(values: seq<Option<Bytes>>, pattern: Bytes, mapping: ByteBucketMap, patternFp: Words, isText: Bytes -> bool)
    returns (stats: Stats)
    requires mapping.Valid() && Encodes(patternFp, Buckets(pattern, mapping))
    ensures stats.actualPresent == CountRows(values, Matching(pattern, isText))
    ensures stats.filteredOut == CountRows(values, Missing(pattern, mapping))
    ensures stats.nulls == CountRows(values, Null())
    ensures stats.rows == |values| == stats.nulls + stats.filteredOut + stats.candidates
    ensures stats.candidates == stats.actualPresent + stats.falsePos
  {
    stats := Stats(0, 0, 0, 0, 0, 0);
    for i := 0 to |values|
      invariant stats.rows == i == stats.nulls + stats.filteredOut + stats.candidates
      invariant stats.candidates == stats.actualPresent + stats.falsePos
      invariant stats.actualPresent == CountRows(values[..i], Matching(pattern, isText))
      invariant stats.filteredOut == CountRows(values[..i], Missing(pattern, mapping))
      invariant stats.nulls == CountRows(values[..i], Null())
    {
      assert values[..i + 1][..i] == values[..i];
      stats := stats.(rows := stats.rows + 1);
      if values[i].None? {
        stats := stats.(nulls := stats.nulls + 1);
        continue;
      }
      var value := values[i].value;
      var fp := FromBytes(value, mapping);
      MightContainExactly(fp, patternFp, Buckets(value, mapping), Buckets(pattern, mapping));
      if !MightContain(fp, patternFp) {
        if Contains(value, pattern) {
          ContainedPasses(value, pattern, mapping);
          assert false;
        }
        stats := stats.(filteredOut := stats.filteredOut + 1);
        continue;
      }
      stats := stats.(candidates := stats.candidates + 1);
      if isText(value) && Contains(value, pattern) {
        stats := stats.(actualPresent := stats.actualPresent + 1);
      } else {
        stats := stats.(falsePos := stats.falsePos + 1);
      }
    }
    assert values[..|values|] == values;
  }

  function RoundRobin(bucketCount: nat): (mapping: ByteBucketMap)
    requires 1 <= bucketCount <= 256
    ensures mapping.Valid()
  {
    ByteBucketMap(bucketCount, seq(256, b requires 0 <= b < 256 => b % bucketCount))
  }

  /** A map that merges the buckets of another one filters out no further value. */
  lemma CoarserFiltersLess(fine: ByteBucketMap, coarse: ByteBucketMap, merge: Byte -> Byte, row: Option<Bytes>, pattern: Bytes)
    requires fine.Valid() && coarse.Valid()
    requires forall b :: 0 <= b < 256 ==> coarse.table[b] == merge(fine.table[b])
    ensures FilteredOut(row, pattern, coarse) ==> FilteredOut(row, pattern, fine)
  {
    if row.Some? && Buckets(pattern, fine) <= Buckets(row.value, fine) {
      forall k | k in Buckets(pattern, coarse) ensures k in Buckets(row.value, coarse) {
        var b :| b in pattern && coarse.table[b] == k;
        assert fine.table[b] in Buckets(pattern, fine);
        var c :| c in row.value && fine.table[c] == fine.table[b];
        assert coarse.table[c] == merge(fine.table[c]) == k;
      }
    }
  }

  /** Multiplying the number of round-robin buckets never filters fewer rows. */
  lemma RoundRobinRefines(n: nat, factor: nat, row: Option<Bytes>, pattern: Bytes)
    requires 1 <= n && 1 <= factor && n * factor <= 256
    ensures 1 <= n <= 256
    ensures FilteredOut(row, pattern, RoundRobin(n)) ==> FilteredOut(row, pattern, RoundRobin(n * factor))
  {
    assert n <= n * factor;
    forall b | 0 <= b < 256
      ensures RoundRobin(n).table[b] == RoundRobin(n * factor).table[b] % n
    {
      RemainderOfRemainder(b, n, factor);
    }
    CoarserFiltersLess(RoundRobin(n * factor), RoundRobin(n), (k: Byte) => if k % n < 256 then k % n else 0, row, pattern);
  }

  lemma RemainderOfRemainder(b: nat, n: nat, factor: nat)
    requires 1 <= n && 1 <= factor
    ensures b % (n * factor) % n == b % n
  {
    var q, r := b / (n * factor), b % (n * factor);
    assert b == n * (factor * q + r / n) + r % n;
    RemainderIs(b, n, factor * q + r / n, r % n);
  }
}
