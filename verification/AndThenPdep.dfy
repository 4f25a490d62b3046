/** The two implementations of selection refinement: the bit-at-a-time fallback
    and the word-at-a-time form built on the PDEP instruction.

    A buffer is its bits in memory order, least significant bit of each byte
    first (the "Validity bitmaps" section of the Arrow Columnar Format), so byte
    k holds bits 8k to 8k+7. A u64 is its 64 bits, least significant first. */
module AndThenPdep {
  import opened BitSelection

  type Word = w: seq<bool> | |w| == 64 witness seq(64, _ => false)

  /** A boolean buffer at bit offset 0: `len` logical bits at the front of `values`.
      What `values` holds after the first `len` bits is arbitrary. */
  datatype BooleanBuffer = BooleanBuffer(values: seq<bool>, len: nat) {
    ghost predicate Valid() {
      len <= |values| && |values| % 8 == 0
    }
    function Bits(): (bits: seq<bool>)
      requires len <= |values|
      ensures |bits| == len
    {
      values[..len]
    }
  }

  datatype RowSelector = RowSelector(rowCount: nat, skip: bool)

  // ----- u64 operations, bit by bit -----

  function Zero(): Word { seq(64, _ => false) }

  function BitAnd(a: Word, b: Word): Word {
    seq(64, i requires 0 <= i < 64 => a[i] && b[i])
  }

  function BitOr(a: Word, b: Word): Word {
    seq(64, i requires 0 <= i < 64 => a[i] || b[i])
  }

  /** `w >> n`. */
  function ShiftRight(w: Word, n: nat): Word
    requires n < 64
  {
    seq(64, i requires 0 <= i < 64 => i + n < 64 && w[i + n])
  }

  /** `w << n`. */
  function ShiftLeft(w: Word, n: nat): Word
    requires n < 64
  {
    seq(64, i requires 0 <= i < 64 => i >= n && w[i - n])
  }

  /** `1u64.unbounded_shl(n)`: shifting by 64 or more gives zero. */
  function OneUnboundedShl(n: nat): Word {
    seq(64, i => i == n)
  }

  /** `w.wrapping_sub(1)`: the borrow reaches bit i when all lower bits are zero. */
  function WrappingDecrement(w: Word): Word {
    seq(64, i requires 0 <= i < 64 => w[i] != (forall j :: 0 <= j < i ==> !w[j]))
  }

  /** `_pdep_u64(src, mask)`: the low bits of `src` are deposited, in order, at the
      set positions of `mask` (Intel 64 and IA-32 SDM, volume 2, PDEP). */
  function Pdep(src: Word, mask: Word): Word {
    seq(64, i requires 0 <= i < 64 => mask[i] && (CountStep(mask, i); CountBounds(mask[..i + 1]); src[Count(mask[..i])]))
  }

  function DivCeil(n: nat, d: nat): nat
    requires d > 0
  {
    (n + d - 1) / d
  }

  function SaturatingSub(a: nat, b: nat): nat {
    if a >= b then a - b else 0
  }

  /** `read_unaligned` of a u64 at a byte offset; the eight bytes must be readable. */
  function ReadU64(memory: seq<bool>, byteOffset: nat): Word
    requires (byteOffset + 8) * 8 <= |memory|
  {
    memory[byteOffset * 8..byteOffset * 8 + 64]
  }

  /** Copying at most seven bytes into a zeroed u64. */
  function ReadPartial(memory: seq<bool>, byteOffset: nat, bytes: nat): Word
    requires bytes <= 8 && (byteOffset + bytes) * 8 <= |memory|
  {
    memory[byteOffset * 8..(byteOffset + bytes) * 8] + seq(64 - bytes * 8, _ => false)
  }

  /** Bits below n are set, the others clear, also for n = 64. */
  lemma LowMask(n: nat)
    requires n <= 64
    ensures forall i :: 0 <= i < 64 ==> WrappingDecrement(OneUnboundedShl(n))[i] == (i < n)
  {
    var w := OneUnboundedShl(n);
    forall i | 0 <= i < 64 ensures WrappingDecrement(w)[i] == (i < n) {
      if i > n {
        assert w[n];
      }
    }
  }

  // ----- bit at a time -----

  /** The fallback walks the set positions of `left` and clears, in a copy of
      `left`, those whose bit in `right` is clear. */
  method Fallback(left: BooleanBuffer, right: BooleanBuffer) returns (out: BooleanBuffer)
    requires left.Valid() && right.Valid()
    requires Count(left.Bits()) == right.len
    ensures out.Valid() && out.len == left.len
    ensures out.Bits() == AndThen(left.Bits(), right.Bits())
  {
    if left.len == right.len {
      AndThenAll(left.Bits(), right.Bits());
      return right;
    }
    ghost var l, r := left.Bits(), right.Bits();
    var builder := new bool[|left.values|](i requires 0 <= i < |left.values| => left.values[i]);
    var next := 0;
    for bit := 0 to left.len
      invariant next == Count(l[..bit]) <= right.len
      invariant forall i :: 0 <= i < bit ==> Refined(l, r, i, builder[i])
      invariant forall i :: bit <= i < builder.Length ==> builder[i] == left.values[i]
    {
      CountStep(l, bit);
      if left.values[bit] {
        if !right.values[next] {
          builder[bit] := false;
        }
        next := next + 1;
      }
    }
    out := BooleanBuffer(builder[..], left.len);
    assert l[..left.len] == l;
    AndThenCharacterised(l, r, out.Bits());
  }

  // ----- word at a time -----

  /** Eight bytes of a buffer of `totalBytes` bytes, with zeros past its end. */
  method LoadU64ZeroPadded(memory: seq<bool>, totalBytes: nat, offset: nat) returns (w: Word)
    requires totalBytes * 8 <= |memory|
    ensures forall i :: 0 <= i < 64 ==>
      w[i] == (offset * 8 + i < totalBytes * 8 && memory[offset * 8 + i])
  {
    var remaining := SaturatingSub(totalBytes, offset);
    if remaining >= 8 {
      w := ReadU64(memory, offset);
    } else if remaining > 0 {
      w := ReadPartial(memory, offset, remaining);
    } else {
      w := Zero();
    }
  }

  /** The end, in bytes, of what a round that starts at bit `bitIdx` reads of a
      `right` of `rightBytes` bytes: near the end of `right` the loads are padded,
      before that they are not checked. */
  function ReadEnd(rightBytes: nat, bitIdx: nat): nat {
    if bitIdx / 8 <= SaturatingSub(rightBytes, 16) then bitIdx / 8 + if bitIdx % 8 != 0 then 16 else 8
    else rightBytes
  }

  /** The w-th word of `l` has a set bit, so that a round reads for it. */
  predicate WordReads(l: seq<bool>, w: nat) {
    w * 64 < |l| && Count(l[w * 64..if w * 64 + 64 <= |l| then w * 64 + 64 else |l|]) > 0
  }

  /** No round reads past the first `bits` bits of the allocation. */
  ghost predicate ReadsWithin(l: seq<bool>, rightLen: nat, bits: nat) {
    forall w: nat :: WordReads(l, w) ==> ReadEnd(DivCeil(rightLen, 8), Count(l[..w * 64])) * 8 <= bits
  }

  /** The next `need` bits of `right` starting at bit `bitIdx`, packed from bit 0
      upward, every higher bit zero. Reads stay inside `memory`, which is the
      allocation behind `right`. */
  method GatherRight(memory: seq<bool>, rightLen: nat, bitIdx: nat, need: nat) returns (rBits: Word)
    requires rightLen <= DivCeil(rightLen, 8) * 8 <= |memory|
    requires ReadEnd(DivCeil(rightLen, 8), bitIdx) * 8 <= |memory|
    requires need <= 64 && bitIdx + need <= rightLen
    ensures forall j :: 0 <= j < 64 ==> rBits[j] == (j < need && memory[bitIdx + j])
  {
    var rightBytes := DivCeil(rightLen, 8);
    var rbByte, rbBit := bitIdx / 8, bitIdx % 8;
    var needHigh := rbBit != 0;
    var safe16 := SaturatingSub(rightBytes, 16);
    if rbByte <= safe16 {
      var low := ReadU64(memory, rbByte);
      if needHigh {
        var high := ReadU64(memory, rbByte + 8);
        rBits := BitOr(ShiftRight(low, rbBit), ShiftLeft(high, 64 - rbBit));
      } else {
        rBits := ShiftRight(low, rbBit);
      }
    } else {
      var low := LoadU64ZeroPadded(memory, rightBytes, rbByte);
      rBits := ShiftRight(low, rbBit);
      if needHigh {
        var high := LoadU64ZeroPadded(memory, rightBytes, rbByte + 8);
        rBits := BitOr(rBits, ShiftLeft(high, 64 - rbBit));
      }
    }
    assert forall j :: 0 <= j < need ==> rBits[j] == memory[bitIdx + j];
    LowMask(need);
    rBits := BitAnd(rBits, WrappingDecrement(OneUnboundedShl(need)));
  }

  /** `word` is the 64 bits of `l` from `base` on, with zeros past the end of `l`. */
  ghost predicate WordOf(l: seq<bool>, base: nat, word: Word) {
    forall j :: 0 <= j < 64 ==> word[j] == (base + j < |l| && l[base + j])
  }

  lemma CountIntoWord(l: seq<bool>, base: nat, mask: Word, j: nat)
    requires base + j < |l| && j < 64 && WordOf(l, base, mask)
    ensures Count(l[..base + j]) == Count(l[..base]) + Count(mask[..j])
  {
    CountSplit(l, base, base + j);
    assert l[base..base + j] == mask[..j];
  }

  /** Depositing the gathered bits of `r` into one word of `l` yields that word's
      share of the refined selection. */
  lemma PdepBit(l: seq<bool>, r: seq<bool>, base: nat, mask: Word, rBits: Word, j: nat)
    requires Count(l) == |r| && base + j < |l| && j < 64
    requires WordOf(l, base, mask)
    requires Count(l[..base]) + Count(mask) <= |r|
    requires forall k :: 0 <= k < 64 && k < Count(mask) ==> rBits[k] == r[Count(l[..base]) + k]
    ensures Refined(l, r, base + j, Pdep(rBits, mask)[j])
  {
    CountIntoWord(l, base, mask, j);
    CountStep(mask, j);
    CountStep(l, base + j);
    CountBounds(mask);
    assert Pdep(rBits, mask)[j] == (mask[j] && rBits[Count(mask[..j])]);
  }

  /** Counting over one word of `left` whose bits past the end are masked off. */
  lemma CountWord(l: seq<bool>, base: nat, word: Word)
    requires base <= |l| && WordOf(l, base, word)
    ensures Count(l[..base]) + Count(word) == Count(l[..if base + 64 <= |l| then base + 64 else |l|]) <= Count(l)
    ensures Count(word) <= 64
  {
    CountBounds(word);
    var end := if base + 64 <= |l| then base + 64 else |l|;
    CountSplit(l, base, end);
    var pad := word[end - base..];
    assert word == l[base..end] + pad;
    CountAppend(l[base..end], pad);
    CountBounds(pad);
  }

  lemma WordNeedsRead(l: seq<bool>, w: nat, word: Word)
    requires w * 64 < |l| && WordOf(l, w * 64, word)
    ensures word != Zero() ==> WordReads(l, w)
  {
    if word != Zero() {
      var j :| 0 <= j < 64 && word[j];
      var part := l[w * 64..if w * 64 + 64 <= |l| then w * 64 + 64 else |l|];
      assert part[j];
      CountBounds(part);
    }
  }

  /** One round of the PDEP form: gather the bits of `right` that belong to the
      set bits of `word`, deposit them, and store the low `n` bits of the result.
      A zero word stores nothing. */
  method RefineWord(left: BooleanBuffer, right: BooleanBuffer, memory: seq<bool>,
                    buffer: array<bool>, base: nat, word: Word, n: nat, rightBitIdx: nat)
    returns (nextBitIdx: nat)
    requires left.Valid() && right.Valid() && Count(left.Bits()) == right.len
    requires right.values <= memory
    requires word != Zero() ==> ReadEnd(DivCeil(right.len, 8), rightBitIdx) * 8 <= |memory|
    requires base < left.len <= buffer.Length && WordOf(left.Bits(), base, word)
    requires n <= 64 && base + n <= buffer.Length && (base + n >= left.len || n == 64)
    requires rightBitIdx == Count(left.Bits()[..base])
    requires forall i :: base <= i < buffer.Length ==> !buffer[i]
    modifies buffer
    ensures nextBitIdx == rightBitIdx + Count(word)
    ensures forall i :: 0 <= i < buffer.Length && !(base <= i < base + n) ==> buffer[i] == old(buffer[i])
    ensures forall i :: base <= i < base + n && i < left.len ==>
      Refined(left.Bits(), right.Bits(), i, buffer[i])
  {
    ghost var l, r := left.Bits(), right.Bits();
    CountWord(l, base, word);
    CountBounds(word);
    if word == Zero() {
      forall i | base <= i < base + n && i < left.len ensures Refined(l, r, i, buffer[i]) {
        assert !word[i - base];
      }
      return rightBitIdx;
    }
    var need := Count(word);
    var rBits := GatherRight(memory, right.len, rightBitIdx, need);
    var result := Pdep(rBits, word);
    forall i | base <= i < base + n {
      buffer[i] := result[i - base];
    }
    forall i | base <= i < base + n && i < left.len ensures Refined(l, r, i, buffer[i]) {
      PdepBit(l, r, base, word, rBits, i - base);
    }
    nextBitIdx := rightBitIdx + need;
  }

  /** A full word of `left`. */
  method LeftWord(left: BooleanBuffer, wordIdx: nat) returns (word: Word)
    requires left.Valid() && (wordIdx + 1) * 64 <= left.len
    ensures WordOf(left.Bits(), wordIdx * 64, word)
  {
    word := ReadU64(left.values, wordIdx * 8);
  }

  /** The last, partial word of `left`: a bounded copy of the remaining bytes with
      the bits past the logical length cleared. */
  method LeftTail(left: BooleanBuffer, fullWords: nat, tailBits: nat) returns (word: Word)
    requires left.Valid() && left.len == fullWords * 64 + tailBits && 0 < tailBits < 64
    ensures WordOf(left.Bits(), fullWords * 64, word)
  {
    var tailBytes := DivCeil(tailBits, 8);
    if tailBytes == 8 {
      word := ReadU64(left.values, fullWords * 8);
    } else {
      word := ReadPartial(left.values, fullWords * 8, tailBytes);
    }
    LowMask(tailBits);
    word := BitAnd(word, WrappingDecrement(OneUnboundedShl(tailBits)));
  }

  /** The loop over the full words of `left`, into a zeroed buffer. */
  method RefineFullWords(left: BooleanBuffer, right: BooleanBuffer, memory: seq<bool>,
                         buffer: array<bool>, fullWords: nat)
    returns (rightBitIdx: nat)
    requires left.Valid() && right.Valid() && Count(left.Bits()) == right.len
    requires right.values <= memory && ReadsWithin(left.Bits(), right.len, |memory|)
    requires fullWords * 64 <= left.len <= buffer.Length
    requires forall i :: 0 <= i < buffer.Length ==> !buffer[i]
    modifies buffer
    ensures rightBitIdx == Count(left.Bits()[..fullWords * 64])
    ensures forall i :: 0 <= i < fullWords * 64 ==> Refined(left.Bits(), right.Bits(), i, buffer[i])
    ensures forall i :: fullWords * 64 <= i < buffer.Length ==> !buffer[i]
  {
    rightBitIdx := 0;
    for wordIdx := 0 to fullWords
      invariant rightBitIdx == Count(left.Bits()[..wordIdx * 64])
      invariant forall i :: 0 <= i < wordIdx * 64 ==> Refined(left.Bits(), right.Bits(), i, buffer[i])
      invariant forall i :: wordIdx * 64 <= i < buffer.Length ==> !buffer[i]
    {
      var word := LeftWord(left, wordIdx);
      CountWord(left.Bits(), wordIdx * 64, word);
      WordNeedsRead(left.Bits(), wordIdx, word);
      rightBitIdx := RefineWord(left, right, memory, buffer, wordIdx * 64, word, 64, rightBitIdx);
    }
  }

  /** The full words and then the partial one. */
  method RefineAllWords(left: BooleanBuffer, right: BooleanBuffer, memory: seq<bool>, buffer: array<bool>)
    requires left.Valid() && right.Valid() && Count(left.Bits()) == right.len
    requires right.values <= memory && ReadsWithin(left.Bits(), right.len, |memory|)
    requires buffer.Length == DivCeil(left.len, 8) * 8
    requires forall i :: 0 <= i < buffer.Length ==> !buffer[i]
    modifies buffer
    ensures forall i :: 0 <= i < left.len ==> Refined(left.Bits(), right.Bits(), i, buffer[i])
  {
    var fullWords, tailBits := left.len / 64, left.len % 64;
    var rightBitIdx := RefineFullWords(left, right, memory, buffer, fullWords);
    if tailBits != 0 {
      RefineTail(left, right, memory, buffer, fullWords, tailBits, rightBitIdx);
    }
  }

  /** The partial word at the end. */
  method RefineTail(left: BooleanBuffer, right: BooleanBuffer, memory: seq<bool>,
                    buffer: array<bool>, fullWords: nat, tailBits: nat, rightBitIdx: nat)
    requires left.Valid() && right.Valid() && Count(left.Bits()) == right.len
    requires right.values <= memory && ReadsWithin(left.Bits(), right.len, |memory|)
    requires left.len == fullWords * 64 + tailBits && 0 < tailBits < 64
    requires buffer.Length == DivCeil(left.len, 8) * 8 && rightBitIdx == Count(left.Bits()[..fullWords * 64])
    requires forall i :: fullWords * 64 <= i < buffer.Length ==> !buffer[i]
    modifies buffer
    ensures forall i :: 0 <= i < fullWords * 64 ==> buffer[i] == old(buffer[i])
    ensures forall i :: fullWords * 64 <= i < left.len ==> Refined(left.Bits(), right.Bits(), i, buffer[i])
  {
    var word := LeftTail(left, fullWords, tailBits);
    var tailBytes := DivCeil(tailBits, 8);
    assert DivCeil(left.len, 8) == fullWords * 8 + tailBytes;
    WordNeedsRead(left.Bits(), fullWords, word);
    var _ := RefineWord(left, right, memory, buffer, fullWords * 64, word, tailBytes * 8, rightBitIdx);
  }

  /** The PDEP form. `memory` is the readable allocation that starts with the
      bytes of `right`; whatever it holds after `right.len` bits is ignored. */
  method Bmi2(left: BooleanBuffer, right: BooleanBuffer, memory: seq<bool>) returns (out: BooleanBuffer)
    requires left.Valid() && right.Valid()
    requires Count(left.Bits()) == right.len
    requires right.values <= memory && ReadsWithin(left.Bits(), right.len, |memory|)
    ensures out.Valid() && out.len == left.len
    ensures out.Bits() == AndThen(left.Bits(), right.Bits())
  {
    var bitLen := left.len;
    var byteLen := DivCeil(bitLen, 8);
    var buffer := new bool[byteLen * 8](_ => false);
    RefineAllWords(left, right, memory, buffer);
    out := BooleanBuffer(buffer[..], bitLen);
    assert forall i :: 0 <= i < bitLen ==> out.Bits()[i] == buffer[i];
    AndThenCharacterised(left.Bits(), right.Bits(), out.Bits());
  }

  /** The dispatcher: with or without BMI2 the answer is the same mask. */
  method BooleanBufferAndThen(left: BooleanBuffer, right: BooleanBuffer, memory: seq<bool>, bmi2: bool)
    returns (out: BooleanBuffer)
    requires left.Valid() && right.Valid()
    requires Count(left.Bits()) == right.len
    requires right.values <= memory
    requires bmi2 && left.len != right.len ==> ReadsWithin(left.Bits(), right.len, |memory|)
    ensures out.Valid() && out.len == left.len
    ensures out.Bits() == AndThen(left.Bits(), right.Bits())
    ensures Count(out.Bits()) == Count(right.Bits())
  {
    CountAndThen(left.Bits(), right.Bits());
    if left.len == right.len {
      AndThenAll(left.Bits(), right.Bits());
      return right;
    }
    if bmi2 {
      out := Bmi2(left, right, memory);
    } else {
      out := Fallback(left, right);
    }
  }

  // ----- how far the loads reach -----

  /** Sixteen readable bytes, or all of a longer `right`, always suffice. */
  lemma SixteenBytesSuffice(l: seq<bool>, bits: nat)
    requires DivCeil(Count(l), 8) * 8 <= bits && (Count(l) > 0 ==> 16 * 8 <= bits)
    ensures ReadsWithin(l, Count(l), bits)
  {
    forall w: nat | WordReads(l, w) ensures ReadEnd(DivCeil(Count(l), 8), Count(l[..w * 64])) * 8 <= bits {
      CountSplit(l, w * 64, if w * 64 + 64 <= |l| then w * 64 + 64 else |l|);
    }
  }

  /** A selection with n set bits, the first of them alone in its word. */
  function LoneFirst(n: nat): seq<bool>
    requires n > 0
  {
    [true] + seq(63, _ => false) + seq(n - 1, _ => true)
  }

  lemma LoneFirstCounts(n: nat)
    requires n > 0
    ensures Count(LoneFirst(n)) == n && WordReads(LoneFirst(n), 0)
    ensures n > 1 ==> WordReads(LoneFirst(n), 1) && Count(LoneFirst(n)[..64]) == 1
  {
    var l, zeros, ones := LoneFirst(n), seq(63, _ => false), seq(n - 1, _ => true);
    CountAppend([true] + zeros, ones);
    CountAppend([true], zeros);
    CountBounds(zeros);
    CountBounds(ones);
    assert l[..64] == [true] + zeros && l[0..64] == l[..64];
    if n > 1 {
      var part := l[64..if 128 <= |l| then 128 else |l|];
      assert part[0];
      CountBounds(part);
    }
  }

  /** Exactly when the unchecked loads stay inside the bytes of `right` whatever the
      other selection is: `right` is empty or has at least sixteen bytes. Otherwise
      the code relies on the padding of the allocation. */
  lemma ReadsStayInsideExactly(n: nat)
    ensures (forall l :: Count(l) == n ==> ReadsWithin(l, n, DivCeil(n, 8) * 8)) <==> n == 0 || DivCeil(n, 8) >= 16
  {
    var bytes := DivCeil(n, 8);
    if n == 0 || bytes >= 16 {
      forall l | Count(l) == n ensures ReadsWithin(l, n, bytes * 8) {
        SixteenBytesSuffice(l, bytes * 8);
      }
    } else {
      var l := LoneFirst(n);
      LoneFirstCounts(n);
      assert l[..0] == [];
      assert !ReadsWithin(l, n, bytes * 8) by {
        if bytes < 8 {
          assert ReadEnd(bytes, Count(l[..0 * 64])) == 8;
        } else {
          assert ReadEnd(bytes, Count(l[..1 * 64])) == 16;
        }
      }
    }
  }

  // ----- masks from row selectors -----

  function TotalRows(selection: seq<RowSelector>): nat {
    if selection == [] then 0 else TotalRows(selection[..|selection| - 1]) + selection[|selection| - 1].rowCount
  }

  function SelectedRows(selection: seq<RowSelector>): nat {
    if selection == [] then 0
    else
      var last := selection[|selection| - 1];
      SelectedRows(selection[..|selection| - 1]) + if last.skip then 0 else last.rowCount
  }

  /** Every row of selector k carries that selector's verdict in the mask. */
  ghost predicate Covers(selection: seq<RowSelector>, mask: seq<bool>, k: nat)
    requires k < |selection|
  {
    var start := TotalRows(selection[..k]);
    start + selection[k].rowCount <= |mask| &&
    forall i :: start <= i < start + selection[k].rowCount ==> mask[i] == !selection[k].skip
  }

  /** The mask has the summed length and popcount, and the rows of selector k
      are the interval that starts after all earlier selectors. */
  method RowSelectorToBooleanBuffer(selection: seq<RowSelector>) returns (mask: seq<bool>)
    ensures |mask| == TotalRows(selection)
    ensures Count(mask) == SelectedRows(selection)
    ensures forall k :: 0 <= k < |selection| ==> Covers(selection, mask, k)
  {
    mask := [];
    for n := 0 to |selection|
      invariant |mask| == TotalRows(selection[..n])
      invariant Count(mask) == SelectedRows(selection[..n])
      invariant forall k :: 0 <= k < n ==> Covers(selection, mask, k)
    {
      var s := selection[n];
      var run := seq(s.rowCount, _ => !s.skip);
      CountAppend(mask, run);
      CountBounds(run);
      assert selection[..n + 1][..n] == selection[..n];
      ghost var before := mask;
      mask := mask + run;
      forall k | 0 <= k < n ensures Covers(selection, mask, k) {
        assert Covers(selection, before, k);
      }
    }
    assert selection[..|selection|] == selection;
  }
}
