/** Row selections as bit masks: what it means to filter by a mask and to
    refine one selection by a second one that ranges over the selected rows. */
module BitSelection {

  /** The number of set bits. */
  function Count(bits: seq<bool>): nat {
    if bits == [] then 0 else (if bits[0] then 1 else 0) + Count(bits[1..])
  }

  /** The elements of `xs` at the set positions of `mask`, in order. */
  function Filter<T>(xs: seq<T>, mask: seq<bool>): seq<T>
    requires |xs| == |mask|
  {
    if mask == [] then []
    else (if mask[0] then [xs[0]] else []) + Filter(xs[1..], mask[1..])
  }

  /** Keeps a set bit of `left` exactly when the corresponding bit of `right`
      is set; `right` has one bit for every set bit of `left`. */
  function AndThen(left: seq<bool>, right: seq<bool>): seq<bool>
    requires Count(left) == |right|
  {
    if left == [] then []
    else if left[0] then [right[0]] + AndThen(left[1..], right[1..])
    else [false] + AndThen(left[1..], right)
  }

  lemma {:induction false} CountAppend(a: seq<bool>, b: seq<bool>)
    ensures Count(a + b) == Count(a) + Count(b)
  {
    if a == [] {
      assert a + b == b;
    } else {
      assert (a + b)[1..] == a[1..] + b;
      CountAppend(a[1..], b);
    }
  }

  lemma CountStep(bits: seq<bool>, i: nat)
    requires i < |bits|
    ensures Count(bits[..i + 1]) == Count(bits[..i]) + (if bits[i] then 1 else 0)
    ensures Count(bits[..i + 1]) <= Count(bits)
  {
    assert bits[..i + 1] == bits[..i] + [bits[i]];
    CountAppend(bits[..i], [bits[i]]);
    assert bits == bits[..i + 1] + bits[i + 1..];
    CountAppend(bits[..i + 1], bits[i + 1..]);
  }

  lemma CountSplit(bits: seq<bool>, i: nat, j: nat)
    requires i <= j <= |bits|
    ensures Count(bits[..j]) == Count(bits[..i]) + Count(bits[i..j])
    ensures Count(bits[..j]) <= Count(bits)
  {
    assert bits[..j] == bits[..i] + bits[i..j];
    CountAppend(bits[..i], bits[i..j]);
    assert bits == bits[..j] + bits[j..];
    CountAppend(bits[..j], bits[j..]);
  }

  lemma {:induction false} CountBounds(bits: seq<bool>)
    ensures Count(bits) <= |bits|
    ensures Count(bits) == |bits| <==> forall i :: 0 <= i < |bits| ==> bits[i]
    ensures Count(bits) == 0 <==> forall i :: 0 <= i < |bits| ==> !bits[i]
  {
    if bits != [] {
      CountBounds(bits[1..]);
      assert forall i :: 1 <= i < |bits| ==> bits[i] == bits[1..][i - 1];
    }
  }

  /** The positional reading of `AndThen`: output bit i looks at the bit of
      `right` whose index is the number of set bits of `left` before i. */
  lemma {:induction false} AndThenAt(left: seq<bool>, right: seq<bool>, i: nat)
    requires Count(left) == |right| && i < |left|
    ensures |AndThen(left, right)| == |left|
    ensures left[i] ==> Count(left[..i]) < |right|
    ensures AndThen(left, right)[i] == (left[i] && right[Count(left[..i])])
  {
    AndThenLength(left, right);
    CountStep(left, i);
    if i > 0 {
      var rest := if left[0] then right[1..] else right;
      AndThenLength(left[1..], rest);
      AndThenAt(left[1..], rest, i - 1);
      assert left[..i][1..] == left[1..][..i - 1];
    }
  }

  lemma {:induction false} AndThenLength(left: seq<bool>, right: seq<bool>)
    requires Count(left) == |right|
    ensures |AndThen(left, right)| == |left|
  {
    if left != [] {
      AndThenLength(left[1..], if left[0] then right[1..] else right);
    }
  }

  /** Bit i of the refined selection of `l` by `r` is `bit`. */
  ghost predicate Refined(l: seq<bool>, r: seq<bool>, i: nat, bit: bool)
    requires i < |l|
  {
    (l[i] ==> Count(l[..i]) < |r|) && bit == (l[i] && r[Count(l[..i])])
  }

  /** A mask that is right at every position is the refined selection. */
  lemma AndThenCharacterised(left: seq<bool>, right: seq<bool>, out: seq<bool>)
    requires Count(left) == |right| && |out| == |left|
    requires forall i :: 0 <= i < |left| ==> Refined(left, right, i, out[i])
    ensures out == AndThen(left, right)
  {
    AndThenLength(left, right);
    forall i | 0 <= i < |left| ensures out[i] == AndThen(left, right)[i] {
      assert Refined(left, right, i, out[i]);
      AndThenAt(left, right, i);
    }
  }

  /** Refining a selection keeps exactly the rows that the second mask keeps. */
  lemma {:induction false} CountAndThen(left: seq<bool>, right: seq<bool>)
    requires Count(left) == |right|
    ensures Count(AndThen(left, right)) == Count(right)
  {
    if left != [] {
      var tail := AndThen(left[1..], if left[0] then right[1..] else right);
      CountAndThen(left[1..], if left[0] then right[1..] else right);
      assert AndThen(left, right)[1..] == tail;
    }
  }

  lemma {:induction false} FilterLength<T>(xs: seq<T>, mask: seq<bool>)
    requires |xs| == |mask|
    ensures |Filter(xs, mask)| == Count(mask)
  {
    if mask != [] {
      FilterLength(xs[1..], mask[1..]);
    }
  }

  /** A selected element stands where the number of selected positions before it says. */
  lemma {:induction false} FilterAt<T>(xs: seq<T>, mask: seq<bool>, i: nat)
    requires |xs| == |mask| && i < |mask| && mask[i]
    ensures Count(mask[..i]) < |Filter(xs, mask)| && Filter(xs, mask)[Count(mask[..i])] == xs[i]
  {
    if i > 0 {
      FilterAt(xs[1..], mask[1..], i - 1);
      assert mask[..i][1..] == mask[1..][..i - 1];
    }
  }

  /** Filtering by the refined selection is filtering twice. */
  lemma {:induction false} FilterAndThen<T>(xs: seq<T>, left: seq<bool>, right: seq<bool>)
    requires |xs| == |left| && Count(left) == |right|
    ensures |AndThen(left, right)| == |xs| && |Filter(xs, left)| == |right|
    ensures Filter(xs, AndThen(left, right)) == Filter(Filter(xs, left), right)
  {
    AndThenLength(left, right);
    FilterLength(xs, left);
    if left != [] {
      var rest := if left[0] then right[1..] else right;
      FilterAndThen(xs[1..], left[1..], rest);
      assert AndThen(left, right)[1..] == AndThen(left[1..], rest);
      var inner := Filter(xs[1..], left[1..]);
      if left[0] {
        assert Filter(xs, left) == [xs[0]] + inner;
        assert Filter(xs, left)[1..] == inner;
      } else {
        assert Filter(xs, left) == inner;
      }
    }
  }

  /** Refinement is associative, so predicates can be pushed one after another. */
  lemma {:induction false} AndThenAssociative(a: seq<bool>, b: seq<bool>, c: seq<bool>)
    requires Count(a) == |b| && Count(b) == |c|
    ensures Count(AndThen(a, b)) == |c| && |AndThen(b, c)| == Count(a)
    ensures AndThen(AndThen(a, b), c) == AndThen(a, AndThen(b, c))
  {
    CountAndThen(a, b);
    AndThenLength(b, c);
    if a != [] {
      if a[0] {
        var c' := if b[0] then c[1..] else c;
        AndThenAssociative(a[1..], b[1..], c');
        assert AndThen(a, b)[1..] == AndThen(a[1..], b[1..]);
        assert AndThen(b, c)[1..] == AndThen(b[1..], c');
      } else {
        AndThenAssociative(a[1..], b, c);
        assert AndThen(a, b)[1..] == AndThen(a[1..], b);
      }
    }
  }

  lemma {:induction false} FilterAll<T>(xs: seq<T>, mask: seq<bool>)
    requires |xs| == |mask| && Count(mask) == |mask|
    ensures Filter(xs, mask) == xs
  {
    CountBounds(mask);
    if mask != [] {
      CountBounds(mask[1..]);
      FilterAll(xs[1..], mask[1..]);
    }
  }

  /** When `left` selects everything, refinement returns `right` itself. */
  lemma {:induction false} AndThenAll(left: seq<bool>, right: seq<bool>)
    requires Count(left) == |right| == |left|
    ensures AndThen(left, right) == right
  {
    CountBounds(left);
    if left != [] {
      CountBounds(left[1..]);
      AndThenAll(left[1..], right[1..]);
    }
  }
}
