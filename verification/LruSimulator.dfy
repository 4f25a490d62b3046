/** The LRU replacement simulator and its inclusion property: a larger budget
    never loses a hit. */
module LruSimulator {
  import opened Common

  datatype Item = Item(id: nat, size: nat)

  function TotalSize(items: seq<Item>): nat {
    if items == [] then 0 else TotalSize(items[..|items| - 1]) + items[|items| - 1].size
  }

  /** Index of the first item with that id, or the length. */
  function Position(items: seq<Item>, id: nat): (pos: nat)
    ensures pos <= |items| && (pos < |items| ==> items[pos].id == id)
    ensures forall i :: 0 <= i < pos ==> items[i].id != id
  {
    FirstIndex(items, (item: Item) => item.id == id)
  }

  /** Drops items from the cold end until the rest fits. */
  function EvictTail(items: seq<Item>, room: nat): (kept: seq<Item>)
    ensures kept <= items && TotalSize(kept) <= room
  {
    if items == [] || TotalSize(items) <= room then items else EvictTail(items[..|items| - 1], room)
  }

  /** Removes the item and inserts it at the hot end. */
  function MoveToFront(items: seq<Item>, pos: nat): seq<Item>
    requires pos < |items|
  {
    [items[pos]] + items[..pos] + items[pos + 1..]
  }

  /** The list after an access, most recently used first. */
  function Access(items: seq<Item>, capacity: nat, id: nat, size: nat): seq<Item> {
    var pos := Position(items, id);
    if pos < |items| then MoveToFront(items, pos)
    else if size > capacity then items
    else [Item(id, size)] + EvictTail(items, capacity - size)
  }

  ghost predicate Distinct(items: seq<Item>) {
    forall i, j :: 0 <= i < j < |items| ==> items[i].id != items[j].id
  }

  class LruCache {
    const capacity: nat
    var currentSize: nat
    var cache: seq<Item>
    var hits: nat
    var gets: nat

    ghost predicate Valid()
      reads this
    {
      currentSize == TotalSize(cache) <= capacity && Distinct(cache)
    }

    constructor (budget: nat)
      ensures Valid() && capacity == budget && cache == [] && hits == gets == 0
    {
      capacity := budget;
      currentSize, cache, hits, gets := 0, [], 0, 0;
    }

    method Get(id: nat, size: nat)
      requires Valid()
      modifies this
      ensures Valid() && cache == Access(old(cache), capacity, id, size)
      ensures gets == old(gets) + 1
      ensures hits == old(hits) + if Position(old(cache), id) < |old(cache)| then 1 else 0
    {
      gets := gets + 1;
      var pos := Position(cache, id);
      if pos < |cache| {
        hits := hits + 1;
        MoveToFrontTotal(cache, pos);
        MoveToFrontDistinct(cache, pos);
        cache := MoveToFront(cache, pos);
        return;
      }
      if size > capacity {
        return;
      }
      EvictLoop(size);
      EvictKeepsDistinct(old(cache), capacity - size, Item(id, size));
      PrependTotal(Item(id, size), cache);
      cache := [Item(id, size)] + cache;
      currentSize := currentSize + size;
    }

    /** Pops from the cold end until the newcomer fits. */
    method EvictLoop(size: nat)
      requires currentSize == TotalSize(cache) && size <= capacity
      modifies this`cache, this`currentSize
      ensures cache == EvictTail(old(cache), capacity - size) && currentSize == TotalSize(cache)
    {
      while currentSize + size > capacity
        invariant currentSize == TotalSize(cache)
        invariant EvictTail(cache, capacity - size) == EvictTail(old(cache), capacity - size)
        decreases |cache|
      {
        if cache == [] {
          break;
        }
        currentSize := currentSize - cache[|cache| - 1].size;
        cache := cache[..|cache| - 1];
      }
    }
  }

  lemma EvictKeepsDistinct(items: seq<Item>, room: nat, item: Item)
    requires Distinct(items) && Position(items, item.id) == |items|
    ensures Distinct([item] + EvictTail(items, room))
  {
    var kept := EvictTail(items, room);
    assert forall i :: 0 <= i < |kept| ==> kept[i] == items[i];
  }

  lemma {:induction false} TotalAppend(a: seq<Item>, b: seq<Item>)
    ensures TotalSize(a + b) == TotalSize(a) + TotalSize(b)
  {
    if b == [] {
      assert a + b == a;
    } else {
      assert (a + b)[..|a + b| - 1] == a + b[..|b| - 1];
      TotalAppend(a, b[..|b| - 1]);
    }
  }

  lemma PrependTotal(item: Item, items: seq<Item>)
    ensures TotalSize([item] + items) == item.size + TotalSize(items)
  {
    assert [item][..0] == [];
    TotalAppend([item], items);
  }

  lemma TotalSwap(a: seq<Item>, b: seq<Item>, c: seq<Item>)
    ensures TotalSize(a + b + c) == TotalSize(b + a + c)
  {
    TotalAppend(a + b, c);
    TotalAppend(a, b);
    TotalAppend(b + a, c);
    TotalAppend(b, a);
  }

  lemma MoveToFrontTotal(items: seq<Item>, pos: nat)
    requires pos < |items|
    ensures TotalSize(MoveToFront(items, pos)) == TotalSize(items)
  {
    SplitAround(items, pos);
    TotalSwap([items[pos]], items[..pos], items[pos + 1..]);
  }

  lemma SplitAround(items: seq<Item>, pos: nat)
    requires pos < |items|
    ensures items == items[..pos] + [items[pos]] + items[pos + 1..]
  {
  }

  lemma MoveToFrontAt(items: seq<Item>, pos: nat)
    requires pos < |items|
    ensures |MoveToFront(items, pos)| == |items|
    ensures forall i :: 0 <= i < |items| ==>
      MoveToFront(items, pos)[i] == items[if i == 0 then pos else if i <= pos then i - 1 else i]
  {
  }

  lemma MoveToFrontDistinct(items: seq<Item>, pos: nat)
    requires pos < |items| && Distinct(items)
    ensures Distinct(MoveToFront(items, pos))
  {
    MoveToFrontAt(items, pos);
  }

  /** Eviction keeps the longest prefix that fits. */
  lemma {:induction false} EvictKeepsLongest(items: seq<Item>, room: nat, candidate: seq<Item>)
    requires candidate <= items && TotalSize(candidate) <= room
    ensures candidate <= EvictTail(items, room)
  {
    if items != [] && TotalSize(items) > room {
      assert |candidate| == |items| ==> candidate == items;
      EvictKeepsLongest(items[..|items| - 1], room, candidate);
    }
  }

  ghost predicate Fits(items: seq<Item>, capacity: nat, sizeOf: nat -> nat) {
    Distinct(items) && forall i :: 0 <= i < |items| ==> items[i].size == sizeOf(items[i].id) <= capacity
  }

  lemma PositionInPrefix(small: seq<Item>, large: seq<Item>, id: nat)
    requires small <= large && Distinct(large)
    ensures Position(small, id) < |small| ==> Position(large, id) == Position(small, id)
    ensures Position(small, id) == |small| ==> Position(large, id) >= |small|
  {
    var p := Position(large, id);
    if p < |small| {
      assert small[p] == large[p];
    }
    var q := Position(small, id);
    if q < |small| {
      assert large[q] == small[q];
    }
  }

  lemma AccessFits(items: seq<Item>, capacity: nat, id: nat, sizeOf: nat -> nat)
    requires Fits(items, capacity, sizeOf)
    ensures Fits(Access(items, capacity, id, sizeOf(id)), capacity, sizeOf)
  {
    var pos := Position(items, id);
    if pos < |items| {
      MovedFits(items, pos, capacity, sizeOf);
    } else if sizeOf(id) <= capacity {
      NewcomerFits(items, id, capacity, sizeOf);
    }
  }

  lemma NewcomerFits(items: seq<Item>, id: nat, capacity: nat, sizeOf: nat -> nat)
    requires Fits(items, capacity, sizeOf) && Position(items, id) == |items| && sizeOf(id) <= capacity
    ensures Fits([Item(id, sizeOf(id))] + EvictTail(items, capacity - sizeOf(id)), capacity, sizeOf)
  {
    EvictKeepsDistinct(items, capacity - sizeOf(id), Item(id, sizeOf(id)));
    ConsFits(Item(id, sizeOf(id)), EvictTail(items, capacity - sizeOf(id)), items, capacity, sizeOf);
  }

  lemma ConsFits(item: Item, kept: seq<Item>, items: seq<Item>, capacity: nat, sizeOf: nat -> nat)
    requires Fits(items, capacity, sizeOf) && kept <= items && Distinct([item] + kept)
    requires item.size == sizeOf(item.id) <= capacity
    ensures Fits([item] + kept, capacity, sizeOf)
  {
    assert forall i :: 0 <= i < |kept| ==> kept[i] == items[i];
    forall i | 0 <= i < |[item] + kept|
      ensures ([item] + kept)[i].size == sizeOf(([item] + kept)[i].id) <= capacity
    {
      assert i > 0 ==> ([item] + kept)[i] == kept[i - 1];
    }
  }

  lemma MovedFits(items: seq<Item>, pos: nat, capacity: nat, sizeOf: nat -> nat)
    requires pos < |items| && Fits(items, capacity, sizeOf)
    ensures Fits(MoveToFront(items, pos), capacity, sizeOf)
  {
    MoveToFrontDistinct(items, pos);
    MoveToFrontAt(items, pos);
  }

  lemma HitKeepsInclusion(small: seq<Item>, large: seq<Item>, capS: nat, capL: nat, id: nat, size: nat)
    requires small <= large && Position(small, id) == Position(large, id) < |small|
    ensures Access(small, capS, id, size) <= Access(large, capL, id, size)
  {
    var p := Position(small, id);
    MoveToFrontAt(small, p);
    MoveToFrontAt(large, p);
    assert forall i :: 0 <= i < |small| ==> MoveToFront(small, p)[i] == MoveToFront(large, p)[i];
  }

  /** A miss in the smaller cache: what it keeps leads the larger cache too,
      whether that one hits ... */
  lemma MissThenHit(small: seq<Item>, large: seq<Item>, capS: nat, capL: nat, id: nat, size: nat)
    requires size <= capS && small <= large && Position(small, id) == |small|
    requires |small| <= Position(large, id) < |large| && large[Position(large, id)] == Item(id, size)
    ensures Access(small, capS, id, size) <= Access(large, capL, id, size)
  {
    AccessMisses(small, capS, id, size);
    AccessHits(large, capL, id, size);
    LargeHits(small, large, capS - size, Position(large, id), Item(id, size));
  }

  /** ... or evicts. */
  lemma MissInBoth(small: seq<Item>, large: seq<Item>, capS: nat, capL: nat, id: nat, size: nat)
    requires size <= capS <= capL && small <= large
    requires Position(small, id) == |small| && Position(large, id) == |large|
    ensures Access(small, capS, id, size) <= Access(large, capL, id, size)
  {
    AccessMisses(small, capS, id, size);
    AccessMisses(large, capL, id, size);
    BothEvict(small, large, capS - size, capL - size, Item(id, size));
  }

  lemma AccessHits(items: seq<Item>, capacity: nat, id: nat, size: nat)
    requires Position(items, id) < |items|
    ensures Access(items, capacity, id, size) == MoveToFront(items, Position(items, id))
    ensures items[Position(items, id)].id == id
  {
  }

  lemma AccessMisses(items: seq<Item>, capacity: nat, id: nat, size: nat)
    requires Position(items, id) == |items| && size <= capacity
    ensures Access(items, capacity, id, size) == [Item(id, size)] + EvictTail(items, capacity - size)
  {
  }

  lemma LargeHits(small: seq<Item>, large: seq<Item>, roomS: nat, pos: nat, item: Item)
    requires small <= large && |small| <= pos < |large| && large[pos] == item
    ensures [item] + EvictTail(small, roomS) <= MoveToFront(large, pos)
  {
    LeadsMoved(EvictTail(small, roomS), large, pos);
  }

  lemma BothEvict(small: seq<Item>, large: seq<Item>, roomS: nat, roomL: nat, item: Item)
    requires small <= large && roomS <= roomL
    ensures [item] + EvictTail(small, roomS) <= [item] + EvictTail(large, roomL)
  {
    EvictKeepsLongest(large, roomL, EvictTail(small, roomS));
  }

  lemma LeadsMoved(kept: seq<Item>, items: seq<Item>, pos: nat)
    requires pos < |items| && |kept| <= pos && kept <= items
    ensures [items[pos]] + kept <= MoveToFront(items, pos)
  {
    MoveToFrontAt(items, pos);
  }

  /** The size is admitted by both budgets or by neither. */
  predicate SameVerdict(size: nat, capS: nat, capL: nat) {
    size <= capS || size > capL
  }

  /** One access keeps the smaller cache a prefix of the larger one. */
  lemma AccessKeepsInclusion(small: seq<Item>, large: seq<Item>, capS: nat, capL: nat, id: nat, sizeOf: nat -> nat)
    requires capS <= capL && SameVerdict(sizeOf(id), capS, capL) && small <= large && Fits(large, capL, sizeOf)
    ensures Access(small, capS, id, sizeOf(id)) <= Access(large, capL, id, sizeOf(id))
  {
    PositionInPrefix(small, large, id);
    var p := Position(small, id);
    if p < |small| {
      HitKeepsInclusion(small, large, capS, capL, id, sizeOf(id));
    } else if sizeOf(id) <= capS && Position(large, id) < |large| {
      MissThenHit(small, large, capS, capL, id, sizeOf(id));
    } else if sizeOf(id) <= capS {
      MissInBoth(small, large, capS, capL, id, sizeOf(id));
    } else {
      SkipKeepsInclusion(small, large, capS, capL, id, sizeOf);
    }
  }

  lemma SkipKeepsInclusion(small: seq<Item>, large: seq<Item>, capS: nat, capL: nat, id: nat, sizeOf: nat -> nat)
    requires capS <= capL < sizeOf(id) && Fits(large, capL, sizeOf) && Position(small, id) == |small|
    ensures Access(small, capS, id, sizeOf(id)) == small && Access(large, capL, id, sizeOf(id)) == large
  {
  }

  function Run(trace: seq<nat>, capacity: nat, sizeOf: nat -> nat): seq<Item> {
    if trace == [] then []
    else
      var id := trace[|trace| - 1];
      Access(Run(trace[..|trace| - 1], capacity, sizeOf), capacity, id, sizeOf(id))
  }

  function Hits(trace: seq<nat>, capacity: nat, sizeOf: nat -> nat): nat {
    if trace == [] then 0
    else
      var before := Run(trace[..|trace| - 1], capacity, sizeOf);
      Hits(trace[..|trace| - 1], capacity, sizeOf) +
        if Position(before, trace[|trace| - 1]) < |before| then 1 else 0
  }

  /** The simulator's counters after a whole trace are the specified ones. */
  method Replay(trace: seq<nat>, budget: nat, sizeOf: nat -> nat) returns (hits: nat, gets: nat)
    ensures hits == Hits(trace, budget, sizeOf) <= gets == |trace|
  {
    var simulator := new LruCache(budget);
    for i := 0 to |trace|
      invariant simulator.Valid() && simulator.capacity == budget && fresh(simulator)
      invariant simulator.cache == Run(trace[..i], budget, sizeOf)
      invariant simulator.hits == Hits(trace[..i], budget, sizeOf) <= simulator.gets == i
    {
      assert trace[..i + 1][..i] == trace[..i];
      simulator.Get(trace[i], sizeOf(trace[i]));
    }
    assert trace[..|trace|] == trace;
    return simulator.hits, simulator.gets;
  }

  /** LRU inclusion: on every trace whose items are admitted by both budgets or by
      neither, the smaller cache is a prefix of the larger one, so hits never drop. */
  lemma {:induction false} LruInclusion(trace: seq<nat>, capS: nat, capL: nat, sizeOf: nat -> nat)
    requires capS <= capL && forall i :: 0 <= i < |trace| ==> SameVerdict(sizeOf(trace[i]), capS, capL)
    ensures Run(trace, capS, sizeOf) <= Run(trace, capL, sizeOf) && Fits(Run(trace, capL, sizeOf), capL, sizeOf)
    ensures Hits(trace, capS, sizeOf) <= Hits(trace, capL, sizeOf)
  {
    if trace != [] {
      var n := |trace| - 1;
      LruInclusion(trace[..n], capS, capL, sizeOf);
      AccessFits(Run(trace[..n], capL, sizeOf), capL, trace[n], sizeOf);
      PositionInPrefix(Run(trace[..n], capS, sizeOf), Run(trace[..n], capL, sizeOf), trace[n]);
      AccessKeepsInclusion(Run(trace[..n], capS, sizeOf), Run(trace[..n], capL, sizeOf), capS, capL, trace[n], sizeOf);
    }
  }

  ghost predicate Included(capS: nat, capL: nat, sizeOf: nat -> nat) {
    forall trace :: Run(trace, capS, sizeOf) <= Run(trace, capL, sizeOf)
  }

  /** Only the larger budget admits x, and both admit y. */
  predicate Clash(x: nat, y: nat, capS: nat, capL: nat, sizeOf: nat -> nat) {
    capS < sizeOf(x) <= capL && sizeOf(y) <= capS
  }

  /** Items that are all too large leave the cache empty. */
  lemma {:induction false} NothingAdmitted(trace: seq<nat>, capacity: nat, sizeOf: nat -> nat)
    requires forall id: nat :: sizeOf(id) > capacity
    ensures Run(trace, capacity, sizeOf) == []
  {
    if trace != [] {
      NothingAdmitted(trace[..|trace| - 1], capacity, sizeOf);
    }
  }

  lemma ClashBreaksInclusion(x: nat, y: nat, capS: nat, capL: nat, sizeOf: nat -> nat)
    requires Clash(x, y, capS, capL, sizeOf)
    ensures !(Run([y, x], capS, sizeOf) <= Run([y, x], capL, sizeOf))
  {
    var item := Item(y, sizeOf(y));
    assert [y, x][..1] == [y] && [y][..0] == [];
    assert EvictTail([], capS - sizeOf(y)) == [] && EvictTail([], capL - sizeOf(y)) == [];
    assert Run([y], capS, sizeOf) == [item] && Run([y], capL, sizeOf) == [item];
    assert Position([item], x) == 1;
    assert Run([y, x], capS, sizeOf) == [item];
    assert Run([y, x], capL, sizeOf)[0].id == x;
  }

  /** Exactly when inclusion holds on all traces: unless some item is admitted by the
      larger budget alone while another is admitted by both. */
  lemma InclusionExactly(capS: nat, capL: nat, sizeOf: nat -> nat)
    requires capS <= capL
    ensures Included(capS, capL, sizeOf) <==> forall x: nat, y: nat :: !Clash(x, y, capS, capL, sizeOf)
  {
    if x: nat, y: nat :| Clash(x, y, capS, capL, sizeOf) {
      ClashBreaksInclusion(x, y, capS, capL, sizeOf);
    } else {
      forall trace ensures Run(trace, capS, sizeOf) <= Run(trace, capL, sizeOf) {
        if x: nat :| capS < sizeOf(x) <= capL {
          forall y: nat ensures sizeOf(y) > capS {
            assert !Clash(x, y, capS, capL, sizeOf);
          }
          NothingAdmitted(trace, capS, sizeOf);
        } else {
          LruInclusion(trace, capS, capL, sizeOf);
        }
      }
    }
  }

  /** Hits may then drop: an item that only the larger budget admits can push out an
      item that the smaller cache keeps. */
  lemma OversizedItemCostsHits()
    ensures var sizeOf: nat -> nat := id => id; var trace := [1, 2, 1];
      Hits(trace, 1, sizeOf) == 1 && Hits(trace, 2, sizeOf) == 0
  {
    var sizeOf: nat -> nat := id => id;
    var trace := [1, 2, 1];
    assert trace[..2] == [1, 2] && [1, 2][..1] == [1] && [1][..0] == [];
    var one, two := Item(1, 1), Item(2, 2);
    assert [one][..0] == [] && [two][..0] == [];
    assert TotalSize([one]) == 1 && TotalSize([two]) == 2;
    assert Access([], 1, 1, 1) == [one] && Access([], 2, 1, 1) == [one];
    assert Run([1], 1, sizeOf) == [one] && Run([1], 2, sizeOf) == [one];
    assert Position([one], 2) == 1;
    assert Run([1, 2], 1, sizeOf) == [one];
    assert EvictTail([one], 0) == EvictTail([], 0) == [];
    assert Run([1, 2], 2, sizeOf) == [two];
    assert Position([two], 1) == 1;
    assert Position([one], 1) == 0;
  }
}
