/** Exactly when a larger LRU budget never loses a hit: unless items that both budgets
    admit can be crowded out by items that only the larger one admits. */
module LruHits {
  import opened Common
  import opened LruSimulator

  // ----- what both budgets admit -----

  /** The items that the smaller budget admits too. */
  function Small(items: seq<Item>, capS: nat): seq<Item> {
    if items == [] then []
    else
      var n := |items| - 1;
      if items[n].size <= capS then Small(items[..n], capS) + [items[n]] else Small(items[..n], capS)
  }

  /** The items that only the larger budget admits. */
  function Big(items: seq<Item>, capS: nat): seq<Item> {
    if items == [] then []
    else
      var n := |items| - 1;
      if items[n].size <= capS then Big(items[..n], capS) else Big(items[..n], capS) + [items[n]]
  }

  ghost predicate Sized(items: seq<Item>, sizeOf: nat -> nat) {
    forall i :: 0 <= i < |items| ==> items[i].size == sizeOf(items[i].id)
  }

  /** Some items within the smaller budget exceed the larger one together with items
      that only the larger one admits. */
  ghost predicate Crowd(a: seq<Item>, x: seq<Item>, capS: nat, capL: nat, sizeOf: nat -> nat) {
    && a != [] && Distinct(a) && Distinct(x) && Sized(a, sizeOf) && Sized(x, sizeOf)
    && TotalSize(a) <= capS && (forall i :: 0 <= i < |x| ==> capS < x[i].size <= capL)
    && TotalSize(a) + TotalSize(x) > capL
  }

  ghost predicate Crowded(capS: nat, capL: nat, sizeOf: nat -> nat) {
    exists a, x :: Crowd(a, x, capS, capL, sizeOf)
  }

  lemma {:induction false} SmallAppend(a: seq<Item>, b: seq<Item>, capS: nat)
    ensures Small(a + b, capS) == Small(a, capS) + Small(b, capS)
  {
    if b == [] {
      assert a + b == a;
    } else {
      assert (a + b)[..|a + b| - 1] == a + b[..|b| - 1];
      SmallAppend(a, b[..|b| - 1], capS);
      Associate(Small(a, capS), Small(b[..|b| - 1], capS), [b[|b| - 1]]);
    }
  }

  lemma SmallPrefix(a: seq<Item>, b: seq<Item>, capS: nat)
    requires a <= b
    ensures Small(a, capS) <= Small(b, capS)
  {
    assert b == a + b[|a|..];
    SmallAppend(a, b[|a|..], capS);
  }

  lemma OneTotal(item: Item)
    ensures TotalSize([item]) == item.size
  {
    assert [item][..0] == [];
  }

  lemma {:induction false} SmallBigTotal(items: seq<Item>, capS: nat)
    ensures TotalSize(items) == TotalSize(Small(items, capS)) + TotalSize(Big(items, capS))
  {
    if items != [] {
      var n := |items| - 1;
      SmallBigTotal(items[..n], capS);
      OneTotal(items[n]);
      TotalAppend(Small(items[..n], capS), [items[n]]);
      TotalAppend(Big(items[..n], capS), [items[n]]);
    }
  }

  lemma {:induction false} BigMembers(items: seq<Item>, capS: nat)
    ensures forall e :: e in Big(items, capS) ==> e in items && e.size > capS
    ensures forall e :: e in Small(items, capS) ==> e in items && e.size <= capS
  {
    if items != [] {
      var n := |items| - 1;
      BigMembers(items[..n], capS);
      assert items == items[..n] + [items[n]];
    }
  }

  lemma {:induction false} BigDistinct(items: seq<Item>, capS: nat)
    requires Distinct(items)
    ensures Distinct(Big(items, capS)) && Distinct(Small(items, capS))
  {
    if items != [] {
      var n := |items| - 1;
      var before := items[..n];
      BigDistinct(before, capS);
      BigMembers(before, capS);
      assert forall e :: e in before ==> e.id != items[n].id;
      DistinctPush(Big(before, capS), before, items[n]);
      DistinctPush(Small(before, capS), before, items[n]);
    }
  }

  lemma DistinctPush(some: seq<Item>, items: seq<Item>, item: Item)
    requires Distinct(some) && (forall e :: e in some ==> e in items) && forall e :: e in items ==> e.id != item.id
    ensures Distinct(some + [item])
  {
    assert forall i :: 0 <= i < |some| ==> some[i] in some;
  }

  /** The shortest way into the list that passes the given small items. */
  lemma {:induction false} Reach(items: seq<Item>, lead: seq<Item>, capS: nat) returns (p: nat)
    requires lead <= Small(items, capS)
    ensures p <= |items| && Small(items[..p], capS) == lead
  {
    if lead == Small(items, capS) {
      p := |items|;
      assert items[..p] == items;
    } else {
      var n := |items| - 1;
      assert lead <= Small(items[..n], capS);
      p := Reach(items[..n], lead, capS);
      assert items[..n][..p] == items[..p];
    }
  }

  // ----- one access -----

  /** The smaller cache leads the small items of the larger one. */
  ghost predicate Led(small: seq<Item>, large: seq<Item>, capS: nat, capL: nat, sizeOf: nat -> nat) {
    small <= Small(large, capS) && TotalSize(small) <= capS && Fits(large, capL, sizeOf)
  }

  /** Without crowds, making room for an item of the larger cache spares the leading
      small items. */
  lemma RoomForLead(large: seq<Item>, lead: seq<Item>, item: Item, capS: nat, capL: nat, sizeOf: nat -> nat)
    requires !Crowded(capS, capL, sizeOf) && capS <= capL && Fits(large, capL, sizeOf) && lead <= Small(large, capS)
    requires Position(large, item.id) == |large| && item.size == sizeOf(item.id) <= capL
    requires if item.size <= capS then TotalSize(lead) + item.size <= capS else TotalSize(lead) <= capS
    ensures lead <= Small(EvictTail(large, capL - item.size), capS)
  {
    var p := Reach(large, lead, capS);
    var way := large[..p];
    SmallBigTotal(way, capS);
    if lead != [] && TotalSize(way) + item.size > capL {
      WayIsCrowd(way, item, capS, capL, sizeOf);
      assert false;
    }
    if lead != [] {
      EvictKeepsLongest(large, capL - item.size, way);
      SmallPrefix(way, EvictTail(large, capL - item.size), capS);
    }
  }

  /** A way that does not fit beside the item shows a crowd. */
  lemma WayIsCrowd(way: seq<Item>, item: Item, capS: nat, capL: nat, sizeOf: nat -> nat)
    requires Fits(way, capL, sizeOf) && capS <= capL && item.size == sizeOf(item.id) <= capL
    requires forall e :: e in way ==> e.id != item.id
    requires Small(way, capS) != [] && TotalSize(way) + item.size > capL
    requires if item.size <= capS then TotalSize(Small(way, capS)) + item.size <= capS else TotalSize(Small(way, capS)) <= capS
    ensures Crowded(capS, capL, sizeOf)
  {
    var a, x := Small(way, capS), Big(way, capS);
    SmallBigTotal(way, capS);
    BigMembers(way, capS);
    BigDistinct(way, capS);
    SizedMembers(a, way, capL, sizeOf);
    SizedMembers(x, way, capL, sizeOf);
    BigSizes(way, capS, capL, sizeOf);
    if item.size <= capS {
      DistinctPush(a, way, item);
      SmallJoins(a, x, item, capS, capL, sizeOf);
    } else {
      DistinctPush(x, way, item);
      BigJoins(a, x, item, capS, capL, sizeOf);
    }
  }

  lemma SmallJoins(a: seq<Item>, x: seq<Item>, item: Item, capS: nat, capL: nat, sizeOf: nat -> nat)
    requires Distinct(a + [item]) && Distinct(x) && Sized(a, sizeOf) && Sized(x, sizeOf) && item.size == sizeOf(item.id)
    requires forall i :: 0 <= i < |x| ==> capS < x[i].size <= capL
    requires TotalSize(a) + item.size <= capS && TotalSize(a) + TotalSize(x) + item.size > capL
    ensures Crowded(capS, capL, sizeOf)
  {
    OneTotal(item);
    TotalAppend(a, [item]);
    assert Crowd(a + [item], x, capS, capL, sizeOf);
  }

  lemma BigJoins(a: seq<Item>, x: seq<Item>, item: Item, capS: nat, capL: nat, sizeOf: nat -> nat)
    requires a != [] && Distinct(a) && Distinct(x + [item]) && Sized(a, sizeOf) && Sized(x, sizeOf)
    requires capS < item.size == sizeOf(item.id) <= capL && forall i :: 0 <= i < |x| ==> capS < x[i].size <= capL
    requires TotalSize(a) <= capS && TotalSize(a) + TotalSize(x) + item.size > capL
    ensures Crowded(capS, capL, sizeOf)
  {
    OneTotal(item);
    TotalAppend(x, [item]);
    assert Crowd(a, x + [item], capS, capL, sizeOf);
  }

  lemma BigSizes(way: seq<Item>, capS: nat, capL: nat, sizeOf: nat -> nat)
    requires Fits(way, capL, sizeOf)
    ensures forall i :: 0 <= i < |Big(way, capS)| ==> capS < Big(way, capS)[i].size <= capL
  {
    var x := Big(way, capS);
    BigMembers(way, capS);
    forall i | 0 <= i < |x| ensures capS < x[i].size <= capL {
      assert x[i] in x && x[i] in way;
    }
  }

  lemma SizedMembers(some: seq<Item>, items: seq<Item>, capacity: nat, sizeOf: nat -> nat)
    requires Fits(items, capacity, sizeOf) && forall e :: e in some ==> e in items
    ensures Sized(some, sizeOf)
  {
    forall i | 0 <= i < |some| ensures some[i].size == sizeOf(some[i].id) {
      assert some[i] in some && some[i] in items;
    }
  }

  /** Every item of the smaller cache is a small item of the larger one. */
  lemma LeadMembers(small: seq<Item>, large: seq<Item>, capS: nat, capL: nat, sizeOf: nat -> nat)
    requires Led(small, large, capS, capL, sizeOf)
    ensures Distinct(small)
    ensures forall e :: e in small ==> e in large && e.size == sizeOf(e.id) <= capS
  {
    BigMembers(large, capS);
    BigDistinct(large, capS);
    forall e | e in small ensures e in large && e.size == sizeOf(e.id) <= capS {
      var i :| 0 <= i < |small| && small[i] == e;
      assert Small(large, capS)[i] == e && e in Small(large, capS);
      var j :| 0 <= j < |large| && large[j] == e;
    }
  }

  /** A hit in the smaller cache is a hit in the larger one. */
  lemma HitInBoth(small: seq<Item>, large: seq<Item>, capS: nat, capL: nat, sizeOf: nat -> nat, id: nat)
    requires Led(small, large, capS, capL, sizeOf)
    ensures Position(small, id) < |small| ==> Position(large, id) < |large| && sizeOf(id) <= capS
  {
    LeadMembers(small, large, capS, capL, sizeOf);
    var p := Position(small, id);
    if p < |small| {
      assert small[p] in small && small[p] in large;
    }
  }

  lemma AccessTotal(items: seq<Item>, capacity: nat, id: nat, size: nat)
    requires TotalSize(items) <= capacity
    ensures TotalSize(Access(items, capacity, id, size)) <= capacity
  {
    var pos := Position(items, id);
    if pos < |items| {
      AccessHits(items, capacity, id, size);
      MoveToFrontTotal(items, pos);
    } else if size <= capacity {
      AccessMisses(items, capacity, id, size);
      PrependTotal(Item(id, size), EvictTail(items, capacity - size));
    }
  }

  lemma SmallSplit(items: seq<Item>, pos: nat, capS: nat)
    requires pos < |items|
    ensures Small(items, capS) == Small(items[..pos], capS) + Small([items[pos]], capS) + Small(items[pos + 1..], capS)
    ensures Small(MoveToFront(items, pos), capS) == Small([items[pos]], capS) + Small(items[..pos], capS) + Small(items[pos + 1..], capS)
  {
    var before, item, after := items[..pos], [items[pos]], items[pos + 1..];
    SplitAround(items, pos);
    SmallAppend(before + item, after, capS);
    SmallAppend(before, item, capS);
    SmallAppend(item + before, after, capS);
    SmallAppend(item, before, capS);
  }

  lemma SmallOne(item: Item, capS: nat)
    ensures Small([item], capS) == if item.size <= capS then [item] else []
  {
    assert [item][..0] == [];
  }

  /** An item that only the larger budget admits does not disturb the lead. */
  lemma BigAccess(small: seq<Item>, large: seq<Item>, capS: nat, capL: nat, sizeOf: nat -> nat, id: nat)
    requires Led(small, large, capS, capL, sizeOf) && !Crowded(capS, capL, sizeOf) && capS < sizeOf(id) <= capL
    ensures small <= Small(Access(large, capL, id, sizeOf(id)), capS)
  {
    var size, pos := sizeOf(id), Position(large, id);
    if pos < |large| {
      AccessHits(large, capL, id, size);
      SmallSplit(large, pos, capS);
      SmallOne(large[pos], capS);
      BigMoved(small, Small(large[..pos], capS), Small(large[pos + 1..], capS));
    } else {
      AccessMisses(large, capL, id, size);
      RoomForLead(large, small, Item(id, size), capS, capL, sizeOf);
      SmallAppend([Item(id, size)], EvictTail(large, capL - size), capS);
      SmallOne(Item(id, size), capS);
      assert [] + Small(EvictTail(large, capL - size), capS) == Small(EvictTail(large, capL - size), capS);
    }
  }

  lemma BigMoved(lead: seq<Item>, before: seq<Item>, after: seq<Item>)
    requires lead <= before + [] + after
    ensures lead <= [] + before + after
  {
    assert before + [] + after == [] + before + after;
  }

  /** A small item found in the larger cache moves to the front of both. */
  lemma SmallMoved(small: seq<Item>, item: Item, before: seq<Item>, after: seq<Item>)
    requires small <= before + [item] + after && Distinct(before + [item] + after)
    ensures Position(small, item.id) < |small| ==> MoveToFront(small, Position(small, item.id)) <= [item] + before + after
    ensures Position(small, item.id) == |small| ==> small <= before
  {
    var all, pos := before + [item] + after, Position(small, item.id);
    assert all[|before|] == item;
    assert forall i :: 0 <= i < |small| ==> small[i] == all[i];
    if pos < |small| {
      assert pos == |before|;
      MoveToFrontAt(small, pos);
      var moved := MoveToFront(small, pos);
      assert forall i :: 0 <= i < |moved| ==> moved[i] == ([item] + before + after)[i];
    } else {
      assert |small| <= |before|;
    }
  }

  /** An item that both budgets admit. */
  lemma SmallAccess(small: seq<Item>, large: seq<Item>, capS: nat, capL: nat, sizeOf: nat -> nat, id: nat)
    requires Led(small, large, capS, capL, sizeOf) && !Crowded(capS, capL, sizeOf) && sizeOf(id) <= capS <= capL
    ensures Access(small, capS, id, sizeOf(id)) <= Small(Access(large, capL, id, sizeOf(id)), capS)
  {
    if Position(large, id) < |large| {
      SmallHitsLarge(small, large, capS, capL, sizeOf, id);
    } else {
      SmallMissesLarge(small, large, capS, capL, sizeOf, id);
    }
  }

  lemma SmallHitsLarge(small: seq<Item>, large: seq<Item>, capS: nat, capL: nat, sizeOf: nat -> nat, id: nat)
    requires Led(small, large, capS, capL, sizeOf) && sizeOf(id) <= capS <= capL && Position(large, id) < |large|
    ensures Access(small, capS, id, sizeOf(id)) <= Small(Access(large, capL, id, sizeOf(id)), capS)
  {
    var size, pos := sizeOf(id), Position(large, id);
    var before, item, after := Small(large[..pos], capS), large[pos], Small(large[pos + 1..], capS);
    AccessHits(large, capL, id, size);
    SmallSplit(large, pos, capS);
    SmallOne(item, capS);
    BigDistinct(large, capS);
    SmallMoved(small, item, before, after);
    if Position(small, id) < |small| {
      AccessHits(small, capS, id, size);
    } else {
      AccessMisses(small, capS, id, size);
      LeadInFront(item, EvictTail(small, capS - size), before, after);
    }
  }

  lemma LeadInFront(item: Item, kept: seq<Item>, before: seq<Item>, after: seq<Item>)
    requires kept <= before
    ensures [item] + kept <= [item] + before + after
  {
  }

  lemma SmallMissesLarge(small: seq<Item>, large: seq<Item>, capS: nat, capL: nat, sizeOf: nat -> nat, id: nat)
    requires Led(small, large, capS, capL, sizeOf) && !Crowded(capS, capL, sizeOf)
    requires sizeOf(id) <= capS <= capL && Position(large, id) == |large|
    ensures Access(small, capS, id, sizeOf(id)) <= Small(Access(large, capL, id, sizeOf(id)), capS)
  {
    var size, item := sizeOf(id), Item(id, sizeOf(id));
    HitInBoth(small, large, capS, capL, sizeOf, id);
    AccessMisses(small, capS, id, size);
    AccessMisses(large, capL, id, size);
    var kept, keptL := EvictTail(small, capS - size), EvictTail(large, capL - size);
    RoomForLead(large, kept, item, capS, capL, sizeOf);
    NewcomerLeads(item, kept, keptL, capS);
  }

  lemma NewcomerLeads(item: Item, kept: seq<Item>, keptL: seq<Item>, capS: nat)
    requires item.size <= capS && kept <= Small(keptL, capS)
    ensures [item] + kept <= Small([item] + keptL, capS)
  {
    SmallAppend([item], keptL, capS);
    SmallOne(item, capS);
  }

  lemma AccessKeepsLed(small: seq<Item>, large: seq<Item>, capS: nat, capL: nat, sizeOf: nat -> nat, id: nat)
    requires Led(small, large, capS, capL, sizeOf) && !Crowded(capS, capL, sizeOf) && capS <= capL
    ensures Led(Access(small, capS, id, sizeOf(id)), Access(large, capL, id, sizeOf(id)), capS, capL, sizeOf)
  {
    AccessFits(large, capL, id, sizeOf);
    AccessTotal(small, capS, id, sizeOf(id));
    HitInBoth(small, large, capS, capL, sizeOf, id);
    if sizeOf(id) <= capS {
      SmallAccess(small, large, capS, capL, sizeOf, id);
    } else if sizeOf(id) <= capL {
      BigAccess(small, large, capS, capL, sizeOf, id);
    } else {
      SkipKeepsInclusion(small, large, capS, capL, id, sizeOf);
    }
  }

  /** Without crowds hits never drop as the budget grows. */
  lemma {:induction false} NoCrowdKeepsHits(trace: seq<nat>, capS: nat, capL: nat, sizeOf: nat -> nat)
    requires capS <= capL && !Crowded(capS, capL, sizeOf)
    ensures Led(Run(trace, capS, sizeOf), Run(trace, capL, sizeOf), capS, capL, sizeOf)
    ensures Hits(trace, capS, sizeOf) <= Hits(trace, capL, sizeOf)
  {
    if trace != [] {
      var n := |trace| - 1;
      NoCrowdKeepsHits(trace[..n], capS, capL, sizeOf);
      HitInBoth(Run(trace[..n], capS, sizeOf), Run(trace[..n], capL, sizeOf), capS, capL, sizeOf, trace[n]);
      AccessKeepsLed(Run(trace[..n], capS, sizeOf), Run(trace[..n], capL, sizeOf), capS, capL, sizeOf, trace[n]);
    }
  }

  // ----- a crowd costs a hit -----

  function Ids(items: seq<Item>): (ids: seq<nat>)
    ensures |ids| == |items| && forall i :: 0 <= i < |items| ==> ids[i] == items[i].id
  {
    seq(|items|, i requires 0 <= i < |items| => items[i].id)
  }

  /** The most recent item first. */
  function Reversed(items: seq<Item>): (r: seq<Item>)
    ensures |r| == |items| && forall i :: 0 <= i < |items| ==> r[i] == items[|items| - 1 - i]
  {
    if items == [] then [] else [items[|items| - 1]] + Reversed(items[..|items| - 1])
  }

  lemma {:induction false} ReversedTotal(items: seq<Item>)
    ensures TotalSize(Reversed(items)) == TotalSize(items)
  {
    if items != [] {
      var n := |items| - 1;
      ReversedTotal(items[..n]);
      PrependTotal(items[n], Reversed(items[..n]));
    }
  }

  lemma {:induction false} RunFits(trace: seq<nat>, capacity: nat, sizeOf: nat -> nat)
    ensures Fits(Run(trace, capacity, sizeOf), capacity, sizeOf) && TotalSize(Run(trace, capacity, sizeOf)) <= capacity
  {
    if trace != [] {
      var n := |trace| - 1;
      RunFits(trace[..n], capacity, sizeOf);
      AccessFits(Run(trace[..n], capacity, sizeOf), capacity, trace[n], sizeOf);
      AccessTotal(Run(trace[..n], capacity, sizeOf), capacity, trace[n], sizeOf(trace[n]));
    }
  }

  /** Items that come for the first time: none hits, and the cache holds the latest. */
  lemma {:induction false} FreshRun(items: seq<Item>, capacity: nat, sizeOf: nat -> nat)
    requires Distinct(items) && Sized(items, sizeOf) && forall i :: 0 <= i < |items| ==> items[i].size <= capacity
    ensures Run(Ids(items), capacity, sizeOf) <= Reversed(items) && Hits(Ids(items), capacity, sizeOf) == 0
    ensures TotalSize(items) <= capacity ==> Run(Ids(items), capacity, sizeOf) == Reversed(items)
  {
    if items != [] {
      var n := |items| - 1;
      var init, last := items[..n], items[n];
      FreshRun(init, capacity, sizeOf);
      assert Ids(items)[..n] == Ids(init) && last == Item(last.id, sizeOf(last.id));
      FreshIsAbsent(items, Run(Ids(init), capacity, sizeOf));
      FreshStep(init, last, Run(Ids(init), capacity, sizeOf), capacity);
    }
  }

  lemma FreshStep(init: seq<Item>, last: Item, before: seq<Item>, capacity: nat)
    requires before <= Reversed(init) && Position(before, last.id) == |before| && last.size <= capacity
    ensures Access(before, capacity, last.id, last.size) <= [last] + Reversed(init)
    ensures before == Reversed(init) && TotalSize(init) + last.size <= capacity ==>
      Access(before, capacity, last.id, last.size) == [last] + Reversed(init)
  {
    AccessMisses(before, capacity, last.id, last.size);
    ReversedTotal(init);
  }

  lemma FreshIsAbsent(items: seq<Item>, before: seq<Item>)
    requires items != [] && Distinct(items) && before <= Reversed(items[..|items| - 1])
    ensures Position(before, items[|items| - 1].id) == |before|
  {
    var init := items[..|items| - 1];
    assert forall i :: 0 <= i < |before| ==> before[i] == Reversed(init)[i] == items[|init| - 1 - i];
  }

  /** Items that the budget does not admit change nothing. */
  lemma {:induction false} SkipRun(trace: seq<nat>, x: seq<Item>, capS: nat, sizeOf: nat -> nat)
    requires Sized(x, sizeOf) && forall i :: 0 <= i < |x| ==> x[i].size > capS
    ensures Run(trace + Ids(x), capS, sizeOf) == Run(trace, capS, sizeOf)
    ensures Hits(trace + Ids(x), capS, sizeOf) == Hits(trace, capS, sizeOf)
  {
    if x == [] {
      assert trace + Ids(x) == trace;
    } else {
      var n := |x| - 1;
      SkipRun(trace, x[..n], capS, sizeOf);
      TraceStep(trace, x);
      RunFits(trace, capS, sizeOf);
      assert Position(Run(trace, capS, sizeOf), x[n].id) == |Run(trace, capS, sizeOf)|;
    }
  }

  lemma TraceStep(trace: seq<nat>, items: seq<Item>)
    requires items != []
    ensures var all, n := trace + Ids(items), |items| - 1;
      all[|all| - 1] == items[n].id && all[..|all| - 1] == trace + Ids(items[..n])
  {
  }

  /** Cached items hit, one after the other, and stay cached. */
  lemma {:induction false} HitRun(trace: seq<nat>, a: seq<Item>, capacity: nat, sizeOf: nat -> nat)
    requires forall e :: e in a ==> e in Run(trace, capacity, sizeOf)
    ensures forall e :: e in Run(trace, capacity, sizeOf) ==> e in Run(trace + Ids(a), capacity, sizeOf)
    ensures Hits(trace + Ids(a), capacity, sizeOf) == Hits(trace, capacity, sizeOf) + |a|
  {
    if a == [] {
      assert trace + Ids(a) == trace;
    } else {
      var n := |a| - 1;
      assert a == a[..n] + [a[n]];
      HitRun(trace, a[..n], capacity, sizeOf);
      TraceStep(trace, a);
      var now := Run(trace + Ids(a[..n]), capacity, sizeOf);
      assert a[n] in now;
      var i :| 0 <= i < |now| && now[i] == a[n];
      AccessHits(now, capacity, a[n].id, sizeOf(a[n].id));
      MovedMembers(now, Position(now, a[n].id));
    }
  }

  lemma MovedMembers(items: seq<Item>, pos: nat)
    requires pos < |items|
    ensures forall e :: e in items ==> e in MoveToFront(items, pos)
  {
    SplitAround(items, pos);
  }

  lemma {:induction false} HitsAtMost(trace: seq<nat>, more: seq<nat>, capacity: nat, sizeOf: nat -> nat)
    ensures Hits(trace + more, capacity, sizeOf) <= Hits(trace, capacity, sizeOf) + |more|
  {
    if more == [] {
      assert trace + more == trace;
    } else {
      var n := |more| - 1;
      HitsAtMost(trace, more[..n], capacity, sizeOf);
      assert (trace + more)[..|trace + more| - 1] == trace + more[..n];
    }
  }

  /** In the smaller cache every item of the crowd is hit the second time. */
  lemma SmallHitsAll(a: seq<Item>, x: seq<Item>, capS: nat, capL: nat, sizeOf: nat -> nat)
    requires Crowd(a, x, capS, capL, sizeOf)
    ensures Hits(Ids(a) + Ids(x) + Ids(a), capS, sizeOf) == |a|
  {
    EachAtMostTotal(a);
    FreshRun(a, capS, sizeOf);
    SkipRun(Ids(a), x, capS, sizeOf);
    forall e | e in a ensures e in Run(Ids(a) + Ids(x), capS, sizeOf) {
      var i :| 0 <= i < |a| && a[i] == e;
      assert Reversed(a)[|a| - 1 - i] == e;
    }
    HitRun(Ids(a) + Ids(x), a, capS, sizeOf);
  }

  lemma {:induction false} EachAtMostTotal(items: seq<Item>)
    ensures forall i :: 0 <= i < |items| ==> items[i].size <= TotalSize(items)
  {
    if items != [] {
      EachAtMostTotal(items[..|items| - 1]);
    }
  }

  /** The larger cache has lost the first of the crowd by then. */
  lemma LargeLosesFirst(a: seq<Item>, x: seq<Item>, capS: nat, capL: nat, sizeOf: nat -> nat)
    requires Crowd(a, x, capS, capL, sizeOf) && capS <= capL
    ensures Hits(Ids(a) + Ids(x), capL, sizeOf) == 0
    ensures Position(Run(Ids(a) + Ids(x), capL, sizeOf), a[0].id) == |Run(Ids(a) + Ids(x), capL, sizeOf)|
  {
    var all := a + x;
    CrowdDistinct(a, x, capS, capL, sizeOf);
    assert Ids(all) == Ids(a) + Ids(x);
    FreshRun(all, capL, sizeOf);
    RunFits(Ids(all), capL, sizeOf);
    TotalAppend(a, x);
    FirstIsLost(all, Run(Ids(all), capL, sizeOf));
  }

  /** A cache that cannot hold all of the items does not hold the first. */
  lemma FirstIsLost(items: seq<Item>, cached: seq<Item>)
    requires items != [] && Distinct(items) && cached <= Reversed(items) && TotalSize(cached) < TotalSize(items)
    ensures Position(cached, items[0].id) == |cached|
  {
    ReversedTotal(items);
    PrefixOrAll(cached, Reversed(items));
    LastIsCut(items, Reversed(items), cached);
  }

  lemma LastIsCut(items: seq<Item>, reversed: seq<Item>, cached: seq<Item>)
    requires Distinct(items) && cached <= reversed && |cached| < |items| == |reversed|
    requires forall i :: 0 <= i < |items| ==> reversed[i] == items[|items| - 1 - i]
    ensures Position(cached, items[0].id) == |cached|
  {
    var n := |items| - 1;
    forall i | 0 <= i < |cached| ensures cached[i].id != items[0].id {
      assert cached[i] == reversed[i] && reversed[i] == items[n - i];
    }
  }

  lemma PrefixOrAll(a: seq<Item>, b: seq<Item>)
    requires a <= b && TotalSize(a) < TotalSize(b)
    ensures |a| < |b|
  {
    assert |a| == |b| ==> a == b;
  }

  lemma CrowdDistinct(a: seq<Item>, x: seq<Item>, capS: nat, capL: nat, sizeOf: nat -> nat)
    requires Crowd(a, x, capS, capL, sizeOf) && capS <= capL
    ensures Distinct(a + x) && Sized(a + x, sizeOf)
    ensures forall i :: 0 <= i < |a + x| ==> (a + x)[i].size <= capL
  {
    EachAtMostTotal(a);
    forall i, j | 0 <= i < j < |a + x| ensures (a + x)[i].id != (a + x)[j].id {
      if i < |a| <= j {
        assert a[i].size <= capS < x[j - |a|].size;
      }
    }
  }

  /** On the crowd, the large items and the crowd again the larger budget hits less. */
  lemma CrowdCostsHits(a: seq<Item>, x: seq<Item>, capS: nat, capL: nat, sizeOf: nat -> nat)
    requires Crowd(a, x, capS, capL, sizeOf) && capS <= capL
    ensures var trace := Ids(a) + Ids(x) + Ids(a); Hits(trace, capL, sizeOf) < Hits(trace, capS, sizeOf)
  {
    var start := Ids(a) + Ids(x);
    SmallHitsAll(a, x, capS, capL, sizeOf);
    LargeLosesFirst(a, x, capS, capL, sizeOf);
    MissedOnce(start, a, capL, sizeOf);
  }

  /** A run of accesses whose first one misses. */
  lemma MissedOnce(start: seq<nat>, a: seq<Item>, capacity: nat, sizeOf: nat -> nat)
    requires a != [] && Position(Run(start, capacity, sizeOf), a[0].id) == |Run(start, capacity, sizeOf)|
    ensures Hits(start + Ids(a), capacity, sizeOf) < Hits(start, capacity, sizeOf) + |a|
  {
    HitsStep(start, a[0].id, capacity, sizeOf);
    HitsAtMost(start + [a[0].id], Ids(a)[1..], capacity, sizeOf);
    FirstApart(start, Ids(a));
  }

  lemma HitsStep(trace: seq<nat>, id: nat, capacity: nat, sizeOf: nat -> nat)
    ensures var before := Run(trace, capacity, sizeOf);
      Hits(trace + [id], capacity, sizeOf) == Hits(trace, capacity, sizeOf) + if Position(before, id) < |before| then 1 else 0
  {
    assert (trace + [id])[..|trace|] == trace;
  }

  lemma FirstApart(a: seq<nat>, b: seq<nat>)
    requires b != []
    ensures a + b == (a + [b[0]]) + b[1..]
  {
  }

  /** A larger budget never hits less. */
  ghost predicate HitsGrow(capS: nat, capL: nat, sizeOf: nat -> nat) {
    forall trace :: Hits(trace, capS, sizeOf) <= Hits(trace, capL, sizeOf)
  }

  /** Exactly when hits never drop as the budget grows. */
  lemma HitsGrowExactly(capS: nat, capL: nat, sizeOf: nat -> nat)
    requires capS <= capL
    ensures HitsGrow(capS, capL, sizeOf) <==> !Crowded(capS, capL, sizeOf)
  {
    if Crowded(capS, capL, sizeOf) {
      var a, x :| Crowd(a, x, capS, capL, sizeOf);
      CrowdCostsHits(a, x, capS, capL, sizeOf);
    } else {
      forall trace ensures Hits(trace, capS, sizeOf) <= Hits(trace, capL, sizeOf) {
        NoCrowdKeepsHits(trace, capS, capL, sizeOf);
      }
    }
  }
}
