/** The CLOCK replacement simulator: a vector with a moving hand. Read from the
    hand around, it is a plain second-chance queue. */
module ClockSimulator {
  import opened Common

  datatype Entry = Entry(id: nat, size: nat, refBit: bool)

  function Total(q: seq<Entry>): nat {
    if q == [] then 0 else q[0].size + Total(q[1..])
  }

  function SetBits(q: seq<Entry>): nat {
    if q == [] then 0 else (if q[0].refBit then 1 else 0) + SetBits(q[1..])
  }

  lemma {:induction false} Append(a: seq<Entry>, b: seq<Entry>)
    ensures Total(a + b) == Total(a) + Total(b) && SetBits(a + b) == SetBits(a) + SetBits(b)
  {
    if a == [] {
      assert a + b == b;
    } else {
      assert (a + b)[1..] == a[1..] + b;
      Append(a[1..], b);
    }
  }

  function Cleared(e: Entry): Entry { e.(refBit := false) }

  /** One turn of the hand: a marked head gets its second chance at the back, an
      unmarked head is evicted. */
  function Turn(q: seq<Entry>): (q': seq<Entry>)
    requires q != []
    ensures |q'| + SetBits(q') < |q| + SetBits(q)
  {
    if q[0].refBit then
      Append(q[1..], [Cleared(q[0])]);
      q[1..] + [Cleared(q[0])]
    else q[1..]
  }

  /** Turns the hand until the rest fits. */
  function Evict(q: seq<Entry>, room: nat): (r: seq<Entry>)
    ensures Total(r) <= room
    decreases |q| + SetBits(q)
  {
    if q == [] || Total(q) <= room then q else Evict(Turn(q), room)
  }

  /** Index of the entry with that id, or the length. */
  function Find(q: seq<Entry>, id: nat): (pos: nat)
    ensures pos <= |q| && (pos < |q| ==> q[pos].id == id)
    ensures forall i :: 0 <= i < pos ==> q[i].id != id
  {
    FirstIndex(q, (e: Entry) => e.id == id)
  }

  /** The second-chance queue: a hit marks the entry, a miss evicts and appends. */
  function QueueGet(q: seq<Entry>, capacity: nat, id: nat, size: nat): seq<Entry> {
    var pos := Find(q, id);
    if pos < |q| then q[pos := q[pos].(refBit := true)]
    else if size > capacity then q
    else Evict(q, capacity - size) + [Entry(id, size, true)]
  }

  ghost predicate Distinct(q: seq<Entry>) {
    forall i, j :: 0 <= i < j < |q| ==> q[i].id != q[j].id
  }

  /** The entries in the order in which the hand will visit them. */
  function FromHand(cache: seq<Entry>, hand: nat): (q: seq<Entry>)
    requires hand <= |cache|
    ensures |q| == |cache|
    ensures forall i :: 0 <= i < |cache| - hand ==> q[i] == cache[hand + i]
    ensures forall i :: |cache| - hand <= i < |cache| ==> q[i] == cache[i - (|cache| - hand)]
  {
    cache[hand..] + cache[..hand]
  }

  class ClockCache {
    const capacity: nat
    var currentSize: nat
    var cache: seq<Entry>
    var hand: nat
    var hits: nat
    var gets: nat

    ghost predicate HandInRange()
      reads this
    {
      hand < |cache| || (cache == [] && hand == 0)
    }

    ghost function Queue(): seq<Entry>
      requires HandInRange()
      reads this
    {
      FromHand(cache, hand)
    }

    ghost predicate Valid()
      reads this
    {
      HandInRange() && currentSize == Total(Queue()) <= capacity && Distinct(Queue())
    }

    constructor (budget: nat)
      ensures Valid() && capacity == budget && Queue() == [] && hits == gets == 0
    {
      capacity := budget;
      currentSize, cache, hand, hits, gets := 0, [], 0, 0, 0;
    }

    /** Refinement: the vector with its hand behaves as the second-chance queue. */
    method Get(id: nat, size: nat)
      requires Valid()
      modifies this
      ensures Valid() && Queue() == QueueGet(old(Queue()), capacity, id, size)
      ensures gets == old(gets) + 1
      ensures hits == old(hits) + if Find(old(Queue()), id) < |old(Queue())| then 1 else 0
    {
      gets := gets + 1;
      ghost var q := Queue();
      var pos := Find(cache, id);
      SamePosition(cache, hand, id);
      if pos < |cache| {
        hits := hits + 1;
        MarkIsMark(cache, hand, id);
        MarkKeeps(q, Find(q, id));
        cache := cache[pos := cache[pos].(refBit := true)];
        return;
      }
      if size > capacity {
        return;
      }
      EvictLoop(size);
      ghost var kept := Queue();
      AppendStaysDistinct(q, capacity - size, Entry(id, size, true));
      InsertAtHand(Entry(id, size, true));
      Append(kept, [Entry(id, size, true)]);
      assert Queue() == kept + [Entry(id, size, true)];
      currentSize := currentSize + size;
    }

    /** Moves the hand until the newcomer fits. */
    method EvictLoop(size: nat)
      requires HandInRange() && currentSize == Total(Queue()) && size <= capacity
      modifies this`cache, this`hand, this`currentSize
      ensures HandInRange() && currentSize == Total(Queue()) && currentSize + size <= capacity
      ensures Queue() == Evict(old(Queue()), capacity - size)
    {
      while currentSize + size > capacity
        invariant HandInRange() && currentSize == Total(Queue())
        invariant Evict(Queue(), capacity - size) == Evict(old(Queue()), capacity - size)
        decreases |Queue()| + SetBits(Queue())
      {
        if cache == [] {
          break;
        }
        ghost var q := Queue();
        TurnTotal(q);
        if cache[hand].refBit {
          ClearIsTurn(cache, hand);
          cache := cache[hand := Cleared(cache[hand])];
          hand := (hand + 1) % |cache|;
        } else {
          RemoveIsTurn(cache, hand);
          currentSize := currentSize - cache[hand].size;
          cache := cache[..hand] + cache[hand + 1..];
          if cache != [] && hand >= |cache| {
            hand := 0;
          }
        }
        assert Queue() == Turn(q);
      }
    }

    /** The newcomer goes in at the hand, which moves past it: it is visited last. */
    method InsertAtHand(e: Entry)
      requires HandInRange()
      modifies this`cache, this`hand
      ensures HandInRange() && Queue() == old(Queue()) + [e]
    {
      if cache == [] {
        cache := [e];
        hand := 0;
      } else {
        InsertIsAppend(cache, hand, e);
        cache := cache[..hand] + [e] + cache[hand..];
        hand := (hand + 1) % |cache|;
      }
    }
  }

  lemma TurnTotal(q: seq<Entry>)
    requires q != []
    ensures Total(Turn(q)) == Total(q) - if q[0].refBit then 0 else q[0].size
  {
    if q[0].refBit {
      Append(q[1..], [Cleared(q[0])]);
    }
  }

  lemma ClearIsTurn(cache: seq<Entry>, hand: nat)
    requires hand < |cache| && cache[hand].refBit
    ensures FromHand(cache[hand := Cleared(cache[hand])], (hand + 1) % |cache|) == Turn(FromHand(cache, hand))
  {
    var q, cleared := FromHand(cache, hand), cache[hand := Cleared(cache[hand])];
    assert q[0] == cache[hand];
    if hand + 1 < |cache| {
      assert (hand + 1) % |cache| == hand + 1;
      assert q[1..] == cache[hand + 1..] + cache[..hand];
      assert cleared[..hand + 1] == cache[..hand] + [Cleared(cache[hand])];
    } else {
      assert (hand + 1) % |cache| == 0;
      assert q[1..] == cache[..hand];
      assert cleared == cache[..hand] + [Cleared(cache[hand])];
    }
  }

  lemma RemoveIsTurn(cache: seq<Entry>, hand: nat)
    requires hand < |cache| && !cache[hand].refBit
    ensures var rest := cache[..hand] + cache[hand + 1..];
      FromHand(rest, if rest != [] && hand >= |rest| then 0 else hand) == Turn(FromHand(cache, hand))
  {
    var rest := cache[..hand] + cache[hand + 1..];
    assert FromHand(cache, hand)[1..] == cache[hand + 1..] + cache[..hand];
    assert rest[hand..] == cache[hand + 1..] && rest[..hand] == cache[..hand];
  }

  lemma InsertIsAppend(cache: seq<Entry>, hand: nat, e: Entry)
    requires hand < |cache|
    ensures var grown := cache[..hand] + [e] + cache[hand..];
      FromHand(grown, (hand + 1) % |grown|) == FromHand(cache, hand) + [e]
  {
    var grown := cache[..hand] + [e] + cache[hand..];
    assert (hand + 1) % |grown| == hand + 1;
    assert grown[hand + 1..] == cache[hand..];
    assert grown[..hand + 1] == cache[..hand] + [e];
  }

  /** Searching the vector finds what searching the queue finds. */
  lemma SamePosition(cache: seq<Entry>, hand: nat, id: nat)
    requires hand <= |cache| && Distinct(FromHand(cache, hand))
    ensures var p, q := Find(cache, id), Find(FromHand(cache, hand), id);
      (p < |cache| <==> q < |cache|) &&
      (p < |cache| ==> q == if p >= hand then p - hand else |cache| - hand + p)
  {
    var queue := FromHand(cache, hand);
    var p, q := Find(cache, id), Find(queue, id);
    if p < |cache| {
      var at := if p >= hand then p - hand else |cache| - hand + p;
      assert queue[at] == cache[p];
    }
    if q < |cache| {
      assert queue[q] == cache[if q < |cache| - hand then hand + q else q - (|cache| - hand)];
    }
  }

  lemma MarkIsMark(cache: seq<Entry>, hand: nat, id: nat)
    requires hand <= |cache| && Distinct(FromHand(cache, hand)) && Find(cache, id) < |cache|
    ensures var pos, p, q := Find(cache, id), Find(FromHand(cache, hand), id), FromHand(cache, hand);
      p < |q| && FromHand(cache[pos := cache[pos].(refBit := true)], hand) == q[p := q[p].(refBit := true)]
  {
    SamePosition(cache, hand, id);
  }

  lemma MarkKeeps(q: seq<Entry>, p: nat)
    requires p < |q| && Distinct(q)
    ensures Total(q[p := q[p].(refBit := true)]) == Total(q) && Distinct(q[p := q[p].(refBit := true)])
  {
    var marked := q[p].(refBit := true);
    assert q == q[..p] + ([q[p]] + q[p + 1..]);
    assert q[p := marked] == q[..p] + ([marked] + q[p + 1..]);
    Append(q[..p], [q[p]] + q[p + 1..]);
    Append(q[..p], [marked] + q[p + 1..]);
  }

  predicate HasId(q: seq<Entry>, id: nat) {
    exists i :: 0 <= i < |q| && q[i].id == id
  }

  /** Eviction invents no entry and duplicates none. */
  lemma {:induction false} EvictSubset(q: seq<Entry>, room: nat)
    requires Distinct(q)
    ensures Distinct(Evict(q, room))
    ensures forall id :: HasId(Evict(q, room), id) ==> HasId(q, id)
    decreases |q| + SetBits(q)
  {
    if q != [] && Total(q) > room {
      var t := Turn(q);
      assert Distinct(t);
      assert forall id :: HasId(t, id) ==> HasId(q, id) by {
        forall id | HasId(t, id) ensures HasId(q, id) {
          var i :| 0 <= i < |t| && t[i].id == id;
          assert q[if i + 1 < |q| then i + 1 else 0].id == id;
        }
      }
      EvictSubset(t, room);
    }
  }

  lemma AppendStaysDistinct(q: seq<Entry>, room: nat, e: Entry)
    requires Distinct(q) && Find(q, e.id) == |q|
    ensures Distinct(Evict(q, room) + [e])
  {
    var kept := Evict(q, room);
    EvictSubset(q, room);
    forall i | 0 <= i < |kept| ensures kept[i].id != e.id {
      assert HasId(kept, kept[i].id);
      assert HasId(q, kept[i].id);
    }
  }

  // ----- who is evicted -----

  function Unmarked(q: seq<Entry>): seq<Entry> {
    if q == [] then [] else if q[0].refBit then Unmarked(q[1..]) else [q[0]] + Unmarked(q[1..])
  }

  function Marked(q: seq<Entry>): seq<Entry> {
    if q == [] then [] else if q[0].refBit then [Cleared(q[0])] + Marked(q[1..]) else Marked(q[1..])
  }

  /** The eviction order: first the unmarked entries, then the marked ones (shown
      with their bits cleared), each in queue order. */
  function EvictionOrder(q: seq<Entry>): seq<Entry> { Unmarked(q) + Marked(q) }

  /** Drops from the front until the rest fits. */
  function DropUntilFits(q: seq<Entry>, room: nat): seq<Entry> {
    if q == [] || Total(q) <= room then q else DropUntilFits(q[1..], room)
  }

  lemma {:induction false} OrderAppend(a: seq<Entry>, b: seq<Entry>)
    ensures Unmarked(a + b) == Unmarked(a) + Unmarked(b) && Marked(a + b) == Marked(a) + Marked(b)
  {
    if a == [] {
      assert a + b == b;
    } else {
      assert (a + b)[1..] == a[1..] + b;
      OrderAppend(a[1..], b);
      assert [a[0]] + (Unmarked(a[1..]) + Unmarked(b)) == ([a[0]] + Unmarked(a[1..])) + Unmarked(b);
    }
  }

  lemma {:induction false} OrderTotal(q: seq<Entry>)
    ensures Total(EvictionOrder(q)) == Total(q) && |EvictionOrder(q)| == |q|
  {
    Append(Unmarked(q), Marked(q));
    if q != [] {
      var u, m := Unmarked(q[1..]), Marked(q[1..]);
      OrderTotal(q[1..]);
      Append(u, m);
      Append([q[0]], u);
      Append([Cleared(q[0])], m);
    }
  }

  /** A turn that spares its entry leaves the eviction order as it is; one that
      evicts takes the first of the order. */
  lemma TurnFollowsOrder(q: seq<Entry>)
    requires q != []
    ensures EvictionOrder(Turn(q)) == if q[0].refBit then EvictionOrder(q) else EvictionOrder(q)[1..]
  {
    if q[0].refBit {
      var u, m, c := Unmarked(q[1..]), Marked(q[1..]), Cleared(q[0]);
      OrderAppend(q[1..], [c]);
      assert [c][1..] == [];
      assert Unmarked([c]) == [c] && Marked([c]) == [];
      assert (u + [c]) + m == u + ([c] + m);
    }
  }

  /** Exact characterisation of CLOCK eviction: however often the hand goes round,
      what leaves is the shortest prefix of the eviction order that makes room. */
  lemma {:induction false} EvictFollowsOrder(q: seq<Entry>, room: nat)
    ensures EvictionOrder(Evict(q, room)) == DropUntilFits(EvictionOrder(q), room)
    decreases |q| + SetBits(q)
  {
    OrderTotal(q);
    if q != [] && Total(q) > room {
      TurnFollowsOrder(q);
      EvictFollowsOrder(Turn(q), room);
    }
  }

  ghost predicate AllUnmarked(q: seq<Entry>) {
    forall i :: 0 <= i < |q| ==> !q[i].refBit
  }

  /** The queue after n turns of the hand. */
  function Turns(q: seq<Entry>, n: nat): seq<Entry>
    decreases n
  {
    if n == 0 || q == [] then q else Turns(Turn(q), n - 1)
  }

  /** Eviction turns the hand until the rest fits and not once more. */
  lemma {:induction false} EvictIsTurns(q: seq<Entry>, room: nat) returns (n: nat)
    ensures Evict(q, room) == Turns(q, n)
    ensures forall m :: 0 <= m < n ==> Total(Turns(q, m)) > room
    decreases |q| + SetBits(q)
  {
    n := 0;
    if q != [] && Total(q) > room {
      var rest := EvictIsTurns(Turn(q), room);
      n := rest + 1;
      assert forall m :: 0 < m < n ==> Turns(q, m) == Turns(Turn(q), m - 1);
    }
  }

  /** During the first round every entry the hand passes is either gone or cleared
      and queued behind the entries not yet visited. */
  lemma {:induction false} FirstRound(x: seq<Entry>, y: seq<Entry>, n: nat)
    requires n <= |x|
    ensures Turns(x + y, n) == x[n..] + (y + Marked(x[..n]))
  {
    if n > 0 {
      var q := x + y;
      assert q[1..] == x[1..] + y && x[1..][n - 1..] == x[n..] && x[..n][1..] == x[1..][..n - 1];
      if x[0].refBit {
        var c := Cleared(x[0]);
        assert Turn(q) == x[1..] + (y + [c]);
        FirstRound(x[1..], y + [c], n - 1);
        assert (y + [c]) + Marked(x[1..][..n - 1]) == y + ([c] + Marked(x[1..][..n - 1]));
      } else {
        FirstRound(x[1..], y, n - 1);
      }
    } else {
      assert x[..0] == [];
    }
  }

  lemma {:induction false} TurnsAddUp(q: seq<Entry>, m: nat, n: nat)
    ensures Turns(q, m + n) == Turns(Turns(q, m), n)
    decreases m
  {
    if m > 0 && q != [] {
      TurnsAddUp(Turn(q), m - 1, n);
    }
  }

  lemma {:induction false} UnmarkedLeaveInOrder(q: seq<Entry>, n: nat)
    requires AllUnmarked(q)
    ensures Turns(q, n) == if n <= |q| then q[n..] else []
  {
    if n > 0 && q != [] {
      UnmarkedLeaveInOrder(q[1..], n - 1);
    }
  }

  lemma {:induction false} MarkedAreCleared(q: seq<Entry>)
    ensures AllUnmarked(Marked(q))
  {
    if q != [] {
      MarkedAreCleared(q[1..]);
    }
  }

  /** Where the hand is after any number of turns: one round spares exactly the
      marked entries, cleared; after it they leave in order. */
  lemma TurnsExactly(q: seq<Entry>, n: nat)
    ensures n <= |q| ==> Turns(q, n) == q[n..] + Marked(q[..n])
    ensures n >= |q| ==> Turns(q, n) == if n - |q| <= |Marked(q)| then Marked(q)[n - |q|..] else []
  {
    assert q + [] == q;
    if n <= |q| {
      FirstRound(q, [], n);
      assert [] + Marked(q[..n]) == Marked(q[..n]);
    }
    if n >= |q| {
      FirstRound(q, [], |q|);
      assert q[..|q|] == q && q[|q|..] + ([] + Marked(q)) == Marked(q);
      TurnsAddUp(q, |q|, n - |q|);
      MarkedAreCleared(q);
      UnmarkedLeaveInOrder(Marked(q), n - |q|);
    }
  }

  lemma {:induction false} MarkedHasId(q: seq<Entry>, k: nat)
    requires k < |Marked(q)|
    ensures exists i :: 0 <= i < |q| && q[i].id == Marked(q)[k].id
  {
    if q[0].refBit && k == 0 {
      assert q[0].id == Marked(q)[0].id;
    } else {
      var k' := if q[0].refBit then k - 1 else k;
      MarkedHasId(q[1..], k');
      var i :| 0 <= i < |q[1..]| && q[1..][i].id == Marked(q[1..])[k'].id;
      assert q[i + 1].id == Marked(q)[k].id;
    }
  }

  /** In the first round no marked entry is lost. */
  lemma MarkedSurviveRound(q: seq<Entry>, n: nat, k: nat)
    requires n <= |q| && k < |Marked(q)|
    ensures HasId(Turns(q, n), Marked(q)[k].id)
  {
    TurnsExactly(q, n);
    var now, passed := Turns(q, n), Marked(q[..n]);
    assert q == q[..n] + q[n..];
    OrderAppend(q[..n], q[n..]);
    if k < |passed| {
      assert now[|q| - n + k].id == Marked(q)[k].id;
    } else {
      MarkedHasId(q[n..], k - |passed|);
      var i :| 0 <= i < |q[n..]| && q[n..][i].id == Marked(q[n..])[k - |passed|].id;
      assert now[i].id == Marked(q)[k].id;
    }
  }

  lemma SuffixHasId(q: seq<Entry>, from: nat, k: nat)
    requires from <= k < |q|
    ensures HasId(q[from..], q[k].id)
  {
    assert q[from..][k - from] == q[k];
  }

  /** Second chance, at every moment of an eviction: once the k-th entry that was
      marked at the start is gone, the hand has been all round, every unmarked
      entry and every earlier marked one is gone, and all that remain have lost
      their marks. */
  lemma SecondChance(q: seq<Entry>, n: nat, k: nat)
    requires k < |Marked(q)| && !HasId(Turns(q, n), Marked(q)[k].id)
    ensures n > |q| + k && AllUnmarked(Turns(q, n))
    ensures exists m :: k < m <= |Marked(q)| && Turns(q, n) == Marked(q)[m..]
  {
    if n <= |q| {
      MarkedSurviveRound(q, n, k);
      assert false;
    }
    TurnsExactly(q, n);
    MarkedAreCleared(q);
    var gone: nat := n - |q|;
    if gone <= k {
      SuffixHasId(Marked(q), gone, k);
      assert false;
    }
    var m := if gone <= |Marked(q)| then gone else |Marked(q)|;
    assert Turns(q, n) == Marked(q)[m..];
  }
}
