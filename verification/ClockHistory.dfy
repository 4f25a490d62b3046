/** The CLOCK simulator over whole traces, told by what happened to each id: when it
    came in, when it was accessed, when the hand passed it and when it left. */
module ClockHistory {
  import opened Common
  import opened ClockSimulator

  datatype Request = Request(id: nat, size: nat)

  datatype Event = Inserted(id: nat) | Accessed(id: nat) | Passed(id: nat) | Evicted(id: nat)

  // ----- what the requests of a trace cause -----

  /** What a turn of the hand does to the entry it points at. */
  function TurnEvent(q: seq<Entry>): Event
    requires q != []
  {
    if q[0].refBit then Passed(q[0].id) else Evicted(q[0].id)
  }

  function EvictEvents(q: seq<Entry>, room: nat): seq<Event>
    decreases |q| + SetBits(q)
  {
    if q == [] || Total(q) <= room then [] else [TurnEvent(q)] + EvictEvents(Turn(q), room)
  }

  function GetEvents(q: seq<Entry>, capacity: nat, r: Request): seq<Event> {
    if Find(q, r.id) < |q| then [Accessed(r.id)]
    else if r.size > capacity then []
    else EvictEvents(q, capacity - r.size) + [Inserted(r.id)]
  }

  /** The queue after a trace. */
  function After(trace: seq<Request>, capacity: nat): seq<Entry> {
    if trace == [] then []
    else
      var r := trace[|trace| - 1];
      QueueGet(After(trace[..|trace| - 1], capacity), capacity, r.id, r.size)
  }

  /** Everything that happens during a trace, in order. */
  function Log(trace: seq<Request>, capacity: nat): seq<Event> {
    if trace == [] then []
    else
      var n := |trace| - 1;
      Log(trace[..n], capacity) + GetEvents(After(trace[..n], capacity), capacity, trace[n])
  }

  // ----- reading a log -----

  /** The last thing that happened to an id. */
  function Last(log: seq<Event>, id: nat): Option<Event> {
    if log == [] then None
    else if log[|log| - 1].id == id then Some(log[|log| - 1])
    else Last(log[..|log| - 1], id)
  }

  predicate Present(log: seq<Event>, id: nat) {
    Last(log, id).Some? && !Last(log, id).value.Evicted?
  }

  /** Inserted or accessed since the hand last passed it. */
  predicate Recent(log: seq<Event>, id: nat) {
    Last(log, id).Some? && (Last(log, id).value.Inserted? || Last(log, id).value.Accessed?)
  }

  /** When the id last came in or was passed, counted from one. */
  function Placed(log: seq<Event>, id: nat): (when: nat)
    ensures when <= |log|
  {
    if log == [] then 0
    else
      var e := log[|log| - 1];
      if e.id == id && (e.Inserted? || e.Passed?) then |log| else Placed(log[..|log| - 1], id)
  }

  lemma LastAppend(log: seq<Event>, e: Event, id: nat)
    ensures Last(log + [e], id) == if e.id == id then Some(e) else Last(log, id)
    ensures Placed(log + [e], id) ==
      if e.id == id && (e.Inserted? || e.Passed?) then |log| + 1 else Placed(log, id)
  {
    assert (log + [e])[..|log|] == log;
  }

  /** Who is cached, who carries a mark and in which order the hand will come by. */
  ghost predicate Told(q: seq<Entry>, log: seq<Event>) {
    && (forall id :: HasId(q, id) <==> Present(log, id))
    && (forall i :: 0 <= i < |q| ==> (q[i].refBit <==> Recent(log, q[i].id)))
    && InOrder(q, log)
  }

  ghost predicate InOrder(q: seq<Entry>, log: seq<Event>) {
    forall i, j :: 0 <= i < j < |q| ==> Placed(log, q[i].id) < Placed(log, q[j].id)
  }

  lemma TurnTold(q: seq<Entry>, log: seq<Event>)
    requires q != [] && Distinct(q) && Told(q, log)
    ensures Distinct(Turn(q)) && Told(Turn(q), log + [TurnEvent(q)])
  {
    var t, e := Turn(q), TurnEvent(q);
    var log' := log + [e];
    assert forall i :: 0 < i < |q| ==> t[i - 1] == q[i];
    assert q[0].refBit ==> t[|q| - 1] == Cleared(q[0]);
    forall id
      ensures Last(log', id) == if e.id == id then Some(e) else Last(log, id)
      ensures Placed(log', id) == if e.id == id && e.Passed? then |log| + 1 else Placed(log, id)
    {
      LastAppend(log, e, id);
    }
    forall id ensures HasId(t, id) <==> Present(log', id) {
      TurnMembers(q, id);
    }
  }

  lemma TurnMembers(q: seq<Entry>, id: nat)
    requires q != [] && Distinct(q)
    ensures HasId(Turn(q), id) <==> if id == q[0].id then q[0].refBit else HasId(q, id)
  {
    var t := Turn(q);
    if q[0].refBit {
      assert t[|q| - 1].id == q[0].id;
    }
    if i :| 0 <= i < |q| && q[i].id == id {
      assert i > 0 ==> t[i - 1].id == id;
    }
    if i :| 0 <= i < |t| && t[i].id == id {
      assert i + 1 < |q| ==> q[i + 1].id == id;
    }
  }

  lemma {:induction false} EvictTold(q: seq<Entry>, room: nat, log: seq<Event>)
    requires Distinct(q) && Told(q, log)
    ensures Distinct(Evict(q, room)) && Told(Evict(q, room), log + EvictEvents(q, room))
    decreases |q| + SetBits(q)
  {
    if q == [] || Total(q) <= room {
      assert log + [] == log;
    } else {
      TurnTold(q, log);
      EvictTold(Turn(q), room, log + [TurnEvent(q)]);
      Associate(log, [TurnEvent(q)], EvictEvents(Turn(q), room));
    }
  }

  lemma HitTold(q: seq<Entry>, pos: nat, log: seq<Event>)
    requires pos < |q| && Distinct(q) && Told(q, log)
    ensures var marked := q[pos := q[pos].(refBit := true)];
      Distinct(marked) && Told(marked, log + [Accessed(q[pos].id)])
  {
    var marked, e := q[pos := q[pos].(refBit := true)], Accessed(q[pos].id);
    forall id
      ensures Last(log + [e], id) == if e.id == id then Some(e) else Last(log, id)
      ensures Placed(log + [e], id) == Placed(log, id)
    {
      LastAppend(log, e, id);
    }
    assert forall i :: 0 <= i < |q| ==> marked[i].id == q[i].id;
    forall id ensures HasId(marked, id) <==> HasId(q, id) {
      if i :| 0 <= i < |q| && q[i].id == id {
        assert marked[i].id == id;
      }
    }
    assert HasId(q, q[pos].id);
  }

  lemma AppendHasId(q: seq<Entry>, e: Entry, id: nat)
    ensures HasId(q + [e], id) <==> HasId(q, id) || id == e.id
  {
    var q' := q + [e];
    assert q'[|q|] == e;
    if i :| 0 <= i < |q| && q[i].id == id {
      assert q'[i].id == id;
    }
  }

  lemma AppendInOrder(q: seq<Entry>, e: Entry, log: seq<Event>)
    requires InOrder(q, log) && !HasId(q, e.id)
    ensures InOrder(q + [e], log + [Inserted(e.id)])
  {
    var q', log' := q + [e], log + [Inserted(e.id)];
    LastAppend(log, Inserted(e.id), e.id);
    forall i | 0 <= i < |q| ensures q'[i] == q[i] && Placed(log', q[i].id) == Placed(log, q[i].id) {
      assert HasId(q, q[i].id);
      LastAppend(log, Inserted(e.id), q[i].id);
    }
  }

  lemma InsertTold(q: seq<Entry>, e: Entry, log: seq<Event>)
    requires Told(q, log) && !HasId(q, e.id) && e.refBit
    ensures Told(q + [e], log + [Inserted(e.id)])
  {
    AppendInOrder(q, e, log);
    forall id
      ensures Last(log + [Inserted(e.id)], id) == if e.id == id then Some(Inserted(e.id)) else Last(log, id)
      ensures HasId(q + [e], id) <==> HasId(q, id) || id == e.id
    {
      LastAppend(log, Inserted(e.id), id);
      AppendHasId(q, e, id);
    }
    assert forall i :: 0 <= i < |q| ==> (q + [e])[i] == q[i] && HasId(q, q[i].id);
  }

  lemma MissTold(q: seq<Entry>, room: nat, e: Entry, log: seq<Event>)
    requires Distinct(q) && Told(q, log) && Find(q, e.id) == |q| && e.refBit
    ensures Told(Evict(q, room) + [e], log + (EvictEvents(q, room) + [Inserted(e.id)]))
  {
    EvictTold(q, room, log);
    EvictSubset(q, room);
    assert !HasId(Evict(q, room), e.id) by {
      assert !HasId(q, e.id);
    }
    InsertTold(Evict(q, room), e, log + EvictEvents(q, room));
    assert log + EvictEvents(q, room) + [Inserted(e.id)] == log + (EvictEvents(q, room) + [Inserted(e.id)]);
  }

  lemma GetTold(q: seq<Entry>, capacity: nat, r: Request, log: seq<Event>)
    requires Distinct(q) && Told(q, log)
    ensures Distinct(QueueGet(q, capacity, r.id, r.size))
    ensures Told(QueueGet(q, capacity, r.id, r.size), log + GetEvents(q, capacity, r))
  {
    var pos := Find(q, r.id);
    if pos < |q| {
      HitTold(q, pos, log);
    } else if r.size <= capacity {
      AppendStaysDistinct(q, capacity - r.size, Entry(r.id, r.size, true));
      MissTold(q, capacity - r.size, Entry(r.id, r.size, true), log);
    } else {
      assert log + [] == log;
    }
  }

  /** After every trace: the cached ids are those that came in and did not leave; an
      entry carries its mark exactly when it was inserted or accessed since the hand
      last passed it; and the hand comes by in the order in which it last passed
      the entries or they came in. */
  lemma {:induction false} StateFromHistory(trace: seq<Request>, capacity: nat)
    ensures Distinct(After(trace, capacity)) && Told(After(trace, capacity), Log(trace, capacity))
  {
    if trace != [] {
      var n := |trace| - 1;
      StateFromHistory(trace[..n], capacity);
      GetTold(After(trace[..n], capacity), capacity, trace[n], Log(trace[..n], capacity));
    }
  }

  lemma PresentIsCached(trace: seq<Request>, capacity: nat, id: nat)
    ensures var q := After(trace, capacity);
      Distinct(q) && (Present(Log(trace, capacity), id) <==> HasId(q, id)) && (HasId(q, id) <==> Find(q, id) < |q|)
  {
    StateFromHistory(trace, capacity);
  }

  // ----- accesses and turns -----

  predicate IsTurn(e: Event) {
    e.Passed? || e.Evicted?
  }

  lemma {:induction false} EvictEventsAreTurns(q: seq<Entry>, room: nat)
    ensures forall i :: 0 <= i < |EvictEvents(q, room)| ==> IsTurn(EvictEvents(q, room)[i])
    ensures Total(q) <= room ==> EvictEvents(q, room) == []
    decreases |q| + SetBits(q)
  {
    if q != [] && Total(q) > room {
      EvictEventsAreTurns(Turn(q), room);
    }
  }

  /** The id comes in after turns of the hand, and nothing else happens. */
  ghost predicate ComesIn(log: seq<Event>, log': seq<Event>, id: nat) {
    && |log| < |log'| && log == log'[..|log|] && log'[|log'| - 1] == Inserted(id)
    && forall i :: |log| <= i < |log'| - 1 ==> IsTurn(log'[i])
  }

  lemma MissEvents(q: seq<Entry>, room: nat, id: nat, log: seq<Event>)
    ensures ComesIn(log, log + (EvictEvents(q, room) + [Inserted(id)]), id)
  {
    EvictEventsAreTurns(q, room);
    var events := EvictEvents(q, room);
    assert forall i :: 0 <= i < |events| ==> (log + (events + [Inserted(id)]))[|log| + i] == events[i];
  }

  lemma GetEventsShape(q: seq<Entry>, capacity: nat, r: Request, log: seq<Event>)
    ensures var log' := log + GetEvents(q, capacity, r);
      if Find(q, r.id) < |q| then log' == log + [Accessed(r.id)]
      else if r.size > capacity then log' == log
      else ComesIn(log, log', r.id)
  {
    if Find(q, r.id) == |q| && r.size <= capacity {
      MissEvents(q, capacity - r.size, r.id, log);
    }
  }

  lemma LogStep(trace: seq<Request>, capacity: nat, r: Request)
    ensures Log(trace + [r], capacity) == Log(trace, capacity) + GetEvents(After(trace, capacity), capacity, r)
  {
    assert (trace + [r])[..|trace|] == trace;
  }

  /** What a request adds to the log: a present id is accessed and the hand does not
      move; an absent id that can never fit leaves no trace; any other absent id comes
      in, after the hand has turned, and nothing is accessed or inserted besides. */
  lemma RequestEvents(trace: seq<Request>, capacity: nat, r: Request)
    ensures var log, log' := Log(trace, capacity), Log(trace + [r], capacity);
      if Present(log, r.id) then log' == log + [Accessed(r.id)]
      else if r.size > capacity then log' == log
      else ComesIn(log, log', r.id)
  {
    PresentIsCached(trace, capacity, r.id);
    LogStep(trace, capacity, r);
    GetEventsShape(After(trace, capacity), capacity, r, Log(trace, capacity));
  }

  lemma {:induction false} UnmarkedIsNotMarked(q: seq<Entry>, i: nat, k: nat)
    requires Distinct(q) && i < |q| && !q[i].refBit && k < |Marked(q)|
    ensures Marked(q)[k].id != q[i].id
  {
    if i == 0 {
      MarkedHasId(q[1..], k);
    } else if q[0].refBit && k == 0 {
      assert q[0].id != q[i].id;
    } else {
      UnmarkedIsNotMarked(q[1..], i - 1, if q[0].refBit then k - 1 else k);
    }
  }

  lemma {:induction false} MarkedIndex(q: seq<Entry>, i: nat) returns (k: nat)
    requires i < |q| && q[i].refBit
    ensures k < |Marked(q)| && Marked(q)[k].id == q[i].id
  {
    if i == 0 {
      k := 0;
    } else {
      var k' := MarkedIndex(q[1..], i - 1);
      k := if q[0].refBit then k' + 1 else k';
    }
  }

  lemma EvictSparesMarked(q: seq<Entry>, room: nat, i: nat, j: nat)
    requires Distinct(q) && i < |q| && j < |q| && q[i].refBit && !q[j].refBit
    requires !HasId(Evict(q, room), q[i].id)
    ensures !HasId(Evict(q, room), q[j].id)
  {
    var n := EvictIsTurns(q, room);
    var k := MarkedIndex(q, i);
    SecondChance(q, n, k);
    var m :| k < m <= |Marked(q)| && Turns(q, n) == Marked(q)[m..];
    forall l | 0 <= l < |Turns(q, n)| ensures Turns(q, n)[l].id != q[j].id {
      UnmarkedIsNotMarked(q, j, m + l);
    }
  }

  /** Only a request that comes in makes entries leave. */
  lemma OthersStay(q: seq<Entry>, capacity: nat, r: Request, i: nat)
    requires i < |q| && (Find(q, r.id) < |q| || r.size > capacity)
    ensures HasId(QueueGet(q, capacity, r.id, r.size), q[i].id)
  {
    assert QueueGet(q, capacity, r.id, r.size)[i].id == q[i].id;
  }

  lemma GetSparesMarked(q: seq<Entry>, capacity: nat, r: Request, i: nat, j: nat)
    requires Distinct(q) && i < |q| && j < |q| && q[i].refBit && !q[j].refBit
    requires !HasId(QueueGet(q, capacity, r.id, r.size), q[i].id)
    ensures !HasId(QueueGet(q, capacity, r.id, r.size), q[j].id)
  {
    if Find(q, r.id) < |q| || r.size > capacity {
      OthersStay(q, capacity, r, i);
      assert false;
    }
    var kept := Evict(q, capacity - r.size);
    AppendHasId(kept, Entry(r.id, r.size, true), q[i].id);
    AppendHasId(kept, Entry(r.id, r.size, true), q[j].id);
    EvictSparesMarked(q, capacity - r.size, i, j);
  }

  lemma EntryOf(trace: seq<Request>, capacity: nat, id: nat) returns (i: nat)
    requires Present(Log(trace, capacity), id)
    ensures var q := After(trace, capacity);
      i < |q| && q[i].id == id && (q[i].refBit <==> Recent(Log(trace, capacity), id))
  {
    StateFromHistory(trace, capacity);
    assert HasId(After(trace, capacity), id);
    i :| 0 <= i < |After(trace, capacity)| && After(trace, capacity)[i].id == id;
  }

  /** Second chance, from the requests alone: whenever a request makes an id leave that
      was inserted or accessed since the hand last passed it, every id that was not
      is gone too. */
  lemma RecentLeaveLast(trace: seq<Request>, capacity: nat, r: Request, x: nat, y: nat)
    requires Present(Log(trace, capacity), x) && Recent(Log(trace, capacity), x)
    requires Present(Log(trace, capacity), y) && !Recent(Log(trace, capacity), y)
    requires !Present(Log(trace + [r], capacity), x)
    ensures !Present(Log(trace + [r], capacity), y)
  {
    var q := After(trace, capacity);
    assert (trace + [r])[..|trace|] == trace;
    assert After(trace + [r], capacity) == QueueGet(q, capacity, r.id, r.size);
    var i := EntryOf(trace, capacity, x);
    var j := EntryOf(trace, capacity, y);
    PresentIsCached(trace, capacity, x);
    PresentIsCached(trace + [r], capacity, x);
    PresentIsCached(trace + [r], capacity, y);
    GetSparesMarked(q, capacity, r, i, j);
  }

  // ----- the counters -----

  /** How many requests of a trace found their id present. */
  function HitsOf(trace: seq<Request>, capacity: nat): nat {
    if trace == [] then 0
    else
      var n := |trace| - 1;
      HitsOf(trace[..n], capacity) + if Present(Log(trace[..n], capacity), trace[n].id) then 1 else 0
  }

  /** Runs a trace through the vector with the hand. */
  method Replay(trace: seq<Request>, budget: nat) returns (hits: nat, gets: nat)
    ensures gets == |trace| && hits == HitsOf(trace, budget)
  {
    var cache := new ClockCache(budget);
    for n := 0 to |trace|
      invariant cache.Valid() && cache.capacity == budget && fresh(cache)
      invariant cache.Queue() == After(trace[..n], budget)
      invariant cache.gets == n && cache.hits == HitsOf(trace[..n], budget)
    {
      assert trace[..n + 1][..n] == trace[..n];
      PresentIsCached(trace[..n], budget, trace[n].id);
      cache.Get(trace[n].id, trace[n].size);
    }
    assert trace[..|trace|] == trace;
    hits, gets := cache.hits, cache.gets;
  }
}
