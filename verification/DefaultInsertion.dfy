/** The cache together with its default replacement policy: insertion terminates,
    also when the policy still tracks entries that a reset removed. */
module DefaultInsertion {
  import opened CacheEntries
  import opened SqueezeRounds
  import opened CacheStore
  import opened VictimPolicies

  /** Queued ids that are not resident, which only a reset leaves behind. */
  function Stale(q: seq<EntryId>, index: Index): nat {
    if q == [] then 0 else (if IsResident(index, q[0]) then 0 else 1) + Stale(q[1..], index)
  }

  lemma {:induction false} StaleAppend(a: seq<EntryId>, b: seq<EntryId>, index: Index)
    ensures Stale(a + b, index) == Stale(a, index) + Stale(b, index)
  {
    if a == [] {
      assert a + b == b;
    } else {
      assert (a + b)[1..] == a[1..] + b;
      StaleAppend(a[1..], b, index);
    }
  }

  lemma {:induction false} NoneResident(q: seq<EntryId>, index: Index)
    requires forall id :: id in q ==> !IsResident(index, id)
    ensures Stale(q, index) == |q|
  {
    if q != [] {
      NoneResident(q[1..], index);
    }
  }

  /** The contract of the insertion loop: advice is empty, or names a resident
      entry, or uses up a stale id. */
  lemma LiquidPolicyAdvice(q: Queues, index: Index, victims: seq<EntryId>, rest: seq<EntryId>)
    requires victims + rest == q.InMemory()
    ensures Stale(rest, index) <= Stale(q.InMemory(), index)
    ensures victims == [] || (exists id :: id in victims && IsResident(index, id)) ||
            Stale(rest, index) < Stale(q.InMemory(), index)
  {
    StaleAppend(victims, rest, index);
    if forall id :: id in victims ==> !IsResident(index, id) {
      NoneResident(victims, index);
    }
  }

  lemma {:induction false} StaleWithout(q: seq<EntryId>, index: Index, id: EntryId, e: CacheEntry)
    ensures Stale(Without(q, id), index[id := e]) <= Stale(q, index)
  {
    if q != [] {
      StaleWithout(q[1..], index, id, e);
      if q[0] == id {
        assert Without(q, id) == Without(q[1..], id);
      } else {
        assert Without(q, id)[1..] == Without(q[1..], id);
        assert IsResident(index[id := e], q[0]) == IsResident(index, q[0]);
      }
    }
  }

  lemma StaleThree(q: Queues, index: Index)
    ensures Stale(q.InMemory(), index) == Stale(q.arrow, index) + Stale(q.liquid, index) + Stale(q.squeezed, index)
  {
    StaleAppend(q.arrow + q.liquid, q.squeezed, index);
    StaleAppend(q.arrow, q.liquid, index);
  }

  /** One queue after a notice holds no more stale ids than before. */
  lemma QueueAddsNoStale(before: Queues, after: Queues, index: Index, id: EntryId, e: CacheEntry, k: Kind)
    requires Moved(before, after, id, KindOf(e.Type())) && !k.DiskQueue?
    ensures Stale(after.Of(k), index[id := e]) <= Stale(before.Of(k), index)
  {
    StaleWithout(before.Of(k), index, id, e);
    assert after.Of(k) == Without(before.Of(k), id) + if k == KindOf(e.Type()) then [id] else [];
    if k == KindOf(e.Type()) {
      StaleAppend(Without(before.Of(k), id), [id], index[id := e]);
    } else {
      assert after.Of(k) == Without(before.Of(k), id);
    }
  }

  /** Inserting an entry and notifying the policy never adds a stale id. */
  lemma NotifyAddsNoStale(before: Queues, after: Queues, index: Index, id: EntryId, e: CacheEntry)
    requires Moved(before, after, id, KindOf(e.Type()))
    ensures Stale(after.InMemory(), index[id := e]) <= Stale(before.InMemory(), index)
  {
    QueueAddsNoStale(before, after, index, id, e, ArrowQueue);
    QueueAddsNoStale(before, after, index, id, e, LiquidQueue);
    QueueAddsNoStale(before, after, index, id, e, SqueezedQueue);
    StaleThree(before, index);
    StaleThree(after, index[id := e]);
  }

  /** The id is in the queue of its entry's representation and in no other. */
  ghost predicate Filed(q: Queues, index: Index, id: EntryId) {
    && (id in q.arrow <==> id in index && index[id].MemoryArrow?)
    && (id in q.liquid <==> id in index && index[id].MemoryLiquid?)
    && (id in q.squeezed <==> id in index && index[id].MemorySqueezedLiquid?)
    && (id in q.disk <==> id in index && (index[id].DiskLiquid? || index[id].DiskArrow?))
  }

  ghost predicate Tracks(q: Queues, index: Index) {
    forall id :: Filed(q, index, id)
  }

  /** Without resets the queues describe the index exactly: a notice files the id by
      the representation of its new entry and disturbs no other id. */
  lemma NotifyTracks(before: Queues, after: Queues, index: Index, id: EntryId, e: CacheEntry)
    requires Moved(before, after, id, KindOf(e.Type()))
    requires forall k :: k != id ==> Filed(before, index, k)
    ensures Tracks(after, index[id := e])
  {
    var index' := index[id := e];
    forall k ensures Filed(after, index', k) {
      MovedMembers(before, after, id, KindOf(e.Type()), ArrowQueue, k);
      MovedMembers(before, after, id, KindOf(e.Type()), LiquidQueue, k);
      MovedMembers(before, after, id, KindOf(e.Type()), SqueezedQueue, k);
      MovedMembers(before, after, id, KindOf(e.Type()), DiskQueue, k);
      assert k != id ==> Filed(before, index, k);
    }
  }

  lemma MovedMembers(before: Queues, after: Queues, id: EntryId, kind: Kind, q: Kind, k: EntryId)
    requires Moved(before, after, id, kind)
    ensures k in after.Of(q) <==> (k in before.Of(q) && k != id) || (k == id && q == kind)
  {
    WithoutMembers(before.Of(q), id);
    assert after.Of(q) == Without(before.Of(q), id) + if q == kind then [id] else [];
  }

  /** Then empty advice means that nothing is left to squeeze. */
  lemma FiledAdvice(q: Queues, index: Index)
    requires Tracks(q, index)
    ensures forall id :: id in q.InMemory() <==> IsResident(index, id)
  {
    forall id ensures id in q.InMemory() <==> IsResident(index, id) {
      assert Filed(q, index, id);
    }
  }

  lemma AdviceNoRepeats(q: Queues, where: map<EntryId, Kind>)
    requires Consistent(q, where)
    ensures NoRepeats(q.InMemory())
  {
    assert NoRepeats(q.Of(ArrowQueue)) && NoRepeats(q.Of(LiquidQueue)) && NoRepeats(q.Of(SqueezedQueue));
    assert forall id :: id in q.arrow ==> id in q.Of(ArrowQueue) && where[id] == ArrowQueue;
    assert forall id :: id in q.liquid ==> id in q.Of(LiquidQueue) && where[id] == LiquidQueue;
    assert forall id :: id in q.squeezed ==> id in q.Of(SqueezedQueue) && where[id] == SqueezedQueue;
    ConcatNoRepeats(q.arrow, q.liquid);
    ConcatNoRepeats(q.arrow + q.liquid, q.squeezed);
  }

  lemma PrefixNoRepeats(victims: seq<EntryId>, rest: seq<EntryId>)
    requires NoRepeats(victims + rest)
    ensures NoRepeats(victims)
  {
    assert forall i :: 0 <= i < |victims| ==> victims[i] == (victims + rest)[i];
  }

  // ----- delivering notices -----

  /** The index as the policy has heard of it after n notices. */
  function Heard(start: Index, index: Index, delta: seq<Notice>, n: nat): Index
    requires n <= |delta| && forall i :: 0 <= i < |delta| ==> delta[i].id in index
  {
    if n == 0 then start else Heard(start, index, delta, n - 1)[delta[n - 1].id := index[delta[n - 1].id]]
  }

  ghost predicate Complete(start: Index, index: Index, delta: seq<Notice>) {
    && (forall i :: 0 <= i < |delta| ==> delta[i].id in index && delta[i].batchType == index[delta[i].id].Type())
    && Heard(start, index, delta, |delta|) == index
  }

  lemma {:induction false} HeardAt(start: Index, index: Index, delta: seq<Notice>, n: nat, id: EntryId)
    requires n <= |delta| && start.Keys == index.Keys && id in index
    requires forall i :: 0 <= i < |delta| ==> delta[i].id in index
    ensures Heard(start, index, delta, n).Keys == index.Keys
    ensures Heard(start, index, delta, n)[id] == if exists i :: 0 <= i < n && delta[i].id == id then index[id] else start[id]
  {
    if n > 0 {
      HeardAt(start, index, delta, n - 1, id);
    }
  }

  /** After a round the policy has heard of every change. */
  lemma RoundIsComplete(start: Index, index: Index, delta: seq<Notice>, ids: set<EntryId>)
    requires RoundDone(start, index, ids) && Announced(index, delta, ids)
    ensures Complete(start, index, delta)
  {
    var heard := Heard(start, index, delta, |delta|);
    forall id | id in index ensures id in heard && heard[id] == index[id] {
      HeardAt(start, index, delta, |delta|, id);
      if id in ids {
        assert Tells(delta, id);
      }
    }
    if index == map[] {
      assert start == map[] && delta == [];
    } else {
      var id :| id in index;
      HeardAt(start, index, delta, |delta|, id);
    }
  }

  class QueuedCache {
    const cache: LiquidCache
    const policy: LiquidPolicy

    ghost predicate Valid()
      reads this, cache, policy
    {
      cache.Valid() && policy.Valid()
    }

    constructor (maxMemoryBytes: nat, squeezePolicy: SqueezePolicy)
      ensures Valid() && fresh(cache) && fresh(policy) && cache.contents == map[]
    {
      cache := new LiquidCache(maxMemoryBytes, squeezePolicy);
      policy := new LiquidPolicy();
    }

    /** Passes the notices from number `told` on to the policy. */
    method Deliver(told: nat, ghost start: Index)
      requires policy.Valid() && told <= |cache.notices| && Complete(start, cache.index, cache.notices[told..])
      modifies policy
      ensures policy.Valid()
      ensures Stale(policy.queues.InMemory(), cache.index) <= Stale(old(policy.queues).InMemory(), start)
    {
      var delta := cache.notices[told..];
      ghost var index := cache.index;
      for n := 0 to |delta|
        invariant policy.Valid()
        invariant Stale(policy.queues.InMemory(), Heard(start, index, delta, n)) <= Stale(old(policy.queues).InMemory(), start)
      {
        ghost var before := policy.queues;
        policy.NotifyInsert(delta[n].id, delta[n].batchType);
        NotifyAddsNoStale(before, policy.queues, Heard(start, index, delta, n), delta[n].id, index[delta[n].id]);
      }
    }

    /** The advice of the policy, squeezed; without advice the pending batch goes down. */
    method MakeRoom(id: EntryId, batch: CacheEntry, ghost rows: Rows) returns (e': CacheEntry)
      requires policy.Valid() && cache.Awaits(id, batch, rows) && !batch.OnDisk()
      modifies cache`index, cache`entryCount, cache`usedMemoryBytes, cache`disk, cache`notices, policy
      ensures policy.Valid() && cache.Awaits(id, e', rows)
      ensures RankTotal(cache.index) + e'.Rank() < old(RankTotal(cache.index)) + batch.Rank() ||
        (RankTotal(cache.index) + e'.Rank() == old(RankTotal(cache.index)) + batch.Rank() &&
         Stale(policy.queues.InMemory(), cache.index) < old(Stale(policy.queues.InMemory(), cache.index)))
    {
      var victims := policy.FindVictim(8);
      LiquidPolicyAdvice(old(policy.queues), cache.index, victims, policy.queues.InMemory());
      if victims == [] {
        e' := cache.WriteInMemoryBatchToDisk(id, batch, rows);
        return;
      }
      AdviceNoRepeats(old(policy.queues), old(policy.where));
      PrefixNoRepeats(victims, policy.queues.InMemory());
      SqueezeAdvised(victims, id, batch, rows);
      e' := batch;
    }

    /** Squeezes the advised entries and tells the policy. */
    method SqueezeAdvised(victims: seq<EntryId>, ghost id: EntryId, ghost batch: CacheEntry, ghost rows: Rows)
      requires policy.Valid() && NoRepeats(victims) && cache.Awaits(id, batch, rows) && !batch.OnDisk()
      modifies cache`index, cache`entryCount, cache`usedMemoryBytes, cache`disk, cache`notices, policy
      ensures policy.Valid() && cache.Awaits(id, batch, rows)
      ensures RankTotal(cache.index) <= old(RankTotal(cache.index))
      ensures (exists v :: v in victims && IsResident(old(cache.index), v)) ==> RankTotal(cache.index) < old(RankTotal(cache.index))
      ensures Stale(policy.queues.InMemory(), cache.index) <= old(Stale(policy.queues.InMemory(), cache.index))
    {
      var told := |cache.notices|;
      cache.SqueezeVictims(victims);
      ghost var ids := set v | v in victims;
      RoundLowersRank(old(cache.index), cache.index, ids);
      BackingKept(old(cache.index), cache.index, ids, old(cache.disk), cache.disk, id, batch);
      RoundIsComplete(old(cache.index), cache.index, cache.notices[told..], ids);
      Deliver(told, old(cache.index));
    }

    /** Insertion with the default policy terminates, whatever the batch, the budget
        and the history of the cache. */
    method InsertInner(id: EntryId, batch: CacheEntry, ghost rows: Rows)
      requires policy.Valid() && cache.Awaits(id, batch, rows)
      modifies cache, policy
      ensures Valid() && cache.contents == old(cache.contents)[id := rows]
    {
      var toCache := batch;
      while true
        invariant policy.Valid() && cache.Awaits(id, toCache, rows) && cache.contents == old(cache.contents)
        decreases RankTotal(cache.index) + toCache.Rank(), Stale(policy.queues.InMemory(), cache.index)
      {
        var told := |cache.notices|;
        ghost var start := cache.index;
        var ok := cache.TryInsert(id, toCache, rows);
        if ok {
          InsertIsComplete(start, cache.index, cache.notices[told..], id, toCache);
          Deliver(told, start);
          break;
        }
        toCache := MakeRoom(id, toCache, rows);
      }
    }
  }

  lemma InsertIsComplete(start: Index, index: Index, delta: seq<Notice>, id: EntryId, e: CacheEntry)
    requires index == start[id := e] && delta == [Notice(id, e.Type())]
    ensures Complete(start, index, delta)
  {
    assert Heard(start, index, delta, 1) == Heard(start, index, delta, 0)[id := e];
  }
}
