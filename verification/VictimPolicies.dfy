/** The default replacement policy: one first-in-first-out queue per representation
    and a map that knows in which queue an id is. */
module VictimPolicies {
  import opened Common
  import opened CacheEntries

  /** The queue an entry belongs to. */
  datatype Kind = ArrowQueue | LiquidQueue | SqueezedQueue | DiskQueue

  function KindOf(t: CachedBatchType): Kind {
    match t
    case ArrowType => ArrowQueue
    case LiquidType => LiquidQueue
    case SqueezedType => SqueezedQueue
    case DiskLiquidType => DiskQueue
    case DiskArrowType => DiskQueue
  }

  datatype Queues = Queues(arrow: seq<EntryId>, liquid: seq<EntryId>, squeezed: seq<EntryId>, disk: seq<EntryId>) {
    /** The ids that may be advised, in the order of the advice. */
    function InMemory(): seq<EntryId> { arrow + liquid + squeezed }

    function Of(kind: Kind): seq<EntryId> {
      match kind
      case ArrowQueue => arrow
      case LiquidQueue => liquid
      case SqueezedQueue => squeezed
      case DiskQueue => disk
    }

    function With(kind: Kind, q: seq<EntryId>): (r: Queues)
      ensures r.Of(kind) == q && forall k :: k != kind ==> r.Of(k) == Of(k)
    {
      match kind
      case ArrowQueue => Queues(q, liquid, squeezed, disk)
      case LiquidQueue => Queues(arrow, q, squeezed, disk)
      case SqueezedQueue => Queues(arrow, liquid, q, disk)
      case DiskQueue => Queues(arrow, liquid, squeezed, q)
    }
  }

  /** The queue without that id, the others in their order. */
  function Without(q: seq<EntryId>, id: EntryId): seq<EntryId> {
    if q == [] then [] else (if q[0] == id then [] else [q[0]]) + Without(q[1..], id)
  }

  /** The id last in the queue of its kind, absent from the other queues, and the
      order of all other ids kept. */
  ghost predicate Moved(before: Queues, after: Queues, id: EntryId, kind: Kind) {
    forall k :: after.Of(k) == Without(before.Of(k), id) + if k == kind then [id] else []
  }

  ghost predicate NoRepeats(q: seq<EntryId>) {
    forall i, j :: 0 <= i < j < |q| ==> q[i] != q[j]
  }

  lemma {:induction false} WithoutMembers(q: seq<EntryId>, id: EntryId)
    ensures forall k :: k in Without(q, id) <==> k in q && k != id
  {
    if q != [] {
      WithoutMembers(q[1..], id);
    }
  }

  lemma {:induction false} WithoutAbsent(q: seq<EntryId>, id: EntryId)
    requires id !in q
    ensures Without(q, id) == q
  {
    if q != [] {
      WithoutAbsent(q[1..], id);
    }
  }

  /** Unlinking the only occurrence is taking the id out. */
  lemma {:induction false} WithoutOnce(q: seq<EntryId>, i: nat)
    requires NoRepeats(q) && i < |q|
    ensures Without(q, q[i]) == q[..i] + q[i + 1..]
  {
    if i == 0 {
      assert q[0] !in q[1..];
      WithoutAbsent(q[1..], q[0]);
    } else {
      WithoutOnce(q[1..], i - 1);
      assert q[..i] == [q[0]] + q[1..][..i - 1];
    }
  }

  lemma {:induction false} WithoutNoRepeats(q: seq<EntryId>, id: EntryId)
    requires NoRepeats(q)
    ensures NoRepeats(Without(q, id))
  {
    if q != [] {
      WithoutNoRepeats(q[1..], id);
      WithoutMembers(q[1..], id);
      assert q[0] !in q[1..];
    }
  }

  lemma ConcatNoRepeats(a: seq<EntryId>, b: seq<EntryId>)
    requires NoRepeats(a) && NoRepeats(b) && forall id :: id in a ==> id !in b
    ensures NoRepeats(a + b)
  {
    forall i, j | 0 <= i < j < |a + b| ensures (a + b)[i] != (a + b)[j] {
      assert i < |a| ==> a[i] in a;
      assert j >= |a| ==> b[j - |a|] in b;
    }
  }

  method IndexOf(q: seq<EntryId>, id: EntryId) returns (i: nat)
    requires id in q
    ensures i < |q| && q[i] == id
  {
    i := 0;
    while q[i] != id
      invariant i < |q| && id in q[i..]
      decreases |q| - i
    {
      i := i + 1;
    }
  }

  /** Every known id is queued exactly once, in the queue that the map names. */
  ghost predicate Consistent(queues: Queues, where: map<EntryId, Kind>) {
    && (forall k, id :: id in queues.Of(k) ==> id in where && where[id] == k)
    && (forall k :: NoRepeats(queues.Of(k)))
    && (forall id :: id in where ==> id in queues.Of(where[id]))
  }

  class LiquidPolicy {
    var queues: Queues
    var where: map<EntryId, Kind>

    ghost predicate Valid()
      reads this
    {
      Consistent(queues, where)
    }

    constructor ()
      ensures Valid() && queues == Queues([], [], [], []) && where == map[]
    {
      queues, where := Queues([], [], [], []), map[];
    }

    /** Unlinks a known id from the one queue that the map names. */
    method Detach(id: EntryId)
      requires Valid() && id in where
      modifies this`queues
      ensures forall k :: queues.Of(k) == Without(old(queues).Of(k), id)
    {
      var kind := where[id];
      var q := queues.Of(kind);
      var i := IndexOf(q, id);
      queues := queues.With(kind, q[..i] + q[i + 1..]);
      DetachIsWithout(old(queues), where, id, i);
    }

    /** Moves the id to the back of the queue of its new representation. */
    method NotifyInsert(id: EntryId, batchType: CachedBatchType)
      requires Valid()
      modifies this
      ensures Valid() && Moved(old(queues), queues, id, KindOf(batchType))
      ensures queues.arrow == Without(old(queues).arrow, id) + if batchType.ArrowType? then [id] else []
      ensures queues.liquid == Without(old(queues).liquid, id) + if batchType.LiquidType? then [id] else []
      ensures queues.squeezed == Without(old(queues).squeezed, id) + if batchType.SqueezedType? then [id] else []
      ensures queues.disk == Without(old(queues).disk, id) + if batchType.DiskLiquidType? || batchType.DiskArrowType? then [id] else []
      ensures where == old(where)[id := KindOf(batchType)]
    {
      var target := KindOf(batchType);
      if id in where {
        Detach(id);
      } else {
        UnknownIsAbsent(queues, where, id);
      }
      queues := queues.With(target, queues.Of(target) + [id]);
      where := where[id := target];
      QueuesAreFour(queues);
      QueuesAreFour(old(queues));
      MovedConsistent(old(queues), old(where), queues, id, target);
    }

    /** Pops the head of a queue and forgets it. */
    method PopFront(kind: Kind) returns (id: Option<EntryId>)
      requires Valid()
      modifies this
      ensures Valid()
      ensures id == if old(queues).Of(kind) == [] then None else Some(old(queues).Of(kind)[0])
      ensures id.None? ==> queues == old(queues) && where == old(where)
      ensures id.Some? ==> queues == old(queues).With(kind, old(queues).Of(kind)[1..]) && where == old(where) - {id.value}
    {
      var q := queues.Of(kind);
      if q == [] {
        return None;
      }
      PopConsistent(queues, where, kind);
      id := Some(q[0]);
      where := where - {q[0]};
      queues := queues.With(kind, q[1..]);
    }

    /** Pops up to `count` ids: Arrow entries first, then Liquid, then squeezed,
        never one that is on disk. */
    method FindVictim(count: nat) returns (victims: seq<EntryId>)
      requires Valid()
      modifies this
      ensures Valid() && |victims| <= count
      ensures victims + queues.InMemory() == old(queues).InMemory() && queues.disk == old(queues).disk
      ensures Advised(old(queues), victims)
      ensures |victims| == count || queues.InMemory() == []
    {
      victims := [];
      while |victims| < count
        invariant Valid() && |victims| <= count
        invariant victims + queues.InMemory() == old(queues).InMemory() && queues.disk == old(queues).disk
        decreases count - |victims|
      {
        var next := PopNext();
        if next.None? {
          break;
        }
        Associate(victims, [next.value], queues.InMemory());
        victims := victims + [next.value];
      }
      AdvisedInOrder(old(queues), victims, queues.InMemory());
    }

    method PopNext() returns (id: Option<EntryId>)
      requires Valid()
      modifies this
      ensures Valid() && queues.disk == old(queues).disk
      ensures id.None? ==> old(queues).InMemory() == [] && queues == old(queues)
      ensures id.Some? ==> [id.value] + queues.InMemory() == old(queues).InMemory()
    {
      id := PopFront(ArrowQueue);
      if id.Some? {
        HeadIsNext(old(queues), ArrowQueue);
        return;
      }
      id := PopFront(LiquidQueue);
      if id.Some? {
        HeadIsNext(old(queues), LiquidQueue);
        return;
      }
      id := PopFront(SqueezedQueue);
      if id.Some? {
        HeadIsNext(old(queues), SqueezedQueue);
      }
    }
  }

  /** Victims are named Arrow first, then Liquid, then squeezed, each in queue order. */
  ghost predicate Advised(q: Queues, victims: seq<EntryId>) {
    && |victims| <= |q.arrow| + |q.liquid| + |q.squeezed|
    && (forall i :: 0 <= i < |victims| && i < |q.arrow| ==> victims[i] == q.arrow[i])
    && (forall i :: 0 <= i < |q.liquid| && |q.arrow| + i < |victims| ==> victims[|q.arrow| + i] == q.liquid[i])
    && (forall i :: 0 <= i < |q.squeezed| && |q.arrow| + |q.liquid| + i < |victims| ==>
         victims[|q.arrow| + |q.liquid| + i] == q.squeezed[i])
  }

  lemma AdvisedInOrder(q: Queues, victims: seq<EntryId>, rest: seq<EntryId>)
    requires victims + rest == q.InMemory()
    ensures Advised(q, victims)
  {
    assert forall i :: 0 <= i < |victims| ==> victims[i] == q.InMemory()[i];
  }

  lemma QueuesAreFour(queues: Queues)
    ensures queues.Of(ArrowQueue) == queues.arrow && queues.Of(LiquidQueue) == queues.liquid
    ensures queues.Of(SqueezedQueue) == queues.squeezed && queues.Of(DiskQueue) == queues.disk
  {
  }

  lemma DetachIsWithout(queues: Queues, where: map<EntryId, Kind>, id: EntryId, i: nat)
    requires Consistent(queues, where) && id in where && i < |queues.Of(where[id])| && queues.Of(where[id])[i] == id
    ensures var q := queues.Of(where[id]);
      forall k :: queues.With(where[id], q[..i] + q[i + 1..]).Of(k) == Without(queues.Of(k), id)
  {
    forall k ensures k != where[id] ==> Without(queues.Of(k), id) == queues.Of(k) {
      if k != where[id] {
        WithoutAbsent(queues.Of(k), id);
      }
    }
    WithoutOnce(queues.Of(where[id]), i);
  }

  lemma UnknownIsAbsent(queues: Queues, where: map<EntryId, Kind>, id: EntryId)
    requires Consistent(queues, where) && id !in where
    ensures forall k :: Without(queues.Of(k), id) == queues.Of(k)
  {
    forall k ensures Without(queues.Of(k), id) == queues.Of(k) {
      WithoutAbsent(queues.Of(k), id);
    }
  }

  lemma MovedConsistent(before: Queues, where: map<EntryId, Kind>, after: Queues, id: EntryId, kind: Kind)
    requires Consistent(before, where) && Moved(before, after, id, kind)
    ensures Consistent(after, where[id := kind])
  {
    forall k ensures NoRepeats(after.Of(k)) && forall x :: x in after.Of(k) <==> (x in before.Of(k) && x != id) || (x == id && k == kind) {
      var q := Without(before.Of(k), id);
      WithoutMembers(before.Of(k), id);
      WithoutNoRepeats(before.Of(k), id);
      assert forall i :: 0 <= i < |q| ==> q[i] in q && (q + [id])[i] == q[i];
      assert after.Of(k) == q || after.Of(k) == q + [id];
    }
  }

  lemma TailMembers(q: seq<EntryId>)
    requires NoRepeats(q) && q != []
    ensures NoRepeats(q[1..]) && forall id :: id in q[1..] <==> id in q && id != q[0]
  {
    assert forall i :: 0 <= i < |q| - 1 ==> q[1..][i] == q[i + 1] != q[0];
    forall id | id in q && id != q[0] ensures id in q[1..] {
      var i :| 0 <= i < |q| && q[i] == id;
      assert q[1..][i - 1] == id;
    }
  }

  lemma RemovedConsistent(before: Queues, where: map<EntryId, Kind>, after: Queues, id: EntryId)
    requires Consistent(before, where)
    requires forall k :: NoRepeats(after.Of(k)) && forall x :: x in after.Of(k) <==> x in before.Of(k) && x != id
    ensures Consistent(after, where - {id})
  {
  }

  lemma PopMembers(queues: Queues, where: map<EntryId, Kind>, kind: Kind, k: Kind)
    requires Consistent(queues, where) && queues.Of(kind) != []
    ensures var q, after := queues.Of(kind), queues.With(kind, queues.Of(kind)[1..]);
      NoRepeats(after.Of(k)) && forall x :: x in after.Of(k) <==> x in queues.Of(k) && x != q[0]
  {
    var q := queues.Of(kind);
    TailMembers(q);
    if k != kind {
      assert q[0] in q && where[q[0]] == kind;
      assert q[0] !in queues.Of(k);
      assert NoRepeats(queues.Of(k));
    }
  }

  lemma PopConsistent(queues: Queues, where: map<EntryId, Kind>, kind: Kind)
    requires Consistent(queues, where) && queues.Of(kind) != []
    ensures Consistent(queues.With(kind, queues.Of(kind)[1..]), where - {queues.Of(kind)[0]})
  {
    var after := queues.With(kind, queues.Of(kind)[1..]);
    forall k ensures NoRepeats(after.Of(k)) && forall x :: x in after.Of(k) <==> x in queues.Of(k) && x != queues.Of(kind)[0] {
      PopMembers(queues, where, kind, k);
    }
    RemovedConsistent(queues, where, after, queues.Of(kind)[0]);
  }

  lemma TakeHead(a: seq<EntryId>, b: seq<EntryId>, c: seq<EntryId>)
    requires a != []
    ensures [a[0]] + (a[1..] + b + c) == a + b + c
  {
  }

  /** The head of the first queue that is not empty heads the advice. */
  lemma HeadIsNext(q: Queues, kind: Kind)
    requires q.Of(kind) != [] && !kind.DiskQueue?
    requires (kind.ArrowQueue? || q.arrow == []) && (kind.SqueezedQueue? ==> q.liquid == [])
    ensures [q.Of(kind)[0]] + q.With(kind, q.Of(kind)[1..]).InMemory() == q.InMemory()
  {
    match kind
    case ArrowQueue =>
      TakeHead(q.arrow, q.liquid, q.squeezed);
    case LiquidQueue =>
      TakeHead(q.liquid, q.squeezed, []);
      assert [] + q.liquid[1..] + q.squeezed == q.liquid[1..] + q.squeezed + [];
      assert [] + q.liquid + q.squeezed == q.liquid + q.squeezed + [];
    case SqueezedQueue =>
      TakeHead(q.squeezed, [], []);
      assert [] + [] + q.squeezed[1..] == q.squeezed[1..] + [] + [];
      assert [] + [] + q.squeezed == q.squeezed + [] + [];
  }
}
