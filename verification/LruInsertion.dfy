/** The cache together with the LRU policy, which also tracks and advises entries
    that are on disk: exactly when the insertion loop ends. */
module LruInsertion {
  import opened Common
  import opened MapSums
  import opened CacheEntries
  import opened SqueezeRounds
  import opened CacheStore
  import opened VictimPolicies

  // ----- the policy -----

  /** The ids, most recently used first. */
  class LruPolicy {
    var recency: seq<EntryId>

    ghost predicate Valid()
      reads this
    {
      NoRepeats(recency)
    }

    constructor ()
      ensures Valid() && recency == []
    {
      recency := [];
    }

    /** Pops from the cold end, coldest first. */
    method FindVictim(count: nat) returns (victims: seq<EntryId>)
      requires Valid()
      modifies this
      ensures Valid() && |victims| == (if count <= |old(recency)| then count else |old(recency)|)
      ensures recency == old(recency)[..|old(recency)| - |victims|]
      ensures forall i :: 0 <= i < |victims| ==> victims[i] == old(recency)[|old(recency)| - 1 - i]
    {
      victims := [];
      for n := 0 to count
        invariant Valid() && |victims| == n <= |old(recency)|
        invariant recency == old(recency)[..|old(recency)| - n]
        invariant forall i :: 0 <= i < n ==> victims[i] == old(recency)[|old(recency)| - 1 - i]
      {
        if recency == [] {
          break;
        }
        victims := victims + [recency[|recency| - 1]];
        recency := recency[..|recency| - 1];
      }
    }

    /** The id is in front; the order of the others is kept. */
    method NotifyInsert(id: EntryId)
      requires Valid()
      modifies this
      ensures Valid() && recency == [id] + Without(old(recency), id)
    {
      WithoutMembers(recency, id);
      WithoutNoRepeats(recency, id);
      if id in recency {
        var i := IndexOf(recency, id);
        WithoutOnce(recency, i);
        recency := [id] + (recency[..i] + recency[i + 1..]);
      } else {
        WithoutAbsent(recency, id);
        recency := [id] + recency;
      }
      ConcatNoRepeats([id], Without(old(recency), id));
    }
  }

  // ----- the insertion loop as a transition system -----

  /** A pending batch in the insertion loop. */
  datatype LruLoop = LruLoop(index: Index, max: nat, recency: seq<EntryId>, id: EntryId, pending: CacheEntry)

  ghost predicate Refused(s: LruLoop) {
    !HasRoom(s.index, s.id, s.pending, s.max)
  }

  /** The budget holds and every resident entry is tracked. A reset may have left
      ids in the list that are cached no more. */
  ghost predicate LoopInv(s: LruLoop) {
    && NoRepeats(s.recency) && MemoryTotal(s.index) <= s.max
    && forall id :: IsResident(s.index, id) ==> id in s.recency
  }

  /** How many ids `find_victim(8)` takes. */
  function Taken(recency: seq<EntryId>): (k: nat)
    ensures k <= |recency| && (k == 0 <==> recency == [])
  {
    if |recency| < 8 then |recency| else 8
  }

  function Warm(recency: seq<EntryId>): seq<EntryId> { recency[..|recency| - Taken(recency)] }

  function Cold(recency: seq<EntryId>): seq<EntryId> { recency[|recency| - Taken(recency)..] }

  /** The victims that are cached come back in front, in any order. */
  ghost predicate Requeued(index: Index, recency: seq<EntryId>, front: seq<EntryId>) {
    NoRepeats(front) && forall id :: id in front <==> id in Cold(recency) && id in index
  }

  /** One round after a refusal, for any outcome of squeezing. */
  ghost predicate LruStep(s: LruLoop, s': LruLoop) {
    && Refused(s) && s'.max == s.max && s'.id == s.id
    && if s.recency == [] then
         && s'.index == s.index && s'.recency == []
         && s'.pending.Rank() < s.pending.Rank()
       else
         && s'.pending == s.pending
         && RoundDone(s.index, s'.index, set id | id in Cold(s.recency)) && MemoryTotal(s'.index) <= s.max
         && exists front :: Requeued(s.index, s.recency, front) && s'.recency == front + Warm(s.recency)
  }

  /** Some tracked id is cached, in memory or on disk. */
  ghost predicate Tracked(s: LruLoop) {
    exists id :: id in s.recency && id in s.index
  }

  /** What decides whether the loop ends. */
  ghost predicate Fits(s: LruLoop) {
    s.pending.MemoryUsageBytes() <= s.max || !Tracked(s)
  }

  /** The ids at the cold end before the coldest resident one. */
  function Trailing(recency: seq<EntryId>, index: Index): nat {
    if recency == [] || IsResident(index, recency[|recency| - 1]) then 0
    else 1 + Trailing(recency[..|recency| - 1], index)
  }

  lemma {:induction false} TrailingAfter(a: seq<EntryId>, b: seq<EntryId>, index: Index)
    ensures (exists id :: id in b && IsResident(index, id)) ==> Trailing(a + b, index) == Trailing(b, index)
    ensures (forall id :: id in b ==> !IsResident(index, id)) ==> Trailing(a + b, index) == |b| + Trailing(a, index)
  {
    if b == [] {
      assert a + b == a;
    } else {
      var n := |b| - 1;
      assert (a + b)[..|a + b| - 1] == a + b[..n];
      assert b == b[..n] + [b[n]];
      TrailingAfter(a, b[..n], index);
    }
  }

  /** A refusal of a batch within the limit is due to another resident entry. */
  lemma RefusalHasCause(s: LruLoop) returns (k: EntryId)
    requires Refused(s) && s.pending.MemoryUsageBytes() <= s.max
    ensures IsResident(s.index, k)
  {
    var others := ResidentSizes(s.index - {s.id});
    if others == map[] {
      SumZero(others);
      assert false;
    }
    k :| k in others;
  }

  lemma {:induction false} SameMembersSameLength(a: seq<EntryId>, b: seq<EntryId>)
    requires NoRepeats(a) && NoRepeats(b) && forall id :: id in a ==> id in b
    ensures |a| <= |b| && ((exists id :: id in b && id !in a) ==> |a| < |b|)
  {
    if a != [] {
      var head, b' := a[0], Without(b, a[0]);
      assert a == [head] + a[1..];
      TailMembers(a);
      WithoutMembers(b, head);
      WithoutNoRepeats(b, head);
      var i := PositionOf(b, head);
      WithoutOnce(b, i);
      SameMembersSameLength(a[1..], b');
    }
  }

  lemma PositionOf(q: seq<EntryId>, id: EntryId) returns (i: nat)
    requires id in q
    ensures i < |q| && q[i] == id
  {
    i :| 0 <= i < |q| && q[i] == id;
  }

  lemma SplitRecency(recency: seq<EntryId>)
    requires NoRepeats(recency)
    ensures Warm(recency) + Cold(recency) == recency && |Cold(recency)| == Taken(recency)
    ensures NoRepeats(Warm(recency)) && NoRepeats(Cold(recency))
    ensures forall id :: id in recency <==> id in Warm(recency) || id in Cold(recency)
    ensures forall id :: id in Warm(recency) ==> id !in Cold(recency)
  {
    assert recency == Warm(recency) + Cold(recency);
  }

  /** After a round the list holds the same ids, without those cached no more. */
  lemma RequeuedMembers(index: Index, recency: seq<EntryId>, front: seq<EntryId>)
    requires NoRepeats(recency) && Requeued(index, recency, front)
    ensures NoRepeats(front + Warm(recency))
    ensures forall id :: id in index ==> (id in front + Warm(recency) <==> id in recency)
    ensures forall id :: id in front + Warm(recency) ==> id in recency
  {
    SplitRecency(recency);
    ConcatNoRepeats(front, Warm(recency));
    assert forall id :: id in front + Warm(recency) <==> id in front || id in Warm(recency);
  }

  lemma StepKeepsInv(s: LruLoop, s': LruLoop)
    requires LoopInv(s) && LruStep(s, s')
    ensures LoopInv(s') && s'.max == s.max
    ensures s.recency != [] ==> s'.pending == s.pending && (Tracked(s) <==> Tracked(s'))
  {
    if s.recency != [] {
      var front :| Requeued(s.index, s.recency, front) && s'.recency == front + Warm(s.recency);
      RequeuedMembers(s.index, s.recency, front);
      forall id | IsResident(s'.index, id) ensures id in s'.recency {
        assert IsResident(s.index, id);
      }
      if Tracked(s) {
        var id :| id in s.recency && id in s.index;
        assert id in s'.recency && id in s'.index;
      }
      if Tracked(s') {
        var id :| id in s'.recency && id in s'.index;
        assert id in s.recency && id in s.index;
      }
    }
  }

  // ----- the loop ends -----

  /** A round that squeezes nobody leaves the index alone. */
  lemma NobodySqueezed(start: Index, index: Index, ids: set<EntryId>)
    requires RoundDone(start, index, ids) && forall id :: id in ids ==> !IsResident(start, id)
    ensures index == start
  {
    forall id | id in index ensures index[id] == start[id] {
    }
  }

  /** It then forgets an id, or brings the coldest resident one nearer. */
  lemma RotationProgress(index: Index, recency: seq<EntryId>, front: seq<EntryId>)
    requires NoRepeats(recency) && recency != [] && Requeued(index, recency, front)
    requires forall id :: id in Cold(recency) ==> !IsResident(index, id)
    requires (exists id :: id in Warm(recency) && IsResident(index, id)) || exists id :: id in Cold(recency) && id !in index
    ensures |front + Warm(recency)| < |recency| ||
      (|front + Warm(recency)| == |recency| && Trailing(front + Warm(recency), index) < Trailing(recency, index))
  {
    SplitRecency(recency);
    SameMembersSameLength(front, Cold(recency));
    TrailingAfter(front, Warm(recency), index);
    TrailingAfter(Warm(recency), Cold(recency), index);
  }

  ghost function Ranks(s: LruLoop): nat { RankTotal(s.index) + s.pending.Rank() }

  /** The rank sum drops, or the list gets shorter, or the coldest resident entry
      gets nearer to the cold end. */
  ghost predicate Progress(s: LruLoop, s': LruLoop) {
    || Ranks(s') < Ranks(s)
    || (Ranks(s') == Ranks(s) && |s'.recency| < |s.recency|)
    || (Ranks(s') == Ranks(s) && |s'.recency| == |s.recency| && Trailing(s'.recency, s'.index) < Trailing(s.recency, s.index))
  }

  lemma StepProgress(s: LruLoop, s': LruLoop)
    requires LoopInv(s) && Fits(s) && LruStep(s, s')
    ensures Fits(s') && Progress(s, s')
  {
    StepKeepsInv(s, s');
    if s.recency != [] {
      var ids := set id | id in Cold(s.recency);
      RoundLowersRank(s.index, s'.index, ids);
      if forall id :: id in ids ==> !IsResident(s.index, id) {
        NobodySqueezed(s.index, s'.index, ids);
        var front :| Requeued(s.index, s.recency, front) && s'.recency == front + Warm(s.recency);
        SomethingToDo(s);
        RotationProgress(s.index, s.recency, front);
      }
    }
  }

  /** While the loop can end, a refusal leaves a resident entry or an id to forget. */
  lemma SomethingToDo(s: LruLoop)
    requires LoopInv(s) && Fits(s) && Refused(s) && s.recency != []
    requires forall id :: id in Cold(s.recency) ==> !IsResident(s.index, id)
    ensures (exists id :: id in Warm(s.recency) && IsResident(s.index, id)) || exists id :: id in Cold(s.recency) && id !in s.index
  {
    SplitRecency(s.recency);
    if s.pending.MemoryUsageBytes() <= s.max {
      var k := RefusalHasCause(s);
      assert k in s.recency && k in Warm(s.recency);
    } else {
      var id := Cold(s.recency)[0];
      assert id in Cold(s.recency) && id in s.recency;
    }
  }

  // ----- exactly when -----

  /** An infinite run of the loop. */
  ghost predicate Runs(f: nat -> LruLoop, s: LruLoop) {
    f(0) == s && forall i: nat :: StepAt(f, i)
  }

  ghost predicate StepAt(f: nat -> LruLoop, i: nat) {
    LruStep(f(i), f(i + 1))
  }

  ghost predicate Terminates(s: LruLoop) {
    forall f: nat -> LruLoop :: !Runs(f, s)
  }

  lemma {:induction false} NoInfiniteRun(f: nat -> LruLoop, s: LruLoop, i: nat)
    requires Runs(f, s) && LoopInv(f(i)) && Fits(f(i))
    ensures false
    decreases Ranks(f(i)), |f(i).recency|, Trailing(f(i).recency, f(i).index)
  {
    assert StepAt(f, i);
    StepKeepsInv(f(i), f(i + 1));
    StepProgress(f(i), f(i + 1));
    NoInfiniteRun(f, s, i + 1);
  }

  /** The state in which a batch larger than the budget is pending while something
      tracked is cached. */
  ghost predicate Livelocked(s: LruLoop) {
    LoopInv(s) && s.pending.MemoryUsageBytes() > s.max && Tracked(s)
  }

  /** Whatever squeezing does, such a batch is refused and the state is such again. */
  lemma LivelockPersists(s: LruLoop)
    requires Livelocked(s)
    ensures Refused(s) && s.recency != []
    ensures forall s' :: LruStep(s, s') ==> Livelocked(s') && s'.pending == s.pending
  {
    forall s' | LruStep(s, s') ensures Livelocked(s') && s'.pending == s.pending {
      StepKeepsInv(s, s');
    }
  }

  function Cached(q: seq<EntryId>, index: Index): seq<EntryId> {
    if q == [] then [] else (if q[0] in index then [q[0]] else []) + Cached(q[1..], index)
  }

  lemma {:induction false} CachedMembers(q: seq<EntryId>, index: Index)
    requires NoRepeats(q)
    ensures NoRepeats(Cached(q, index)) && forall id :: id in Cached(q, index) <==> id in q && id in index
  {
    if q != [] {
      TailMembers(q);
      assert q == [q[0]] + q[1..];
      CachedMembers(q[1..], index);
    }
  }

  /** Every resident victim goes to disk. */
  function Evicted(index: Index, cold: seq<EntryId>): Index {
    map id | id in index :: if id in cold && !index[id].OnDisk() then DiskArrow else index[id]
  }

  lemma EvictedIsRound(index: Index, cold: seq<EntryId>)
    ensures RoundDone(index, Evicted(index, cold), set id | id in cold)
    ensures MemoryTotal(Evicted(index, cold)) <= MemoryTotal(index)
  {
    UsageIsResidentSize(Evicted(index, cold));
    UsageIsResidentSize(index);
    SumMonotone(MemoryMap(Evicted(index, cold)), MemoryMap(index));
  }

  function Rotate(s: LruLoop): LruLoop {
    var cold := Cold(s.recency);
    s.(index := Evicted(s.index, cold), recency := Cached(cold, s.index) + Warm(s.recency))
  }

  lemma RotateIsStep(s: LruLoop)
    requires Livelocked(s)
    ensures LruStep(s, Rotate(s)) && Livelocked(Rotate(s))
  {
    LivelockPersists(s);
    SplitRecency(s.recency);
    var cold := Cold(s.recency);
    CachedMembers(cold, s.index);
    EvictedIsRound(s.index, cold);
    assert Requeued(s.index, s.recency, Cached(cold, s.index));
  }

  function Rotations(s: LruLoop, n: nat): LruLoop {
    if n == 0 then s else Rotate(Rotations(s, n - 1))
  }

  lemma {:induction false} RotationsLivelocked(s: LruLoop, n: nat)
    requires Livelocked(s)
    ensures Livelocked(Rotations(s, n))
  {
    if n > 0 {
      RotationsLivelocked(s, n - 1);
      RotateIsStep(Rotations(s, n - 1));
    }
  }

  lemma RotatesForever(s: LruLoop)
    requires Livelocked(s)
    ensures !Terminates(s)
  {
    var f: nat -> LruLoop := (n: nat) => Rotations(s, n);
    forall i: nat ensures StepAt(f, i) {
      RotationsLivelocked(s, i);
      RotateIsStep(Rotations(s, i));
      assert f(i + 1) == Rotate(f(i));
    }
    assert Runs(f, s);
  }

  /** Exactly when the insertion loop ends with the LRU policy: the batch is within
      the budget, or nothing that the policy tracks is cached. */
  lemma LruEndsExactly(s: LruLoop)
    requires LoopInv(s)
    ensures Terminates(s) <==> Fits(s)
  {
    if Fits(s) {
      forall f: nat -> LruLoop ensures !Runs(f, s) {
        if Runs(f, s) {
          NoInfiniteRun(f, s, 0);
        }
      }
    } else {
      RotatesForever(s);
    }
  }

  /** Without resets the list holds exactly the cached ids; then the loop ends if
      and only if the batch is within the budget or the cache is empty. */
  lemma LruEndsWithoutResets(s: LruLoop)
    requires LoopInv(s) && forall id :: id in s.recency <==> id in s.index
    ensures Terminates(s) <==> s.pending.MemoryUsageBytes() <= s.max || s.recency == []
  {
    LruEndsExactly(s);
    if s.recency != [] {
      assert s.recency[0] in s.recency;
    }
  }

  /** In every run from such a state the batch is refused again and again. */
  lemma {:induction false} LruLivelock(states: seq<LruLoop>, i: nat)
    requires i < |states| && Livelocked(states[0])
    requires forall j :: 0 <= j < |states| - 1 ==> LruStep(states[j], states[j + 1])
    ensures Livelocked(states[i]) && Refused(states[i]) && states[i].pending == states[0].pending
  {
    if i > 0 {
      LruLivelock(states, i - 1);
      assert LruStep(states[i - 1], states[i]);
      LivelockPersists(states[i - 1]);
    }
    LivelockPersists(states[i]);
  }

  // ----- the cache with this policy -----

  class LruBackedCache {
    const cache: LiquidCache
    const policy: LruPolicy

    /** Every resident entry is tracked. */
    ghost predicate Tracking()
      reads this, cache, policy
    {
      policy.Valid() && forall id :: IsResident(cache.index, id) ==> id in policy.recency
    }

    ghost predicate Valid()
      reads this, cache, policy
    {
      cache.Valid() && Tracking()
    }

    ghost function Loop(id: EntryId, pending: CacheEntry): LruLoop
      reads this, cache, policy
    {
      LruLoop(cache.index, cache.maxMemoryBytes, policy.recency, id, pending)
    }

    constructor (maxMemoryBytes: nat, squeezePolicy: SqueezePolicy)
      ensures Valid() && fresh(cache) && fresh(policy)
      ensures cache.maxMemoryBytes == maxMemoryBytes && cache.contents == map[] && policy.recency == []
    {
      cache := new LiquidCache(maxMemoryBytes, squeezePolicy);
      policy := new LruPolicy();
    }

    /** Passes the notices from number `told` on to the policy; none of them is
        about a tracked id. */
    method Deliver(told: nat)
      requires policy.Valid() && told <= |cache.notices|
      requires NoRepeats(Newest(cache.notices[told..]))
      requires forall id :: id in Newest(cache.notices[told..]) ==> id !in policy.recency
      modifies policy
      ensures policy.Valid() && policy.recency == Newest(cache.notices[told..]) + old(policy.recency)
    {
      ghost var delta := cache.notices[told..];
      for n := told to |cache.notices|
        invariant policy.Valid() && policy.recency == Newest(delta[..n - told]) + old(policy.recency)
      {
        NextIsNew(delta, n - told, old(policy.recency));
        WithoutAbsent(policy.recency, delta[n - told].id);
        policy.NotifyInsert(cache.notices[n].id);
      }
      assert delta[..|delta|] == delta;
    }

    method Coldest() returns (victims: seq<EntryId>)
      requires policy.Valid()
      modifies policy
      ensures policy.Valid() && NoRepeats(victims) && policy.recency == Warm(old(policy.recency))
      ensures (set v | v in victims) == (set v | v in Cold(old(policy.recency)))
    {
      victims := policy.FindVictim(8);
      AdviceIsCold(old(policy.recency), victims);
    }

    /** Squeezes the coldest ids and requeues those that are cached. */
    method SqueezeColdest() returns (ghost front: seq<EntryId>)
      requires Valid() && policy.recency != []
      modifies cache`index, cache`entryCount, cache`usedMemoryBytes, cache`disk, cache`notices, policy
      ensures cache.Valid() && policy.Valid()
      ensures RoundDone(old(cache.index), cache.index, set v | v in Cold(old(policy.recency)))
      ensures Requeued(old(cache.index), old(policy.recency), front) && policy.recency == front + Warm(old(policy.recency))
      ensures FilesKept(old(cache.index), old(cache.disk), cache.disk)
    {
      ghost var recency := policy.recency;
      var victims := Coldest();
      var told := |cache.notices|;
      cache.SqueezeVictims(victims);
      ghost var delta := cache.notices[told..];
      NewestRequeues(old(cache.index), cache.index, recency, delta, set v | v in victims);
      Deliver(told);
      front := Newest(delta);
    }

    /** One round of the insertion loop is a step of the transition system. */
    method Round(id: EntryId, batch: CacheEntry, ghost rows: Rows) returns (e': CacheEntry)
      requires Tracking() && cache.Awaits(id, batch, rows) && !batch.OnDisk() && Refused(Loop(id, batch))
      modifies cache`index, cache`entryCount, cache`usedMemoryBytes, cache`disk, cache`notices, policy
      ensures policy.Valid() && cache.Awaits(id, e', rows)
      ensures LruStep(old(Loop(id, batch)), Loop(id, e'))
    {
      if policy.recency == [] {
        var victims := policy.FindVictim(8);
        e' := cache.WriteInMemoryBatchToDisk(id, batch, rows);
      } else {
        ghost var recency := policy.recency;
        ghost var front := SqueezeColdest();
        BackingKept(old(cache.index), cache.index, set v | v in Cold(recency), old(cache.disk), cache.disk, id, batch);
        e' := batch;
      }
    }

    method NextRound(id: EntryId, batch: CacheEntry, ghost rows: Rows) returns (e': CacheEntry)
      requires Tracking() && cache.Awaits(id, batch, rows) && !batch.OnDisk() && Refused(Loop(id, batch)) && Fits(Loop(id, batch))
      modifies cache`index, cache`entryCount, cache`usedMemoryBytes, cache`disk, cache`notices, policy
      ensures Tracking() && cache.Awaits(id, e', rows)
      ensures Fits(Loop(id, e')) && Progress(old(Loop(id, batch)), Loop(id, e'))
    {
      e' := Round(id, batch, rows);
      StepKeepsInv(old(Loop(id, batch)), Loop(id, e'));
      StepProgress(old(Loop(id, batch)), Loop(id, e'));
    }

    /** Puts the entry into the index if the budget allows it, and tells the policy. */
    method Accept(id: EntryId, e: CacheEntry, ghost rows: Rows) returns (ok: bool)
      requires cache.Awaits(id, e, rows) && Tracking()
      modifies cache`index, cache`entryCount, cache`usedMemoryBytes, cache`notices, cache`contents, policy
      ensures e.OnDisk() ==> ok
      ensures ok ==> Valid() && cache.contents == old(cache.contents)[id := rows] && id in policy.recency
      ensures !ok ==> cache.index == old(cache.index) && cache.contents == old(cache.contents)
      ensures !ok ==> policy.recency == old(policy.recency) && cache.Awaits(id, e, rows) && Refused(Loop(id, e))
    {
      ok := cache.TryInsert(id, e, rows);
      if ok {
        WithoutMembers(policy.recency, id);
        policy.NotifyInsert(id);
      }
    }

    /** Insertion with the LRU policy terminates whenever the batch is within the
        budget or nothing tracked is cached. */
    method InsertInner(id: EntryId, batch: CacheEntry, ghost rows: Rows)
      requires Tracking() && cache.Awaits(id, batch, rows)
      requires Fits(Loop(id, batch))
      modifies cache, policy
      ensures Valid() && cache.contents == old(cache.contents)[id := rows]
      ensures id in policy.recency
    {
      var toCache := batch;
      while true
        invariant cache.Awaits(id, toCache, rows) && cache.contents == old(cache.contents)
        invariant Tracking() && Fits(Loop(id, toCache))
        decreases Ranks(Loop(id, toCache)), |policy.recency|, Trailing(policy.recency, cache.index)
      {
        var ok := Accept(id, toCache, rows);
        if ok {
          break;
        }
        toCache := NextRound(id, toCache, rows);
      }
    }
  }

  lemma AdviceIsCold(recency: seq<EntryId>, victims: seq<EntryId>)
    requires NoRepeats(recency) && |victims| == Taken(recency)
    requires forall i :: 0 <= i < |victims| ==> victims[i] == recency[|recency| - 1 - i]
    ensures NoRepeats(victims) && forall id :: id in victims <==> id in Cold(recency)
  {
    var cold := Cold(recency);
    assert forall i :: 0 <= i < |victims| ==> victims[i] == cold[|cold| - 1 - i];
    forall id | id in cold ensures id in victims {
      var i :| 0 <= i < |cold| && cold[i] == id;
      assert victims[|cold| - 1 - i] == id;
    }
  }

  /** The notices of a round bring exactly the cached victims back. */
  lemma NewestRequeues(start: Index, index: Index, recency: seq<EntryId>, delta: seq<Notice>, ids: set<EntryId>)
    requires NoRepeats(recency) && RoundDone(start, index, ids) && Announced(index, delta, ids)
    requires ids == set id | id in Cold(recency)
    ensures NoRepeats(Newest(delta)) && Requeued(start, recency, Newest(delta))
    ensures forall id :: id in Newest(delta) ==> id !in Warm(recency)
  {
    SplitRecency(recency);
    NewestMembers(delta);
    forall id ensures id in Newest(delta) <==> id in Cold(recency) && id in start {
      if Tells(delta, id) {
        var i :| 0 <= i < |delta| && delta[i].id == id;
        assert delta[i].id in ids && delta[i].id in index;
      }
    }
  }

  /** The ids of the notices, the newest first. */
  function Newest(delta: seq<Notice>): (ids: seq<EntryId>)
    ensures |ids| == |delta|
  {
    if delta == [] then [] else [delta[|delta| - 1].id] + Newest(delta[..|delta| - 1])
  }

  lemma NewestStep(delta: seq<Notice>, k: nat)
    requires k < |delta|
    ensures Newest(delta[..k + 1]) == [delta[k].id] + Newest(delta[..k])
  {
    assert delta[..k + 1][..k] == delta[..k];
  }

  /** What has been told so far is the older end of the whole list. */
  lemma {:induction false} NewestSuffix(delta: seq<Notice>, k: nat)
    requires k <= |delta|
    ensures Newest(delta[..k]) == Newest(delta)[|delta| - k..]
    decreases |delta| - k
  {
    if k < |delta| {
      NewestSuffix(delta, k + 1);
      NewestStep(delta, k);
    } else {
      assert delta[..k] == delta;
    }
  }

  lemma NextIsNew(delta: seq<Notice>, k: nat, recency: seq<EntryId>)
    requires k < |delta| && NoRepeats(Newest(delta)) && forall id :: id in Newest(delta) ==> id !in recency
    ensures delta[k].id !in Newest(delta[..k]) + recency
    ensures [delta[k].id] + (Newest(delta[..k]) + recency) == Newest(delta[..k + 1]) + recency
  {
    NewestStep(delta, k);
    NotToldYet(delta, k);
    Associate([delta[k].id], Newest(delta[..k]), recency);
  }

  lemma NotToldYet(delta: seq<Notice>, k: nat)
    requires k < |delta| && NoRepeats(Newest(delta))
    ensures delta[k].id in Newest(delta) && delta[k].id !in Newest(delta[..k])
  {
    var all := Newest(delta);
    NewestStep(delta, k);
    NewestSuffix(delta, k);
    NewestSuffix(delta, k + 1);
    assert all[|delta| - k - 1] == delta[k].id;
  }

  lemma {:induction false} NewestMembers(delta: seq<Notice>)
    requires forall i, j :: 0 <= i < j < |delta| ==> delta[i].id != delta[j].id
    ensures NoRepeats(Newest(delta)) && forall id :: id in Newest(delta) <==> Tells(delta, id)
  {
    if delta != [] {
      var n := |delta| - 1;
      NewestMembers(delta[..n]);
      forall id ensures id in Newest(delta) <==> Tells(delta, id) {
        if Tells(delta[..n], id) {
          var i :| 0 <= i < n && delta[..n][i].id == id;
          assert delta[i].id == id;
        }
        if Tells(delta, id) && id != delta[n].id {
          var i :| 0 <= i < |delta| && delta[i].id == id;
          assert delta[..n][i].id == id;
        }
        if id == delta[n].id {
          assert Tells(delta, id);
        }
      }
      assert !Tells(delta[..n], delta[n].id);
      ConcatNoRepeats([delta[n].id], Newest(delta[..n]));
    }
  }

  /** From an empty cache of ten bytes: after an entry of five bytes, a batch of
      twenty is never inserted. */
  method ReachLivelock(rows: Rows) returns (store: LruBackedCache)
    ensures fresh(store) && store.Valid() && store.cache.contents == map[0 := rows]
    ensures var stuck := store.Loop(1, MemoryArrow(rows, 20)); Livelocked(stuck) && !Terminates(stuck)
  {
    store := new LruBackedCache(10, Evict);
    store.InsertInner(0, MemoryArrow(rows, 5), rows);
    ghost var stuck := store.Loop(1, MemoryArrow(rows, 20));
    assert 0 in stuck.index;
    RotatesForever(stuck);
  }
}
