/** The cache store: insertion with squeezing, reads with hydration, flushing and
    resetting, over an index, a byte budget and files on disk. Seen from outside
    it is a map from entry ids to rows. */
module CacheStore {
  import opened Common
  import opened MapSums
  import opened CacheEntries
  import opened BitSelection
  import opened CacheLedger
  import opened SqueezeRounds

  datatype Tri = False | True | Unknown

  /** Either a finished mask or the selected rows still to be evaluated. */
  datatype Evaluation = Mask(mask: seq<Tri>) | Pending(rows: Rows)

  function Selected(rows: Rows, selection: Option<seq<bool>>): Rows
    requires selection.Some? ==> |selection.value| == |rows|
  {
    if selection.Some? then Filter(rows, selection.value) else rows
  }

  function MapRows(predicate_: Cell -> Tri, rows: Rows): seq<Tri> {
    seq(|rows|, i requires 0 <= i < |rows| => predicate_(rows[i]))
  }

  /** `prep_null_mask_filter`: unknown counts as false. */
  function NullsToFalse(mask: seq<Tri>): seq<bool> {
    seq(|mask|, i requires 0 <= i < |mask| => mask[i].True?)
  }

  /** The rows that `selection` keeps, by their positions. */
  ghost predicate Picks(rows: Rows, selection: seq<bool>, out: Rows) {
    |selection| == |rows| && |out| == Count(selection) &&
    forall j :: 0 <= j < |rows| && selection[j] ==> Count(selection[..j]) < |out| && out[Count(selection[..j])] == rows[j]
  }

  lemma FilterPicks(rows: Rows, selection: seq<bool>)
    requires |selection| == |rows|
    ensures Picks(rows, selection, Filter(rows, selection))
  {
    FilterLength(rows, selection);
    forall j | 0 <= j < |rows| && selection[j]
      ensures Count(selection[..j]) < |Filter(rows, selection)| && Filter(rows, selection)[Count(selection[..j])] == rows[j]
    {
      FilterAt(rows, selection, j);
    }
  }

  /** One bit per selected row, set exactly when the predicate is true of the row. */
  ghost predicate Passes(predicate_: Cell -> Tri, rows: Rows, filter: seq<bool>, mask: seq<bool>) {
    |filter| == |rows| && |mask| == Count(filter) &&
    forall j :: 0 <= j < |rows| && filter[j] ==>
      Count(filter[..j]) < |mask| && (mask[Count(filter[..j])] <==> predicate_(rows[j]) == True)
  }

  lemma PassesExactly(predicate_: Cell -> Tri, rows: Rows, filter: seq<bool>)
    requires |filter| == |rows|
    ensures Passes(predicate_, rows, filter, NullsToFalse(MapRows(predicate_, Filter(rows, filter))))
  {
    FilterPicks(rows, filter);
    var selected := Filter(rows, filter);
    var mask := NullsToFalse(MapRows(predicate_, selected));
    forall j | 0 <= j < |rows| && filter[j]
      ensures Count(filter[..j]) < |mask| && (mask[Count(filter[..j])] <==> predicate_(rows[j]) == True)
    {
      assert selected[Count(filter[..j])] == rows[j];
    }
  }

  class LiquidCache {
    const maxMemoryBytes: nat
    const squeezePolicy: SqueezePolicy
    var index: Index
    var entryCount: nat
    var usedMemoryBytes: nat
    var disk: Disk
    /** How many victim lists the replacement policy may still produce that name
        no resident entry, because it tracks entries that a reset removed. */
    var staleVictims: nat
    /** What the replacement policy has been told about insertions, in order. */
    var notices: seq<Notice>

    /** The abstract state: the rows behind every cached id. */
    ghost var contents: map<EntryId, Rows>

    constructor (maxMemoryBytes: nat, squeezePolicy: SqueezePolicy)
      ensures Valid() && contents == map[] && notices == []
      ensures this.maxMemoryBytes == maxMemoryBytes && this.squeezePolicy == squeezePolicy
    {
      this.maxMemoryBytes := maxMemoryBytes;
      this.squeezePolicy := squeezePolicy;
      index, entryCount, usedMemoryBytes, disk, staleVictims, notices := map[], 0, 0, map[], 0, [];
      contents := map[];
      new;
      SumZero(ResidentSizes(map[]));
    }

    /** Counter and budget describe the index exactly, and the budget is kept. */
    ghost predicate Accounted()
      reads this
    {
      entryCount == |index| && usedMemoryBytes == MemoryTotal(index) <= maxMemoryBytes
    }

    lemma AccountedIsBalanced()
      requires Accounted()
      ensures Balanced(Books())
    {
      UsageIsResidentSize(index);
      assert MemoryMap(index).Keys == index.Keys;
      assert |MemoryMap(index).Keys| == |index.Keys|;
    }

    ghost function Books(): Ledger
      reads this
    {
      Ledger(MemoryMap(index), usedMemoryBytes, entryCount, maxMemoryBytes)
    }

    /** The entry of `id`, read with the files as they are, gives its rows. */
    ghost predicate Shows(id: EntryId)
      requires id in index && id in contents
      reads this
    {
      Content(index[id], id, disk) == Some(contents[id])
    }

    ghost predicate ValidExcept(id: EntryId)
      reads this
    {
      Accounted() && index.Keys == contents.Keys && forall k :: k in index && k != id ==> Shows(k)
    }

    ghost predicate Valid()
      reads this
    {
      Accounted() && index.Keys == contents.Keys && forall k :: k in index ==> Shows(k)
    }

    // ----- budget -----

    method TryReserveMemory(requestBytes: nat) returns (ok: bool)
      modifies this`usedMemoryBytes
      ensures ok == (old(usedMemoryBytes) + requestBytes <= maxMemoryBytes)
      ensures usedMemoryBytes == old(usedMemoryBytes) + if ok then requestBytes else 0
    {
      if usedMemoryBytes + requestBytes > maxMemoryBytes {
        return false;
      }
      usedMemoryBytes := usedMemoryBytes + requestBytes;
      ok := true;
    }

    method TryUpdateMemoryUsage(oldSize: nat, newSize: nat) returns (ok: bool)
      requires oldSize <= usedMemoryBytes
      modifies this`usedMemoryBytes
      ensures ok == (newSize <= oldSize || old(usedMemoryBytes) + newSize - oldSize <= maxMemoryBytes)
      ensures usedMemoryBytes == if ok then old(usedMemoryBytes) + newSize - oldSize else old(usedMemoryBytes)
    {
      if oldSize < newSize {
        ok := TryReserveMemory(newSize - oldSize);
      } else {
        usedMemoryBytes := usedMemoryBytes - (oldSize - newSize);
        ok := true;
      }
    }

    // ----- index -----

    method IndexInsert(id: EntryId, e: CacheEntry)
      modifies this`index, this`entryCount
      requires entryCount == |index|
      ensures index == old(index)[id := e] && entryCount == |index|
    {
      if id !in index {
        entryCount := entryCount + 1;
      }
      index := index[id := e];
    }

    /** The atomic update of budget and index: one step of the ledger. */
    method TryCharge(id: EntryId, e: CacheEntry) returns (ok: bool)
      requires Accounted()
      modifies this`index, this`entryCount, this`usedMemoryBytes, this`notices
      ensures Accounted() && old(Balanced(Books()))
      ensures Books() == Apply(old(Books()), Charge(id, e.MemoryUsageBytes()))
      ensures ok == Granted(old(Books()), id, e.MemoryUsageBytes())
      ensures ok == HasRoom(old(index), id, e, maxMemoryBytes)
      ensures index == if ok then old(index)[id := e] else old(index)
      ensures notices == if ok then old(notices) + [Notice(id, e.Type())] else old(notices)
      ensures !ok ==> unchanged(this)
    {
      AccountedIsBalanced();
      GrantedWithinLimit(id, e);
      BalancedStep(Books(), Charge(id, e.MemoryUsageBytes()));
      var newSize := e.MemoryUsageBytes();
      if id in index {
        SumAtLeast(MemoryMap(index), id);
        ok := TryUpdateMemoryUsage(index[id].MemoryUsageBytes(), newSize);
      } else {
        ok := TryReserveMemory(newSize);
      }
      if ok {
        IndexInsert(id, e);
        assert MemoryMap(index) == MemoryMap(old(index))[id := newSize];
        UsageIsResidentSize(index);
        notices := notices + [Notice(id, e.Type())];
      }
    }

    /** The same, as insertion sees it. */
    method TryAdmit(id: EntryId, e: CacheEntry) returns (ok: bool)
      requires Accounted()
      modifies this`index, this`entryCount, this`usedMemoryBytes, this`notices
      ensures Accounted() && ok == HasRoom(old(index), id, e, maxMemoryBytes)
      ensures ok ==> index == old(index)[id := e] && notices == old(notices) + [Notice(id, e.Type())]
      ensures !ok ==> unchanged(this)
    {
      ok := TryCharge(id, e);
    }

    lemma GrantedWithinLimit(id: EntryId, e: CacheEntry)
      requires Accounted()
      ensures Granted(Books(), id, e.MemoryUsageBytes()) <==> HasRoom(index, id, e, maxMemoryBytes)
    {
      AccountedIsBalanced();
      RefusedExactly(Books(), id, e.MemoryUsageBytes());
      assert MemoryMap(index[id := e]) == MemoryMap(index)[id := e.MemoryUsageBytes()];
      UsageIsResidentSize(index[id := e]);
      MemoryTotalUpdate(index, id, e);
      OthersWithinLimit(id);
    }

    lemma OthersWithinLimit(id: EntryId)
      requires Accounted()
      ensures MemoryTotal(index - {id}) <= maxMemoryBytes
    {
      if id in index {
        MemoryTotalUpdate(index, id, index[id]);
        assert index[id := index[id]] == index;
      } else {
        assert index - {id} == index;
      }
    }

    /** Puts the entry, which stands for `rows`, into the index if the budget
        allows it; a disk entry is never refused. */
    method TryInsert(id: EntryId, e: CacheEntry, ghost rows: Rows) returns (ok: bool)
      requires ValidExcept(id) && Content(e, id, disk) == Some(rows)
      modifies this`index, this`entryCount, this`usedMemoryBytes, this`notices, this`contents
      ensures e.OnDisk() ==> ok
      ensures ok == HasRoom(old(index), id, e, maxMemoryBytes)
      ensures ok ==> Valid() && index == old(index)[id := e] && contents == old(contents)[id := rows]
      ensures ok ==> notices == old(notices) + [Notice(id, e.Type())]
      ensures !ok ==> unchanged(this)
    {
      ok := TryAdmit(id, e);
      if ok {
        contents := contents[id := rows];
        assert forall k :: k in index && k != id && old(k in index && k in contents && Shows(k)) ==> Shows(k);
        assert Shows(id);
      }
    }

    /** Changes the representation of a cached entry, not its rows. */
    method TryReplace(id: EntryId, e: CacheEntry) returns (ok: bool)
      requires ValidExcept(id) && id in index && Content(e, id, disk) == Some(contents[id])
      modifies this`index, this`entryCount, this`usedMemoryBytes, this`notices
      ensures e.OnDisk() ==> ok
      ensures ok ==> Valid() && index == old(index)[id := e]
      ensures !ok ==> ValidExcept(id) && index == old(index)
      ensures notices == if ok then old(notices) + [Notice(id, e.Type())] else old(notices)
    {
      ok := TryAdmit(id, e);
    }

    /** Overwrites the file of one entry, which affects no other entry. */
    method WriteBatchToDisk(id: EntryId, bytes: Blob)
      requires ValidExcept(id)
      modifies this`disk
      ensures disk == old(disk)[id := bytes] && ValidExcept(id)
    {
      disk := disk[id := bytes];
      assert forall k :: k in index && k != id && old(Shows(k)) ==> Shows(k);
    }

    // ----- victims -----

    /** Any replacement policy whose non-empty advice names a resident entry,
        except for finitely many stale answers. */
    method FindVictim(count: nat) returns (victims: seq<EntryId>)
      modifies this`staleVictims
      ensures |victims| <= count && forall i, j :: 0 <= i < j < |victims| ==> victims[i] != victims[j]
      ensures staleVictims <= old(staleVictims)
      ensures victims == [] || (exists id :: id in victims && IsResident(index, id)) || staleVictims < old(staleVictims)
    {
      victims := *;
      if |victims| > count || exists i, j :: 0 <= i < j < |victims| && victims[i] == victims[j] {
        victims := [];
      }
      if forall id :: id in victims ==> !IsResident(index, id) {
        if staleVictims > 0 {
          staleVictims := staleVictims - 1;
        } else {
          victims := [];
        }
      }
    }

    /** One uninterrupted piece of `squeeze_victim_inner`: look the victim up, squeeze
        it and write its bytes, or offer the result to the index. A refused result is
        squeezed further. */
    method SqueezeStep(id: EntryId, task: SqueezeTask, ghost was: CacheEntry) returns (task': SqueezeTask)
      requires Valid() && !task.Finished? && (id !in index ==> task.Fresh?)
      requires id in index ==> TaskOk(index[id], disk, contents[id], id, task, was)
      modifies this`index, this`entryCount, this`usedMemoryBytes, this`disk, this`notices
      ensures Valid() && Effort(task') < Effort(task)
      ensures Stepped(old(index), index, old(disk), disk, contents, old(notices), notices, id, task', was)
    {
      if id !in index {
        return Finished;
      }
      assert Shows(id);
      match task {
        case Fresh =>
          task' := Loaded(index[id]);
        case Loaded(batch) =>
          var hinted: bool := *;
          var e', bytes := Squeeze(squeezePolicy, batch, hinted);
          SqueezedPreserves(batch, e', bytes, id, disk);
          if bytes.Some? {
            WriteBatchToDisk(id, bytes.value);
          }
          task' := Written(e');
        case Written(next) =>
          var ok := TryReplace(id, next);
          task' := if ok then Finished else Loaded(next);
      }
    }

    /** The state of a round of squeezing that began with `start`, `files` and `told` notices. */
    ghost function At(tasks: map<EntryId, SqueezeTask>, start: Index, files: Disk, told: nat): Round
      reads this
    {
      Round(index, disk, contents, notices, tasks, start, files, told)
    }

    /** Lets one of the tasks go on to its next await point. */
    method Schedule(id: EntryId, tasks: map<EntryId, SqueezeTask>, ghost start: Index, ghost files: Disk, ghost told: nat)
      returns (tasks': map<EntryId, SqueezeTask>)
      requires Valid() && Underway(At(tasks, start, files, told)) && id in tasks && !tasks[id].Finished?
      modifies this`index, this`entryCount, this`usedMemoryBytes, this`disk, this`notices
      ensures Valid() && Underway(At(tasks', start, files, told))
      ensures tasks'.Keys == tasks.Keys && Sum(Efforts(tasks')) < Sum(Efforts(tasks))
      ensures old(notices) <= notices
    {
      ghost var r := At(tasks, start, files, told);
      TaskBefore(r, id);
      var task' := SqueezeStep(id, tasks[id], if id in start then start[id] else DiskArrow);
      tasks' := tasks[id := task'];
      ScheduleStep(r, At(tasks', start, files, told), id, task');
    }

    /** All victims are squeezed at once: at every await point any of the unfinished
        tasks may go on. */
    method SqueezeVictims(victims: seq<EntryId>)
      requires Valid() && forall i, j :: 0 <= i < j < |victims| ==> victims[i] != victims[j]
      modifies this`index, this`entryCount, this`usedMemoryBytes, this`disk, this`notices
      ensures Valid() && RoundDone(old(index), index, set id | id in victims)
      ensures old(notices) <= notices && Announced(index, notices[|old(notices)|..], set id | id in victims)
      ensures FilesKept(old(index), old(disk), disk)
    {
      var tasks: map<EntryId, SqueezeTask> := map id | id in victims :: Fresh;
      RoundStarts(index, disk, contents, notices, tasks);
      tasks := RunTasks(tasks, index, disk, |notices|);
      RoundEnds(At(tasks, old(index), old(disk), |old(notices)|));
      assert tasks.Keys == set id | id in victims;
    }

    /** Any schedule of the tasks ends. */
    method RunTasks(tasks0: map<EntryId, SqueezeTask>, ghost start: Index, ghost files: Disk, ghost told: nat)
      returns (tasks: map<EntryId, SqueezeTask>)
      requires Valid() && Underway(At(tasks0, start, files, told))
      modifies this`index, this`entryCount, this`usedMemoryBytes, this`disk, this`notices
      ensures Valid() && Underway(At(tasks, start, files, told))
      ensures old(notices) <= notices && tasks.Keys == tasks0.Keys == Done(tasks)
    {
      tasks := tasks0;
      while tasks.Keys - Done(tasks) != {}
        invariant Valid() && tasks.Keys == tasks0.Keys && old(notices) <= notices
        invariant Underway(At(tasks, start, files, told))
        decreases Sum(Efforts(tasks))
      {
        var id :| id in tasks.Keys - Done(tasks);
        tasks := Schedule(id, tasks, start, files, told);
      }
    }

    /** What insertion relies on while the batch `e`, which stands for `rows`, is
        pending for `id`. A squeezed batch needs the file that it is backed by, so the
        cached entry must be one that will not overwrite it. */
    ghost predicate Awaits(id: EntryId, e: CacheEntry, rows: Rows)
      reads this
    {
      match e
      case MemoryArrow(held, _) => Valid() && held == rows
      case MemoryLiquid(held, _) => Valid() && held == rows
      case MemorySqueezedLiquid(_, _) =>
        Valid() && id in index && index[id].Rank() <= 1 && contents[id] == rows && Content(e, id, disk) == Some(rows)
      case _ => ValidExcept(id) && Content(e, id, disk) == Some(rows)
    }

    /** Moves a batch that finds no room one step towards disk. */
    method WriteInMemoryBatchToDisk(id: EntryId, batch: CacheEntry, ghost rows: Rows) returns (e': CacheEntry)
      requires Awaits(id, batch, rows) && !batch.OnDisk()
      modifies this`disk
      ensures Awaits(id, e', rows) && e'.Rank() < batch.Rank()
    {
      match batch {
        case MemoryArrow(_, _) =>
          var bytes;
          e', bytes := Squeeze(squeezePolicy, batch, false);
          SqueezedPreserves(batch, e', bytes, id, disk);
          if bytes.Some? {
            WriteBatchToDisk(id, bytes.value);
          }
        case MemoryLiquid(held, _) =>
          WriteBatchToDisk(id, LiquidBytes(held));
          e' := DiskLiquid;
        case MemorySqueezedLiquid(backing, _) =>
          e' := DiskEntry(backing);
      }
    }

    /** After a refused insertion: squeeze what the policy advises or, without
        advice, the pending batch itself. Either the sum of ranks drops, or a stale
        piece of advice is used up. */
    method MakeRoom(id: EntryId, batch: CacheEntry, ghost rows: Rows) returns (e': CacheEntry)
      requires Awaits(id, batch, rows) && !batch.OnDisk()
      modifies this`index, this`entryCount, this`usedMemoryBytes, this`disk, this`notices, this`staleVictims
      ensures Awaits(id, e', rows)
      ensures RankTotal(index) + e'.Rank() <= old(RankTotal(index)) + batch.Rank()
      ensures RankTotal(index) + e'.Rank() < old(RankTotal(index)) + batch.Rank() || staleVictims < old(staleVictims)
    {
      var victims := FindVictim(8);
      if victims == [] {
        e' := WriteInMemoryBatchToDisk(id, batch, rows);
      } else {
        SqueezeVictims(victims);
        RoundLowersRank(old(index), index, set v | v in victims);
        BackingKept(old(index), index, set v | v in victims, old(disk), disk, id, batch);
        e' := batch;
      }
    }

    /** Inserts a batch, making room until it fits. */
    method InsertInner(id: EntryId, batch: CacheEntry, ghost rows: Rows)
      requires Awaits(id, batch, rows)
      modifies this
      ensures Valid() && contents == old(contents)[id := rows]
    {
      var toCache := batch;
      while true
        invariant Awaits(id, toCache, rows) && contents == old(contents)
        decreases RankTotal(index) + toCache.Rank(), staleVictims
      {
        var ok := TryInsert(id, toCache, rows);
        if ok {
          break;
        }
        toCache := MakeRoom(id, toCache, rows);
      }
    }

    // ----- public operations -----

    method Insert(id: EntryId, rows: Rows, size: nat)
      requires Valid()
      modifies this
      ensures Valid() && contents == old(contents)[id := rows]
    {
      InsertInner(id, MemoryArrow(rows, size), rows);
    }

    /** Any hydration policy: it may decide at every read whether and in which
        form to promote what was just materialized. */
    method MaybeHydrate(id: EntryId, rows: Rows)
      requires Valid() && id in index && contents[id] == rows
      modifies this
      ensures Valid() && contents == old(contents)
    {
      var promote: bool, asLiquid: bool, asSqueezed: bool := *, *, *;
      var size: nat := *;
      if promote {
        assert Shows(id);
        var entry := if asLiquid then MemoryLiquid(rows, size) else MemoryArrow(rows, size);
        if asSqueezed && index[id].Rank() <= 1 {
          entry := MemorySqueezedLiquid(BackingOf(index[id]), size);
        }
        InsertInner(id, entry, rows);
      }
    }

    /** `get(id).with_selection(selection)` without an expression hint. */
    method ReadArrowArray(id: EntryId, selection: Option<seq<bool>>) returns (out: Option<Rows>)
      requires Valid()
      requires id in index && selection.Some? ==> |selection.value| == |contents[id]|
      modifies this
      ensures Valid() && contents == old(contents)
      ensures out == if id in old(contents) then Some(Selected(old(contents)[id], selection)) else None
    {
      if id !in index {
        return None;
      }
      assert Shows(id);
      match index[id] {
        case MemoryArrow(rows, _) => out := Some(Selected(rows, selection));
        case MemoryLiquid(rows, _) => out := Some(Selected(rows, selection));
        case DiskArrow => out := ReadDiskArray(id, selection);
        case DiskLiquid => out := ReadDiskArray(id, selection);
        case MemorySqueezedLiquid(backing, _) =>
          var full := ReadBacking(backing, id, disk).value;
          out := Some(Selected(full, selection));
      }
    }

    /** Disk reads answer an empty selection without touching the file. */
    method ReadDiskArray(id: EntryId, selection: Option<seq<bool>>) returns (out: Option<Rows>)
      requires Valid() && id in index && index[id].OnDisk()
      requires selection.Some? ==> |selection.value| == |contents[id]|
      modifies this
      ensures Valid() && contents == old(contents)
      ensures out == Some(Selected(old(contents)[id], selection))
    {
      assert Shows(id);
      if selection.Some? && Count(selection.value) == 0 {
        FilterLength(contents[id], selection.value);
        return Some([]);
      }
      var entry := index[id];
      if entry.DiskArrow? {
        var full := ReadArrow(id, disk).value;
        MaybeHydrate(id, full);
        out := Some(Selected(full, selection));
      } else {
        var liquid := ReadLiquid(id, disk).value;
        MaybeHydrate(id, liquid);
        out := Some(Selected(liquid, selection));
      }
    }

    /** The Liquid form, if the entry has one. */
    method TryReadLiquid(id: EntryId) returns (out: Option<Rows>)
      requires Valid()
      modifies this
      ensures Valid() && contents == old(contents)
      ensures out.Some? <==> id in old(index) && var e := old(index)[id];
        e.MemoryLiquid? || e.DiskLiquid? || (e.MemorySqueezedLiquid? && e.backing.LiquidBacking?)
      ensures out.Some? ==> id in old(contents) && out.value == old(contents)[id]
    {
      if id !in index {
        return None;
      }
      assert Shows(id);
      match index[id] {
        case MemoryLiquid(rows, _) => out := Some(rows);
        case DiskLiquid =>
          var liquid := ReadLiquid(id, disk).value;
          MaybeHydrate(id, liquid);
          out := Some(liquid);
        case MemorySqueezedLiquid(backing, _) =>
          out := if backing.LiquidBacking? then ReadLiquid(id, disk) else None;
        case DiskArrow => out := None;
        case MemoryArrow(_, _) => out := None;
      }
    }

    /** Writes every resident entry to disk; afterwards no memory is in use. */
    method FlushAllToDisk()
      requires Valid()
      modifies this
      ensures Valid() && contents == old(contents)
      ensures usedMemoryBytes == 0 && forall k :: k in index ==> index[k].OnDisk()
    {
      FlushEach();
      SumZero(ResidentSizes(index));
    }

    method FlushEach()
      requires Valid()
      modifies this`index, this`entryCount, this`usedMemoryBytes, this`disk, this`notices
      ensures Valid() && forall k :: k in index ==> index[k].OnDisk()
    {
      var todo := index.Keys;
      while todo != {}
        invariant Valid()
        invariant todo <= index.Keys
        invariant forall k :: k in index && k !in todo ==> index[k].OnDisk()
      {
        var id :| id in todo;
        FlushOne(id);
        todo := todo - {id};
      }
    }

    method FlushOne(id: EntryId)
      requires Valid() && id in index
      modifies this`index, this`entryCount, this`usedMemoryBytes, this`disk, this`notices
      ensures Valid() && id in index && index[id].OnDisk()
      ensures index == old(index)[id := index[id]]
    {
      assert Shows(id);
      var entry := index[id];
      match entry {
        case MemoryArrow(rows, _) =>
          WriteBatchToDisk(id, ArrowBytes(rows));
          var ok := TryReplace(id, DiskArrow);
        case MemoryLiquid(rows, _) =>
          WriteBatchToDisk(id, LiquidBytes(rows));
          var ok := TryReplace(id, DiskLiquid);
        case MemorySqueezedLiquid(backing, _) =>
          var ok := TryReplace(id, DiskEntry(backing));
        case DiskLiquid =>
        case DiskArrow =>
      }
    }

    /** Empties index and budget. The replacement policy is not told, so it may
        still name the removed entries. */
    method Reset()
      requires Valid()
      modifies this
      ensures Valid() && contents == map[] && usedMemoryBytes == 0
      ensures old(Balanced(Books())) && Books() == Apply(old(Books()), Clear)
    {
      AccountedIsBalanced();
      index, entryCount, contents := map[], 0, map[];
      usedMemoryBytes := 0;
      staleVictims := *;
      SumZero(ResidentSizes(index));
    }

    // ----- predicates -----

    /** Evaluation on the encoded form may be unsupported; if it answers, it
        answers like the predicate on the selected rows. */
    method TryEvalPredicate(rows: Rows, selection: seq<bool>, predicate_: Cell -> Tri) returns (out: Option<seq<Tri>>)
      requires |selection| == |rows|
      ensures out.Some? ==> out.value == MapRows(predicate_, Filter(rows, selection))
    {
      var supported: bool := *;
      out := if supported then Some(MapRows(predicate_, Filter(rows, selection))) else None;
    }

    method EvalPredicateInternal(id: EntryId, selectionOpt: Option<seq<bool>>, predicate_: Cell -> Tri)
      returns (out: Option<Evaluation>)
      requires Valid()
      requires id in index && selectionOpt.Some? ==> |selectionOpt.value| == |contents[id]|
      modifies this
      ensures Valid() && contents == old(contents)
      ensures out.Some? <==> id in old(contents)
      ensures out.Some? && out.value.Pending? ==> out.value.rows == Selected(old(contents)[id], selectionOpt)
      ensures out.Some? && out.value.Mask? ==> out.value.mask == MapRows(predicate_, Selected(old(contents)[id], selectionOpt))
    {
      if id !in index {
        return None;
      }
      assert Shows(id);
      var entry := index[id];
      var rows := Content(entry, id, disk).value;
      match entry {
        case DiskArrow => MaybeHydrate(id, rows);
        case DiskLiquid => MaybeHydrate(id, rows);
        case _ =>
      }
      var selection := if selectionOpt.Some? then selectionOpt.value else seq(|rows|, _ => true);
      if selectionOpt.None? {
        CountBounds(selection);
        FilterAll(rows, selection);
      }
      var mask: Option<seq<Tri>> := None;
      if !entry.MemoryArrow? && !entry.DiskArrow? {
        mask := TryEvalPredicate(rows, selection, predicate_);
      }
      out := Some(if mask.Some? then Mask(mask.value) else Pending(Filter(rows, selection)));
    }

    /** The column's answer: whatever the representation, the mask is the predicate
        over the selected rows with unknown as false. */
    method EvalPredicateWithFilter(id: EntryId, filter: seq<bool>, predicate_: Cell -> Tri) returns (out: Option<seq<bool>>)
      requires Valid()
      requires id in index ==> |filter| == |contents[id]|
      modifies this
      ensures Valid() && contents == old(contents)
      ensures out == if id in old(contents)
        then Some(NullsToFalse(MapRows(predicate_, Filter(old(contents)[id], filter)))) else None
      ensures out.Some? ==> Passes(predicate_, old(contents)[id], filter, out.value)
    {
      if id in contents {
        PassesExactly(predicate_, contents[id], filter);
      }
      var result := EvalPredicateInternal(id, Some(filter), predicate_);
      match result {
        case None => out := None;
        case Some(Mask(mask)) => out := Some(NullsToFalse(mask));
        case Some(Pending(rows)) => out := Some(NullsToFalse(MapRows(predicate_, rows)));
      }
    }
  }
}
