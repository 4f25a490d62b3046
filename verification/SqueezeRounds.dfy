/** Squeezing several victims at once. Each victim has a task that looks its entry
    up, squeezes it, writes bytes and offers the result; the tasks of a round
    interleave at their await points. */
module SqueezeRounds {
  import opened Common
  import opened MapSums
  import opened CacheEntries

  /** How far a task that squeezes one victim has come. */
  datatype SqueezeTask = Fresh | Loaded(batch: CacheEntry) | Written(next: CacheEntry) | Finished

  function Effort(task: SqueezeTask): nat {
    match task
    case Fresh => 12
    case Loaded(batch) => 3 * batch.Rank() + 2
    case Written(next) => if next.OnDisk() then 1 else 3 * next.Rank() + 3
    case Finished => 0
  }

  /** A disk entry is as it was, a memory entry is further down. */
  predicate Lowered(e: CacheEntry, e': CacheEntry) {
    if e.OnDisk() then e' == e else e'.Rank() < e.Rank()
  }

  function Efforts(tasks: map<EntryId, SqueezeTask>): map<EntryId, nat> {
    map id | id in tasks :: Effort(tasks[id])
  }

  function Done(tasks: map<EntryId, SqueezeTask>): set<EntryId> {
    set id | id in tasks && tasks[id].Finished?
  }

  /** The notices that squeezing `ids` causes: one for each that is cached, with the
      type of its new entry. */
  ghost predicate Announced(index: Index, delta: seq<Notice>, ids: set<EntryId>) {
    && (forall i :: 0 <= i < |delta| ==> delta[i].id in index && delta[i].batchType == index[delta[i].id].Type())
    && (forall i, j :: 0 <= i < j < |delta| ==> delta[i].id != delta[j].id)
    && (forall i :: 0 <= i < |delta| ==> delta[i].id in ids)
    && (forall id :: id in ids && id in index ==> Tells(delta, id))
  }

  ghost predicate Tells(delta: seq<Notice>, id: EntryId) {
    exists i :: 0 <= i < |delta| && delta[i].id == id
  }

  lemma AnnounceMore(index: Index, index': Index, delta: seq<Notice>, ids: set<EntryId>, id: EntryId, told: bool)
    requires Announced(index, delta, ids) && id !in ids
    requires if id in index then id in index' && index' == index[id := index'[id]] else index' == index
    ensures Announced(index', delta, ids)
    ensures told && id in index ==> Announced(index', delta + [Notice(id, index'[id].Type())], ids + {id})
    ensures told && id !in index ==> Announced(index', delta, ids + {id})
  {
    if told && id in index {
      var more := delta + [Notice(id, index'[id].Type())];
      assert more[|delta|].id == id;
      forall k | k in ids + {id} && k in index' ensures Tells(more, k) {
        if k != id {
          assert Tells(delta, k);
          var i :| 0 <= i < |delta| && delta[i].id == k;
          assert more[i].id == k;
        }
      }
    }
  }

  /** What a task that squeezes `id` may rely on at every await point: `was` is the
      entry that it found and `now` the one in the index. */
  predicate TaskOk(now: CacheEntry, disk: Disk, rows: Rows, id: EntryId, task: SqueezeTask, was: CacheEntry) {
    match task
    case Fresh => now == was
    case Loaded(batch) =>
      && now == was && Content(batch, id, disk) == Some(rows)
      && (batch == was || (!batch.OnDisk() && batch.Rank() < was.Rank()))
    case Written(next) => now == was && Content(next, id, disk) == Some(rows) && Lowered(was, next)
    case Finished => Lowered(was, now)
  }

  /** What one uninterrupted piece of the task for `id` does: it touches no other entry
      and no other file, writes only while its entry has no bytes on disk, and tells
      the policy exactly when it finishes with a cached entry. */
  ghost predicate Stepped(index: Index, index': Index, disk: Disk, disk': Disk, contents: map<EntryId, Rows>,
                          notices: seq<Notice>, notices': seq<Notice>, id: EntryId, task': SqueezeTask, was: CacheEntry) {
    && SameFiles(disk', disk, id)
    && if id in index then
         && id in index' && index' == index[id := index'[id]] && id in contents
         && TaskOk(index'[id], disk', contents[id], id, task', was)
         && (was.Rank() <= 1 ==> disk' == disk)
         && notices' == if task'.Finished? then notices + [Notice(id, index'[id].Type())] else notices
       else task'.Finished? && index' == index && disk' == disk && notices' == notices
  }

  /** Where the tasks of one round stand: `start` is the index and `told` the number
      of notices when the round began. */
  ghost predicate RoundOk(index: Index, disk: Disk, contents: map<EntryId, Rows>, notices: seq<Notice>,
                          tasks: map<EntryId, SqueezeTask>, start: Index, told: nat) {
    told <= |notices| && TasksOk(index, disk, contents, tasks, start) && Announced(index, notices[told..], Done(tasks))
  }

  ghost predicate TasksOk(index: Index, disk: Disk, contents: map<EntryId, Rows>, tasks: map<EntryId, SqueezeTask>, start: Index) {
    && index.Keys == start.Keys == contents.Keys
    && (forall id :: id in tasks && id !in index ==> tasks[id].Fresh? || tasks[id].Finished?)
    && (forall id :: id in tasks && id in index ==> TaskOk(index[id], disk, contents[id], id, tasks[id], start[id]))
    && (forall id :: id in index && id !in tasks ==> index[id] == start[id])
  }

  /** A finished round: every victim that is cached has been lowered, nothing else changed. */
  ghost predicate RoundDone(start: Index, index: Index, ids: set<EntryId>) {
    && index.Keys == start.Keys
    && (forall id :: id in index && id in ids ==> Lowered(start[id], index[id]))
    && (forall id :: id in index && id !in ids ==> index[id] == start[id])
  }

  /** The files of entries that already have their bytes on disk are as they were. */
  ghost predicate FilesKept(start: Index, files: Disk, disk: Disk) {
    forall id :: id in start && start[id].Rank() <= 1 ==> (id in files <==> id in disk) && (id in files && id in disk ==> files[id] == disk[id])
  }

  /** A round of squeezing under way: the present state, and how it began. */
  datatype Round = Round(index: Index, disk: Disk, contents: map<EntryId, Rows>, notices: seq<Notice>,
                         tasks: map<EntryId, SqueezeTask>, start: Index, files: Disk, told: nat)

  ghost predicate Underway(round: Round) {
    match round
    case Round(index, disk, contents, notices, tasks, start, files, told) =>
      RoundOk(index, disk, contents, notices, tasks, start, told) && FilesKept(start, files, disk)
  }

  /** A squeezed batch pending beside an entry with its bytes on disk keeps its backing. */
  lemma BackingKept(start: Index, index: Index, ids: set<EntryId>, files: Disk, disk: Disk, id: EntryId, e: CacheEntry)
    requires RoundDone(start, index, ids) && FilesKept(start, files, disk)
    ensures id in start && start[id].Rank() <= 1 ==> index[id].Rank() <= 1 && Content(e, id, disk) == Content(e, id, files)
  {
  }

  lemma FilesKeptStep(start: Index, files: Disk, disk: Disk, disk': Disk, id: EntryId)
    requires FilesKept(start, files, disk) && SameFiles(disk', disk, id)
    requires id in start && start[id].Rank() <= 1 ==> disk' == disk
    ensures FilesKept(start, files, disk')
  {
  }

  lemma TaskUndisturbed(now: CacheEntry, disk: Disk, disk': Disk, rows: Rows, id: EntryId, other: EntryId, task: SqueezeTask, was: CacheEntry)
    requires TaskOk(now, disk, rows, id, task, was) && SameFiles(disk', disk, other) && id != other
    ensures TaskOk(now, disk', rows, id, task, was)
  {
  }

  lemma TasksStep(index: Index, index': Index, disk: Disk, disk': Disk, contents: map<EntryId, Rows>,
                  tasks: map<EntryId, SqueezeTask>, start: Index, id: EntryId, task': SqueezeTask)
    requires TasksOk(index, disk, contents, tasks, start) && id in tasks && SameFiles(disk', disk, id)
    requires if id in index then id in index' && index' == index[id := index'[id]] else index' == index && task'.Finished?
    requires id in index ==> TaskOk(index'[id], disk', contents[id], id, task', start[id])
    ensures TasksOk(index', disk', contents, tasks[id := task'], start)
  {
    forall k | k in tasks && k in index && k != id
      ensures TaskOk(index'[k], disk', contents[k], k, tasks[k], start[k])
    {
      TaskUndisturbed(index[k], disk, disk', contents[k], k, id, tasks[k], start[k]);
    }
  }

  lemma NoticesStep(index: Index, index': Index, notices: seq<Notice>, notices': seq<Notice>,
                    tasks: map<EntryId, SqueezeTask>, told: nat, id: EntryId, task': SqueezeTask)
    requires told <= |notices| && Announced(index, notices[told..], Done(tasks)) && id in tasks && !tasks[id].Finished?
    requires if id in index then id in index' && index' == index[id := index'[id]] else index' == index && task'.Finished?
    requires notices' == if id in index && task'.Finished? then notices + [Notice(id, index'[id].Type())] else notices
    ensures told <= |notices'| && Announced(index', notices'[told..], Done(tasks[id := task']))
  {
    AnnounceMore(index, index', notices[told..], Done(tasks), id, task'.Finished?);
    assert Done(tasks[id := task']) == Done(tasks) + if task'.Finished? then {id} else {};
    if id in index && task'.Finished? {
      assert notices'[told..] == notices[told..] + [Notice(id, index'[id].Type())];
    }
  }

  lemma RoundStep(index: Index, index': Index, disk: Disk, disk': Disk, contents: map<EntryId, Rows>,
                  notices: seq<Notice>, notices': seq<Notice>,
                  tasks: map<EntryId, SqueezeTask>, start: Index, told: nat, id: EntryId, task': SqueezeTask)
    requires RoundOk(index, disk, contents, notices, tasks, start, told) && id in tasks && !tasks[id].Finished?
    requires SameFiles(disk', disk, id)
    requires if id in index then id in index' && index' == index[id := index'[id]] else index' == index && task'.Finished?
    requires id in index ==> TaskOk(index'[id], disk', contents[id], id, task', start[id])
    requires notices' == if id in index && task'.Finished? then notices + [Notice(id, index'[id].Type())] else notices
    ensures RoundOk(index', disk', contents, notices', tasks[id := task'], start, told)
  {
    TasksStep(index, index', disk, disk', contents, tasks, start, id, task');
    NoticesStep(index, index', notices, notices', tasks, told, id, task');
  }

  lemma TaskBefore(r: Round, id: EntryId)
    requires Underway(r) && id in r.tasks && !r.tasks[id].Finished?
    ensures (id in r.index <==> id in r.start) && (id in r.index ==> id in r.contents)
    ensures if id in r.index then TaskOk(r.index[id], r.disk, r.contents[id], id, r.tasks[id], r.start[id]) else r.tasks[id].Fresh?
  {
  }

  /** The same with the files and the effort that is left. */
  lemma ScheduleStep(r: Round, r': Round, id: EntryId, task': SqueezeTask)
    requires Underway(r) && id in r.tasks && !r.tasks[id].Finished? && Effort(task') < Effort(r.tasks[id])
    requires r' == r.(index := r'.index, disk := r'.disk, notices := r'.notices, tasks := r.tasks[id := task'])
    requires Stepped(r.index, r'.index, r.disk, r'.disk, r.contents, r.notices, r'.notices, id, task',
                     if id in r.start then r.start[id] else DiskArrow)
    ensures Underway(r') && Sum(Efforts(r'.tasks)) < Sum(Efforts(r.tasks))
  {
    RoundStep(r.index, r'.index, r.disk, r'.disk, r.contents, r.notices, r'.notices, r.tasks, r.start, r.told, id, task');
    FilesKeptStep(r.start, r.files, r.disk, r'.disk, id);
    EffortDrops(r.tasks, r'.tasks, id);
  }

  lemma RoundEnds(r: Round)
    requires Underway(r) && Done(r.tasks) == r.tasks.Keys
    ensures RoundDone(r.start, r.index, r.tasks.Keys) && r.told <= |r.notices|
    ensures Announced(r.index, r.notices[r.told..], r.tasks.Keys) && FilesKept(r.start, r.files, r.disk)
  {
  }

  lemma RoundStarts(index: Index, disk: Disk, contents: map<EntryId, Rows>, notices: seq<Notice>, tasks: map<EntryId, SqueezeTask>)
    requires index.Keys == contents.Keys && forall id :: id in tasks ==> tasks[id].Fresh?
    ensures Underway(Round(index, disk, contents, notices, tasks, index, disk, |notices|))
  {
    assert Done(tasks) == {};
  }

  lemma EffortDrops(tasks: map<EntryId, SqueezeTask>, tasks': map<EntryId, SqueezeTask>, id: EntryId)
    requires id in tasks && id in tasks' && tasks' == tasks[id := tasks'[id]] && Effort(tasks'[id]) < Effort(tasks[id])
    ensures Sum(Efforts(tasks')) < Sum(Efforts(tasks))
  {
    SumUpdate(Efforts(tasks), id, Effort(tasks'[id]));
    assert Efforts(tasks') == Efforts(tasks)[id := Effort(tasks'[id])];
  }

  /** A round never raises the rank sum, and lowers it if a victim was resident. */
  lemma RoundLowersRank(start: Index, index: Index, ids: set<EntryId>)
    requires RoundDone(start, index, ids)
    ensures RankTotal(index) <= RankTotal(start)
    ensures forall id :: id in ids && IsResident(start, id) ==> RankTotal(index) < RankTotal(start)
  {
    SumMonotone(RankMap(index), RankMap(start));
    forall id | id in ids && IsResident(start, id) ensures RankTotal(index) < RankTotal(start) {
      SumStrictlyMonotone(RankMap(index), RankMap(start), id);
    }
  }
}
