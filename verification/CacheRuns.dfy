/** Whole runs of the cache against a plain map. */
module CacheRuns {
  import opened Common
  import opened CacheEntries
  import opened CacheStore
  import opened BitSelection

  datatype Op =
    | InsertOp(id: EntryId, rows: Rows, size: nat)
    | GetOp(id: EntryId, selection: Option<seq<bool>>)
    | ReadLiquidOp(id: EntryId)
    | PredicateOp(id: EntryId, filter: seq<bool>, predicate_: Cell -> Tri)
    | FlushOp
    | ResetOp

  datatype Response = Done | RowsOf(rows: Option<Rows>) | MaskOf(mask: Option<seq<bool>>)

  type View = map<EntryId, Rows>

  /** What an operation does to the plain map. */
  function After(op: Op, m: View): View {
    match op
    case InsertOp(id, rows, _) => m[id := rows]
    case ResetOp => map[]
    case _ => m
  }

  /** Masks have the length of the rows they select from. */
  predicate Fits(op: Op, m: View) {
    match op
    case GetOp(id, selection) => id in m && selection.Some? ==> |selection.value| == |m[id]|
    case PredicateOp(id, filter, _) => id in m ==> |filter| == |m[id]|
    case _ => true
  }

  /** The responses that the plain map allows. Only `try_read_liquid` has a choice:
      it may decline. */
  predicate Allowed(op: Op, m: View, r: Response) {
    Fits(op, m) &&
    match op
    case GetOp(id, selection) => r == RowsOf(if id in m then Some(Selected(m[id], selection)) else None)
    case ReadLiquidOp(id) => r == RowsOf(None) || (id in m && r == RowsOf(Some(m[id])))
    case PredicateOp(id, filter, p) => r == MaskOf(if id in m then Some(NullsToFalse(MapRows(p, Filter(m[id], filter)))) else None)
    case _ => r == Done
  }

  function AfterAll(ops: seq<Op>, m: View): View {
    if ops == [] then m else After(ops[|ops| - 1], AfterAll(ops[..|ops| - 1], m))
  }

  ghost predicate AllFit(ops: seq<Op>, m: View) {
    forall i :: 0 <= i < |ops| ==> Fits(ops[i], AfterAll(ops[..i], m))
  }

  /** Response i is one that the plain map allows at that point of the run. */
  ghost predicate AnswersLikeMap(ops: seq<Op>, m: View, responses: seq<Response>, i: nat)
    requires i < |ops| && i < |responses|
  {
    Allowed(ops[i], AfterAll(ops[..i], m), responses[i])
  }

  /** Runs the operations on a cache. For every policy choice, size and budget the
      responses are those of a plain map, and the accounting holds throughout. */
  method Drive(cache: LiquidCache, ops: seq<Op>) returns (responses: seq<Response>)
    requires cache.Valid() && AllFit(ops, cache.contents)
    modifies cache
    ensures cache.Valid() && cache.contents == AfterAll(ops, old(cache.contents))
    ensures |responses| == |ops|
    ensures forall i :: 0 <= i < |ops| ==> AnswersLikeMap(ops, old(cache.contents), responses, i)
  {
    responses := [];
    for n := 0 to |ops|
      invariant cache.Valid() && cache.contents == AfterAll(ops[..n], old(cache.contents))
      invariant |responses| == n
      invariant forall i :: 0 <= i < n ==> AnswersLikeMap(ops, old(cache.contents), responses, i)
    {
      assert ops[..n + 1][..n] == ops[..n];
      var r := Perform(cache, ops[n]);
      ghost var before := responses;
      responses := responses + [r];
      forall i | 0 <= i <= n ensures AnswersLikeMap(ops, old(cache.contents), responses, i) {
        assert i < n ==> AnswersLikeMap(ops, old(cache.contents), before, i);
      }
    }
    assert ops[..|ops|] == ops;
  }

  method Perform(cache: LiquidCache, op: Op) returns (r: Response)
    requires cache.Valid() && Fits(op, cache.contents)
    modifies cache
    ensures cache.Valid() && cache.contents == After(op, old(cache.contents))
    ensures Allowed(op, old(cache.contents), r)
  {
    r := Done;
    match op {
      case InsertOp(id, rows, size) => cache.Insert(id, rows, size);
      case GetOp(id, selection) =>
        var rows := cache.ReadArrowArray(id, selection);
        r := RowsOf(rows);
      case ReadLiquidOp(id) =>
        var rows := cache.TryReadLiquid(id);
        r := RowsOf(rows);
      case PredicateOp(id, filter, p) =>
        var mask := cache.EvalPredicateWithFilter(id, filter, p);
        r := MaskOf(mask);
      case FlushOp => cache.FlushAllToDisk();
      case ResetOp => cache.Reset();
    }
  }

  /** The last array inserted for an id since the last reset. */
  function LastInsert(ops: seq<Op>, id: EntryId): Option<Rows> {
    if ops == [] then None
    else
      var last := ops[|ops| - 1];
      if last.InsertOp? && last.id == id then Some(last.rows)
      else if last.ResetOp? then None
      else LastInsert(ops[..|ops| - 1], id)
  }

  lemma {:induction false} ViewIsLastInsert(ops: seq<Op>, id: EntryId)
    ensures LastInsert(ops, id) == if id in AfterAll(ops, map[]) then Some(AfterAll(ops, map[])[id]) else None
  {
    if ops != [] {
      ViewIsLastInsert(ops[..|ops| - 1], id);
    }
  }

  /** In every run from an empty cache, reading an id without a selection answers
      the last array inserted for it, however often it moved between memory and disk. */
  lemma GetAnswersLastInsert(ops: seq<Op>, responses: seq<Response>, i: nat)
    requires i < |ops| == |responses| && AllFit(ops, map[])
    requires forall n :: 0 <= n < |ops| ==> AnswersLikeMap(ops, map[], responses, n)
    requires ops[i].GetOp? && ops[i].selection.None?
    ensures responses[i] == RowsOf(LastInsert(ops[..i], ops[i].id))
  {
    ViewIsLastInsert(ops[..i], ops[i].id);
    assert AnswersLikeMap(ops, map[], responses, i);
  }

  /** With a selection it answers, in order, the rows of that array at the selected positions. */
  lemma GetAnswersSelectedRows(ops: seq<Op>, responses: seq<Response>, i: nat)
    requires i < |ops| == |responses| && AllFit(ops, map[])
    requires forall n :: 0 <= n < |ops| ==> AnswersLikeMap(ops, map[], responses, n)
    requires ops[i].GetOp? && ops[i].selection.Some?
    ensures responses[i].RowsOf? && (responses[i].rows.Some? <==> LastInsert(ops[..i], ops[i].id).Some?)
    ensures responses[i].rows.Some? ==> Picks(LastInsert(ops[..i], ops[i].id).value, ops[i].selection.value, responses[i].rows.value)
  {
    ViewIsLastInsert(ops[..i], ops[i].id);
    assert AnswersLikeMap(ops, map[], responses, i);
    if responses[i].rows.Some? {
      FilterPicks(LastInsert(ops[..i], ops[i].id).value, ops[i].selection.value);
    }
  }

  /** A predicate answers, for each selected row of that array, whether it is true there. */
  lemma PredicateAnswersRows(ops: seq<Op>, responses: seq<Response>, i: nat)
    requires i < |ops| == |responses| && AllFit(ops, map[])
    requires forall n :: 0 <= n < |ops| ==> AnswersLikeMap(ops, map[], responses, n)
    requires ops[i].PredicateOp?
    ensures responses[i].MaskOf? && (responses[i].mask.Some? <==> LastInsert(ops[..i], ops[i].id).Some?)
    ensures responses[i].mask.Some? ==>
      Passes(ops[i].predicate_, LastInsert(ops[..i], ops[i].id).value, ops[i].filter, responses[i].mask.value)
  {
    ViewIsLastInsert(ops[..i], ops[i].id);
    assert AnswersLikeMap(ops, map[], responses, i);
    if responses[i].mask.Some? {
      PassesExactly(ops[i].predicate_, LastInsert(ops[..i], ops[i].id).value, ops[i].filter);
    }
  }
}
