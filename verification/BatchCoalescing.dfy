/** The server's result stream: small record batches are merged until they exceed
    three quarters of the target size. */
module BatchCoalescing {
  import opened Common

  type Row = nat
  type Batch = seq<Row>

  /** What polling the inner stream yields; past its events it has ended. */
  datatype Event = NotReady | Next(batch: Batch) | Broken

  /** What polling the merged stream yields. */
  datatype Outcome = Pending | Emit(rows: Batch) | Error | Finished

  datatype Pipe = Pipe(inner: seq<Event>, buffered: seq<Batch>)

  function Threshold(target: nat): nat { (target * 3) / 4 }

  class FinalStream {
    const target: nat
    var inner: seq<Event>
    var bufferedBatches: seq<Batch>
    var currentBufferedRows: nat

    ghost predicate Valid()
      reads this
    {
      currentBufferedRows == |Flatten(bufferedBatches)|
    }

    ghost function State(): Pipe
      reads this
    {
      Pipe(inner, bufferedBatches)
    }

    constructor (events: seq<Event>, size: nat)
      ensures Valid() && target == size && State() == Pipe(events, [])
    {
      target, inner, bufferedBatches, currentBufferedRows := size, events, [], 0;
    }

    method PollNext() returns (r: Outcome)
      requires Valid()
      modifies this
      ensures Valid() && (r, State()) == Poll(Threshold(target), old(State()))
    {
      while true
        invariant Valid()
        invariant Poll(Threshold(target), State()) == Poll(Threshold(target), old(State()))
        decreases |inner|
      {
        var threshold := (target * 3) / 4;
        if currentBufferedRows > threshold {
          currentBufferedRows := 0;
          var batches := bufferedBatches;
          bufferedBatches := [];
          return Emit(Flatten(batches));
        }
        if inner == [] {
          if bufferedBatches == [] {
            return Finished;
          }
          currentBufferedRows := 0;
          var batches := bufferedBatches;
          bufferedBatches := [];
          return Emit(Flatten(batches));
        }
        var event := inner[0];
        inner := inner[1..];
        match event {
          case NotReady => return Pending;
          case Broken => return Error;
          case Next(batch) =>
            currentBufferedRows := currentBufferedRows + |batch|;
            bufferedBatches := bufferedBatches + [batch];
            ConcatPush(bufferedBatches[..|bufferedBatches| - 1], batch);
        }
      }
    }
  }

  lemma ConcatPush(batches: seq<Batch>, batch: Batch)
    ensures Flatten(batches + [batch]) == Flatten(batches) + batch
  {
    assert (batches + [batch])[..|batches|] == batches;
  }

  /** One poll as a function of the inner events and the buffer. */
  function Poll(threshold: nat, p: Pipe): (Outcome, Pipe)
    decreases |p.inner|
  {
    if |Flatten(p.buffered)| > threshold then (Emit(Flatten(p.buffered)), p.(buffered := []))
    else if p.inner == [] then
      if p.buffered == [] then (Finished, p) else (Emit(Flatten(p.buffered)), p.(buffered := []))
    else
      var rest := p.(inner := p.inner[1..]);
      match p.inner[0]
      case NotReady => (Pending, rest)
      case Broken => (Error, rest)
      case Next(batch) => Poll(threshold, rest.(buffered := p.buffered + [batch]))
  }

  /** The outcomes of n polls and the state after them. */
  function Polls(threshold: nat, p: Pipe, n: nat): (r: (seq<Outcome>, Pipe))
    ensures |r.0| == n
  {
    if n == 0 then ([], p)
    else
      var (before, mid) := Polls(threshold, p, n - 1);
      var (last, after) := Poll(threshold, mid);
      (before + [last], after)
  }

  function RowsAhead(inner: seq<Event>): Batch {
    if inner == [] then [] else (if inner[0].Next? then inner[0].batch else []) + RowsAhead(inner[1..])
  }

  function ErrorsAhead(inner: seq<Event>): nat {
    if inner == [] then 0 else (if inner[0].Broken? then 1 else 0) + ErrorsAhead(inner[1..])
  }

  function Emitted(o: Outcome): Batch { if o.Emit? then o.rows else [] }

  function AllEmitted(os: seq<Outcome>): Batch {
    if os == [] then [] else AllEmitted(os[..|os| - 1]) + Emitted(os[|os| - 1])
  }

  function AllErrors(os: seq<Outcome>): nat {
    if os == [] then 0 else AllErrors(os[..|os| - 1]) + if os[|os| - 1].Error? then 1 else 0
  }

  /** One poll that reads a batch: it joins the buffer. */
  lemma BufferBatch(buffered: seq<Batch>, batch: Batch, ahead: Batch)
    ensures Flatten(buffered + [batch]) + ahead == Flatten(buffered) + (batch + ahead)
  {
    ConcatPush(buffered, batch);
    Associate(Flatten(buffered), batch, ahead);
  }

  lemma {:induction false} PollConserves(threshold: nat, p: Pipe)
    ensures var (o, p') := Poll(threshold, p);
      Emitted(o) + (Flatten(p'.buffered) + RowsAhead(p'.inner)) == Flatten(p.buffered) + RowsAhead(p.inner)
    decreases |p.inner|
  {
    if |Flatten(p.buffered)| <= threshold && p.inner != [] {
      var ahead := RowsAhead(p.inner[1..]);
      if p.inner[0].Next? {
        PollConserves(threshold, Pipe(p.inner[1..], p.buffered + [p.inner[0].batch]));
        BufferBatch(p.buffered, p.inner[0].batch, ahead);
      } else {
        assert RowsAhead(p.inner) == [] + ahead == ahead;
      }
    } else {
      assert Flatten([]) + RowsAhead(p.inner) == RowsAhead(p.inner);
    }
  }

  lemma {:induction false} PollKeepsErrors(threshold: nat, p: Pipe)
    ensures var (o, p') := Poll(threshold, p);
      (if o.Error? then 1 else 0) + ErrorsAhead(p'.inner) == ErrorsAhead(p.inner)
    decreases |p.inner|
  {
    if |Flatten(p.buffered)| <= threshold && p.inner != [] && p.inner[0].Next? {
      PollKeepsErrors(threshold, Pipe(p.inner[1..], p.buffered + [p.inner[0].batch]));
    }
  }

  /** Conservation over every sequence of polls: what was emitted, then what is
      buffered, then what is still to come is the input, in order; every error of
      the input is reported once. */
  lemma {:induction false} PollsConserve(threshold: nat, inner: seq<Event>, n: nat)
    ensures var (os, p) := Polls(threshold, Pipe(inner, []), n);
      && AllEmitted(os) + (Flatten(p.buffered) + RowsAhead(p.inner)) == RowsAhead(inner)
      && AllErrors(os) + ErrorsAhead(p.inner) == ErrorsAhead(inner)
  {
    if n > 0 {
      PollsConserve(threshold, inner, n - 1);
      var (before, mid) := Polls(threshold, Pipe(inner, []), n - 1);
      var (last, after) := Poll(threshold, mid);
      PollConserves(threshold, mid);
      assert (before + [last])[..n - 1] == before;
      PollKeepsErrors(threshold, mid);
      Associate(AllEmitted(before), Emitted(last), Flatten(after.buffered) + RowsAhead(after.inner));
    }
  }

  // ----- how the input is cut into batches -----

  /** The batches that the inner stream has yet to yield. */
  function Coming(inner: seq<Event>): seq<Batch> {
    if inner == [] then [] else if inner[0].Next? then [inner[0].batch] + Coming(inner[1..]) else Coming(inner[1..])
  }

  /** Cutting a list of batches greedily: a group ends with the first batch that
      takes it over the threshold, and the last group with the input. */
  function Groups(threshold: nat, buffered: seq<Batch>, coming: seq<Batch>): seq<seq<Batch>>
    decreases |coming|, |buffered|
  {
    if |Flatten(buffered)| > threshold then [buffered] + Groups(threshold, [], coming)
    else if coming == [] then if buffered == [] then [] else [buffered]
    else Groups(threshold, buffered + [coming[0]], coming[1..])
  }

  function GroupsOf(threshold: nat, p: Pipe): seq<seq<Batch>> {
    Groups(threshold, p.buffered, Coming(p.inner))
  }

  function ConcatEach(groups: seq<seq<Batch>>): (rows: seq<Batch>)
    ensures |rows| == |groups| && forall i :: 0 <= i < |groups| ==> rows[i] == Flatten(groups[i])
  {
    seq(|groups|, i requires 0 <= i < |groups| => Flatten(groups[i]))
  }

  function Emission(o: Outcome): seq<Batch> { if o.Emit? then [o.rows] else [] }

  /** The emitted batches. */
  function Emissions(os: seq<Outcome>): seq<Batch> {
    if os == [] then [] else Emissions(os[..|os| - 1]) + Emission(os[|os| - 1])
  }

  /** A poll emits the first group or none. */
  lemma {:induction false} PollFollowsGroups(threshold: nat, p: Pipe)
    ensures var (o, p') := Poll(threshold, p);
      Emission(o) + ConcatEach(GroupsOf(threshold, p')) == ConcatEach(GroupsOf(threshold, p))
    decreases |p.inner|
  {
    if |Flatten(p.buffered)| <= threshold && p.inner != [] && p.inner[0].Next? {
      var rest := Pipe(p.inner[1..], p.buffered + [p.inner[0].batch]);
      PollFollowsGroups(threshold, rest);
      assert Coming(p.inner)[1..] == Coming(p.inner[1..]);
    }
  }

  /** Over every sequence of polls the emitted batches are the first groups of the
      input; neither pending polls nor errors move a cut. */
  lemma {:induction false} PollsFollowGroups(threshold: nat, inner: seq<Event>, n: nat)
    ensures var (os, p) := Polls(threshold, Pipe(inner, []), n);
      Emissions(os) + ConcatEach(GroupsOf(threshold, p)) == ConcatEach(Groups(threshold, [], Coming(inner)))
  {
    if n > 0 {
      PollsFollowGroups(threshold, inner, n - 1);
      var (before, mid) := Polls(threshold, Pipe(inner, []), n - 1);
      var (last, after) := Poll(threshold, mid);
      PollFollowsGroups(threshold, mid);
      assert (before + [last])[..n - 1] == before;
      Associate(Emissions(before), Emission(last), ConcatEach(GroupsOf(threshold, after)));
    }
  }

  /** A group that is within the threshold without its last batch. */
  predicate NotTooLong(threshold: nat, group: seq<Batch>) {
    group != [] && |Flatten(group[..|group| - 1])| <= threshold
  }

  /** Consecutive runs of the input, each over the threshold but not without its last
      batch; only the last run may stay below. */
  predicate WellCut(threshold: nat, groups: seq<seq<Batch>>, batches: seq<Batch>) {
    && Flatten(groups) == batches
    && (forall i :: 0 <= i < |groups| ==> NotTooLong(threshold, groups[i]))
    && (forall i :: 0 <= i < |groups| - 1 ==> |Flatten(groups[i])| > threshold)
  }

  lemma {:induction false} GroupsWellCut(threshold: nat, buffered: seq<Batch>, coming: seq<Batch>)
    requires buffered == [] || NotTooLong(threshold, buffered)
    ensures WellCut(threshold, Groups(threshold, buffered, coming), buffered + coming)
    decreases |coming|, |buffered|
  {
    if |Flatten(buffered)| > threshold {
      GroupsWellCut(threshold, [], coming);
      assert [] + coming == coming;
      var rest := Groups(threshold, [], coming);
      FlattenCons([buffered] + rest);
      assert ([buffered] + rest)[1..] == rest;
    } else if coming == [] {
      assert buffered + coming == buffered;
      if buffered != [] {
        FlattenCons([buffered]);
        assert [buffered][1..] == [];
      }
    } else {
      var more := buffered + [coming[0]];
      assert more[..|more| - 1] == buffered;
      GroupsWellCut(threshold, more, coming[1..]);
      assert more + coming[1..] == buffered + coming;
    }
  }

  lemma {:induction false} ConcatPrefix(group: seq<Batch>, k: nat)
    requires k <= |group|
    ensures |Flatten(group[..k])| <= |Flatten(group)|
  {
    if k < |group| {
      ConcatPrefix(group[..|group| - 1], k);
      assert group[..|group| - 1][..k] == group[..k];
    } else {
      assert group[..k] == group;
    }
  }

  /** The cut is the only possible one: `k` batches of its first group are buffered. */
  lemma {:induction false} OnlyCut(threshold: nat, groups: seq<seq<Batch>>, k: nat, coming: seq<Batch>)
    requires groups != [] && k <= |groups[0]| && WellCut(threshold, groups, groups[0][..k] + coming)
    ensures Groups(threshold, groups[0][..k], coming) == groups
    decreases |coming|, k
  {
    var g, rest := groups[0], groups[1..];
    FlattenCons(groups);
    if k < |g| {
      OneMoreBuffered(threshold, g, k, Flatten(rest), coming);
      OnlyCut(threshold, groups, k + 1, coming[1..]);
    } else {
      Cancel(g, k, Flatten(rest), coming);
      assert g[..k] == g && g[k..] + Flatten(rest) == Flatten(rest);
      if rest == [] {
        LastGroup(threshold, g);
        assert groups == [g];
      } else {
        assert WellCut(threshold, rest, coming);
        assert rest[0][..0] == [] && [] + coming == coming;
        OnlyCut(threshold, rest, 0, coming);
        assert groups == [g] + rest;
      }
    }
  }

  /** A group of which part is buffered takes the next batch. */
  lemma OneMoreBuffered(threshold: nat, g: seq<Batch>, k: nat, after: seq<Batch>, coming: seq<Batch>)
    requires k < |g| && NotTooLong(threshold, g) && g + after == g[..k] + coming
    ensures coming != [] && g[..k] + [coming[0]] == g[..k + 1] && g[..k + 1] + coming[1..] == g[..k] + coming
    ensures |Flatten(g[..k])| <= threshold
  {
    Cancel(g, k, after, coming);
    ConcatPrefix(g[..|g| - 1], k);
    assert g[..|g| - 1][..k] == g[..k];
  }

  lemma Cancel<T>(g: seq<T>, k: nat, after: seq<T>, coming: seq<T>)
    requires k <= |g| && g + after == g[..k] + coming
    ensures coming == g[k..] + after
  {
    assert coming == (g[..k] + coming)[k..] == (g + after)[k..];
  }

  lemma LastGroup(threshold: nat, g: seq<Batch>)
    requires g != []
    ensures Groups(threshold, g, []) == [g]
  {
    assert [g] + Groups(threshold, [], []) == [g];
  }

  lemma WellCutIsUnique(threshold: nat, groups: seq<seq<Batch>>, batches: seq<Batch>)
    requires WellCut(threshold, groups, batches)
    ensures groups == Groups(threshold, [], batches)
  {
    if groups != [] {
      assert groups[0][..0] == [] && [] + batches == batches;
      OnlyCut(threshold, groups, 0, batches);
    }
  }

  /** A poll leaves at most the threshold behind, and nothing at the end. */
  lemma {:induction false} PollLeaves(threshold: nat, p: Pipe)
    ensures var (o, p') := Poll(threshold, p);
      && (o.Emit? ==> p'.buffered == [])
      && (!o.Emit? ==> |Flatten(p'.buffered)| <= threshold)
      && (o.Finished? ==> p' == Pipe([], []))
    decreases |p.inner|
  {
    if |Flatten(p.buffered)| <= threshold && p.inner != [] && p.inner[0].Next? {
      PollLeaves(threshold, Pipe(p.inner[1..], p.buffered + [p.inner[0].batch]));
    }
  }

  lemma {:induction false} PollsLeave(threshold: nat, inner: seq<Event>, n: nat)
    ensures var (os, p) := Polls(threshold, Pipe(inner, []), n);
      && |Flatten(p.buffered)| <= threshold
      && (forall i :: 0 <= i < n && os[i].Finished? ==> p == Pipe([], []))
  {
    if n > 0 {
      PollsLeave(threshold, inner, n - 1);
      var (before, mid) := Polls(threshold, Pipe(inner, []), n - 1);
      PollLeaves(threshold, mid);
    }
  }

  /** Sizes, in every run: the i-th emitted batch merges the i-th of the runs into
      which the input's batches are cut, one after the other; each run exceeds the
      threshold, and does not without its last batch, except that the last run may
      stay below. Once the stream has ended all runs are emitted. */
  lemma PollsSizes(threshold: nat, inner: seq<Event>, n: nat)
    ensures var (os, p) := Polls(threshold, Pipe(inner, []), n);
      var groups := Groups(threshold, [], Coming(inner));
      && WellCut(threshold, groups, Coming(inner))
      && |Emissions(os)| <= |groups|
      && (forall i :: 0 <= i < |Emissions(os)| ==> Emissions(os)[i] == Flatten(groups[i]))
      && |Flatten(p.buffered)| <= threshold
      && (forall i :: 0 <= i < n && os[i].Finished? ==> p == Pipe([], []) && |Emissions(os)| == |groups|)
  {
    var (os, p) := Polls(threshold, Pipe(inner, []), n);
    var groups := Groups(threshold, [], Coming(inner));
    GroupsWellCut(threshold, [], Coming(inner));
    assert [] + Coming(inner) == Coming(inner);
    PollsFollowGroups(threshold, inner, n);
    PollsLeave(threshold, inner, n);
    assert forall i :: 0 <= i < |Emissions(os)| ==> Emissions(os)[i] == ConcatEach(groups)[i];
  }

  /** Consecutive runs of the input, each over three quarters of the target but not
      without its last batch; only the last run may stay below. */
  ghost predicate WellSized(target: nat, groups: seq<seq<Batch>>, batches: seq<Batch>) {
    && Flatten(groups) == batches
    && (forall i :: 0 <= i < |groups| ==> groups[i] != [] && 4 * |Flatten(groups[i][..|groups[i]| - 1])| <= 3 * target)
    && (forall i :: 0 <= i < |groups| - 1 ==> 4 * |Flatten(groups[i])| > 3 * target)
  }

  lemma WellSizedIsWellCut(target: nat, groups: seq<seq<Batch>>, batches: seq<Batch>)
    ensures WellSized(target, groups, batches) <==> WellCut(Threshold(target), groups, batches)
  {
    assert forall i :: 0 <= i < |groups| ==> (4 * |Flatten(groups[i])| > 3 * target <==> |Flatten(groups[i])| > Threshold(target));
    assert forall i :: 0 <= i < |groups| && groups[i] != [] ==>
      (NotTooLong(Threshold(target), groups[i]) <==> 4 * |Flatten(groups[i][..|groups[i]| - 1])| <= 3 * target);
  }

  /** There is one way to cut batches into such runs. */
  lemma WellSizedExactly(target: nat, groups: seq<seq<Batch>>, batches: seq<Batch>)
    ensures WellSized(target, groups, batches) <==> groups == Groups(Threshold(target), [], batches)
  {
    WellSizedIsWellCut(target, groups, batches);
    GroupsWellCut(Threshold(target), [], batches);
    assert [] + batches == batches;
    if WellCut(Threshold(target), groups, batches) {
      WellCutIsUnique(Threshold(target), groups, batches);
    }
  }

  /** For a target size, in every sequence of polls the i-th emitted batch is the i-th of
      these runs merged. */
  lemma StreamSizes(target: nat, inner: seq<Event>, n: nat, groups: seq<seq<Batch>>)
    requires WellSized(target, groups, Coming(inner))
    ensures var os := Emissions(Polls(Threshold(target), Pipe(inner, []), n).0);
      |os| <= |groups| && forall i :: 0 <= i < |os| ==> os[i] == Flatten(groups[i])
  {
    WellSizedExactly(target, groups, Coming(inner));
    PollsSizes(Threshold(target), inner, n);
  }

  /** Work left: events to read and one more batch if something is buffered. */
  function Work(p: Pipe): nat { 2 * |p.inner| + if p.buffered == [] then 0 else 1 }

  lemma {:induction false} PollProgress(threshold: nat, p: Pipe)
    ensures var (o, p') := Poll(threshold, p); !o.Finished? ==> Work(p') < Work(p)
    decreases |p.inner|
  {
    if |Flatten(p.buffered)| <= threshold && p.inner != [] && p.inner[0].Next? {
      PollProgress(threshold, Pipe(p.inner[1..], p.buffered + [p.inner[0].batch]));
    }
  }

  lemma {:induction false} PollsProgress(threshold: nat, p: Pipe, n: nat)
    ensures var (os, p') := Polls(threshold, p, n);
      (exists i :: 0 <= i < n && os[i].Finished?) || Work(p') + n <= Work(p)
  {
    if n > 0 {
      PollsProgress(threshold, p, n - 1);
      var (before, mid) := Polls(threshold, p, n - 1);
      PollProgress(threshold, mid);
      var (os, p') := Polls(threshold, p, n);
      if i :| 0 <= i < n - 1 && before[i].Finished? {
        assert os[i].Finished?;
      } else if Poll(threshold, mid).0.Finished? {
        assert os[n - 1].Finished?;
      }
    }
  }

  /** Whoever keeps polling gets the whole input: after enough polls the rows
      emitted are exactly the rows of the inner stream. */
  lemma PollingDeliversAll(threshold: nat, inner: seq<Event>, n: nat)
    requires n > 2 * |inner|
    ensures AllEmitted(Polls(threshold, Pipe(inner, []), n).0) == RowsAhead(inner)
  {
    var (os, p) := Polls(threshold, Pipe(inner, []), n);
    PollsProgress(threshold, Pipe(inner, []), n);
    PollsLeave(threshold, inner, n);
    PollsConserve(threshold, inner, n);
    assert p == Pipe([], []);
    assert AllEmitted(os) + ([] + []) == AllEmitted(os);
  }
}
