/** The client's plan rewrite: wraps the work that the cache server can do in
    client nodes. */
module Pushdown {
  import opened Common

  datatype Plan =
    | Source(table: nat)
    | Repartition(input: Plan)
    | Aggregate(partial: bool, grouped: bool, input: Plan)
    | Client(remote: Plan)
    | Node(operator: nat, inputs: seq<Plan>)

  function Children(plan: Plan): (cs: seq<Plan>)
    ensures forall i :: 0 <= i < |cs| ==> cs[i] < plan
  {
    match plan
    case Source(_) => []
    case Repartition(input) => [input]
    case Aggregate(_, _, input) => [input]
    case Client(remote) => [remote]
    case Node(_, inputs) => inputs
  }

  /** `with_new_children`: the same operator over other inputs. */
  function WithNewChildren(plan: Plan, cs: seq<Plan>): (r: Plan)
    requires |cs| == |Children(plan)|
    ensures Children(r) == cs
  {
    match plan
    case Source(_) => plan
    case Repartition(_) => Repartition(cs[0])
    case Aggregate(partial, grouped, _) => Aggregate(partial, grouped, cs[0])
    case Client(_) => Client(cs[0])
    case Node(operator, _) => Node(operator, cs)
  }

  lemma SameChildren(plan: Plan)
    ensures WithNewChildren(plan, Children(plan)) == plan
  {
  }

  /** The work that may be pushed down: a source, a repartitioned source, or a
      partial aggregate without grouping over either. */
  ghost predicate Offloadable(plan: Plan) {
    exists t ::
      || plan == Source(t)
      || plan == Repartition(Source(t))
      || plan == Aggregate(true, false, Source(t))
      || plan == Aggregate(true, false, Repartition(Source(t)))
  }

  /** The tests of the search, as one. */
  predicate Pushable(plan: Plan) {
    || plan.Source?
    || (plan.Repartition? && plan.input.Source?)
    || (plan.Aggregate? && plan.partial && !plan.grouped &&
        (plan.input.Source? || (plan.input.Repartition? && plan.input.input.Source?)))
  }

  lemma PushableExactly(plan: Plan)
    ensures Pushable(plan) <==> Offloadable(plan)
  {
    if Pushable(plan) {
      var source := if plan.Source? then plan else if plan.input.Source? then plan.input else plan.input.input;
      assert source == Source(source.table);
    }
  }

  // ----- the code -----

  /** The candidate, as the path of child indices that leads to it: the candidate
      is the plan itself exactly when the path is empty. */
  method FindPushdownCandidate(plan: Plan) returns (r: Option<seq<nat>>)
    ensures r == Candidate(plan)
    ensures r.Some? <==> HasVisibleSource(plan)
    ensures r.Some? ==> Highest(plan, r.value)
    decreases plan
  {
    CandidateExactly(plan);
    if plan.Client? {
      return None;
    }
    if plan.Aggregate? && plan.partial && !plan.grouped {
      if plan.input.Source? {
        return Some([]);
      }
      if plan.input.Repartition? && plan.input.input.Source? {
        return Some([]);
      }
    }
    if plan.Repartition? && plan.input.Source? {
      return Some([]);
    }
    if plan.Source? {
      return Some([]);
    }
    var cs := Children(plan);
    for i := 0 to |cs|
      invariant FirstCandidate(plan, 0) == FirstCandidate(plan, i)
    {
      var found := FindPushdownCandidate(cs[i]);
      if found.Some? {
        return Some([i] + found.value);
      }
    }
    return None;
  }

  /** Rewrites a plan; `same` says that the very plan is handed back. */
  method OptimizePlan(plan: Plan) returns (r: Plan, same: bool)
    ensures r == Rewrite(plan) && (same ==> r == plan)
    decreases plan
  {
    if plan.Client? {
      return plan, true;
    }
    var candidate := FindPushdownCandidate(plan);
    CandidateAtRoot(plan);
    if candidate.Some? {
      if candidate.value == [] {
        return Client(plan), false;
      }
    }
    var cs := Children(plan);
    var newChildren: seq<Plan>, changed := [], false;
    for i := 0 to |cs|
      invariant |newChildren| == i && (!changed ==> newChildren == cs[..i])
      invariant forall j :: 0 <= j < i ==> newChildren[j] == Rewrite(cs[j])
    {
      var newChild, sameChild := OptimizePlan(cs[i]);
      if !sameChild {
        changed := true;
      }
      newChildren := newChildren + [newChild];
    }
    assert newChildren == RewriteChildren(plan);
    if changed {
      return WithNewChildren(plan, newChildren), false;
    }
    assert newChildren == cs;
    SameChildren(plan);
    return plan, true;
  }

  /** The optimizer rule. Erasing the client nodes of its answer gives the plan back, each
      of them wraps work that may be pushed down, and none of it is left outside. */
  method Optimize(plan: Plan) returns (r: Plan)
    ensures Erase(r) == Erase(plan) && (ClientFree(plan) ==> WellWrapped(r))
    ensures forall other :: ClientFree(plan) && Erase(other) == plan && WellWrapped(other) ==> other == r
  {
    var same;
    r, same := OptimizePlan(plan);
    RewriteErases(plan);
    if ClientFree(plan) {
      RewriteWellWrapped(plan);
      forall other | Erase(other) == plan && WellWrapped(other) ensures other == r {
        RewriteIsUnique(plan, other);
      }
    }
  }

  // ----- what it computes -----

  function Candidate(plan: Plan): Option<seq<nat>>
    decreases plan, 1, 0
  {
    if plan.Client? then None
    else if Pushable(plan) then Some([])
    else FirstCandidate(plan, 0)
  }

  /** The first candidate among the children from the i-th on. */
  function FirstCandidate(plan: Plan, i: nat): Option<seq<nat>>
    requires i <= |Children(plan)|
    decreases plan, 0, |Children(plan)| - i
  {
    var cs := Children(plan);
    if i == |cs| then None
    else
      match Candidate(cs[i])
      case Some(path) => Some([i] + path)
      case None => FirstCandidate(plan, i + 1)
  }

  lemma CandidateAtRoot(plan: Plan)
    ensures Candidate(plan) == Some([]) <==> Offloadable(plan)
    ensures Pushable(plan) <==> Offloadable(plan)
  {
    PushableExactly(plan);
    FirstIsBelow(plan, 0);
  }

  lemma {:induction false} FirstIsBelow(plan: Plan, i: nat)
    requires i <= |Children(plan)|
    ensures FirstCandidate(plan, i) != Some([])
    decreases |Children(plan)| - i
  {
    if i < |Children(plan)| {
      FirstIsBelow(plan, i + 1);
    }
  }

  function Rewrite(plan: Plan): Plan
    decreases plan, 1
  {
    if plan.Client? then plan
    else if Pushable(plan) then Client(plan)
    else WithNewChildren(plan, RewriteChildren(plan))
  }

  function RewriteChildren(plan: Plan): (cs: seq<Plan>)
    ensures |cs| == |Children(plan)|
    decreases plan, 0
  {
    var cs := Children(plan);
    seq(|cs|, i requires 0 <= i < |cs| => Rewrite(cs[i]))
  }

  // ----- client nodes -----

  predicate ClientFree(plan: Plan)
    decreases plan
  {
    !plan.Client? && forall i :: 0 <= i < |Children(plan)| ==> ClientFree(Children(plan)[i])
  }

  function Erase(plan: Plan): Plan
    decreases plan
  {
    if plan.Client? then Erase(plan.remote)
    else
      var cs := Children(plan);
      WithNewChildren(plan, seq(|cs|, i requires 0 <= i < |cs| => Erase(cs[i])))
  }

  lemma {:induction false} EraseClientFree(plan: Plan)
    requires ClientFree(plan)
    ensures Erase(plan) == plan
    decreases plan
  {
    var cs := Children(plan);
    forall i | 0 <= i < |cs| ensures Erase(cs[i]) == cs[i] {
      EraseClientFree(cs[i]);
    }
    assert seq(|cs|, i requires 0 <= i < |cs| => Erase(cs[i])) == cs;
    SameChildren(plan);
  }

  /** The rewrite only adds client nodes. */
  lemma {:induction false} RewriteErases(plan: Plan)
    ensures Erase(Rewrite(plan)) == Erase(plan)
    decreases plan
  {
    if !plan.Client? && !Pushable(plan) {
      var cs, cs' := Children(plan), RewriteChildren(plan);
      forall i | 0 <= i < |cs| ensures Erase(cs'[i]) == Erase(cs[i]) {
        RewriteErases(cs[i]);
      }
      assert seq(|cs|, i requires 0 <= i < |cs| => Erase(cs'[i])) == seq(|cs|, i requires 0 <= i < |cs| => Erase(cs[i]));
      assert Erase(WithNewChildren(plan, cs')) == Erase(plan);
    }
  }

  /** Every source in order, with the number of client nodes above it. */
  function SourceDepths(plan: Plan, above: nat): seq<(nat, nat)>
    decreases plan, 1, 0
  {
    match plan
    case Source(table) => [(table, above)]
    case Client(remote) => SourceDepths(remote, above + 1)
    case _ => DepthsFrom(plan, above, 0)
  }

  function DepthsFrom(plan: Plan, above: nat, i: nat): seq<(nat, nat)>
    requires i <= |Children(plan)|
    decreases plan, 0, |Children(plan)| - i
  {
    if i == |Children(plan)| then []
    else SourceDepths(Children(plan)[i], above) + DepthsFrom(plan, above, i + 1)
  }

  lemma {:induction false} UniformDepth(plan: Plan, above: nat)
    requires ClientFree(plan)
    ensures forall d :: d in SourceDepths(plan, above) ==> d.1 == above
    decreases plan, 1, 0
  {
    UniformFrom(plan, above, 0);
  }

  lemma {:induction false} UniformFrom(plan: Plan, above: nat, i: nat)
    requires ClientFree(plan) && i <= |Children(plan)|
    ensures forall d :: d in DepthsFrom(plan, above, i) ==> d.1 == above
    decreases plan, 0, |Children(plan)| - i
  {
    if i < |Children(plan)| {
      UniformDepth(Children(plan)[i], above);
      UniformFrom(plan, above, i + 1);
    }
  }

  /** In a rewritten plan each source lies under exactly one client node, and
      the sources are those of the input in the same order. */
  lemma {:induction false} OneClientPerSource(plan: Plan)
    requires ClientFree(plan)
    ensures SourceDepths(Rewrite(plan), 0) == SourceDepths(plan, 1)
    ensures forall d :: d in SourceDepths(Rewrite(plan), 0) ==> d.1 == 1
    decreases plan, 1, 0
  {
    UniformDepth(plan, 1);
    if !Pushable(plan) {
      OneClientFrom(plan, 0);
    }
  }

  lemma {:induction false} OneClientFrom(plan: Plan, i: nat)
    requires ClientFree(plan) && !Pushable(plan) && i <= |Children(plan)|
    ensures DepthsFrom(Rewrite(plan), 0, i) == DepthsFrom(plan, 1, i)
    decreases plan, 0, |Children(plan)| - i
  {
    if i < |Children(plan)| {
      OneClientPerSource(Children(plan)[i]);
      OneClientFrom(plan, i + 1);
    }
  }

  /** Client nodes wrap such work only, do not nest, and nothing that could have
      been wrapped is left outside. */
  ghost predicate WellWrapped(plan: Plan)
    decreases plan
  {
    if plan.Client? then Offloadable(plan.remote) && ClientFree(plan.remote)
    else !Offloadable(Erase(plan)) && forall i :: 0 <= i < |Children(plan)| ==> WellWrapped(Children(plan)[i])
  }

  lemma {:induction false} RewriteWellWrapped(plan: Plan)
    requires ClientFree(plan)
    ensures WellWrapped(Rewrite(plan))
    decreases plan
  {
    PushableExactly(plan);
    if !Pushable(plan) {
      EraseClientFree(plan);
      RewriteErases(plan);
      var cs := Children(plan);
      forall i | 0 <= i < |cs| ensures WellWrapped(Rewrite(cs[i])) {
        RewriteWellWrapped(cs[i]);
      }
      assert Children(Rewrite(plan)) == RewriteChildren(plan);
    }
  }

  /** Exact characterisation: the rewrite of a plan is the only well-wrapped plan
      that erases to it. */
  lemma {:induction false} RewriteIsUnique(plan: Plan, wrapped: Plan)
    requires ClientFree(plan) && Erase(wrapped) == plan && WellWrapped(wrapped)
    ensures wrapped == Rewrite(plan)
    decreases wrapped
  {
    PushableExactly(plan);
    if wrapped.Client? {
      EraseClientFree(wrapped.remote);
    } else {
      var cs := Children(wrapped);
      assert Children(plan) == seq(|cs|, i requires 0 <= i < |cs| => Erase(cs[i]));
      forall i | 0 <= i < |cs| ensures cs[i] == Rewrite(Children(plan)[i]) {
        RewriteIsUnique(Children(plan)[i], cs[i]);
      }
      assert cs == RewriteChildren(plan);
      SameChildren(wrapped);
      assert WithNewChildren(plan, cs) == wrapped;
    }
  }

  /** Rewriting twice changes nothing more, client nodes in the input or not. */
  lemma {:induction false} RewriteIdempotent(plan: Plan)
    ensures Rewrite(Rewrite(plan)) == Rewrite(plan)
    decreases plan
  {
    if !plan.Client? && !Pushable(plan) {
      var r, cs := Rewrite(plan), Children(plan);
      StaysUnpushable(plan);
      forall i | 0 <= i < |cs| ensures Rewrite(Rewrite(cs[i])) == Rewrite(cs[i]) {
        RewriteIdempotent(cs[i]);
      }
      assert RewriteChildren(r) == RewriteChildren(plan);
      SameChildren(r);
    }
  }

  lemma StaysUnpushable(plan: Plan)
    requires !plan.Client? && !Pushable(plan)
    ensures !Rewrite(plan).Client? && !Pushable(Rewrite(plan))
  {
    var r := Rewrite(plan);
    if plan.Repartition? || plan.Aggregate? {
      assert RewriteChildren(plan)[0] == Rewrite(Children(plan)[0]);
    }
    if plan.Repartition? {
      assert r == Repartition(Rewrite(plan.input));
    } else if plan.Aggregate? {
      assert r == Aggregate(plan.partial, plan.grouped, Rewrite(plan.input));
      if plan.input.Repartition? {
        assert RewriteChildren(plan.input)[0] == Rewrite(plan.input.input);
        assert !Rewrite(plan.input.input).Source?;
      }
    }
  }

  // ----- the search -----

  /** The path leads to work that can be pushed down; nothing on the way can, and no
      earlier branch has a candidate. */
  ghost predicate Highest(plan: Plan, path: seq<nat>)
    decreases plan
  {
    && !plan.Client?
    && if path == [] then Offloadable(plan)
       else
         && !Offloadable(plan) && path[0] < |Children(plan)|
         && Highest(Children(plan)[path[0]], path[1..])
         && forall j :: 0 <= j < path[0] ==> !HasVisibleSource(Children(plan)[j])
  }

  /** Some source lies outside all client nodes. */
  predicate HasVisibleSource(plan: Plan)
    decreases plan
  {
    if plan.Client? then false
    else plan.Source? || exists i :: 0 <= i < |Children(plan)| && HasVisibleSource(Children(plan)[i])
  }

  lemma PushableIsVisible(plan: Plan)
    requires Pushable(plan)
    ensures HasVisibleSource(plan)
  {
    if !plan.Source? {
      var input := Children(plan)[0];
      if !input.Source? {
        assert HasVisibleSource(Children(input)[0]);
      }
      assert HasVisibleSource(input);
    }
  }

  /** The search finds a candidate exactly when some source is outside the client
      nodes, and then the first highest one. */
  lemma {:induction false} CandidateExactly(plan: Plan)
    ensures Candidate(plan).Some? <==> HasVisibleSource(plan)
    ensures Candidate(plan).Some? ==> Highest(plan, Candidate(plan).value)
    decreases plan, 1, 0
  {
    PushableExactly(plan);
    if !plan.Client? {
      if Pushable(plan) {
        PushableIsVisible(plan);
      } else {
        FirstExactly(plan, 0);
      }
    }
  }

  lemma {:induction false} FirstExactly(plan: Plan, i: nat)
    requires !plan.Client? && !Pushable(plan) && i <= |Children(plan)|
    requires forall j :: 0 <= j < i ==> !HasVisibleSource(Children(plan)[j])
    ensures FirstCandidate(plan, i).Some? <==> HasVisibleSource(plan)
    ensures FirstCandidate(plan, i).Some? ==> Highest(plan, FirstCandidate(plan, i).value)
    decreases plan, 0, |Children(plan)| - i
  {
    PushableExactly(plan);
    if i < |Children(plan)| {
      CandidateExactly(Children(plan)[i]);
      if Candidate(Children(plan)[i]).None? {
        FirstExactly(plan, i + 1);
      } else {
        var path := FirstCandidate(plan, i).value;
        assert path[1..] == Candidate(Children(plan)[i]).value;
      }
    }
  }
}
