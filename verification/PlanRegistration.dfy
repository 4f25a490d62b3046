/** One-time plan registration: the partitions of a client node race to register
    its plan with the server; the losers wait. Any number of client nodes and
    partitions, any interleaving, and any call may fail or be dropped. */
module PlanRegistration {

  type Handle = nat
  type PlanId = nat
  type PartitionId = nat

  datatype Flag = NotRegistered | InProgress | Registered

  /** Where a partition is in `flight_stream`. */
  datatype Pc =
    | Connecting
    | Claiming                 // before the compare-exchange
    | RegisteringStores(left: nat)
    | Serializing
    | AwaitingReply            // the registration is on its way or at the server
    | Publishing               // reply received, flag not yet stored
    | Waiting                  // lost the race, polling the flag
    | Fetching                 // sends do_get
    | Streaming(plan: PlanId)
    | PlanNotFound
    | Failed

  /** A partition of a client node: the handle and the flag belong to the node and to
      every node rebuilt from it, the remote plan to the node alone. */
  datatype Partition = Partition(handle: Handle, plan: PlanId, pc: Pc)

  /** `transit` holds the senders of registrations that the server has not handled
      yet, `handled` those it has; `plans` is the server's map, `sends` counts the
      registrations ever sent for a handle. */
  datatype State = State(
    partitions: map<PartitionId, Partition>,
    flags: map<Handle, Flag>,
    transit: set<PartitionId>,
    handled: set<PartitionId>,
    plans: map<Handle, PlanId>,
    sends: map<Handle, nat>)

  datatype Action =
    | Connect
    | CompareExchange(stores: nat)
    | RegisterStore
    | SendPlan
    | ServerRegisters
    | Reply
    | Publish
    | Poll
    | DoGet
    | Fail

  datatype Step = Step(partition: PartitionId, action: Action)

  predicate WellFormed(s: State) {
    forall p :: p in s.partitions ==>
      var h := s.partitions[p].handle;
      h in s.flags && h in s.sends
  }

  /** `ServerRegisters` is the server handling the partition's registration, before
      or after its sender failed; a reply can only follow it. Everything can fail
      until the lookup is done. */
  predicate Enabled(s: State, step: Step) {
    var p := step.partition;
    p in s.partitions && WellFormed(s) &&
    var Partition(h, plan, pc) := s.partitions[p];
    match step.action
    case Connect => pc.Connecting?
    case CompareExchange(_) => pc.Claiming?
    case RegisterStore => pc.RegisteringStores?
    case SendPlan => pc.Serializing?
    case ServerRegisters => p in s.transit
    case Reply => pc.AwaitingReply? && p in s.handled
    case Publish => pc.Publishing?
    case Poll => pc.Waiting?
    case DoGet => pc.Fetching?
    case Fail => !pc.Streaming? && !pc.PlanNotFound?
  }

  function Goto(s: State, p: PartitionId, pc: Pc): State
    requires p in s.partitions
  {
    s.(partitions := s.partitions[p := s.partitions[p].(pc := pc)])
  }

  function Next(s: State, step: Step): State
    requires Enabled(s, step)
  {
    var p := step.partition;
    var Partition(h, plan, pc) := s.partitions[p];
    match step.action
    case Connect => Goto(s, p, Claiming)
    case CompareExchange(stores) =>
      if s.flags[h].NotRegistered? then Goto(s, p, RegisteringStores(stores)).(flags := s.flags[h := InProgress])
      else Goto(s, p, Waiting)
    case RegisterStore => Goto(s, p, if pc.left > 0 then RegisteringStores(pc.left - 1) else Serializing)
    case SendPlan =>
      Goto(s, p, AwaitingReply).(transit := s.transit + {p}, sends := s.sends[h := s.sends[h] + 1])
    case ServerRegisters => s.(transit := s.transit - {p}, handled := s.handled + {p}, plans := s.plans[h := plan])
    case Reply => Goto(s, p, Publishing)
    case Publish => Goto(s, p, Fetching).(flags := s.flags[h := Registered])
    case Poll => if s.flags[h].Registered? then Goto(s, p, Fetching) else s
    case DoGet => Goto(s, p, if h in s.plans then Streaming(s.plans[h]) else PlanNotFound)
    case Fail => Goto(s, p, Failed)
  }

  /** Holds the claim and has not sent the plan yet. */
  predicate BeforeSend(pc: Pc) { pc.RegisteringStores? || pc.Serializing? }

  predicate Registering(pc: Pc) { BeforeSend(pc) || pc.AwaitingReply? || pc.Publishing? }

  /** The state right after the client nodes were built. */
  predicate Init(s: State) {
    && WellFormed(s) && s.plans == map[] && s.transit == s.handled == {}
    && (forall p :: p in s.partitions ==> s.partitions[p].pc.Connecting?)
    && (forall h :: h in s.flags ==> s.flags[h].NotRegistered?)
    && (forall h :: h in s.sends ==> s.sends[h] == 0)
  }

  /** Some partition of the handle carries that plan. */
  predicate Carried(s: State, h: Handle, plan: PlanId) {
    exists q :: q in s.partitions && s.partitions[q].handle == h && s.partitions[q].plan == plan
  }

  /** What one partition's position says about its handle. */
  predicate PartitionInv(s: State, p: PartitionId)
    requires WellFormed(s) && p in s.partitions
  {
    var Partition(h, plan, pc) := s.partitions[p];
    && (Registering(pc) ==> s.flags[h].InProgress?)
    && (BeforeSend(pc) ==> s.sends[h] == 0)
    && (pc.Publishing? || pc.Fetching? || p in s.handled ==> h in s.plans)
    && !pc.PlanNotFound?
  }

  predicate HandleInv(s: State, h: Handle)
    requires h in s.flags && h in s.sends
  {
    && s.sends[h] <= 1
    && (s.flags[h].NotRegistered? ==> s.sends[h] == 0)
    && (s.flags[h].Registered? ==> h in s.plans)
  }

  /** What the server holds and what is streamed comes from a partition of the handle. */
  predicate Origins(s: State) {
    && (forall h :: h in s.plans ==> Carried(s, h, s.plans[h]))
    && (forall p :: p in s.partitions && s.partitions[p].pc.Streaming? ==> Carried(s, s.partitions[p].handle, s.partitions[p].pc.plan))
  }

  predicate OneRegistrar(s: State) {
    forall p, q :: p in s.partitions && q in s.partitions && p != q && s.partitions[p].handle == s.partitions[q].handle ==>
      !(Registering(s.partitions[p].pc) && Registering(s.partitions[q].pc))
  }

  predicate Inv(s: State) {
    && WellFormed(s) && OneRegistrar(s) && Origins(s)
    && (forall p :: p in s.partitions ==> PartitionInv(s, p) && HandleInv(s, s.partitions[p].handle))
  }

  /** A step moves one partition and leaves every handle in place. */
  lemma StepFrame(s: State, step: Step)
    requires Enabled(s, step)
    ensures var s' := Next(s, step);
      && WellFormed(s') && s'.partitions.Keys == s.partitions.Keys
      && (forall p :: p in s.partitions ==> s'.partitions[p].handle == s.partitions[p].handle)
      && (forall p :: p in s.partitions ==> s'.partitions[p].plan == s.partitions[p].plan)
      && (forall p :: p in s.partitions && p != step.partition ==> s'.partitions[p] == s.partitions[p])
  {
  }

  /** A partition starts registering only by winning the compare-exchange. */
  lemma StepClaims(s: State, step: Step)
    requires Enabled(s, step)
    ensures var p, s' := step.partition, Next(s, step);
      p in s'.partitions &&
      (Registering(s'.partitions[p].pc) ==> Registering(s.partitions[p].pc) || s.flags[s.partitions[p].handle].NotRegistered?)
  {
  }

  lemma StepKeepsRegistrar(s: State, step: Step)
    requires Inv(s) && Enabled(s, step)
    ensures OneRegistrar(Next(s, step))
  {
    var t, s' := step.partition, Next(s, step);
    StepFrame(s, step);
    StepClaims(s, step);
    forall q | q in s.partitions && q != t && s.partitions[q].handle == s.partitions[t].handle
      ensures !(Registering(s'.partitions[t].pc) && Registering(s'.partitions[q].pc))
    {
      assert PartitionInv(s, q);
    }
  }

  lemma CarriedStays(s: State, step: Step, h: Handle, plan: PlanId)
    requires Enabled(s, step) && Carried(s, h, plan)
    ensures Carried(Next(s, step), h, plan)
  {
    StepFrame(s, step);
    var q :| q in s.partitions && s.partitions[q].handle == h && s.partitions[q].plan == plan;
    assert q in Next(s, step).partitions;
  }

  lemma StepKeepsOrigins(s: State, step: Step)
    requires Enabled(s, step) && Origins(s)
    ensures Origins(Next(s, step))
  {
    var s' := Next(s, step);
    StepFrame(s, step);
    forall h | h in s'.plans ensures Carried(s', h, s'.plans[h]) {
      if h in s.plans && s'.plans[h] == s.plans[h] {
        CarriedStays(s, step, h, s.plans[h]);
      } else {
        assert s'.partitions[step.partition].handle == h && s'.partitions[step.partition].plan == s'.plans[h];
      }
    }
    forall p | p in s'.partitions && s'.partitions[p].pc.Streaming?
      ensures Carried(s', s'.partitions[p].handle, s'.partitions[p].pc.plan)
    {
      CarriedStays(s, step, s'.partitions[p].handle, s'.partitions[p].pc.plan);
    }
  }

  lemma StepKeepsPartition(s: State, step: Step, p: PartitionId)
    requires Inv(s) && Enabled(s, step) && p in s.partitions && WellFormed(Next(s, step))
    ensures p in Next(s, step).partitions && PartitionInv(Next(s, step), p)
  {
    assert PartitionInv(s, step.partition) && HandleInv(s, s.partitions[step.partition].handle);
    assert PartitionInv(s, p) && HandleInv(s, s.partitions[p].handle);
  }

  lemma StepKeepsHandle(s: State, step: Step, h: Handle)
    requires Enabled(s, step) && PartitionInv(s, step.partition)
    requires h in s.flags && h in s.sends && HandleInv(s, h)
    ensures var s' := Next(s, step); h in s'.flags && h in s'.sends && HandleInv(s', h)
  {
  }

  lemma StepKeepsInv(s: State, step: Step)
    requires Inv(s) && Enabled(s, step)
    ensures Inv(Next(s, step))
  {
    StepFrame(s, step);
    StepKeepsRegistrar(s, step);
    StepKeepsOrigins(s, step);
    var s' := Next(s, step);
    forall p | p in s'.partitions
      ensures PartitionInv(s', p) && HandleInv(s', s'.partitions[p].handle)
    {
      StepKeepsPartition(s, step, p);
      StepKeepsHandle(s, step, s.partitions[p].handle);
    }
  }

  /** `states[i]` steps to `states[i + 1]` by `steps[i]`. */
  predicate Connected(states: seq<State>, steps: seq<Step>) {
    |states| == |steps| + 1 &&
    forall i :: 0 <= i < |steps| ==> Enabled(states[i], steps[i]) && states[i + 1] == Next(states[i], steps[i])
  }

  predicate IsRun(states: seq<State>, steps: seq<Step>) {
    Connected(states, steps) && Init(states[0])
  }

  lemma {:induction false} InvAlways(states: seq<State>, steps: seq<Step>, i: nat)
    requires IsRun(states, steps) && i < |states|
    ensures Inv(states[i])
  {
    if i > 0 {
      InvAlways(states, steps, i - 1);
      StepKeepsInv(states[i - 1], steps[i - 1]);
    }
  }

  /** Nodes keep their handles and plans. */
  lemma {:induction false} PlansStay(states: seq<State>, steps: seq<Step>, i: nat)
    requires IsRun(states, steps) && i < |states|
    ensures states[i].partitions.Keys == states[0].partitions.Keys
    ensures forall p :: p in states[0].partitions ==>
      states[i].partitions[p].handle == states[0].partitions[p].handle && states[i].partitions[p].plan == states[0].partitions[p].plan
  {
    if i > 0 {
      PlansStay(states, steps, i - 1);
      StepFrame(states[i - 1], steps[i - 1]);
    }
  }

  /** Safety: whatever fails, at most one registration is sent for a handle, no
      lookup misses, and every stream runs a plan of its handle. */
  lemma RegistrationIsSafe(states: seq<State>, steps: seq<Step>, i: nat, p: PartitionId)
    requires IsRun(states, steps) && i < |states| && p in states[i].partitions
    ensures var Partition(h, plan, pc) := states[i].partitions[p];
      && h in states[i].sends && states[i].sends[h] <= 1
      && !pc.PlanNotFound? && (pc.Streaming? ==> Carried(states[i], h, pc.plan))
  {
    InvAlways(states, steps, i);
    assert PartitionInv(states[i], p) && HandleInv(states[i], states[i].partitions[p].handle);
  }

  // ----- whose plan is run -----

  /** Every stream, in every run from here, runs the plan of its own node. */
  ghost predicate RunsOwnPlans(s: State) {
    forall states: seq<State>, steps: seq<Step>, i: nat, p ::
      IsRun(states, steps) && states[0] == s && i < |states| && p in states[i].partitions ==> OwnPlan(states[i].partitions[p])
  }

  predicate OwnPlan(partition: Partition) {
    partition.pc.Streaming? ==> partition.pc.plan == partition.plan
  }

  /** Nodes that share a handle carry the same plan. */
  predicate SamePlans(s: State) {
    forall p, q :: p in s.partitions && q in s.partitions && s.partitions[p].handle == s.partitions[q].handle ==>
      s.partitions[p].plan == s.partitions[q].plan
  }

  lemma SamePlansRunOwn(states: seq<State>, steps: seq<Step>, i: nat, p: PartitionId)
    requires IsRun(states, steps) && SamePlans(states[0]) && i < |states| && p in states[i].partitions
    ensures OwnPlan(states[i].partitions[p])
  {
    RegistrationIsSafe(states, steps, i, p);
    PlansStay(states, steps, i);
  }

  lemma Advance(states: seq<State>, steps: seq<Step>, step: Step) returns (states': seq<State>, steps': seq<Step>)
    requires Connected(states, steps) && Enabled(states[|states| - 1], step)
    ensures Connected(states', steps') && states'[0] == states[0]
    ensures states'[|states'| - 1] == Next(states[|states| - 1], step)
  {
    states', steps' := states + [Next(states[|states| - 1], step)], steps + [step];
  }

  /** A partition that nobody disturbs claims, registers and publishes. */
  lemma RegisterAlone(states: seq<State>, steps: seq<Step>, p: PartitionId) returns (states': seq<State>, steps': seq<Step>)
    requires Connected(states, steps)
    requires var s := states[|states| - 1]; WellFormed(s) && p in s.partitions && s.partitions[p].pc.Connecting? && s.flags[s.partitions[p].handle].NotRegistered?
    ensures Connected(states', steps') && states'[0] == states[0]
    ensures Published(states[|states| - 1], states'[|states'| - 1], p)
  {
    states', steps' := Advance(states, steps, Step(p, Connect));
    states', steps' := Advance(states', steps', Step(p, CompareExchange(0)));
    states', steps' := Advance(states', steps', Step(p, RegisterStore));
    states', steps' := FinishAlone(states', steps', p);
  }

  lemma FinishAlone(states: seq<State>, steps: seq<Step>, p: PartitionId) returns (states': seq<State>, steps': seq<Step>)
    requires Connected(states, steps)
    requires var s := states[|states| - 1]; WellFormed(s) && p in s.partitions && s.partitions[p].pc.Serializing?
    ensures Connected(states', steps') && states'[0] == states[0]
    ensures Published(states[|states| - 1], states'[|states'| - 1], p)
  {
    states', steps' := Advance(states, steps, Step(p, SendPlan));
    states', steps' := Advance(states', steps', Step(p, ServerRegisters));
    states', steps' := Advance(states', steps', Step(p, Reply));
    states', steps' := Advance(states', steps', Step(p, Publish));
  }

  /** The partition's plan is registered and published, the others are where they were. */
  predicate Published(s: State, s': State, p: PartitionId)
    requires p in s.partitions
  {
    var Partition(h, plan, _) := s.partitions[p];
    && WellFormed(s') && h in s'.flags && s'.flags[h].Registered? && h in s'.plans && s'.plans[h] == plan
    && forall q :: q in s.partitions && q != p ==> q in s'.partitions && s'.partitions[q] == s.partitions[q]
  }

  /** A partition that comes later waits, polls and streams what is registered. */
  lemma StreamLater(states: seq<State>, steps: seq<Step>, q: PartitionId) returns (states': seq<State>, steps': seq<Step>)
    requires Connected(states, steps)
    requires var s := states[|states| - 1]; WellFormed(s) && q in s.partitions && s.partitions[q].pc.Connecting?
    requires var s := states[|states| - 1]; s.flags[s.partitions[q].handle].Registered? && s.partitions[q].handle in s.plans
    ensures Connected(states', steps') && states'[0] == states[0]
    ensures var s, s' := states[|states| - 1], states'[|states'| - 1];
      q in s'.partitions && s'.partitions[q] == s.partitions[q].(pc := Streaming(s.plans[s.partitions[q].handle]))
  {
    states', steps' := Advance(states, steps, Step(q, Connect));
    states', steps' := Advance(states', steps', Step(q, CompareExchange(0)));
    states', steps' := Advance(states', steps', Step(q, Poll));
    states', steps' := Advance(states', steps', Step(q, DoGet));
  }

  /** Exactly when every stream runs its own node's plan: nodes that share a handle,
      as a node and its rebuilt copies do, must carry the same plan. */
  lemma OwnPlansExactly(s: State)
    requires Init(s)
    ensures RunsOwnPlans(s) <==> SamePlans(s)
  {
    if SamePlans(s) {
      forall states: seq<State>, steps: seq<Step>, i: nat, p |
        IsRun(states, steps) && states[0] == s && i < |states| && p in states[i].partitions
        ensures OwnPlan(states[i].partitions[p])
      {
        SamePlansRunOwn(states, steps, i, p);
      }
    } else {
      var p, q :| p in s.partitions && q in s.partitions && s.partitions[p].handle == s.partitions[q].handle &&
        s.partitions[p].plan != s.partitions[q].plan;
      var states, steps := RegisterAlone([s], [], p);
      states, steps := StreamLater(states, steps, q);
      var last := |states| - 1;
      assert IsRun(states, steps) && !OwnPlan(states[last].partitions[q]);
    }
  }

  // ----- order and failure -----

  /** What the server holds for a handle came from a registration in the run. */
  lemma {:induction false} PlansHaveOrigin(states: seq<State>, steps: seq<Step>, i: nat, h: Handle)
    returns (j: nat)
    requires IsRun(states, steps) && i < |states| && h in states[i].plans
    ensures j < i && steps[j].action.ServerRegisters? && states[j].partitions[steps[j].partition].handle == h
  {
    assert states[0].plans == map[];
    assert i > 0 && states[i] == Next(states[i - 1], steps[i - 1]);
    if h in states[i - 1].plans {
      j := PlansHaveOrigin(states, steps, i - 1, h);
    } else {
      j := i - 1;
    }
  }

  /** Every do_get comes after the server registered a plan of that handle. */
  lemma DoGetAfterRegistration(states: seq<State>, steps: seq<Step>, i: nat) returns (j: nat)
    requires IsRun(states, steps) && i < |steps| && steps[i].action.DoGet?
    ensures j < i && steps[j].action.ServerRegisters?
    ensures states[j].partitions[steps[j].partition].handle == states[i].partitions[steps[i].partition].handle
  {
    InvAlways(states, steps, i);
    var p := steps[i].partition;
    assert Enabled(states[i], steps[i]) && PartitionInv(states[i], p);
    j := PlansHaveOrigin(states, steps, i, states[i].partitions[p].handle);
  }

  /** The registering partition of the handle is gone without publishing. */
  ghost predicate Abandoned(s: State, h: Handle) {
    && WellFormed(s) && h in s.flags && s.flags[h].InProgress?
    && forall p :: p in s.partitions && s.partitions[p].handle == h ==> !Registering(s.partitions[p].pc)
  }

  lemma AbandonedStays(s: State, step: Step, h: Handle)
    requires Abandoned(s, h) && Enabled(s, step)
    ensures Abandoned(Next(s, step), h)
    ensures forall p :: p in s.partitions && s.partitions[p].handle == h && s.partitions[p].pc.Waiting? ==>
      Next(s, step).partitions[p].pc.Waiting? || Next(s, step).partitions[p].pc.Failed?
  {
    StepFrame(s, step);
    StepClaims(s, step);
  }

  /** A failed registration is final, in every continuation of every run: nobody
      takes over, and a waiting partition waits on unless it fails. */
  lemma {:induction false} NobodyTakesOver(states: seq<State>, steps: seq<Step>, h: Handle, i: nat, j: nat, p: PartitionId)
    requires Connected(states, steps) && i <= j < |states| && Abandoned(states[i], h)
    requires p in states[i].partitions && states[i].partitions[p].handle == h
    requires states[i].partitions[p].pc.Waiting? || states[i].partitions[p].pc.Failed?
    ensures Abandoned(states[j], h) && p in states[j].partitions && states[j].partitions[p].handle == h
    ensures states[j].partitions[p].pc.Waiting? || states[j].partitions[p].pc.Failed?
  {
    if i < j {
      NobodyTakesOver(states, steps, h, i, j - 1, p);
      AbandonedStays(states[j - 1], steps[j - 1], h);
      StepFrame(states[j - 1], steps[j - 1]);
    }
  }
}
