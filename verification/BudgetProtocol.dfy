/** The memory budget under concurrency: each thread loads the counter, tests the
    limit, tries a compare-exchange and retries; releases are a fetch-sub. Any
    number of threads, any interleaving of these atomic actions. */
module BudgetProtocol {
  import opened MapSums

  /** usize is 64 bits wide and additions on it wrap. */
  const USIZE: nat := 0x1_0000_0000_0000_0000

  type ThreadId = nat

  datatype Pc =
    | Idle
    | Requesting(request: nat)
    | Loaded(request: nat, seen: nat)

  /** `held` is what each thread has reserved and not yet released. */
  datatype State = State(max: nat, used: nat, pcs: map<ThreadId, Pc>, held: map<ThreadId, nat>)

  datatype Action = Begin(request: nat) | Load | Exchange | Release(amount: nat) | Reset

  datatype Step = Step(thread: ThreadId, action: Action)

  function WrappingAdd(a: nat, b: nat): nat { (a + b) % USIZE }

  predicate Enabled(s: State, step: Step) {
    var t := step.thread;
    t in s.pcs && t in s.held &&
    match step.action
    case Begin(request) => s.pcs[t].Idle?
    case Load => s.pcs[t].Requesting?
    case Exchange => s.pcs[t].Loaded?
    case Release(amount) => s.pcs[t].Idle? && amount <= s.held[t] && amount <= s.used
    case Reset => true
  }

  /** The exchange succeeds exactly when the counter still has the loaded value. */
  predicate Succeeds(s: State, t: ThreadId)
    requires t in s.pcs && s.pcs[t].Loaded?
  {
    s.used == s.pcs[t].seen
  }

  function Next(s: State, step: Step): State
    requires Enabled(s, step)
  {
    var t := step.thread;
    match step.action
    case Begin(request) => s.(pcs := s.pcs[t := Requesting(request)])
    case Load =>
      var request := s.pcs[t].request;
      if WrappingAdd(s.used, request) > s.max then s.(pcs := s.pcs[t := Idle])
      else s.(pcs := s.pcs[t := Loaded(request, s.used)])
    case Exchange =>
      var Loaded(request, seen) := s.pcs[t];
      if Succeeds(s, t) then
        s.(used := WrappingAdd(seen, request), pcs := s.pcs[t := Idle], held := s.held[t := s.held[t] + request])
      else s.(pcs := s.pcs[t := Requesting(request)])
    case Release(amount) => s.(used := s.used - amount, held := s.held[t := s.held[t] - amount])
    case Reset => s.(used := 0, held := map k | k in s.held :: 0)
  }

  /** Requests are small enough that limit plus request does not wrap. */
  predicate Modest(s: State, step: Step) {
    step.action.Begin? ==> s.max + step.action.request < USIZE
  }

  ghost predicate Inv(s: State) {
    && s.max < USIZE
    && s.used == Sum(s.held) && s.used <= s.max
    && forall t :: t in s.pcs ==> PcInv(s.max, s.pcs[t])
  }

  /** What a thread remembers between its steps stays within the limit. */
  ghost predicate PcInv(max: nat, pc: Pc) {
    match pc
    case Idle => true
    case Requesting(request) => max + request < USIZE
    case Loaded(request, seen) => max + request < USIZE && seen + request <= max
  }

  lemma PcStep(s: State, step: Step)
    requires Inv(s) && Enabled(s, step) && Modest(s, step)
    ensures step.thread in Next(s, step).pcs && PcInv(s.max, Next(s, step).pcs[step.thread])
    ensures forall t :: t in Next(s, step).pcs && t != step.thread ==> t in s.pcs && Next(s, step).pcs[t] == s.pcs[t]
  {
    assert PcInv(s.max, s.pcs[step.thread]);
  }

  lemma ExchangeSum(s: State, t: ThreadId)
    requires Inv(s) && t in s.held && t in s.pcs && s.pcs[t].Loaded?
    ensures var s' := Next(s, Step(t, Exchange)); s'.used == Sum(s'.held) && s'.used <= s'.max == s.max
  {
    var Loaded(request, seen) := s.pcs[t];
    assert PcInv(s.max, s.pcs[t]);
    if Succeeds(s, t) {
      SumUpdate(s.held, t, s.held[t] + request);
      assert WrappingAdd(seen, request) == seen + request;
    }
  }

  lemma SumStep(s: State, step: Step)
    requires Inv(s) && Enabled(s, step)
    ensures var s' := Next(s, step); s'.used == Sum(s'.held) && s'.used <= s'.max == s.max
  {
    var t := step.thread;
    assert PcInv(s.max, s.pcs[t]);
    match step.action
    case Begin(_) =>
    case Load =>
    case Exchange => ExchangeSum(s, t);
    case Release(amount) => SumUpdate(s.held, t, s.held[t] - amount);
    case Reset => SumZero(Next(s, step).held);
  }

  lemma InvStep(s: State, step: Step)
    requires Inv(s) && Enabled(s, step) && Modest(s, step)
    ensures Inv(Next(s, step)) && Next(s, step).max == s.max
  {
    PcStep(s, step);
    SumStep(s, step);
  }

  /** A run: `states[i]` steps to `states[i + 1]` by `steps[i]`. */
  predicate IsRun(states: seq<State>, steps: seq<Step>) {
    |states| == |steps| + 1 &&
    forall i :: 0 <= i < |steps| ==> Enabled(states[i], steps[i]) && states[i + 1] == Next(states[i], steps[i])
  }

  /** Safety over whole runs: the counter is always the sum of what the threads
      hold and never exceeds the limit. */
  lemma {:induction false} BudgetIsSafe(states: seq<State>, steps: seq<Step>, i: nat)
    requires IsRun(states, steps) && i <= |steps| && Inv(states[0])
    requires forall j :: 0 <= j < |steps| ==> Modest(states[j], steps[j])
    ensures Inv(states[i]) && states[i].used == Sum(states[i].held) <= states[i].max == states[0].max
  {
    if i > 0 {
      BudgetIsSafe(states, steps, i - 1);
      InvStep(states[i - 1], steps[i - 1]);
    }
  }

  /** The thread is still working on its request. */
  predicate Busy(s: State, t: ThreadId, request: nat) {
    t in s.pcs && (s.pcs[t] == Requesting(request) || (s.pcs[t].Loaded? && s.pcs[t].request == request))
  }

  /** The step gives the thread what it asked for. */
  predicate Grants(s: State, step: Step, s': State, request: nat) {
    var t := step.thread;
    step.action.Exchange? && t in s.held && t in s'.held && s'.held[t] == s.held[t] + request && s'.used == s.used + request
  }

  /** The step sees that the request does not fit, and changes nothing but the thread. */
  predicate Refuses(s: State, step: Step, s': State, request: nat) {
    step.action.Load? && s.used + request > s.max && s'.used == s.used && s'.held == s.held
  }

  lemma BusyStep(s: State, step: Step, t: ThreadId, request: nat)
    requires Inv(s) && Enabled(s, step) && Busy(s, t, request)
    ensures var s' := Next(s, step);
      Busy(s', t, request) ||
      (step.thread == t && s'.pcs[t].Idle? && (Grants(s, step, s', request) || Refuses(s, step, s', request)))
  {
    assert PcInv(s.max, s.pcs[t]);
    if step == Step(t, Load) || step == Step(t, Exchange) {
      assert s.used + request < USIZE;
    }
  }

  /** The request ends with step k, granted or refused. */
  predicate EndsAt(states: seq<State>, steps: seq<Step>, t: ThreadId, request: nat, k: nat) {
    && k + 1 < |states| && k < |steps| && steps[k].thread == t && Busy(states[k], t, request)
    && (Grants(states[k], steps[k], states[k + 1], request) || Refuses(states[k], steps[k], states[k + 1], request))
  }

  /** A request that is no longer being worked on was granted in full, or a load of its
      own saw that it does not fit: losing a race never ends it. */
  lemma {:induction false} RequestEndsExactly(states: seq<State>, steps: seq<Step>, t: ThreadId, request: nat, i: nat, j: nat)
    requires IsRun(states, steps) && Inv(states[0]) && i <= j <= |steps|
    requires forall n :: 0 <= n < |steps| ==> Modest(states[n], steps[n])
    requires Busy(states[i], t, request) && !Busy(states[j], t, request)
    ensures exists k :: i <= k < j && EndsAt(states, steps, t, request, k)
    decreases j - i
  {
    BudgetIsSafe(states, steps, i);
    BusyStep(states[i], steps[i], t, request);
    assert states[i + 1] == Next(states[i], steps[i]);
    if Busy(states[i + 1], t, request) {
      RequestEndsExactly(states, steps, t, request, i + 1, j);
    } else {
      assert EndsAt(states, steps, t, request, i);
    }
  }

  /** The counter changed somewhere between two points where it differs. */
  lemma {:induction false} ChangedBetween(states: seq<State>, i: nat, j: nat) returns (k: nat)
    requires i <= j < |states| && states[i].used != states[j].used
    ensures i <= k < j && states[k].used != states[k + 1].used
  {
    if states[j - 1].used != states[j].used {
      k := j - 1;
    } else {
      k := ChangedBetween(states, i, j - 1);
    }
  }

  /** While a thread takes no step its program counter stays. */
  lemma {:induction false} OthersKeepPc(states: seq<State>, steps: seq<Step>, t: ThreadId, i: nat, j: nat)
    requires IsRun(states, steps) && i <= j < |states| && t in states[i].pcs
    requires forall k :: i <= k < j ==> steps[k].thread != t
    ensures t in states[j].pcs && states[j].pcs[t] == states[i].pcs[t]
  {
    if i < j {
      OthersKeepPc(states, steps, t, i, j - 1);
    }
  }

  /** Lock freedom: an exchange can only fail because, in the window since its
      load, another thread's action changed the counter. */
  lemma FailedExchangeIsExcused(states: seq<State>, steps: seq<Step>, t: ThreadId, i: nat, j: nat) returns (k: nat)
    requires IsRun(states, steps) && i < j < |steps|
    requires steps[i] == Step(t, Load) && steps[j] == Step(t, Exchange)
    requires forall n :: i < n < j ==> steps[n].thread != t
    requires !Succeeds(states[j], t)
    ensures i < k < j && steps[k].thread != t && states[k].used != states[k + 1].used
  {
    OthersKeepPc(states, steps, t, i + 1, j);
    assert states[i + 1] == Next(states[i], steps[i]);
    assert states[i + 1].used == states[j].pcs[t].seen;
    k := ChangedBetween(states, i + 1, j);
  }

  /** Without the size assumption the limit can be broken: the exact condition
      under which one uncontended reservation keeps counter and holdings in step. */
  lemma ReserveExactly(s: State, t: ThreadId, request: nat)
    requires Inv(s) && t in s.pcs && t in s.held && s.pcs[t] == Requesting(request) && request < USIZE
    requires WrappingAdd(s.used, request) <= s.max
    ensures var loaded := Next(s, Step(t, Load));
      Enabled(loaded, Step(t, Exchange)) &&
      var done := Next(loaded, Step(t, Exchange));
      (done.used == Sum(done.held) <==> s.used + request < USIZE)
  {
    SumUpdate(s.held, t, s.held[t] + request);
  }

  /** A request of nearly 2^64 bytes wraps around and is granted. No array in memory
      has that size; the condition above tells how far the code is from it. */
  lemma HugeRequestIsGranted()
    ensures var s := State(10, 5, map[0 := Requesting(USIZE - 1)], map[0 := 5]);
      var loaded := Next(s, Step(0, Load));
      loaded.pcs[0].Loaded? && Next(loaded, Step(0, Exchange)).used == 4 &&
      Next(loaded, Step(0, Exchange)).held[0] > s.max
  {
    var s := State(10, 5, map[0 := Requesting(USIZE - 1)], map[0 := 5]);
    assert WrappingAdd(5, USIZE - 1) == 4;
  }
}
