/** The byte accounting of the cache as a state machine whose atomic steps are
    index-and-budget updates. Tasks may interleave between any two of them. */
module CacheLedger {
  import opened MapSums

  /** Bytes charged per cached id, the budget's counter and the entry counter. */
  datatype Ledger = Ledger(bytes: map<nat, nat>, used: nat, count: nat, max: nat)

  datatype Step = Charge(id: nat, size: nat) | Clear

  /** `try_insert` grants the request, as decided by the budget. */
  predicate Granted(l: Ledger, id: nat, size: nat) {
    if id in l.bytes && size <= l.bytes[id] then true
    else l.used + size - (if id in l.bytes then l.bytes[id] else 0) <= l.max
  }

  function Apply(l: Ledger, s: Step): Ledger
    requires Balanced(l)
  {
    match s
    case Clear => l.(bytes := map[], used := 0, count := 0)
    case Charge(id, size) =>
      if !Granted(l, id, size) then l
      else
        var previous := if id in l.bytes then l.bytes[id] else 0;
        if id in l.bytes then (SumAtLeast(l.bytes, id); l.(bytes := l.bytes[id := size], used := l.used + size - previous))
        else l.(bytes := l.bytes[id := size], used := l.used + size, count := l.count + 1)
  }

  ghost predicate Balanced(l: Ledger) {
    l.used == Sum(l.bytes) <= l.max && l.count == |l.bytes|
  }

  lemma BalancedStep(l: Ledger, s: Step)
    requires Balanced(l)
    ensures Balanced(Apply(l, s)) && Apply(l, s).max == l.max
  {
    match s
    case Clear => SumZero<nat>(map[]);
    case Charge(id, size) => SumUpdate(l.bytes, id, size);
  }

  /** Every state on the way from l through `steps`. */
  ghost function Run(l: Ledger, steps: seq<Step>): (states: seq<Ledger>)
    requires Balanced(l)
    ensures |states| == |steps| + 1
    ensures forall i :: 0 <= i < |states| ==> Balanced(states[i])
    decreases |steps|
  {
    if steps == [] then [l]
    else
      BalancedStep(l, steps[0]);
      [l] + Run(Apply(l, steps[0]), steps[1..])
  }

  /** Accounting over whole runs: whatever the interleaving of insertions, squeezes,
      hydrations, flushes and resets, at every point the counter is the sum over the
      index and within the limit, and a zero-byte charge (a disk entry) is granted. */
  lemma {:induction false} AccountedAlways(l: Ledger, steps: seq<Step>, i: nat)
    requires Balanced(l) && i <= |steps|
    ensures var now := Run(l, steps)[i];
      now.used == Sum(now.bytes) <= now.max == l.max && now.count == |now.bytes| &&
      forall id {:trigger Granted(now, id, 0)} :: Granted(now, id, 0)
    decreases i
  {
    if i > 0 {
      BalancedStep(l, steps[0]);
      AccountedAlways(Apply(l, steps[0]), steps[1..], i - 1);
    }
  }

  /** A request is refused exactly when granting it would exceed the limit. */
  lemma RefusedExactly(l: Ledger, id: nat, size: nat)
    requires Balanced(l)
    ensures Granted(l, id, size) <==> Sum(l.bytes[id := size]) <= l.max
  {
    SumUpdate(l.bytes, id, size);
  }
}
