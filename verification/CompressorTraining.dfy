/** One FSST compressor per column state: threads that encode arrays pass a
    double-checked lock, and the first one through trains the compressor. Any
    number of threads and arrays, any interleaving of the lock operations. */
module CompressorTraining {
  import opened Common

  type ThreadId = nat
  type Compressor = nat
  type Array = seq<nat>
  type Bytes = seq<nat>

  /** The codec, known only by its contract. */
  datatype Codec = Codec(encode: (Compressor, Array) -> Bytes, decode: (Compressor, Bytes) -> Array)

  ghost predicate RoundTrips(codec: Codec) {
    forall c, a :: codec.decode(c, codec.encode(c, a)) == a
  }

  datatype Pc =
    | Idle
    | Peeking(input: Array)                    // before the read-locked look
    | Blocked(input: Array)                    // waits for the write lock
    | Rechecking(input: Array)                 // holds it, looks again
    | Training(input: Array)                   // holds it, found nothing
    | Trained(input: Array, compressor: Compressor, bytes: Bytes)
    | Encoding(input: Array, compressor: Compressor, locked: bool)

  /** `built` lists the arrays encoded so far; `stores` counts the assignments to
      the shared compressor. */
  datatype State = State(
    compressor: Option<Compressor>,
    writer: Option<ThreadId>,
    pcs: map<ThreadId, Pc>,
    built: seq<(Array, Bytes)>,
    stores: nat)

  datatype Action = Begin(input: Array) | Peek | Lock | Recheck | Train(compressor: Compressor) | Store | Encode

  datatype Step = Step(thread: ThreadId, action: Action)

  predicate Enabled(s: State, step: Step) {
    var t := step.thread;
    t in s.pcs &&
    match step.action
    case Begin(_) => s.pcs[t].Idle?
    case Peek => s.pcs[t].Peeking? && s.writer.None?
    case Lock => s.pcs[t].Blocked? && s.writer.None?
    case Recheck => s.pcs[t].Rechecking?
    case Train(_) => s.pcs[t].Training?
    case Store => s.pcs[t].Trained?
    case Encode => s.pcs[t].Encoding?
  }

  /** The write guard is released when the call returns. */
  function Next(s: State, step: Step, codec: Codec): State
    requires Enabled(s, step)
  {
    var t, pc := step.thread, s.pcs[step.thread];
    match step.action
    case Begin(a) => s.(pcs := s.pcs[t := Peeking(a)])
    case Peek =>
      if s.compressor.Some? then s.(pcs := s.pcs[t := Encoding(pc.input, s.compressor.value, false)])
      else s.(pcs := s.pcs[t := Blocked(pc.input)])
    case Lock => s.(writer := Some(t), pcs := s.pcs[t := Rechecking(pc.input)])
    case Recheck =>
      if s.compressor.Some? then s.(pcs := s.pcs[t := Encoding(pc.input, s.compressor.value, true)])
      else s.(pcs := s.pcs[t := Training(pc.input)])
    case Train(c) => s.(pcs := s.pcs[t := Trained(pc.input, c, codec.encode(c, pc.input))])
    case Store =>
      s.(compressor := Some(pc.compressor), stores := s.stores + 1, writer := None,
         built := s.built + [(pc.input, pc.bytes)], pcs := s.pcs[t := Idle])
    case Encode =>
      s.(writer := if pc.locked then None else s.writer,
         built := s.built + [(pc.input, codec.encode(pc.compressor, pc.input))], pcs := s.pcs[t := Idle])
  }

  predicate HoldsLock(pc: Pc) {
    pc.Rechecking? || pc.Training? || pc.Trained? || (pc.Encoding? && pc.locked)
  }

  predicate ThreadInv(s: State, t: ThreadId, codec: Codec)
    requires t in s.pcs
  {
    var pc := s.pcs[t];
    && (HoldsLock(pc) <==> s.writer == Some(t))
    && (pc.Encoding? ==> s.compressor == Some(pc.compressor))
    && (pc.Training? || pc.Trained? ==> s.compressor.None?)
    && (pc.Trained? ==> pc.bytes == codec.encode(pc.compressor, pc.input))
  }

  predicate SharedInv(s: State, codec: Codec) {
    && s.stores == (if s.compressor.Some? then 1 else 0)
    && (s.compressor.None? ==> s.built == [])
    && (forall i :: 0 <= i < |s.built| ==> s.compressor.Some? && s.built[i].1 == codec.encode(s.compressor.value, s.built[i].0))
  }

  predicate Inv(s: State, codec: Codec) {
    && SharedInv(s, codec)
    && (forall t :: t in s.pcs ==> ThreadInv(s, t, codec))
    && (s.writer.Some? ==> s.writer.value in s.pcs)
  }

  lemma StepKeepsShared(s: State, step: Step, codec: Codec)
    requires Inv(s, codec) && Enabled(s, step)
    ensures SharedInv(Next(s, step, codec), codec)
  {
    assert ThreadInv(s, step.thread, codec);
  }

  lemma StepKeepsThread(s: State, step: Step, codec: Codec, t: ThreadId)
    requires Inv(s, codec) && Enabled(s, step) && t in s.pcs
    ensures t in Next(s, step, codec).pcs && ThreadInv(Next(s, step, codec), t, codec)
  {
    assert ThreadInv(s, step.thread, codec) && ThreadInv(s, t, codec);
  }

  /** No step replaces a compressor that is set. */
  lemma CompressorIsFinal(s: State, step: Step, codec: Codec)
    requires Inv(s, codec) && Enabled(s, step) && s.compressor.Some?
    ensures Next(s, step, codec).compressor == s.compressor
  {
    assert ThreadInv(s, step.thread, codec);
  }

  lemma StepKeepsInv(s: State, step: Step, codec: Codec)
    requires Inv(s, codec) && Enabled(s, step)
    ensures Inv(Next(s, step, codec), codec) && Next(s, step, codec).pcs.Keys == s.pcs.Keys
    ensures s.built <= Next(s, step, codec).built
  {
    StepKeepsShared(s, step, codec);
    forall t | t in s.pcs {
      StepKeepsThread(s, step, codec, t);
    }
  }

  predicate Init(s: State) {
    s.compressor.None? && s.writer.None? && s.built == [] && s.stores == 0 && forall t :: t in s.pcs ==> s.pcs[t].Idle?
  }

  predicate IsRun(states: seq<State>, steps: seq<Step>, codec: Codec) {
    |states| == |steps| + 1 && Init(states[0]) &&
    forall i :: 0 <= i < |steps| ==> Enabled(states[i], steps[i]) && states[i + 1] == Next(states[i], steps[i], codec)
  }

  lemma {:induction false} InvAlways(states: seq<State>, steps: seq<Step>, codec: Codec, i: nat)
    requires IsRun(states, steps, codec) && i < |states|
    ensures Inv(states[i], codec)
  {
    if i > 0 {
      InvAlways(states, steps, codec, i - 1);
      StepKeepsInv(states[i - 1], steps[i - 1], codec);
    }
  }

  /** What was built stays built. */
  lemma {:induction false} BuiltGrows(states: seq<State>, steps: seq<Step>, codec: Codec, i: nat, j: nat)
    requires IsRun(states, steps, codec) && i <= j < |states|
    ensures states[i].built <= states[j].built
  {
    if i < j {
      BuiltGrows(states, steps, codec, i, j - 1);
      InvAlways(states, steps, codec, j - 1);
      StepKeepsInv(states[j - 1], steps[j - 1], codec);
    }
  }

  /** Safety over whole runs: the compressor is set at most once, and an array
      built at any time decodes, with whatever compressor is stored at any later
      time, to the original. */
  lemma LaterReadsDecode(states: seq<State>, steps: seq<Step>, codec: Codec, i: nat, j: nat, k: nat)
    requires IsRun(states, steps, codec) && RoundTrips(codec) && i <= j < |states| && k < |states[i].built|
    ensures states[j].stores == 1 && states[j].compressor.Some?
    ensures codec.decode(states[j].compressor.value, states[i].built[k].1) == states[i].built[k].0
  {
    InvAlways(states, steps, codec, j);
    BuiltGrows(states, steps, codec, i, j);
    assert states[j].built[k] == states[i].built[k];
  }

  lemma StoredAtMostOnce(states: seq<State>, steps: seq<Step>, codec: Codec, i: nat, j: nat)
    requires IsRun(states, steps, codec) && i < j < |steps| && steps[i].action.Store?
    ensures !steps[j].action.Store?
  {
    assert states[i + 1] == Next(states[i], steps[i], codec);
    StaysSet(states, steps, codec, i + 1, j);
    InvAlways(states, steps, codec, j);
    assert Enabled(states[j], steps[j]);
    assert ThreadInv(states[j], steps[j].thread, codec);
  }

  lemma {:induction false} StaysSet(states: seq<State>, steps: seq<Step>, codec: Codec, i: nat, j: nat)
    requires IsRun(states, steps, codec) && i <= j < |states| && states[i].compressor.Some?
    ensures states[j].compressor == states[i].compressor
  {
    if i < j {
      StaysSet(states, steps, codec, i, j - 1);
      InvAlways(states, steps, codec, j - 1);
      CompressorIsFinal(states[j - 1], steps[j - 1], codec);
    }
  }

  /** The lock never deadlocks: while any call is under way, some thread can move. */
  lemma NoDeadlock(s: State, codec: Codec, t: ThreadId) returns (step: Step)
    requires Inv(s, codec) && t in s.pcs && !s.pcs[t].Idle?
    ensures Enabled(s, step) && !step.action.Begin?
  {
    var w := if s.writer.Some? then s.writer.value else t;
    assert ThreadInv(s, w, codec);
    step := Step(w,
      match s.pcs[w]
      case Idle => Peek
      case Peeking(_) => Peek
      case Blocked(_) => Lock
      case Rechecking(_) => Recheck
      case Training(_) => Train(0)
      case Trained(_, _, _) => Store
      case Encoding(_, _, _) => Encode);
  }
}
