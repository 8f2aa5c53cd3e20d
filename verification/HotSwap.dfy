/** Swapping engines under live requests: the updater task, request snapshots and streams, in any
    interleaving. */
module HotSwap {
  import opened Streams

  /** Where the updater task stands: waiting, holding a new engine, or having cancelled the old one. */
  datatype Updater = Waiting | Received(next: nat) | Cancelled(next: nat)

  /** A response stream; `polled` holds, during a poll, whether the token was cancelled when it began. */
  datatype Stream = Stream(over: bool, polled: seq<bool>, answers: seq<Outcome<()>>)

  /** Engines are numbered as they are made, each with a token of its own; `snapshots` gives the engine
      each request loaded, `streams` the bodies opened so far. */
  datatype State = State(current: nat, made: nat, cancelled: set<nat>, updater: Updater,
                         snapshots: map<nat, nat>, streams: map<nat, Stream>)

  datatype Step =
    | Receive
    | CancelCurrent
    | Store
    | Shutdown
    | Load(request: nat)
    | Open(request: nat)
    | Begin(request: nat)
    | Answer(request: nat, outcome: Outcome<()>, over: bool)

  ghost predicate IsCancelled(s: State, request: nat)
    requires request in s.snapshots
  {
    s.snapshots[request] in s.cancelled
  }

  ghost predicate Enabled(s: State, step: Step) {
    match step
    case Receive => s.updater.Waiting?
    case CancelCurrent => s.updater.Received?
    case Store => s.updater.Cancelled?
    case Shutdown => true
    case Load(r) => r !in s.snapshots
    case Open(r) => r in s.snapshots && r !in s.streams
    case Begin(r) => r in s.snapshots && r in s.streams && s.streams[r].polled == []
    case Answer(r, outcome, over) =>
      && r in s.snapshots && r in s.streams && s.streams[r].polled != []
      && MayAnswer(s.streams[r].over, s.streams[r].polled[0], outcome, over, IsCancelled(s, r))
  }

  ghost function Next(s: State, step: Step): State
    requires Enabled(s, step)
  {
    match step
    case Receive => s.(updater := Received(s.made), made := s.made + 1)
    case CancelCurrent => s.(cancelled := s.cancelled + {s.current}, updater := Cancelled(s.updater.next))
    case Store => s.(current := s.updater.next, updater := Waiting)
    case Shutdown => s.(cancelled := s.cancelled + {s.current})
    case Load(r) => s.(snapshots := s.snapshots[r := s.current])
    case Open(r) => s.(streams := s.streams[r := Stream(false, [], [])])
    case Begin(r) => s.(streams := s.streams[r := s.streams[r].(polled := [IsCancelled(s, r)])])
    case Answer(r, outcome, over) =>
      s.(streams := s.streams[r := Stream(over, [], s.streams[r].answers + [outcome])])
  }

  ghost function Start(): State {
    State(0, 1, {}, Waiting, map[], map[])
  }

  /** `states` is a run: each step is enabled where it is taken and leads to the next state. */
  ghost predicate IsRun(states: seq<State>, steps: seq<Step>) {
    && |states| == |steps| + 1
    && forall i :: 0 <= i < |steps| ==> Enabled(states[i], steps[i]) && states[i + 1] == Next(states[i], steps[i])
  }

  // ---------- A replaced engine was cancelled first ----------

  /** Every engine made is current, waiting to be stored, or cancelled; no request has one that waits. */
  ghost predicate Inv(s: State) {
    && s.current < s.made
    && (!s.updater.Waiting? ==> s.updater.next < s.made && s.updater.next != s.current)
    && (s.updater.Cancelled? ==> s.current in s.cancelled)
    && (forall e :: 0 <= e < s.made && e != s.current && (s.updater.Waiting? || e != s.updater.next) ==> e in s.cancelled)
    && (forall r :: r in s.snapshots ==> s.snapshots[r] == s.current || s.snapshots[r] in s.cancelled)
    && (forall r :: r in s.streams ==> r in s.snapshots)
    && forall r :: r in s.streams && s.streams[r].polled == [true] ==> IsCancelled(s, r)
  }

  lemma StepKeepsInv(s: State, step: Step)
    requires Inv(s) && Enabled(s, step)
    ensures Inv(Next(s, step))
  {
  }

  lemma {:induction false} RunKeepsInv(states: seq<State>, steps: seq<Step>, i: nat)
    requires IsRun(states, steps) && states[0] == Start() && i < |states|
    ensures Inv(states[i])
  {
    if i > 0 {
      RunKeepsInv(states, steps, i - 1);
      StepKeepsInv(states[i - 1], steps[i - 1]);
    }
  }

  /** In every run, the engine that a store replaces already has its token cancelled. */
  lemma CancelledBeforeReplaced(states: seq<State>, steps: seq<Step>, i: nat)
    requires IsRun(states, steps) && states[0] == Start() && i < |steps|
    requires states[i + 1].current != states[i].current
    ensures steps[i].Store? && states[i].current in states[i].cancelled
  {
    RunKeepsInv(states, steps, i);
  }

  /** In every run, a request whose token is not cancelled holds the current engine. */
  lemma LiveIsCurrent(states: seq<State>, steps: seq<Step>, i: nat, request: nat)
    requires IsRun(states, steps) && states[0] == Start() && i < |states|
    requires request in states[i].snapshots && !IsCancelled(states[i], request)
    ensures states[i].snapshots[request] == states[i].current
  {
    RunKeepsInv(states, steps, i);
  }

  // ---------- What a client sees ----------

  /** A cancelled stream between polls, or in one that began after the cancellation. */
  ghost predicate CutOff(s: State, request: nat) {
    && request in s.snapshots && request in s.streams && IsCancelled(s, request)
    && (s.streams[request].polled == [] || s.streams[request].polled == [true])
  }

  /** Nothing, or one error, then only the end. */
  ghost predicate ErrorThenEnd(answers: seq<Outcome<()>>) {
    forall i :: 0 <= i < |answers| ==> answers[i] == if i == 0 then Failed else End
  }

  ghost predicate OnlyEnd(answers: seq<Outcome<()>>) {
    forall i :: 0 <= i < |answers| ==> answers[i] == End
  }

  /** Since `since`, the stream has answered as a cut-off stream must. */
  ghost predicate Answered(since: Stream, now: Stream) {
    && since.answers <= now.answers
    && var more := now.answers[|since.answers|..];
       && (if since.over then OnlyEnd(more) else ErrorThenEnd(more))
       && (now.over <==> since.over || more != [])
  }

  lemma CutOffStep(s: State, step: Step, request: nat, since: Stream)
    requires CutOff(s, request) && Enabled(s, step) && Answered(since, s.streams[request])
    ensures CutOff(Next(s, step), request) && Answered(since, Next(s, step).streams[request])
  {
    var now, t := s.streams[request], Next(s, step);
    if step.Answer? && step.request == request {
      var more := now.answers[|since.answers|..];
      assert t.streams[request].answers[|since.answers|..] == more + [step.outcome];
    }
  }

  /** From the moment a stream is cut off, whatever the interleaving, its polls answer one error and
      then the end: never more data, and never a clean end. */
  lemma {:induction false} CancelledStreamErrs(states: seq<State>, steps: seq<Step>, i: nat, j: nat, request: nat)
    requires IsRun(states, steps) && i <= j < |states| && CutOff(states[i], request)
    ensures CutOff(states[j], request) && Answered(states[i].streams[request], states[j].streams[request])
    decreases j
  {
    if i < j {
      CancelledStreamErrs(states, steps, i, j - 1, request);
      CutOffStep(states[j - 1], steps[j - 1], request, states[i].streams[request]);
    }
  }

  /** No stream fails without its token being cancelled. */
  ghost predicate FailedIsCancelled(s: State, request: nat) {
    request in s.snapshots && request in s.streams && Failed in s.streams[request].answers ==> IsCancelled(s, request)
  }

  lemma {:induction false} ErrorMeansCancelled(states: seq<State>, steps: seq<Step>, i: nat, request: nat)
    requires IsRun(states, steps) && states[0] == Start() && i < |states|
    ensures FailedIsCancelled(states[i], request)
  {
    if i > 0 {
      ErrorMeansCancelled(states, steps, i - 1, request);
      RunKeepsInv(states, steps, i - 1);
    }
  }

  /** Without a shutdown, a stream that has failed belongs to an engine that has been replaced or whose
      replacement is under way. */
  lemma {:induction false} ErrorMeansReplaced(states: seq<State>, steps: seq<Step>, i: nat, request: nat)
    requires IsRun(states, steps) && states[0] == Start() && i < |states| && Shutdown !in steps
    requires var s := states[i];
             request in s.snapshots && request in s.streams && Failed in s.streams[request].answers
    ensures states[i].snapshots[request] != states[i].current || states[i].updater.Cancelled?
  {
    ErrorMeansCancelled(states, steps, i, request);
    CancelledMeansReplaced(states, steps, i);
  }

  lemma {:induction false} CancelledMeansReplaced(states: seq<State>, steps: seq<Step>, i: nat)
    requires IsRun(states, steps) && states[0] == Start() && i < |states| && Shutdown !in steps
    ensures states[i].current in states[i].cancelled ==> states[i].updater.Cancelled?
    ensures forall e :: e in states[i].cancelled ==> e < states[i].made
    ensures !states[i].updater.Waiting? ==> states[i].updater.next !in states[i].cancelled
  {
    if i > 0 {
      CancelledMeansReplaced(states, steps, i - 1);
      RunKeepsInv(states, steps, i - 1);
      assert steps[i - 1] in steps;
    }
  }
}
