/**
  What every kind of node does, case by case: the state and the outcome it leaves, the clock readings it
  uses, and the entry it logs.
*/
module DslAnswers {
  import opened Common
  import opened ReplayLog
  import opened ResultSteps
  import opened Dsl
  import PipelineSteps
  import opened DslExecution

  /** One more entry, with the given delta, and with the flag and code of the step's outcome. */
  ghost predicate Adds(log: seq<Entry>, step: DslStep, delta: Delta) {
    && |step.log| == |log| + 1
    && step.log[..|log|] == log
    && var last := step.log[|log|];
       last.delta == delta
       && last.ok == step.outcome.Ok?
       && last.code == if step.outcome.Ok? then None else Some(step.outcome.error.code)
  }

  lemma AppendAdds(current: DslStep, state: PState, outcome: Outcome<Value>, delta: Delta)
    ensures
      var step := Append(current, state, outcome, delta);
      step.state == state && step.outcome == outcome && Adds(current.log, step, delta)
  {
    var hung := WithReplayLogPrefix(Fresh<PState, Value>(state, outcome), current.log);
    assert hung.log == current.log;
  }

  ghost predicate Visits(before: PState, after: PState, name: string) {
    && after.pipelineId == before.pipelineId
    && after.currentNode == name
    && after.executed == before.executed + 1
  }

  function NodeTexts(nodeType: string, nodeName: string): Metadata {
    map["delta.kind" := Str("execute"), "dsl.node_type" := Str(nodeType), "dsl.node_name" := Str(nodeName)]
  }

  function Executed(name: string, nodeType: string, nodeName: string): Delta {
    Delta(name, Some(KernelFacade), Some(SlotT), Some(NodeTexts(nodeType, nodeName)), Some("execute"))
  }

  ghost predicate IsRuntimeError(error: Error, origin: Origin, metadata: Option<Metadata>) {
    error == Error("DSL_RUNTIME_ERROR", false, Some(FailClosed), Some(origin), Some(SlotT), metadata)
  }

  /** A failed step passes through every node. */
  lemma FailurePasses(env: Env, node: Node, current: Run)
    requires current.step.outcome.Err?
    ensures ExecuteNode(env, node, current) == current
  {
  }

  lemma PlainDelta(name: string, nodeType: string, nodeName: string)
    ensures NodeDelta(name, "execute", nodeType, nodeName, map[]) == Executed(name, nodeType, nodeName)
  {
    var none: Metadata := map[];
    assert NodeTexts(nodeType, nodeName) + none == NodeTexts(nodeType, nodeName);
  }

  // ----- whole programs -----

  /** An execution starts with the input, with nothing logged and nothing executed. */
  ghost predicate Starts(input: Value, step: DslStep) {
    && step.outcome == Ok(input)
    && step.log == []
    && step.state == PState("dsl.pipeline", "start", 0)
  }

  /** The nodes of a list run one after the other, each from where the one before left off. */
  ghost predicate RunsThrough(env: Env, nodes: seq<Node>, before: Run, after: Run)
    decreases |nodes|
  {
    if nodes == [] then after == before else RunsThrough(env, nodes[1..], ExecuteNode(env, nodes[0], before), after)
  }

  lemma {:induction false} NodesRunThrough(env: Env, nodes: seq<Node>, current: Run)
    ensures RunsThrough(env, nodes, current, ExecuteNodes(env, nodes, current))
    decreases |nodes|
  {
    if nodes != [] {
      NodesRunThrough(env, nodes[1..], ExecuteNode(env, nodes[0], current));
    }
  }

  /**
    A program runs its nodes one after the other from a fresh step; without a valid input it runs nothing,
    and logs that the context was invalid.
  */
  lemma ExecuteAnswers(env: Env, steps: seq<Node>, input: Value, tick: nat) returns (start: Run)
    ensures start.tick == tick
    ensures
      var r := Execute(env, Pipeline(steps), input, tick);
      if IsValid(input) then Starts(input, start.step) && RunsThrough(env, steps, start, r)
      else
        && r.tick == tick && r.step.state.executed == 0
        && r.step.outcome.Err? && IsRuntimeError(r.step.outcome.error, KernelFacade, Some(map[]))
        && Adds([], r.step, Delta(
             "dsl.context.invalid", Some(KernelFacade), Some(SlotT),
             Some(map["delta.kind" := Str("fail_closed"), "dsl.node_type" := Str("context"),
                      "dsl.node_name" := Str("execution_context")]), Some("fail_closed")))
  {
    start := Run(Fresh(InitialState(), Ok(input)), tick);
    NodesRunThrough(env, steps, start);
    var none: Metadata := map[];
    var texts: Metadata := map[
      "delta.kind" := Str("fail_closed"), "dsl.node_type" := Str("context"),
      "dsl.node_name" := Str("execution_context")];
    assert texts + none == texts;
  }

  // ----- nodes without a body -----

  lemma StepAnswers(env: Env, name: string, current: Run)
    requires current.step.outcome.Ok?
    ensures
      var r := ExecuteNode(env, Node.Step(name), current);
      && r.tick == current.tick
      && r.step.outcome == current.step.outcome
      && Visits(current.step.state, r.step.state, name)
      && Adds(current.step.log, r.step, Executed("dsl.step", "step", name))
  {
    AppendAdds(current.step, current.step.state.Advance(name), current.step.outcome, StepDelta(name));
    PlainDelta("dsl.step", "step", name);
  }

  lemma UnsupportedAnswers(env: Env, kind: string, current: Run)
    requires current.step.outcome.Ok?
    ensures
      var r := ExecuteNode(env, Unsupported(kind), current);
      && r.tick == current.tick
      && r.step.state == current.step.state
      && r.step.outcome.Err? && IsRuntimeError(r.step.outcome.error, KernelFacade, None)
      && Adds(current.step.log, r.step, Executed("dsl.invalid-node", "invalid", kind))
  {
    AppendAdds(current.step, current.step.state, Err(InvalidRuntime()), InvalidNodeDelta(kind));
    PlainDelta("dsl.invalid-node", "invalid", kind);
  }

  lemma SuspendNodeAnswers(env: Env, reason: string, current: Run)
    requires current.step.outcome.Ok?
    ensures
      var r := ExecuteNode(env, Suspend(reason), current);
      var text := if IsBlank(reason) then "Pipeline suspended." else reason;
      var texts: Metadata := map["delta.kind" := Str("suspend"), "suspend_reason" := Str(text)];
      && r.tick == current.tick
      && Visits(current.step.state, r.step.state, "suspend")
      && r.step.outcome
         == Err(Error("SUSPENDED", true, Some(Quarantine), Some(KernelFacade), Some(SlotT), Some(texts)))
      && Adds(current.step.log, r.step,
              Delta("pipeline.suspend", Some(KernelFacade), Some(SlotT), Some(texts), Some("suspend")))
  {
    var suspended := SuspendStep(current.step.state, reason);
    if current.step.log != [] {
      var parent := current.step.log[|current.step.log| - 1].id;
      RebaseChains(suspended.log, parent);
      assert PayloadOf(Rebase(suspended.log, parent)[0]) == Payloads(suspended.log)[0];
    }
  }

  // ----- capability calls -----

  ghost predicate IsValid(value: Value) {
    value.data.Some? && forall key | key in value.data.value :: !IsBlank(key) && value.data.value[key].Some?
  }

  /** The texts under the given argument names, and nothing else under names of arguments. */
  ghost predicate CarriesArgs(texts: Metadata, args: map<string, string>) {
    && (forall key | key in args :: "dsl.arg." + key in texts && texts["dsl.arg." + key] == Str(args[key]))
    && forall key | "dsl.arg." + key in texts :: key in args
  }

  /** What the outcome of a call has to be, by the reply of the registry. */
  ghost predicate Answers(name: string, reply: Reply, outcome: Outcome<Value>) {
    match reply
    case Refused(error) => outcome == Err(error)
    case Raised(exn) =>
      outcome == Err(Error(
        "UNHANDLED_EXCEPTION", false, Some(FailClosed), Some(Capability), Some(SlotT),
        Some(map["exception_type" := Str(exn.typeName), "dsl.capability_name" := Str(name)])))
    case Replied(answer) =>
      if answer.Some? && IsValid(answer.value) then outcome == Ok(answer.value)
      else
        && outcome.Err?
        && IsRuntimeError(outcome.error, Capability,
                          Some(if IsBlank(name) then map[] else map["dsl.capability_name" := Str(name)]))
  }

  lemma ReplyAnswers(name: string, reply: Reply)
    ensures Answers(name, reply, CapabilityOutcome(name, reply))
  {
    if reply.Raised? {
      var texts: Metadata := map["exception_type" := Str(reply.exn.typeName)];
      assert texts["dsl.capability_name" := Str(name)]
          == map["exception_type" := Str(reply.exn.typeName), "dsl.capability_name" := Str(name)];
    }
  }

  lemma CallNode(env: Env, name: string, args: map<string, string>, current: Run)
    requires current.step.outcome.Ok?
    ensures
      var (reply, tick) := env.invoke(name, current.step.outcome.value, args, current.tick);
      var outcome := CapabilityOutcome(name, reply);
      var r := ExecuteNode(env, Call(name, args), current);
      && r.tick == tick
      && Visits(current.step.state, r.step.state, name)
      && r.step.outcome == outcome
      && Adds(current.step.log, r.step, CapabilityDelta(name, args, DeltaSource(outcome)))
  {
    var (reply, tick) := env.invoke(name, current.step.outcome.value, args, current.tick);
    var outcome := CapabilityOutcome(name, reply);
    var delta := CapabilityDelta(name, args, DeltaSource(outcome));
    CallAppends(env, name, args, current, reply, tick, outcome, delta);
    CallExecutes(env, name, args, current);
    AppendAdds(current.step, current.step.state.Advance(name), outcome, delta);
  }

  lemma CallExecutes(env: Env, name: string, args: map<string, string>, current: Run)
    requires current.step.outcome.Ok?
    ensures ExecuteNode(env, Call(name, args), current) == ExecuteCapability(env, name, args, current)
  {
  }

  lemma CallAppends(
    env: Env, name: string, args: map<string, string>, current: Run,
    reply: Reply, tick: nat, outcome: Outcome<Value>, delta: Delta)
    requires current.step.outcome.Ok?
    requires env.invoke(name, current.step.outcome.value, args, current.tick) == (reply, tick)
    requires outcome == CapabilityOutcome(name, reply)
    requires delta == CapabilityDelta(name, args, DeltaSource(outcome))
    ensures ExecuteCapability(env, name, args, current)
         == Run(Append(current.step, current.step.state.Advance(name), outcome, delta), tick)
  {
  }

  /**
    A call asks the registry once, for the name, with the current value and the arguments. A valid value
    is taken as it is, and so is a refusal. An exception becomes a fail-closed error that names the
    capability, and no value, or one that is not valid, a runtime error.
  */
  lemma CallAnswers(env: Env, name: string, args: map<string, string>, current: Run)
    requires current.step.outcome.Ok?
    ensures
      var (reply, tick) := env.invoke(name, current.step.outcome.value, args, current.tick);
      var r := ExecuteNode(env, Call(name, args), current);
      && r.tick == tick
      && Visits(current.step.state, r.step.state, name)
      && Answers(name, reply, r.step.outcome)
  {
    CallNode(env, name, args, current);
    ReplyAnswers(name, env.invoke(name, current.step.outcome.value, args, current.tick).0);
  }

  /** The entry of a call: it names the capability and carries the arguments. */
  ghost predicate IsCallEntry(name: string, args: map<string, string>, delta: Delta) {
    && delta.name == "dsl.capability.call" && delta.kind == Some("execute")
    && delta.metadata.Some?
    && NamesCall(name, delta.metadata.value)
    && CarriesArgs(delta.metadata.value, args)
  }

  ghost predicate NamesCall(name: string, texts: Metadata) {
    && "delta.kind" in texts && texts["delta.kind"] == Str("execute")
    && "dsl.node_type" in texts && texts["dsl.node_type"] == Str("call_capability")
    && "dsl.node_name" in texts && texts["dsl.node_name"] == Str(name)
  }

  lemma CallLogs(env: Env, name: string, args: map<string, string>, current: Run)
    requires current.step.outcome.Ok?
    ensures
      var r := ExecuteNode(env, Call(name, args), current).step;
      |r.log| == |current.step.log| + 1 &&
      var delta := r.log[|current.step.log|].delta;
      Adds(current.step.log, r, delta) && IsCallEntry(name, args, delta)
  {
    CallNode(env, name, args, current);
    var reply := env.invoke(name, current.step.outcome.value, args, current.tick).0;
    var source := DeltaSource(CapabilityOutcome(name, reply));
    DeltaNamesCall(name, args, source);
    DeltaCarriesArgs(name, args, source);
  }

  lemma ArgKeys(args: map<string, string>, key: string)
    ensures "dsl.arg." + key in ArgMetadata(args) <==> key in args
    ensures key in args ==> ArgMetadata(args)["dsl.arg." + key] == Str(args[key])
  {
    var full := "dsl.arg." + key;
    assert full[|ARG_PREFIX|..] == key;
  }

  lemma DeltaCarriesArgs(name: string, args: map<string, string>, source: Metadata)
    ensures CarriesArgs(CapabilityDelta(name, args, source).metadata.value, args)
  {
    forall key: string
      ensures
        var texts := CapabilityDelta(name, args, source).metadata.value;
        && ("dsl.arg." + key in texts <==> key in args)
        && (key in args ==> texts["dsl.arg." + key] == Str(args[key]))
    {
      ArgKeys(args, key);
      ArgIsNoOtherKey("dsl.arg." + key);
    }
  }

  lemma ArgIsNoOtherKey(full: string)
    requires "dsl.arg." <= full
    ensures full !in ROM_METADATA_KEYS && full !in {"delta.kind", "dsl.node_type", "dsl.node_name"}
  {
    assert full[4] == 'a' && full[3] == '.' && full[1] == 's';
  }

  lemma DeltaNamesCall(name: string, args: map<string, string>, source: Metadata)
    ensures NamesCall(name, CapabilityDelta(name, args, source).metadata.value)
  {
    NoArgKey(args, "delta.kind");
    NoArgKey(args, "dsl.node_type");
    NoArgKey(args, "dsl.node_name");
  }

  lemma NoArgKey(args: map<string, string>, key: string)
    requires key in {"delta.kind", "dsl.node_type", "dsl.node_name"}
    ensures key !in ArgMetadata(args)
  {
    forall arg | arg in args
      ensures ARG_PREFIX + arg != key
    {
      ArgIsNoOtherKey("dsl.arg." + arg);
    }
  }

  // ----- loops -----

  /** The entry of a loop iteration, without or with a timestamp. */
  function LoopEntry(i: int, decision: string, timestamp: Option<int>): Delta {
    var texts: Metadata := map[
      "delta.kind" := Str("loop"), "loop_iteration" := Num(i), "loop_decision" := Str(decision)];
    var stamped := if timestamp.Some? then texts["loop_timestamp" := Instant(timestamp.value)] else texts;
    Delta(if timestamp.Some? then "dsl.loop_until.iteration" else "dsl.loop.iteration",
          Some(KernelFacade), Some(SlotT), Some(stamped), Some("loop"))
  }

  function DecisionAt(i: int, max: int): string {
    if i == max - 1 then "max_iterations_reached" else "continue"
  }

  /** From `ran` to `next` nothing happens but one more entry. */
  ghost predicate Marks(ran: Run, next: Run, delta: Delta) {
    && next.tick == ran.tick
    && next.step.state == ran.step.state
    && next.step.outcome == ran.step.outcome
    && Adds(ran.step.log, next.step, delta)
  }

  lemma TransitionMarks(ran: Run, i: int, decision: string, timestamp: Option<int>)
    ensures Marks(ran, ran.(step := AppendLoopTransition(ran.step, i, decision, timestamp)),
                  LoopEntry(i, decision, timestamp))
  {
    AppendAdds(ran.step, ran.step.state, ran.step.outcome, TransitionDelta(i, decision, timestamp));
    assert TransitionDelta(i, decision, timestamp) == LoopEntry(i, decision, timestamp);
  }

  /** Iteration `i` of a counted loop: the body from where the iteration before ended, and its entry. */
  ghost predicate IsIteration(env: Env, max: int, body: seq<Node>, i: int, from: Run, next: Run) {
    match from.step.outcome
    case Ok(_) => Marks(ExecuteNodes(env, body, from), next, LoopEntry(i, DecisionAt(i, max), None))
    case Err(_) => false
  }

  /**
    A counted run from iteration `i` on, by the runs between its iterations: it ends with a failed
    iteration or when all have run.
  */
  ghost predicate IsLoopRun(env: Env, max: int, body: seq<Node>, i: int, runs: seq<Run>, r: Run)
    decreases |runs|
  {
    if |runs| <= 1 then runs == [r] && (r.step.outcome.Ok? ==> i == max)
    else
      && i < max
      && IsIteration(env, max, body, i, runs[0], runs[1])
      && IsLoopRun(env, max, body, i + 1, runs[1..], r)
  }

  lemma LoopGoesOn(env: Env, max: nat, body: seq<Node>, i: nat, current: Run) returns (next: Run)
    requires i < max && current.step.outcome.Ok?
    ensures IsIteration(env, max, body, i, current, next)
    ensures ExecuteLoop(env, max, body, i, current)
         == if next.step.outcome.Err? then next else ExecuteLoop(env, max, body, i + 1, next)
  {
    var ran := ExecuteNodes(env, body, current);
    next := ran.(step := AppendLoopTransition(ran.step, i, PipelineSteps.Decision(i, max), None));
    TransitionMarks(ran, i, PipelineSteps.Decision(i, max), None);
  }

  lemma LoopRunGoesOn(env: Env, max: int, body: seq<Node>, i: int, current: Run, rest: seq<Run>, r: Run)
    requires i < max && rest != [] && IsIteration(env, max, body, i, current, rest[0])
    requires IsLoopRun(env, max, body, i + 1, rest, r)
    ensures IsLoopRun(env, max, body, i, [current] + rest, r)
  {
    var runs := [current] + rest;
    assert runs[1..] == rest;
  }

  lemma {:induction false} LoopIterates(
    env: Env, max: nat, body: seq<Node>, i: nat, current: Run) returns (runs: seq<Run>)
    requires i <= max && current.step.outcome.Ok?
    ensures runs != [] && runs[0] == current
    ensures IsLoopRun(env, max, body, i, runs, ExecuteLoop(env, max, body, i, current))
    decreases max - i
  {
    if i == max {
      runs := [current];
    } else {
      var next := LoopGoesOn(env, max, body, i, current);
      var rest, r := [next], next;
      if next.step.outcome.Ok? {
        rest := LoopIterates(env, max, body, i + 1, next);
        r := ExecuteLoop(env, max, body, i + 1, next);
      }
      LoopRunGoesOn(env, max, body, i, current, rest, r);
      runs := [current] + rest;
    }
  }

  /**
    A counted loop runs its body over and over, each time from where it was, until an iteration fails or
    the bound is reached; after each it logs one numbered entry. A bound of zero logs one entry, a negative
    one fails.
  */
  lemma LoopAnswers(env: Env, max: int, body: seq<Node>, current: Run) returns (runs: seq<Run>)
    requires current.step.outcome.Ok?
    ensures
      var r := ExecuteNode(env, Loop(max, body), current);
      if max < 0 then
        && r.tick == current.tick && r.step.state == current.step.state
        && r.step.outcome.Err? && IsRuntimeError(r.step.outcome.error, KernelFacade, None)
        && Adds(current.step.log, r.step, LoopEntry(0, "invalid", None))
      else if max == 0 then Marks(current, r, LoopEntry(0, "max_iterations_reached", None))
      else
        runs != [] && runs[0] == current && IsLoopRun(env, max, body, 0, runs, r)
  {
    runs := [];
    if max < 0 {
      AppendAdds(current.step, current.step.state, Err(InvalidRuntime()), LoopDelta(0, "invalid"));
    } else if max == 0 {
      TransitionMarks(current, 0, "max_iterations_reached", None);
    } else {
      runs := LoopIterates(env, max, body, 0, current);
    }
  }

  /** Iteration `i` of a timed loop: one reading before the deadline, the body, and its entry. */
  ghost predicate IsTimedIteration(
    env: Env, timeout: int, max: int, body: seq<Node>, i: int, from: Run, next: Run)
  {
    match (from.step.outcome, env.clock(from.tick))
    case (Ok(_), Returned(now)) =>
      && now - env.startedAt < timeout
      && Marks(ExecuteNodes(env, body, Run(from.step, from.tick + 1)), next,
               LoopEntry(i, DecisionAt(i, max), Some(now)))
    case _ => false
  }

  /** A failed iteration is the end; otherwise there is one more entry. */
  ghost predicate IsTimedEnd(env: Env, timeout: int, max: int, i: int, last: Run, r: Run) {
    match last.step.outcome
    case Err(_) => r == last
    case Ok(_) => EndsTimed(env, timeout, max, i, last, r)
  }

  /** How a timed loop ends after `i` iterations that did not fail. */
  ghost predicate EndsTimed(env: Env, timeout: int, max: int, i: int, last: Run, r: Run) {
    if i == max then Marks(last, r, LoopEntry(max, "max_iterations_reached", None))
    else
      match env.clock(last.tick)
      case Returned(now) =>
        now - env.startedAt >= timeout
        && Marks(last.(tick := last.tick + 1), r, LoopEntry(i, "timeout_reached", Some(now)))
      case Threw(exn) =>
        && r.tick == last.tick + 1
        && r.step.state == last.step.state
        && r.step.outcome.Err? && IsClockError(r.step.outcome.error, exn, i)
        && |r.step.log| == |last.step.log| + 1
        && Adds(last.step.log, r.step, r.step.delta)
        && r.step.delta.name == "dsl.loop_until.iteration"
        && r.step.delta.metadata == Some(ClockTexts(i))
  }

  function ClockTexts(i: int): Metadata {
    map["delta.kind" := Str("loop"), "loop_iteration" := Num(i), "loop_decision" := Str("clock_failed")]
  }

  ghost predicate IsClockError(error: Error, exn: Exn, i: int) {
    && error.code == "UNHANDLED_EXCEPTION" && !error.retryable
    && error.failure == Some(FailClosed) && error.origin == Some(KernelFacade) && error.slot == Some(SlotT)
    && error.metadata == Some(map["exception_type" := Str(exn.typeName)] + ClockTexts(i))
  }

  lemma LoopUntilGoesOn(
    env: Env, timeout: nat, max: nat, body: seq<Node>, i: nat, current: Run) returns (next: Run)
    requires i < max && current.step.outcome.Ok?
    requires env.clock(current.tick).Returned? && env.clock(current.tick).result - env.startedAt < timeout
    ensures IsTimedIteration(env, timeout, max, body, i, current, next)
    ensures ExecuteLoopUntil(env, timeout, max, body, i, current)
         == if next.step.outcome.Err? then next else ExecuteLoopUntil(env, timeout, max, body, i + 1, next)
  {
    var now := env.clock(current.tick).result;
    var ran := ExecuteNodes(env, body, Run(current.step, current.tick + 1));
    next := ran.(step := AppendLoopTransition(ran.step, i, PipelineSteps.Decision(i, max), Some(now)));
    TransitionMarks(ran, i, PipelineSteps.Decision(i, max), Some(now));
  }

  /** A timed run from iteration `i` on, by the runs between its iterations, and how it ends. */
  ghost predicate IsTimedRun(env: Env, timeout: int, max: int, body: seq<Node>, i: int, runs: seq<Run>, r: Run)
    decreases |runs|
  {
    if |runs| <= 1 then runs != [] && IsTimedEnd(env, timeout, max, i, runs[0], r)
    else
      && i < max
      && IsTimedIteration(env, timeout, max, body, i, runs[0], runs[1])
      && IsTimedRun(env, timeout, max, body, i + 1, runs[1..], r)
  }

  lemma TimedRunGoesOn(
    env: Env, timeout: int, max: int, body: seq<Node>, i: int, current: Run, rest: seq<Run>, r: Run)
    requires i < max && rest != [] && IsTimedIteration(env, timeout, max, body, i, current, rest[0])
    requires IsTimedRun(env, timeout, max, body, i + 1, rest, r)
    ensures IsTimedRun(env, timeout, max, body, i, [current] + rest, r)
  {
    var runs := [current] + rest;
    assert runs[1..] == rest;
  }

  lemma {:induction false} LoopUntilIterates(
    env: Env, timeout: nat, max: nat, body: seq<Node>, i: nat, current: Run) returns (runs: seq<Run>)
    requires i <= max && current.step.outcome.Ok?
    ensures runs != [] && runs[0] == current
    ensures IsTimedRun(env, timeout, max, body, i, runs, ExecuteLoopUntil(env, timeout, max, body, i, current))
    decreases max - i
  {
    if i < max && env.clock(current.tick).Returned?
       && env.clock(current.tick).result - env.startedAt < timeout
    {
      var next := LoopUntilGoesOn(env, timeout, max, body, i, current);
      var rest, r := [next], next;
      if next.step.outcome.Ok? {
        rest := LoopUntilIterates(env, timeout, max, body, i + 1, next);
        r := ExecuteLoopUntil(env, timeout, max, body, i + 1, next);
      }
      TimedRunGoesOn(env, timeout, max, body, i, current, rest, r);
      runs := [current] + rest;
    } else {
      runs := [current];
      LoopUntilEnds(env, timeout, max, body, i, current);
    }
  }

  lemma LoopUntilEnds(env: Env, timeout: nat, max: nat, body: seq<Node>, i: nat, current: Run)
    requires i <= max && current.step.outcome.Ok?
    requires i < max && env.clock(current.tick).Returned? ==>
      env.clock(current.tick).result - env.startedAt >= timeout
    ensures EndsTimed(env, timeout, max, i, current, ExecuteLoopUntil(env, timeout, max, body, i, current))
  {
    if i == max {
      TransitionMarks(current, max, "max_iterations_reached", None);
    } else {
      var read := Run(current.step, current.tick + 1);
      match env.clock(current.tick)
      case Returned(now) => TransitionMarks(read, i, "timeout_reached", Some(now));
      case Threw(exn) =>
        var delta := LoopUntilDelta(i, None, "clock_failed");
        AppendAdds(current.step, current.step.state, Err(ClockException(exn, delta)), delta);
    }
  }

  /**
    A timed loop runs its body over and over as long as the clock, read before every iteration, is before
    the deadline. It ends with a failed iteration, or with an entry of its own: at the bound, at the
    deadline, or because the clock threw. Negative bounds fail.
  */
  lemma LoopUntilAnswers(env: Env, timeout: int, max: int, body: seq<Node>, current: Run) returns (runs: seq<Run>)
    requires current.step.outcome.Ok?
    ensures
      var r := ExecuteNode(env, LoopUntil(timeout, max, body), current);
      if max < 0 || timeout < 0 then
        && r.tick == current.tick && r.step.state == current.step.state
        && r.step.outcome.Err? && IsRuntimeError(r.step.outcome.error, KernelFacade, None)
        && |r.step.log| == |current.step.log| + 1 && Adds(current.step.log, r.step, r.step.delta)
        && r.step.delta.name == "dsl.loop_until.iteration"
      else
        runs != [] && runs[0] == current && IsTimedRun(env, timeout, max, body, 0, runs, r)
  {
    runs := [];
    if max < 0 || timeout < 0 {
      AppendAdds(current.step, current.step.state, Err(InvalidRuntime()), LoopUntilDelta(0, None, "invalid"));
    } else {
      runs := LoopUntilIterates(env, timeout, max, body, 0, current);
    }
  }
}
