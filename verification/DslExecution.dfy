/**
  The interpreter of compiled pipelines. It threads one result step through the nodes; every node hangs
  its entry under the last id of the log it was given.
*/
module DslExecution {
  import opened Common
  import opened ReplayLog
  import opened ResultSteps
  import PipelineSteps
  import opened Dsl

  datatype PState = PState(pipelineId: string, currentNode: string, executed: nat)
  {
    function Advance(node: string): PState {
      this.(currentNode := node, executed := executed + 1)
    }
  }

  function InitialState(): PState {
    PState("dsl.pipeline", "start", 0)
  }

  /** A pipeline value; its dictionary and the texts in it can be null. */
  datatype Value = Value(data: Option<map<string, Option<Text>>>)
  {
    /** What `ValidatePipelineValue` accepts. */
    predicate Valid() {
      data.Some? && forall key | key in data.value :: !IsBlank(key) && data.value[key].Some?
    }

    function Texts(): Metadata
      requires Valid()
    {
      map key | key in data.value :: data.value[key].value
    }
  }

  function InvalidRuntime(): Error {
    Error("DSL_RUNTIME_ERROR", false, Some(FailClosed), Some(KernelFacade), Some(SlotT), None)
  }

  function InvalidPipelineValue(origin: Origin, capability: Option<string>): Error {
    var metadata: Metadata :=
      if capability.Some? && !IsBlank(capability.value)
      then map["dsl.capability_name" := Str(capability.value)] else map[];
    Error("DSL_RUNTIME_ERROR", false, Some(FailClosed), Some(origin), Some(SlotT), Some(metadata))
  }

  // ----- the outside world -----

  /** What invoking a capability comes back with; a returned value can be null. */
  datatype Reply = Replied(value: Option<Value>) | Refused(error: Error) | Raised(exn: Exn)

  /** A capability registry. Calls can read the clock, so the number of readings is threaded through. */
  type Invoke = (string, Value, map<string, string>, nat) -> (Reply, nat)

  /** The world of one execution: capabilities, the sequence of clock readings, and the start time. */
  datatype Env = Env(invoke: Invoke, clock: nat -> Attempt<int>, startedAt: int)

  type DslStep = ResultSteps.Step<PState, Value>

  /** An execution under way: the current step and the number of clock readings used. */
  datatype Run = Run(step: DslStep, tick: nat)

  // ----- semantic deltas -----

  function LoopDelta(iteration: int, decision: string): Delta {
    Delta("dsl.loop.iteration", Some(KernelFacade), Some(SlotT),
          Some(PipelineSteps.LoopMetadata(iteration, decision)), Some("loop"))
  }

  function LoopUntilDelta(iteration: int, timestamp: Option<int>, decision: string): Delta {
    PipelineSteps.LoopUntilDelta(iteration, timestamp, decision).(name := "dsl.loop_until.iteration")
  }

  /** The delta of a loop transition: without a timestamp it is that of a counted loop. */
  function TransitionDelta(iteration: int, decision: string, timestamp: Option<int>): Delta {
    if timestamp.Some? then LoopUntilDelta(iteration, timestamp, decision) else LoopDelta(iteration, decision)
  }

  const ARG_PREFIX := "dsl.arg."

  function ArgMetadata(args: map<string, string>): Metadata {
    var keys := set key | key in args :: ARG_PREFIX + key;
    map key | key in keys && key[|ARG_PREFIX|..] in args :: Str(args[key[|ARG_PREFIX|..]])
  }

  function NodeDelta(name: string, kind: string, nodeType: string, nodeName: string, extra: Metadata): Delta {
    var metadata: Metadata := map[
      "delta.kind" := Str(kind), "dsl.node_type" := Str(nodeType), "dsl.node_name" := Str(nodeName)];
    Delta(name, Some(KernelFacade), Some(SlotT), Some(metadata + extra), Some(kind))
  }

  function StepDelta(name: string): Delta {
    NodeDelta("dsl.step", "execute", "step", name, map[])
  }

  function InvalidNodeDelta(kind: string): Delta {
    NodeDelta("dsl.invalid-node", "execute", "invalid", kind, map[])
  }

  const ROM_METADATA_KEYS: set<string> := {
    "dsl_rom_call", "dsl_rom_hash", "dsl_rom_path", "dsl_rom_namespace", "dsl_rom_name",
    "dsl_rom_replay_log_count", "dsl_rom_replay_log_hash"}

  function CapabilityDelta(name: string, args: map<string, string>, source: Metadata): Delta {
    var rom := map key | key in source && key in ROM_METADATA_KEYS :: source[key];
    NodeDelta("dsl.capability.call", "execute", "call_capability", name, ArgMetadata(args) + rom)
  }

  function SuspendStep(state: PState, reason: string): DslStep {
    PipelineSteps.Suspend(state.Advance("suspend"), reason)
  }

  // ----- appending -----

  /** `AppendSuccess` and `AppendFailure`: a fresh step that takes over the log and adds one entry. */
  function Append(current: DslStep, state: PState, outcome: Outcome<Value>, delta: Delta): DslStep {
    WithSemanticDelta(
      WithReplayLogPrefix(Fresh(state, outcome), current.log),
      delta,
      LastId(current.log, Absent))
  }

  function AppendLoopTransition(
    current: DslStep, iteration: int, decision: string, timestamp: Option<int>): DslStep
  {
    Append(current, current.state, current.outcome, TransitionDelta(iteration, decision, timestamp))
  }

  // ----- the interpreter -----

  /** The outcome of a capability call, once its reply has been checked. */
  function CapabilityOutcome(name: string, reply: Reply): Outcome<Value> {
    match reply
    case Raised(exn) => Err(CapabilityException(name, FromException(exn)))
    case Refused(error) => Err(error)
    case Replied(None) => Err(InvalidPipelineValue(Capability, Some(name)))
    case Replied(Some(value)) =>
      if value.Valid() then Ok(value) else Err(InvalidPipelineValue(Capability, Some(name)))
  }

  /** The metadata a capability entry may copy from: the output's data, or the error's metadata. */
  function DeltaSource(outcome: Outcome<Value>): Metadata {
    match outcome
    case Ok(value) => if value.Valid() then value.Texts() else map[]
    case Err(error) => if error.metadata.Some? then error.metadata.value else map[]
  }

  function ExecuteCapability(env: Env, name: string, args: map<string, string>, current: Run): Run
    requires current.step.outcome.Ok?
  {
    var (reply, tick) := env.invoke(name, current.step.outcome.value, args, current.tick);
    var outcome := CapabilityOutcome(name, reply);
    var delta := CapabilityDelta(name, args, DeltaSource(outcome));
    Run(Append(current.step, current.step.state.Advance(name), outcome, delta), tick)
  }

  function ExecuteNode(env: Env, node: Node, current: Run): Run
    decreases node, 0
  {
    if current.step.outcome.Err? then current
    else
      var step := current.step;
      match node
      case Pipeline(steps) => ExecuteNodes(env, steps, current)
      case Step(name) =>
        current.(step := Append(step, step.state.Advance(name), step.outcome, StepDelta(name)))
      case Call(name, args) => ExecuteCapability(env, name, args, current)
      case Loop(max, body) =>
        if max < 0 then
          current.(step := Append(step, step.state, Err(InvalidRuntime()), LoopDelta(0, "invalid")))
        else if max == 0 then
          current.(step := AppendLoopTransition(step, 0, PipelineSteps.MAX_REACHED, None))
        else ExecuteLoop(env, max, body, 0, current)
      case LoopUntil(timeout, max, body) =>
        if max < 0 || timeout < 0 then
          current.(step := Append(
            step, step.state, Err(InvalidRuntime()), LoopUntilDelta(0, None, "invalid")))
        else ExecuteLoopUntil(env, timeout, max, body, 0, current)
      case Suspend(reason) =>
        current.(step := WithReplayLogPrefix(SuspendStep(step.state, reason), step.log))
      case Unsupported(kind) =>
        current.(step := Append(step, step.state, Err(InvalidRuntime()), InvalidNodeDelta(kind)))
  }

  /** The fold over a node list; a failed step passes through the rest. */
  function ExecuteNodes(env: Env, nodes: seq<Node>, current: Run): Run
    decreases nodes, 0
  {
    if nodes == [] || current.step.outcome.Err? then current
    else ExecuteNodes(env, nodes[1..], ExecuteNode(env, nodes[0], current))
  }

  /** The counted loop from `iteration` on. */
  function ExecuteLoop(env: Env, max: nat, body: seq<Node>, iteration: nat, current: Run): Run
    requires iteration <= max
    decreases body, 1 + max - iteration
  {
    if iteration == max then current
    else
      var ran := ExecuteNodes(env, body, current);
      var next := ran.(step := AppendLoopTransition(
        ran.step, iteration, PipelineSteps.Decision(iteration, max), None));
      if next.step.outcome.Err? then next else ExecuteLoop(env, max, body, iteration + 1, next)
  }

  /** `DslExecutionErrors.ClockException`. */
  function ClockException(exn: Exn, delta: Delta): Error {
    FromException(exn).(
      failure := Some(FailClosed),
      origin := Some(KernelFacade),
      slot := Some(SlotT),
      metadata := PipelineSteps.MergeMetadata(FromException(exn).metadata, delta.metadata))
  }

  /** The timed loop from `iteration` on: one clock reading before every body. */
  function ExecuteLoopUntil(
    env: Env, timeout: nat, max: nat, body: seq<Node>, iteration: nat, current: Run): Run
    requires iteration <= max
    decreases body, 1 + max - iteration
  {
    var step := current.step;
    if iteration == max then
      current.(step := AppendLoopTransition(step, max, PipelineSteps.MAX_REACHED, None))
    else
      match env.clock(current.tick)
      case Threw(exn) =>
        var delta := LoopUntilDelta(iteration, None, "clock_failed");
        Run(Append(step, step.state, Err(ClockException(exn, delta)), delta), current.tick + 1)
      case Returned(now) =>
        if now - env.startedAt >= timeout then
          Run(AppendLoopTransition(step, iteration, "timeout_reached", Some(now)), current.tick + 1)
        else
          var ran := ExecuteNodes(env, body, Run(step, current.tick + 1));
          var next := ran.(step := AppendLoopTransition(
            ran.step, iteration, PipelineSteps.Decision(iteration, max), Some(now)));
          if next.step.outcome.Err? then next
          else ExecuteLoopUntil(env, timeout, max, body, iteration + 1, next)
  }

  /** `Execute`: the input is checked, then the root runs from a fresh step. */
  function Execute(env: Env, root: Node, input: Value, tick: nat): Run {
    if !input.Valid() then
      Run(InvalidExecutionContext(InvalidPipelineValue(KernelFacade, None)), tick)
    else ExecuteNode(env, root, Run(Fresh(InitialState(), Ok(input)), tick))
  }

  function InvalidExecutionContext(error: Error): DslStep {
    WithSemanticDelta(
      Fresh(InitialState(), Err(error)),
      NodeDelta("dsl.context.invalid", "fail_closed", "context", "execution_context", map[]),
      Absent)
  }

  // ----- the loops as the source writes them -----

  /** The `for` loop of `CompiledDslPipeline.ExecuteLoop`. */
  method RunLoop(env: Env, max: int, body: seq<Node>, current: Run) returns (r: Run)
    requires current.step.outcome.Ok?
    ensures r == ExecuteNode(env, Loop(max, body), current)
  {
    if max < 0 {
      return current.(step := Append(
                        current.step, current.step.state, Err(InvalidRuntime()), LoopDelta(0, "invalid")));
    }
    var result := current;
    for iteration := 0 to max
      invariant result.step.outcome.Ok?
      invariant ExecuteLoop(env, max, body, 0, current) == ExecuteLoop(env, max, body, iteration, result)
    {
      result := ExecuteNodes(env, body, result);
      result := result.(step := AppendLoopTransition(
        result.step, iteration, PipelineSteps.Decision(iteration, max), None));
      if result.step.outcome.Err? {
        return result;
      }
    }
    if max == 0 {
      return current.(step := AppendLoopTransition(result.step, 0, PipelineSteps.MAX_REACHED, None));
    }
    return result;
  }

  /** The `for` loop of `CompiledDslPipeline.ExecuteLoopUntil`. */
  method RunLoopUntil(env: Env, timeout: int, max: int, body: seq<Node>, current: Run) returns (r: Run)
    requires current.step.outcome.Ok?
    ensures r == ExecuteNode(env, LoopUntil(timeout, max, body), current)
  {
    if max < 0 || timeout < 0 {
      return current.(step := Append(
                        current.step, current.step.state, Err(InvalidRuntime()),
                        LoopUntilDelta(0, None, "invalid")));
    }
    var result := current;
    for iteration := 0 to max
      invariant result.step.outcome.Ok?
      invariant ExecuteLoopUntil(env, timeout, max, body, 0, current)
             == ExecuteLoopUntil(env, timeout, max, body, iteration, result)
    {
      var reading := env.clock(result.tick);
      result := result.(tick := result.tick + 1);
      if reading.Threw? {
        var delta := LoopUntilDelta(iteration, None, "clock_failed");
        return result.(step := Append(
                         result.step, result.step.state, Err(ClockException(reading.exn, delta)), delta));
      }
      var now := reading.result;
      if now - env.startedAt >= timeout {
        return result.(step := AppendLoopTransition(result.step, iteration, "timeout_reached", Some(now)));
      }
      result := ExecuteNodes(env, body, result);
      result := result.(step := AppendLoopTransition(
        result.step, iteration, PipelineSteps.Decision(iteration, max), Some(now)));
      if result.step.outcome.Err? {
        return result;
      }
    }
    return result.(step := AppendLoopTransition(result.step, max, PipelineSteps.MAX_REACHED, None));
  }
}
