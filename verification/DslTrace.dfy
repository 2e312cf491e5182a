/**
  A reference semantics of the DSL without states, ids and logs: a run maps an outcome and a clock
  position to their successors and emits a list of payloads. The interpreter is shown to compute exactly
  this: it hangs the emitted payloads under the log it was given, and its state is the replay of them.
  Everything said about traces follows from here.
*/
module DslTrace {
  import opened Common
  import opened ReplayLog
  import opened ResultSteps
  import PipelineSteps
  import opened Dsl
  import opened DslExecution

  datatype Core = Core(outcome: Outcome<Value>, tick: nat)

  datatype Traced = Traced(end: Core, emitted: seq<Payload>)

  function CoreOf(run: Run): Core {
    Core(run.step.outcome, run.tick)
  }

  /** One entry: it carries the outcome it leaves behind. */
  function Emit(end: Core, delta: Delta): Traced {
    Traced(end, [Payload(delta, end.outcome.Ok?, end.outcome.Code())])
  }

  /** `t` and then `u`, which started where `t` ended. */
  function Chain(t: Traced, u: Traced): Traced {
    Traced(u.end, t.emitted + u.emitted)
  }

  function TraceCapability(env: Env, name: string, args: map<string, string>, core: Core): Traced
    requires core.outcome.Ok?
  {
    var (reply, tick) := env.invoke(name, core.outcome.value, args, core.tick);
    var outcome := CapabilityOutcome(name, reply);
    Emit(Core(outcome, tick), CapabilityDelta(name, args, DeltaSource(outcome)))
  }

  function TraceNode(env: Env, node: Node, core: Core): Traced
    decreases node, 0
  {
    if core.outcome.Err? then Traced(core, [])
    else
      match node
      case Pipeline(steps) => TraceNodes(env, steps, core)
      case Step(name) => Emit(core, StepDelta(name))
      case Call(name, args) => TraceCapability(env, name, args, core)
      case Loop(max, body) =>
        if max < 0 then Emit(core.(outcome := Err(InvalidRuntime())), LoopDelta(0, "invalid"))
        else if max == 0 then Emit(core, LoopDelta(0, PipelineSteps.MAX_REACHED))
        else TraceLoop(env, max, body, 0, core)
      case LoopUntil(timeout, max, body) =>
        if max < 0 || timeout < 0 then
          Emit(core.(outcome := Err(InvalidRuntime())), LoopUntilDelta(0, None, "invalid"))
        else TraceLoopUntil(env, timeout, max, body, 0, core)
      case Suspend(reason) =>
        var suspended := SuspendStep(InitialState(), reason);
        Emit(core.(outcome := suspended.outcome), suspended.delta)
      case Unsupported(kind) => Emit(core.(outcome := Err(InvalidRuntime())), InvalidNodeDelta(kind))
  }

  function TraceNodes(env: Env, nodes: seq<Node>, core: Core): Traced
    decreases nodes, 0
  {
    if nodes == [] || core.outcome.Err? then Traced(core, [])
    else
      var first := TraceNode(env, nodes[0], core);
      Chain(first, TraceNodes(env, nodes[1..], first.end))
  }

  /** One loop iteration: the body, then the transition entry. */
  function TraceIteration(env: Env, body: seq<Node>, delta: Delta, core: Core): Traced
    decreases body, 1
  {
    var ran := TraceNodes(env, body, core);
    Chain(ran, Emit(ran.end, delta))
  }

  function TraceLoop(env: Env, max: nat, body: seq<Node>, iteration: nat, core: Core): Traced
    requires iteration <= max
    decreases body, 2 + max - iteration
  {
    if iteration == max then Traced(core, [])
    else
      var once := TraceIteration(
        env, body, LoopDelta(iteration, PipelineSteps.Decision(iteration, max)), core);
      if once.end.outcome.Err? then once
      else Chain(once, TraceLoop(env, max, body, iteration + 1, once.end))
  }

  function TraceLoopUntil(env: Env, timeout: nat, max: nat, body: seq<Node>, iteration: nat, core: Core): Traced
    requires iteration <= max
    decreases body, 2 + max - iteration
  {
    if iteration == max then Emit(core, LoopDelta(max, PipelineSteps.MAX_REACHED))
    else
      var read := core.(tick := core.tick + 1);
      match env.clock(core.tick)
      case Threw(exn) =>
        var delta := LoopUntilDelta(iteration, None, "clock_failed");
        Emit(read.(outcome := Err(ClockException(exn, delta))), delta)
      case Returned(now) =>
        if now - env.startedAt >= timeout then
          Emit(read, LoopUntilDelta(iteration, Some(now), "timeout_reached"))
        else
          var once := TraceIteration(
            env, body, LoopUntilDelta(iteration, Some(now), PipelineSteps.Decision(iteration, max)), read);
          if once.end.outcome.Err? then once
          else Chain(once, TraceLoopUntil(env, timeout, max, body, iteration + 1, once.end))
  }

  /** Running two node lists one after the other is running their concatenation. */
  lemma {:induction false} NodesConcat(env: Env, a: seq<Node>, b: seq<Node>, core: Core)
    ensures TraceNodes(env, a + b, core)
         == Chain(TraceNodes(env, a, core), TraceNodes(env, b, TraceNodes(env, a, core).end))
  {
    if a == [] {
      assert a + b == b;
    } else if core.outcome.Ok? {
      assert (a + b)[0] == a[0] && (a + b)[1..] == a[1..] + b;
      var first := TraceNode(env, a[0], core);
      NodesConcat(env, a[1..], b, first.end);
      var more := TraceNodes(env, a[1..], first.end);
      ChainAssociates(first, more, TraceNodes(env, b, more.end));
    }
  }

  lemma ChainAssociates(t: Traced, u: Traced, v: Traced)
    ensures Chain(t, Chain(u, v)) == Chain(Chain(t, u), v)
  {
    assert t.emitted + (u.emitted + v.emitted) == t.emitted + u.emitted + v.emitted;
  }

  // ----- growing a log by payloads -----

  /** The log with one more payload, under its last id or under the root of the payload's own outcome. */
  function Attach(log: seq<Entry>, p: Payload): seq<Entry> {
    log + [Link(LastId(log, Hash(Absent, EMPTY_DELTA, p.ok, p.code)), p)]
  }

  function Grow(log: seq<Entry>, ps: seq<Payload>): (grown: seq<Entry>)
    ensures |grown| == |log| + |ps|
  {
    if ps == [] then log else Attach(Grow(log, ps[..|ps| - 1]), ps[|ps| - 1])
  }

  lemma {:induction false} GrowConcat(log: seq<Entry>, ps: seq<Payload>, qs: seq<Payload>)
    ensures Grow(log, ps + qs) == Grow(Grow(log, ps), qs)
  {
    if qs == [] {
      assert ps + qs == ps;
    } else {
      var front := qs[..|qs| - 1];
      assert (ps + qs)[..|ps + qs| - 1] == ps + front;
      GrowConcat(log, ps, front);
    }
  }

  /** Growing appends exactly the given payloads, in order, and nothing else. */
  lemma {:induction false} GrowAppends(log: seq<Entry>, ps: seq<Payload>)
    ensures log <= Grow(log, ps)
    ensures Payloads(Grow(log, ps)) == Payloads(log) + ps
    ensures SelfChained(log) ==> SelfChained(Grow(log, ps))
  {
    if ps != [] {
      var front := ps[..|ps| - 1];
      GrowAppends(log, front);
      assert ps == front + [ps[|ps| - 1]];
      AttachKeepsTheChain(Grow(log, front), ps[|ps| - 1]);
    }
  }

  lemma AttachKeepsTheChain(log: seq<Entry>, p: Payload)
    ensures Payloads(Attach(log, p)) == Payloads(log) + [p]
    ensures SelfChained(log) ==> SelfChained(Attach(log, p))
  {
    var e := Attach(log, p)[|log|];
    PayloadsConcat(log, [e]);
    if log == [] {
      ChainOfOne(e, e.parent);
      assert Attach(log, p) == [e];
    } else if SelfChained(log) {
      assert Attach(log, p)[0] == log[0];
      ChainExtends(log, e, log[0].parent);
    }
  }

  /** Attaching after a rebased log is rebasing after attaching. */
  lemma AttachIsRebase(log: seq<Entry>, alone: seq<Entry>, p: Payload)
    requires log != []
    ensures Attach(log + Rebase(alone, LastId(log, Absent)), p)
         == log + Rebase(Attach(alone, p), LastId(log, Absent))
  {
    var parent := LastId(log, Absent);
    var whole := Attach(alone, p);
    assert whole[..|whole| - 1] == alone;
    assert Rebase(whole, parent)
        == Rebase(alone, parent) + [Link(LastId(Rebase(alone, parent), parent), p)];
  }

  /** What is grown on a non-empty log is what is grown from nothing, rebased on its last id. */
  lemma {:induction false} GrowIsRebase(log: seq<Entry>, ps: seq<Payload>)
    requires log != []
    ensures Grow(log, ps) == log + Rebase(Grow([], ps), LastId(log, Absent))
  {
    if ps != [] {
      var front := ps[..|ps| - 1];
      GrowIsRebase(log, front);
      AttachIsRebase(log, Grow([], front), ps[|ps| - 1]);
    }
  }

  // ----- replaying the state -----

  /** The node that a payload reports as executed; loop transitions and invalid nodes report none. */
  function Visited(p: Payload): Option<string> {
    if p.delta.kind == Some("loop") || p.delta.name == "dsl.invalid-node" then None
    else if p.delta.kind == Some("suspend") then Some("suspend")
    else if p.delta.metadata.Some? && "dsl.node_name" in p.delta.metadata.value
            && p.delta.metadata.value["dsl.node_name"].Str?
    then Some(p.delta.metadata.value["dsl.node_name"].s)
    else None
  }

  function Visit(state: PState, p: Payload): PState {
    if Visited(p).Some? then state.Advance(Visited(p).value) else state
  }

  /** The pipeline state, recovered from what a run logged. */
  function Replay(state: PState, ps: seq<Payload>): PState {
    if ps == [] then state else Visit(Replay(state, ps[..|ps| - 1]), ps[|ps| - 1])
  }

  lemma {:induction false} ReplayConcat(state: PState, ps: seq<Payload>, qs: seq<Payload>)
    ensures Replay(state, ps + qs) == Replay(Replay(state, ps), qs)
  {
    if qs == [] {
      assert ps + qs == ps;
    } else {
      var front := qs[..|qs| - 1];
      assert (ps + qs)[..|ps + qs| - 1] == ps + front;
      ReplayConcat(state, ps, front);
    }
  }

  lemma NodeDeltaVisits(
    name: string, nodeType: string, nodeName: string, extra: Metadata, ok: bool, code: Option<string>)
    requires "dsl.node_name" !in extra && name != "dsl.invalid-node"
    ensures Visited(Payload(NodeDelta(name, "execute", nodeType, nodeName, extra), ok, code)) == Some(nodeName)
  {
  }

  lemma CapabilityDeltaVisits(name: string, args: map<string, string>, source: Metadata, ok: bool, code: Option<string>)
    ensures Visited(Payload(CapabilityDelta(name, args, source), ok, code)) == Some(name)
  {
    var rom := map key | key in source && key in ROM_METADATA_KEYS :: source[key];
    assert "dsl.node_name" !in ArgMetadata(args) by {
      forall key | key in args
        ensures ARG_PREFIX + key != "dsl.node_name"
      {
        assert (ARG_PREFIX + key)[4] == 'a';
      }
    }
    NodeDeltaVisits("dsl.capability.call", "call_capability", name, ArgMetadata(args) + rom, ok, code);
  }

  // ----- the interpreter computes the reference semantics -----

  /** A log one can append to: it is empty or its last id is not null. */
  predicate Grounded(log: seq<Entry>) {
    log == [] || LastId(log, Absent).Hash?
  }

  /** `current` after a traced run: its state replayed, its log grown, its id the last one. */
  function Land(current: Run, t: Traced): Run {
    if t.emitted == [] then current
    else
      var log := Grow(current.step.log, t.emitted);
      var last := log[|log| - 1];
      Run(ResultSteps.Step(
            Replay(current.step.state, t.emitted), t.end.outcome, last.id, last.delta, last.parent, log),
          t.end.tick)
  }

  /** A traced run that emits nothing has not moved. */
  ghost predicate Quiet(core: Core, t: Traced) {
    t.emitted == [] ==> t.end == core
  }

  lemma LandChain(current: Run, t: Traced, u: Traced)
    requires Grounded(current.step.log)
    requires Quiet(CoreOf(current), t) && Quiet(t.end, u)
    ensures Grounded(Land(current, t).step.log) && CoreOf(Land(current, t)) == t.end
    ensures Land(Land(current, t), u) == Land(current, Chain(t, u))
    ensures Quiet(CoreOf(current), Chain(t, u))
  {
    GrowConcat(current.step.log, t.emitted, u.emitted);
    ReplayConcat(current.step.state, t.emitted, u.emitted);
    if u.emitted == [] {
      assert t.emitted + u.emitted == t.emitted;
    }
    if t.emitted == [] {
      assert t.emitted + u.emitted == u.emitted;
    }
  }

  lemma AppendLands(current: Run, state: PState, end: Core, delta: Delta)
    requires Grounded(current.step.log)
    requires state == Visit(current.step.state, Emit(end, delta).emitted[0])
    ensures Run(Append(current.step, state, end.outcome, delta), end.tick) == Land(current, Emit(end, delta))
  {
    var log := current.step.log;
    var p := Emit(end, delta).emitted[0];
    SingleGrows(log, p);
    var hung := WithReplayLogPrefix(Fresh<PState, Value>(state, end.outcome), log);
    assert hung.log == log;
    assert Replay(current.step.state, [p]) == state by {
      assert [p][..0] == [];
    }
  }

  lemma SingleGrows(log: seq<Entry>, p: Payload)
    ensures Grow(log, [p]) == Attach(log, p)
  {
    assert [p][..0] == [];
  }

  lemma SuspendLands(env: Env, current: Run, reason: string)
    requires Grounded(current.step.log) && current.step.outcome.Ok?
    ensures ExecuteNode(env, Suspend(reason), current)
         == Land(current, TraceNode(env, Suspend(reason), CoreOf(current)))
  {
    var suspended := SuspendStep(current.step.state, reason);
    var p := Payload(suspended.delta, false, suspended.outcome.Code());
    assert suspended.log == [Link(RootId(suspended.outcome), p)];
    SingleGrows(current.step.log, p);
    assert Replay(current.step.state, [p]) == suspended.state by {
      assert [p][..0] == [];
    }
    if current.step.log != [] {
      var parent := LastId(current.step.log, Absent);
      assert Rebase(suspended.log, parent) == [Link(parent, p)] by {
        assert suspended.log[..0] == [];
      }
    }
  }

  /** A node that runs no other node: a leaf, or a loop without a single iteration. */
  predicate IsLeaf(node: Node) {
    match node
    case Pipeline(_) => false
    case Loop(max, _) => max <= 0
    case LoopUntil(timeout, max, _) => max < 0 || timeout < 0
    case _ => true
  }

  lemma CallLands(env: Env, name: string, args: map<string, string>, current: Run)
    requires Grounded(current.step.log) && current.step.outcome.Ok?
    ensures ExecuteCapability(env, name, args, current)
         == Land(current, TraceCapability(env, name, args, CoreOf(current)))
  {
    var (reply, tick) := env.invoke(name, current.step.outcome.value, args, current.tick);
    var outcome := CapabilityOutcome(name, reply);
    var delta := CapabilityDelta(name, args, DeltaSource(outcome));
    CapabilityDeltaVisits(name, args, DeltaSource(outcome), outcome.Ok?, outcome.Code());
    AppendLands(current, current.step.state.Advance(name), Core(outcome, tick), delta);
  }

  lemma LeafLands(env: Env, node: Node, current: Run)
    requires Grounded(current.step.log) && current.step.outcome.Ok? && IsLeaf(node)
    ensures ExecuteNode(env, node, current) == Land(current, TraceNode(env, node, CoreOf(current)))
    ensures TraceNode(env, node, CoreOf(current)).emitted != []
  {
    var core, state := CoreOf(current), current.step.state;
    var invalid := core.(outcome := Err(InvalidRuntime()));
    match node
    case Step(name) => AppendLands(current, state.Advance(name), core, StepDelta(name));
    case Call(name, args) => CallLands(env, name, args, current);
    case Loop(max, _) =>
      if max < 0 {
        AppendLands(current, state, invalid, LoopDelta(0, "invalid"));
      } else {
        AppendLands(current, state, core, LoopDelta(0, PipelineSteps.MAX_REACHED));
      }
    case LoopUntil(_, _, _) => AppendLands(current, state, invalid, LoopUntilDelta(0, None, "invalid"));
    case Suspend(reason) => SuspendLands(env, current, reason);
    case Unsupported(kind) => AppendLands(current, state, invalid, InvalidNodeDelta(kind));
  }

  /**
    The interpreter computes the reference semantics: from any log one can append to, a node ends with
    the traced outcome, its log is the given one grown by the emitted payloads, its state is their
    replay, and its id is the last one.
  */
  lemma {:induction false} NodeLands(env: Env, node: Node, current: Run)
    requires Grounded(current.step.log)
    ensures ExecuteNode(env, node, current) == Land(current, TraceNode(env, node, CoreOf(current)))
    ensures Quiet(CoreOf(current), TraceNode(env, node, CoreOf(current)))
    decreases node, 0
  {
    if current.step.outcome.Ok? {
      if IsLeaf(node) {
        LeafLands(env, node, current);
      } else {
        match node
        case Pipeline(steps) => NodesLand(env, steps, current);
        case Loop(max, body) => LoopLands(env, max, body, 0, current);
        case LoopUntil(timeout, max, body) => LoopUntilLands(env, timeout, max, body, 0, current);
      }
    }
  }

  lemma {:induction false} NodesLand(env: Env, nodes: seq<Node>, current: Run)
    requires Grounded(current.step.log)
    ensures ExecuteNodes(env, nodes, current) == Land(current, TraceNodes(env, nodes, CoreOf(current)))
    ensures Quiet(CoreOf(current), TraceNodes(env, nodes, CoreOf(current)))
    decreases nodes, 0
  {
    if nodes != [] && current.step.outcome.Ok? {
      NodeLands(env, nodes[0], current);
      var t := TraceNode(env, nodes[0], CoreOf(current));
      var next := ExecuteNode(env, nodes[0], current);
      LandChain(current, t, Traced(t.end, []));
      NodesLand(env, nodes[1..], next);
      LandChain(current, t, TraceNodes(env, nodes[1..], t.end));
    }
  }

  lemma {:induction false} IterationLands(env: Env, body: seq<Node>, delta: Delta, current: Run)
    requires Grounded(current.step.log) && delta.kind == Some("loop")
    ensures
      var ran := ExecuteNodes(env, body, current);
      ran.(step := Append(ran.step, ran.step.state, ran.step.outcome, delta))
      == Land(current, TraceIteration(env, body, delta, CoreOf(current)))
    ensures TraceIteration(env, body, delta, CoreOf(current)).emitted != []
    decreases body, 1
  {
    NodesLand(env, body, current);
    var t := TraceNodes(env, body, CoreOf(current));
    LandChain(current, t, Emit(t.end, delta));
    var ran := ExecuteNodes(env, body, current);
    AppendLands(ran, ran.step.state, t.end, delta);
  }

  lemma {:induction false} LoopLands(env: Env, max: nat, body: seq<Node>, iteration: nat, current: Run)
    requires iteration <= max && current.step.outcome.Ok?
    requires Grounded(current.step.log)
    ensures ExecuteLoop(env, max, body, iteration, current)
         == Land(current, TraceLoop(env, max, body, iteration, CoreOf(current)))
    ensures Quiet(CoreOf(current), TraceLoop(env, max, body, iteration, CoreOf(current)))
    decreases body, 2 + max - iteration
  {
    if iteration < max {
      var delta := LoopDelta(iteration, PipelineSteps.Decision(iteration, max));
      IterationLands(env, body, delta, current);
      var once := TraceIteration(env, body, delta, CoreOf(current));
      LandChain(current, once, Traced(once.end, []));
      if once.end.outcome.Ok? {
        LoopLands(env, max, body, iteration + 1, Land(current, once));
        LandChain(current, once, TraceLoop(env, max, body, iteration + 1, once.end));
      }
    }
  }

  lemma {:induction false} LoopUntilLands(
    env: Env, timeout: nat, max: nat, body: seq<Node>, iteration: nat, current: Run)
    requires iteration <= max && current.step.outcome.Ok?
    requires Grounded(current.step.log)
    ensures ExecuteLoopUntil(env, timeout, max, body, iteration, current)
         == Land(current, TraceLoopUntil(env, timeout, max, body, iteration, CoreOf(current)))
    ensures TraceLoopUntil(env, timeout, max, body, iteration, CoreOf(current)).emitted != []
    decreases body, 2 + max - iteration, 1
  {
    if iteration < max && env.clock(current.tick).Returned?
       && env.clock(current.tick).result - env.startedAt < timeout
    {
      TimedIterationLands(env, timeout, max, body, iteration, current, env.clock(current.tick).result);
    } else {
      LoopUntilEndLands(env, timeout, max, body, iteration, current);
    }
  }

  /** A timed loop that starts no further iteration: all were run, the clock throws, or time is up. */
  lemma LoopUntilEndLands(
    env: Env, timeout: nat, max: nat, body: seq<Node>, iteration: nat, current: Run)
    requires iteration <= max && current.step.outcome.Ok?
    requires Grounded(current.step.log)
    requires iteration < max && env.clock(current.tick).Returned? ==>
      env.clock(current.tick).result - env.startedAt >= timeout
    ensures ExecuteLoopUntil(env, timeout, max, body, iteration, current)
         == Land(current, TraceLoopUntil(env, timeout, max, body, iteration, CoreOf(current)))
    ensures TraceLoopUntil(env, timeout, max, body, iteration, CoreOf(current)).emitted != []
  {
    var core := CoreOf(current);
    if iteration == max {
      AppendLands(current, current.step.state, core, LoopDelta(max, PipelineSteps.MAX_REACHED));
    } else {
      var read := core.(tick := core.tick + 1);
      match env.clock(core.tick)
      case Threw(exn) =>
        var delta := LoopUntilDelta(iteration, None, "clock_failed");
        AppendLands(current, current.step.state, read.(outcome := Err(ClockException(exn, delta))), delta);
      case Returned(now) =>
        AppendLands(current, current.step.state, read, LoopUntilDelta(iteration, Some(now), "timeout_reached"));
    }
  }

  lemma {:induction false} TimedIterationLands(
    env: Env, timeout: nat, max: nat, body: seq<Node>, iteration: nat, current: Run, now: int)
    requires iteration < max && current.step.outcome.Ok?
    requires Grounded(current.step.log)
    requires env.clock(current.tick) == Returned(now) && now - env.startedAt < timeout
    ensures ExecuteLoopUntil(env, timeout, max, body, iteration, current)
         == Land(current, TraceLoopUntil(env, timeout, max, body, iteration, CoreOf(current)))
    ensures TraceLoopUntil(env, timeout, max, body, iteration, CoreOf(current)).emitted != []
    decreases body, 2 + max - iteration, 0
  {
    var read := current.(tick := current.tick + 1);
    var delta := LoopUntilDelta(iteration, Some(now), PipelineSteps.Decision(iteration, max));
    IterationLands(env, body, delta, read);
    var once := TraceIteration(env, body, delta, CoreOf(read));
    var next := Land(current, once);
    assert Land(read, once) == next;
    var t := TraceLoopUntil(env, timeout, max, body, iteration, CoreOf(current));
    assert t == if once.end.outcome.Err? then once
                else Chain(once, TraceLoopUntil(env, timeout, max, body, iteration + 1, once.end));
    assert ExecuteLoopUntil(env, timeout, max, body, iteration, current)
        == if next.step.outcome.Err? then next
           else ExecuteLoopUntil(env, timeout, max, body, iteration + 1, next);
    LandChain(current, once, Traced(once.end, []));
    if once.end.outcome.Ok? {
      LoopUntilLands(env, timeout, max, body, iteration + 1, Land(current, once));
      LandChain(current, once, TraceLoopUntil(env, timeout, max, body, iteration + 1, once.end));
    }
  }
}
