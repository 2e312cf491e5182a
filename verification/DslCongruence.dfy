/** A run looks at a world only through the capabilities its program names, and through the clock. */
module DslCongruence {
  import opened Common
  import opened ResultSteps
  import PipelineSteps
  import opened Dsl
  import opened DslExecution
  import opened DslTrace

  /** The two registries answer alike for all the given names. */
  ghost predicate Alike(invoke: Invoke, invoke': Invoke, names: set<string>) {
    forall name, value, args, tick | name in names ::
      invoke(name, value, args, tick) == invoke'(name, value, args, tick)
  }

  /** The two worlds have the same clock and start, and answer alike for all the given names. */
  ghost predicate Agree(e: Env, e': Env, names: set<string>) {
    && e.clock == e'.clock
    && e.startedAt == e'.startedAt
    && Alike(e.invoke, e'.invoke, names)
  }

  lemma {:induction false} NodeCongruent(e: Env, e': Env, node: Node, core: Core)
    requires Agree(e, e', Calls(node))
    ensures TraceNode(e, node, core) == TraceNode(e', node, core)
    decreases node, 0
  {
    if core.outcome.Ok? {
      match node
      case Pipeline(steps) => NodesCongruent(e, e', steps, core);
      case Call(name, args) =>
        assert e.invoke(name, core.outcome.value, args, core.tick)
            == e'.invoke(name, core.outcome.value, args, core.tick);
      case Loop(max, body) =>
        if max > 0 {
          LoopCongruent(e, e', max, body, 0, core);
        }
      case LoopUntil(timeout, max, body) =>
        if max >= 0 && timeout >= 0 {
          LoopUntilCongruent(e, e', timeout, max, body, 0, core);
        }
      case _ =>
    }
  }

  lemma {:induction false} NodesCongruent(e: Env, e': Env, nodes: seq<Node>, core: Core)
    requires Agree(e, e', CallsOfAll(nodes))
    ensures TraceNodes(e, nodes, core) == TraceNodes(e', nodes, core)
    decreases nodes, 0
  {
    if nodes != [] && core.outcome.Ok? {
      NodeCongruent(e, e', nodes[0], core);
      NodesCongruent(e, e', nodes[1..], TraceNode(e, nodes[0], core).end);
    }
  }

  lemma {:induction false} LoopCongruent(
    e: Env, e': Env, max: nat, body: seq<Node>, iteration: nat, core: Core)
    requires iteration <= max && Agree(e, e', CallsOfAll(body))
    ensures TraceLoop(e, max, body, iteration, core) == TraceLoop(e', max, body, iteration, core)
    decreases body, 2 + max - iteration
  {
    if iteration < max {
      var delta := LoopDelta(iteration, PipelineSteps.Decision(iteration, max));
      NodesCongruent(e, e', body, core);
      var once := TraceIteration(e, body, delta, core);
      if once.end.outcome.Ok? {
        LoopCongruent(e, e', max, body, iteration + 1, once.end);
      }
    }
  }

  lemma {:induction false} LoopUntilCongruent(
    e: Env, e': Env, timeout: nat, max: nat, body: seq<Node>, iteration: nat, core: Core)
    requires iteration <= max && Agree(e, e', CallsOfAll(body))
    ensures TraceLoopUntil(e, timeout, max, body, iteration, core)
         == TraceLoopUntil(e', timeout, max, body, iteration, core)
    decreases body, 2 + max - iteration
  {
    if iteration < max && e.clock(core.tick).Returned? {
      var now := e.clock(core.tick).result;
      var read := core.(tick := core.tick + 1);
      if now - e.startedAt < timeout {
        var delta := LoopUntilDelta(iteration, Some(now), PipelineSteps.Decision(iteration, max));
        NodesCongruent(e, e', body, read);
        var once := TraceIteration(e, body, delta, read);
        if once.end.outcome.Ok? {
          LoopUntilCongruent(e, e', timeout, max, body, iteration + 1, once.end);
        }
      }
    }
  }

  /** Worlds that agree on the names a program calls give it the same run: result, log and clock use. */
  lemma RunsAreCongruent(e: Env, e': Env, root: Node, input: Value, tick: nat)
    requires Agree(e, e', Calls(root))
    ensures Execute(e, root, input, tick) == Execute(e', root, input, tick)
  {
    if input.Valid() {
      var start := Run(Fresh(InitialState(), Ok(input)), tick);
      NodeCongruent(e, e', root, CoreOf(start));
      NodeLands(e, root, start);
      NodeLands(e', root, start);
    }
  }
}
