/**
  What every trace of the DSL looks like: its flags, its length, the nodes it accounts for, and the
  values it carries.
*/
module DslAccounting {
  import opened Common
  import opened ReplayLog
  import opened ResultSteps
  import PipelineSteps
  import opened Dsl
  import opened DslExecution
  import opened DslTrace

  predicate IsLoopEntry(p: Payload) {
    p.delta.kind == Some("loop")
  }

  predicate IsLoopNode(node: Node) {
    node.Loop? || node.LoopUntil?
  }

  // ----- cost -----

  /** An upper bound on the entries one run of the node can log. */
  function Cost(node: Node): nat
    decreases node, 0
  {
    match node
    case Pipeline(steps) => CostOfAll(steps)
    case Loop(max, body) => if max <= 0 then 1 else max * (CostOfAll(body) + 1)
    case LoopUntil(timeout, max, body) =>
      if max < 0 || timeout < 0 then 1 else max * (CostOfAll(body) + 1) + 1
    case _ => 1
  }

  function CostOfAll(nodes: seq<Node>): nat
    decreases nodes, 0
  {
    if nodes == [] then 0 else Cost(nodes[0]) + CostOfAll(nodes[1..])
  }

  /** No timed loop at any depth. */
  predicate Untimed(node: Node)
    decreases node, 0
  {
    match node
    case Pipeline(steps) => AllUntimed(steps)
    case Loop(_, body) => AllUntimed(body)
    case LoopUntil(_, _, _) => false
    case _ => true
  }

  predicate AllUntimed(nodes: seq<Node>)
    decreases nodes, 0
  {
    nodes == [] || (Untimed(nodes[0]) && AllUntimed(nodes[1..]))
  }

  // ----- where a run fails -----

  /** The branch of the syntax tree from `node` down to the node at which its run fails. */
  function FailPath(env: Env, node: Node, core: Core): seq<Node>
    requires core.outcome.Ok? && TraceNode(env, node, core).end.outcome.Err?
    decreases node, 0
  {
    match node
    case Pipeline(steps) => [node] + FailPathInNodes(env, steps, core)
    case Loop(max, body) => if max < 0 then [node] else [node] + FailPathInLoop(env, max, body, 0, core)
    case LoopUntil(timeout, max, body) =>
      if max < 0 || timeout < 0 then [node] else [node] + FailPathInLoopUntil(env, timeout, max, body, 0, core)
    case _ => [node]
  }

  function FailPathInNodes(env: Env, nodes: seq<Node>, core: Core): seq<Node>
    requires core.outcome.Ok? && TraceNodes(env, nodes, core).end.outcome.Err?
    decreases nodes, 0
  {
    var first := TraceNode(env, nodes[0], core);
    if first.end.outcome.Err? then FailPath(env, nodes[0], core)
    else FailPathInNodes(env, nodes[1..], first.end)
  }

  function FailPathInLoop(env: Env, max: nat, body: seq<Node>, iteration: nat, core: Core): seq<Node>
    requires iteration <= max && core.outcome.Ok?
    requires TraceLoop(env, max, body, iteration, core).end.outcome.Err?
    decreases body, 2 + max - iteration
  {
    var delta := LoopDelta(iteration, PipelineSteps.Decision(iteration, max));
    var once := TraceIteration(env, body, delta, core);
    if once.end.outcome.Err? then FailPathInNodes(env, body, core)
    else FailPathInLoop(env, max, body, iteration + 1, once.end)
  }

  /** Empty when the clock fails: the failing node is then the timed loop itself. */
  function FailPathInLoopUntil(
    env: Env, timeout: nat, max: nat, body: seq<Node>, iteration: nat, core: Core): seq<Node>
    requires iteration <= max && core.outcome.Ok?
    requires TraceLoopUntil(env, timeout, max, body, iteration, core).end.outcome.Err?
    decreases body, 2 + max - iteration
  {
    match env.clock(core.tick)
    case Threw(_) => []
    case Returned(now) =>
      var read := core.(tick := core.tick + 1);
      var delta := LoopUntilDelta(iteration, Some(now), PipelineSteps.Decision(iteration, max));
      var once := TraceIteration(env, body, delta, read);
      if once.end.outcome.Err? then FailPathInNodes(env, body, read)
      else FailPathInLoopUntil(env, timeout, max, body, iteration + 1, once.end)
  }

  /** The loops on a branch that enclose its last node. */
  function LoopsAbove(path: seq<Node>): nat {
    if |path| <= 1 then 0
    else (if IsLoopNode(path[0]) then 1 else 0) + LoopsAbove(path[1..])
  }

  /** Each node of the branch is a child of the one before. */
  ghost predicate IsBranch(path: seq<Node>) {
    |path| > 1 ==> path[1] in Children(path[0]) && IsBranch(path[1..])
  }

  // ----- the account of a run -----

  /**
    The flags of a trace: successes first, then `fails` failures. Every failure carries the code of the
    final error, and all but the first of them are loop transitions.
  */
  ghost predicate Shape(t: Traced, fails: nat) {
    && fails <= |t.emitted|
    && (fails > 0 <==> t.end.outcome.Err?)
    && forall i | 0 <= i < |t.emitted| ::
         if i < |t.emitted| - fails then t.emitted[i].ok && t.emitted[i].code == None
         else
           && !t.emitted[i].ok
           && t.emitted[i].code == t.end.outcome.Code()
           && (i > |t.emitted| - fails ==> IsLoopEntry(t.emitted[i]))
  }

  /** The entry has the given name, and the given text under one of its metadata keys. */
  predicate Says(p: Payload, title: string, key: string, text: string) {
    && p.delta.name == title
    && p.delta.metadata.Some?
    && key in p.delta.metadata.value
    && p.delta.metadata.value[key] == Str(text)
  }

  /** The entry is the one that `node` itself logs when it fails; a step or a pipeline never does. */
  predicate Reports(node: Node, p: Payload) {
    match node
    case Call(name, _) => Says(p, "dsl.capability.call", "dsl.node_name", name)
    case Suspend(reason) =>
      Says(p, "pipeline.suspend", "suspend_reason", if IsBlank(reason) then "Pipeline suspended." else reason)
    case Unsupported(kind) => Says(p, "dsl.invalid-node", "dsl.node_name", kind)
    case Loop(max, _) => max < 0 && Says(p, "dsl.loop.iteration", "loop_decision", "invalid")
    case LoopUntil(timeout, max, _) =>
      var decision := if max < 0 || timeout < 0 then "invalid" else "clock_failed";
      Says(p, "dsl.loop_until.iteration", "loop_decision", decision)
    case _ => false
  }

  /** The first of the `fails` failures is the report of `node`. */
  ghost predicate Blames(t: Traced, fails: nat, node: Node) {
    0 < fails <= |t.emitted| && Reports(node, t.emitted[|t.emitted| - fails])
  }

  lemma ChainBlames(t: Traced, u: Traced, fails: nat, node: Node)
    requires Blames(u, fails, node)
    ensures Blames(Chain(t, u), fails, node)
  {
  }

  lemma MarkBlames(t: Traced, delta: Delta, fails: nat, node: Node)
    requires Blames(t, fails, node)
    ensures Blames(Chain(t, Emit(t.end, delta)), fails + 1, node)
  {
  }

  /** The node a branch ends at. */
  function Tip(path: seq<Node>): Node
    requires path != []
  {
    path[|path| - 1]
  }

  ghost predicate Sized(t: Traced, cost: nat, exact: bool) {
    && |t.emitted| <= cost
    && (exact && t.end.outcome.Ok? ==> |t.emitted| == cost)
  }

  ghost predicate ValidCore(core: Core) {
    core.outcome.Ok? ==> core.outcome.value.Valid()
  }

  lemma EmitShape(end: Core, delta: Delta)
    ensures Shape(Emit(end, delta), if end.outcome.Err? then 1 else 0)
  {
  }

  lemma ChainShape(t: Traced, u: Traced, fails: nat)
    requires t.end.outcome.Ok? && Shape(t, 0) && Shape(u, fails)
    ensures Shape(Chain(t, u), fails)
  {
    var all := Chain(t, u).emitted;
    forall i | 0 <= i < |all|
      ensures all[i] == if i < |t.emitted| then t.emitted[i] else u.emitted[i - |t.emitted|]
    {
    }
  }

  /** A transition entry after a failed body is one more failure. */
  lemma MarkShape(t: Traced, delta: Delta, fails: nat)
    requires Shape(t, fails) && delta.kind == Some("loop")
    ensures Shape(Chain(t, Emit(t.end, delta)), if fails == 0 then 0 else fails + 1)
  {
    var all := Chain(t, Emit(t.end, delta)).emitted;
    forall i | 0 <= i < |all|
      ensures all[i] == if i < |t.emitted| then t.emitted[i] else Emit(t.end, delta).emitted[0]
    {
    }
  }

  /** The number of failures a run logs: the failing node, and every loop around it. */
  function Fails(env: Env, node: Node, core: Core): nat
    requires core.outcome.Ok?
  {
    if TraceNode(env, node, core).end.outcome.Ok? then 0 else 1 + LoopsAbove(FailPath(env, node, core))
  }

  function FailsInNodes(env: Env, nodes: seq<Node>, core: Core): nat
    requires core.outcome.Ok?
  {
    if TraceNodes(env, nodes, core).end.outcome.Ok? then 0
    else 1 + LoopsAbove(FailPathInNodes(env, nodes, core))
  }

  ghost predicate NodeAccounted(env: Env, node: Node, core: Core)
    requires core.outcome.Ok?
  {
    var t := TraceNode(env, node, core);
    && Shape(t, Fails(env, node, core))
    && Sized(t, Cost(node), Untimed(node))
    && (ValidCore(core) ==> ValidCore(t.end))
    && (t.end.outcome.Err? ==>
          var path := FailPath(env, node, core);
          path != [] && path[0] == node && IsBranch(path) && Blames(t, Fails(env, node, core), Tip(path)))
  }

  /**
    Every run: the flags of its trace, its length, its values, and the branch it fails on, whose last node
    logged the first failure.
  */
  lemma {:induction false} NodeAccount(env: Env, node: Node, core: Core)
    requires core.outcome.Ok?
    ensures NodeAccounted(env, node, core)
    decreases node, 0
  {
    if IsLeaf(node) {
      LeafAccount(env, node, core);
    } else {
      match node
      case Pipeline(steps) =>
        NodesAccount(env, steps, core);
        PipelineAccount(env, steps, core);
      case Loop(max, body) =>
        LoopAccount(env, max, body, 0, core);
        WholeLoopAccount(env, max, body, core);
      case LoopUntil(timeout, max, body) =>
        LoopUntilAccount(env, timeout, max, body, 0, core);
        WholeLoopUntilAccount(env, timeout, max, body, core);
    }
  }

  lemma PipelineAccount(env: Env, steps: seq<Node>, core: Core)
    requires core.outcome.Ok? && NodesAccounted(env, steps, core)
    ensures NodeAccounted(env, Pipeline(steps), core)
  {
    if TraceNodes(env, steps, core).end.outcome.Err? {
      BranchDown(Pipeline(steps), FailPathInNodes(env, steps, core), steps);
      assert Fails(env, Pipeline(steps), core) == FailsInNodes(env, steps, core);
    }
  }

  lemma WholeLoopAccount(env: Env, max: nat, body: seq<Node>, core: Core)
    requires max > 0 && core.outcome.Ok? && LoopAccounted(env, max, body, 0, core)
    ensures NodeAccounted(env, Loop(max, body), core)
  {
    TimesIsProduct(max, CostOfAll(body) + 1);
    if TraceLoop(env, max, body, 0, core).end.outcome.Err? {
      LoopFails(env, max, body, core);
    }
  }

  lemma LoopFails(env: Env, max: nat, body: seq<Node>, core: Core)
    requires max > 0 && core.outcome.Ok? && TraceLoop(env, max, body, 0, core).end.outcome.Err?
    requires
      var path := FailPathInLoop(env, max, body, 0, core);
      path != [] && path[0] in body && IsBranch(path)
    ensures
      var node, path := Loop(max, body), FailPath(env, Loop(max, body), core);
      && path != [] && path[0] == node && IsBranch(path)
      && Tip(path) == Tip(FailPathInLoop(env, max, body, 0, core))
      && Fails(env, node, core) == FailsInLoop(env, max, body, 0, core)
  {
    BranchDown(Loop(max, body), FailPathInLoop(env, max, body, 0, core), body);
  }

  lemma WholeLoopUntilAccount(env: Env, timeout: nat, max: nat, body: seq<Node>, core: Core)
    requires core.outcome.Ok? && LoopUntilAccounted(env, timeout, max, body, 0, core)
    ensures NodeAccounted(env, LoopUntil(timeout, max, body), core)
  {
    TimesIsProduct(max, CostOfAll(body) + 1);
    if TraceLoopUntil(env, timeout, max, body, 0, core).end.outcome.Err? {
      LoopUntilFails(env, timeout, max, body, core);
    }
  }

  lemma LoopUntilFails(env: Env, timeout: nat, max: nat, body: seq<Node>, core: Core)
    requires core.outcome.Ok? && TraceLoopUntil(env, timeout, max, body, 0, core).end.outcome.Err?
    requires
      var path := FailPathInLoopUntil(env, timeout, max, body, 0, core);
      path == [] || (path[0] in body && IsBranch(path))
    ensures
      var node, below := LoopUntil(timeout, max, body), FailPathInLoopUntil(env, timeout, max, body, 0, core);
      var path := FailPath(env, node, core);
      && path != [] && path[0] == node && IsBranch(path)
      && Tip(path) == (if below == [] then node else Tip(below))
      && Fails(env, node, core) == FailsInLoopUntil(env, timeout, max, body, 0, core)
  {
    BranchDown(LoopUntil(timeout, max, body), FailPathInLoopUntil(env, timeout, max, body, 0, core), body);
  }

  lemma LeafAccount(env: Env, node: Node, core: Core)
    requires core.outcome.Ok? && IsLeaf(node)
    ensures NodeAccounted(env, node, core)
  {
    var t := TraceNode(env, node, core);
    EmitShape(t.end, t.emitted[0].delta);
    if t.end.outcome.Err? {
      LeafReports(env, node, core);
    }
  }

  lemma LeafReports(env: Env, node: Node, core: Core)
    requires core.outcome.Ok? && IsLeaf(node) && TraceNode(env, node, core).end.outcome.Err?
    ensures
      var t := TraceNode(env, node, core);
      |t.emitted| == 1 && Reports(node, t.emitted[0])
  {
    if node.Call? {
      var (reply, _) := env.invoke(node.name, core.outcome.value, node.args, core.tick);
      CallReports(node, CapabilityOutcome(node.name, reply));
    }
  }

  lemma CallReports(node: Node, outcome: Outcome<Value>)
    requires node.Call?
    ensures
      var delta := CapabilityDelta(node.name, node.args, DeltaSource(outcome));
      Reports(node, Payload(delta, outcome.Ok?, outcome.Code()))
  {
    CapabilityDeltaVisits(node.name, node.args, DeltaSource(outcome), outcome.Ok?, outcome.Code());
  }

  /** A branch through one of the children, or none at all, extended by their parent. */
  lemma BranchDown(node: Node, path: seq<Node>, children: seq<Node>)
    requires children == Children(node)
    requires path == [] || (path[0] in children && IsBranch(path))
    ensures IsBranch([node] + path)
    ensures Tip([node] + path) == if path == [] then node else Tip(path)
    ensures LoopsAbove([node] + path)
         == if path == [] then 0 else (if IsLoopNode(node) then 1 else 0) + LoopsAbove(path)
  {
    assert ([node] + path)[1..] == path;
  }

  ghost predicate NodesAccounted(env: Env, nodes: seq<Node>, core: Core)
    requires core.outcome.Ok?
  {
    var t := TraceNodes(env, nodes, core);
    && Shape(t, FailsInNodes(env, nodes, core))
    && Sized(t, CostOfAll(nodes), AllUntimed(nodes))
    && (ValidCore(core) ==> ValidCore(t.end))
    && (t.end.outcome.Err? ==>
          var path := FailPathInNodes(env, nodes, core);
          && path != [] && path[0] in nodes && IsBranch(path)
          && Blames(t, FailsInNodes(env, nodes, core), Tip(path)))
  }

  lemma {:induction false} NodesAccount(env: Env, nodes: seq<Node>, core: Core)
    requires core.outcome.Ok?
    ensures NodesAccounted(env, nodes, core)
    decreases nodes, 0
  {
    if nodes != [] {
      NodeAccount(env, nodes[0], core);
      var first := TraceNode(env, nodes[0], core);
      if first.end.outcome.Ok? {
        NodesAccount(env, nodes[1..], first.end);
        NodesAccountStep(env, nodes, core);
      } else {
        NodesAccountEnd(env, nodes, core);
      }
    }
  }

  lemma NodesAccountStep(env: Env, nodes: seq<Node>, core: Core)
    requires core.outcome.Ok? && nodes != [] && NodeAccounted(env, nodes[0], core)
    requires
      var first := TraceNode(env, nodes[0], core);
      first.end.outcome.Ok? && NodesAccounted(env, nodes[1..], first.end)
    ensures NodesAccounted(env, nodes, core)
  {
    NodesUnfold(env, nodes, core);
    var first := TraceNode(env, nodes[0], core);
    var rest, fails := TraceNodes(env, nodes[1..], first.end), FailsInNodes(env, nodes[1..], first.end);
    ChainShape(first, rest, fails);
    if rest.end.outcome.Err? {
      ChainBlames(first, rest, fails, Tip(FailPathInNodes(env, nodes[1..], first.end)));
    }
  }

  lemma NodesUnfold(env: Env, nodes: seq<Node>, core: Core)
    requires core.outcome.Ok? && nodes != [] && TraceNode(env, nodes[0], core).end.outcome.Ok?
    ensures
      var first := TraceNode(env, nodes[0], core);
      var rest := TraceNodes(env, nodes[1..], first.end);
      && TraceNodes(env, nodes, core) == Chain(first, rest)
      && FailsInNodes(env, nodes, core) == FailsInNodes(env, nodes[1..], first.end)
      && (rest.end.outcome.Err? ==>
            FailPathInNodes(env, nodes, core) == FailPathInNodes(env, nodes[1..], first.end))
  {
  }

  lemma NodesAccountEnd(env: Env, nodes: seq<Node>, core: Core)
    requires core.outcome.Ok? && nodes != [] && NodeAccounted(env, nodes[0], core)
    requires TraceNode(env, nodes[0], core).end.outcome.Err?
    ensures NodesAccounted(env, nodes, core)
  {
    var first := TraceNode(env, nodes[0], core);
    assert TraceNodes(env, nodes[1..], first.end) == Traced(first.end, []);
    assert TraceNodes(env, nodes, core) == first by {
      assert first.emitted + [] == first.emitted;
    }
    assert FailPathInNodes(env, nodes, core) == FailPath(env, nodes[0], core);
  }

  ghost predicate IterationAccounted(env: Env, body: seq<Node>, delta: Delta, core: Core)
    requires core.outcome.Ok?
  {
    var t := TraceIteration(env, body, delta, core);
    && Shape(t, var fails := FailsInNodes(env, body, core); if fails == 0 then 0 else fails + 1)
    && Sized(t, CostOfAll(body) + 1, AllUntimed(body))
    && (ValidCore(core) ==> ValidCore(t.end))
    && t.end == TraceNodes(env, body, core).end
    && (t.end.outcome.Err? ==>
          var path := FailPathInNodes(env, body, core);
          && path != [] && path[0] in body && IsBranch(path)
          && Blames(t, FailsInNodes(env, body, core) + 1, Tip(path)))
  }

  /** One iteration: the body's account and one transition entry. */
  lemma {:induction false} IterationAccount(env: Env, body: seq<Node>, delta: Delta, core: Core)
    requires core.outcome.Ok? && delta.kind == Some("loop")
    ensures IterationAccounted(env, body, delta, core)
    decreases body, 1
  {
    NodesAccount(env, body, core);
    var ran := TraceNodes(env, body, core);
    MarkShape(ran, delta, FailsInNodes(env, body, core));
    if ran.end.outcome.Err? {
      MarkBlames(ran, delta, FailsInNodes(env, body, core), Tip(FailPathInNodes(env, body, core)));
    }
  }

  /** `n * each`, by iteration. */
  function Times(n: nat, each: nat): nat {
    if n == 0 then 0 else each + Times(n - 1, each)
  }

  lemma {:induction false} TimesIsProduct(n: nat, each: nat)
    ensures Times(n, each) == n * each
  {
    if n > 0 {
      TimesIsProduct(n - 1, each);
    }
  }

  lemma ChainSize(t: Traced, u: Traced, first: nat, rest: nat, exact: bool)
    requires t.end.outcome.Ok? && Sized(t, first, exact) && Sized(u, rest, exact)
    ensures Sized(Chain(t, u), first + rest, exact)
  {
  }

  function FailsInLoop(env: Env, max: nat, body: seq<Node>, iteration: nat, core: Core): nat
    requires iteration <= max && core.outcome.Ok?
  {
    if TraceLoop(env, max, body, iteration, core).end.outcome.Ok? then 0
    else 2 + LoopsAbove(FailPathInLoop(env, max, body, iteration, core))
  }

  ghost predicate LoopAccounted(env: Env, max: nat, body: seq<Node>, iteration: nat, core: Core)
    requires iteration <= max && core.outcome.Ok?
  {
    var t := TraceLoop(env, max, body, iteration, core);
    && Shape(t, FailsInLoop(env, max, body, iteration, core))
    && Sized(t, Times(max - iteration, CostOfAll(body) + 1), AllUntimed(body))
    && (ValidCore(core) ==> ValidCore(t.end))
    && (t.end.outcome.Err? ==>
          var path := FailPathInLoop(env, max, body, iteration, core);
          && path != [] && path[0] in body && IsBranch(path)
          && Blames(t, FailsInLoop(env, max, body, iteration, core), Tip(path)))
  }

  lemma {:induction false} LoopAccount(env: Env, max: nat, body: seq<Node>, iteration: nat, core: Core)
    requires iteration <= max && core.outcome.Ok?
    ensures LoopAccounted(env, max, body, iteration, core)
    decreases body, 2 + max - iteration
  {
    if iteration < max {
      var delta := LoopDelta(iteration, PipelineSteps.Decision(iteration, max));
      IterationAccount(env, body, delta, core);
      var once := TraceIteration(env, body, delta, core);
      if once.end.outcome.Ok? {
        LoopAccount(env, max, body, iteration + 1, once.end);
        LoopAccountStep(env, max, body, iteration, core, once);
      } else {
        LoopAccountEnd(env, max, body, iteration, core);
      }
    }
  }

  lemma LoopAccountEnd(env: Env, max: nat, body: seq<Node>, iteration: nat, core: Core)
    requires iteration < max && core.outcome.Ok?
    requires
      var delta := LoopDelta(iteration, PipelineSteps.Decision(iteration, max));
      IterationAccounted(env, body, delta, core) && TraceIteration(env, body, delta, core).end.outcome.Err?
    ensures LoopAccounted(env, max, body, iteration, core)
  {
    TimesAtLeast(max - iteration, CostOfAll(body) + 1);
    var once := TraceIteration(env, body, LoopDelta(iteration, PipelineSteps.Decision(iteration, max)), core);
    assert TraceLoop(env, max, body, iteration, core) == once;
    assert FailPathInLoop(env, max, body, iteration, core) == FailPathInNodes(env, body, core);
  }

  lemma TimesAtLeast(n: nat, each: nat)
    requires n > 0
    ensures Times(n, each) >= each
  {
  }

  lemma LoopAccountStep(env: Env, max: nat, body: seq<Node>, iteration: nat, core: Core, once: Traced)
    requires iteration < max && core.outcome.Ok? && once.end.outcome.Ok?
    requires once == TraceIteration(env, body, LoopDelta(iteration, PipelineSteps.Decision(iteration, max)), core)
    requires Shape(once, 0) && Sized(once, CostOfAll(body) + 1, AllUntimed(body))
    requires ValidCore(core) ==> ValidCore(once.end)
    requires LoopAccounted(env, max, body, iteration + 1, once.end)
    ensures LoopAccounted(env, max, body, iteration, core)
  {
    LoopUnfolds(env, max, body, iteration, core, once);
    var each := CostOfAll(body) + 1;
    assert Times(max - iteration, each) == each + Times(max - iteration - 1, each);
    var rest := TraceLoop(env, max, body, iteration + 1, once.end);
    var fails := FailsInLoop(env, max, body, iteration + 1, once.end);
    ChainShape(once, rest, fails);
    if rest.end.outcome.Err? {
      ChainBlames(once, rest, fails, Tip(FailPathInLoop(env, max, body, iteration + 1, once.end)));
    }
    ChainSize(once, rest, each, Times(max - iteration - 1, each), AllUntimed(body));
  }

  lemma LoopUnfolds(env: Env, max: nat, body: seq<Node>, iteration: nat, core: Core, once: Traced)
    requires iteration < max && core.outcome.Ok? && once.end.outcome.Ok?
    requires once == TraceIteration(env, body, LoopDelta(iteration, PipelineSteps.Decision(iteration, max)), core)
    ensures
      var rest := TraceLoop(env, max, body, iteration + 1, once.end);
      && TraceLoop(env, max, body, iteration, core) == Chain(once, rest)
      && FailsInLoop(env, max, body, iteration, core) == FailsInLoop(env, max, body, iteration + 1, once.end)
      && (rest.end.outcome.Err? ==>
            FailPathInLoop(env, max, body, iteration, core) == FailPathInLoop(env, max, body, iteration + 1, once.end))
  {
  }

  /** The failures of a timed loop: one if its clock failed, else as for a counted loop. */
  function FailsInLoopUntil(
    env: Env, timeout: nat, max: nat, body: seq<Node>, iteration: nat, core: Core): nat
    requires iteration <= max && core.outcome.Ok?
  {
    if TraceLoopUntil(env, timeout, max, body, iteration, core).end.outcome.Ok? then 0
    else
      var path := FailPathInLoopUntil(env, timeout, max, body, iteration, core);
      if path == [] then 1 else 2 + LoopsAbove(path)
  }

  ghost predicate LoopUntilAccounted(
    env: Env, timeout: nat, max: nat, body: seq<Node>, iteration: nat, core: Core)
    requires iteration <= max && core.outcome.Ok?
  {
    var t := TraceLoopUntil(env, timeout, max, body, iteration, core);
    && Shape(t, FailsInLoopUntil(env, timeout, max, body, iteration, core))
    && Sized(t, Times(max - iteration, CostOfAll(body) + 1) + 1, false)
    && (ValidCore(core) ==> ValidCore(t.end))
    && (t.end.outcome.Err? ==>
          var path := FailPathInLoopUntil(env, timeout, max, body, iteration, core);
          && (path == [] || (path[0] in body && IsBranch(path)))
          && Blames(t, FailsInLoopUntil(env, timeout, max, body, iteration, core),
                    if path == [] then LoopUntil(timeout, max, body) else Tip(path)))
  }

  lemma {:induction false} LoopUntilAccount(
    env: Env, timeout: nat, max: nat, body: seq<Node>, iteration: nat, core: Core)
    requires iteration <= max
    requires core.outcome.Ok?
    ensures LoopUntilAccounted(env, timeout, max, body, iteration, core)
    decreases body, 2 + max - iteration, 1
  {
    if iteration < max && env.clock(core.tick).Returned?
       && env.clock(core.tick).result - env.startedAt < timeout
    {
      TimedIterationAccount(env, timeout, max, body, iteration, core, env.clock(core.tick).result);
    } else {
      var t := TraceLoopUntil(env, timeout, max, body, iteration, core);
      EmitShape(t.end, t.emitted[0].delta);
    }
  }

  lemma {:induction false} TimedIterationAccount(
    env: Env, timeout: nat, max: nat, body: seq<Node>, iteration: nat, core: Core, now: int)
    requires iteration < max
    requires core.outcome.Ok?
    requires env.clock(core.tick) == Returned(now) && now - env.startedAt < timeout
    ensures LoopUntilAccounted(env, timeout, max, body, iteration, core)
    decreases body, 2 + max - iteration, 0
  {
    var read := core.(tick := core.tick + 1);
    var delta := LoopUntilDelta(iteration, Some(now), PipelineSteps.Decision(iteration, max));
    IterationAccount(env, body, delta, read);
    var once := TraceIteration(env, body, delta, read);
    if once.end.outcome.Ok? {
      LoopUntilAccount(env, timeout, max, body, iteration + 1, once.end);
      TimedAccountStep(env, timeout, max, body, iteration, core, now, once);
    } else {
      TimedAccountEnd(env, timeout, max, body, iteration, core, now, delta);
    }
  }

  lemma TimedAccountEnd(
    env: Env, timeout: nat, max: nat, body: seq<Node>, iteration: nat, core: Core, now: int, delta: Delta)
    requires iteration < max && core.outcome.Ok?
    requires env.clock(core.tick) == Returned(now) && now - env.startedAt < timeout
    requires delta == LoopUntilDelta(iteration, Some(now), PipelineSteps.Decision(iteration, max))
    requires IterationAccounted(env, body, delta, core.(tick := core.tick + 1))
    requires TraceIteration(env, body, delta, core.(tick := core.tick + 1)).end.outcome.Err?
    ensures LoopUntilAccounted(env, timeout, max, body, iteration, core)
  {
    TimesAtLeast(max - iteration, CostOfAll(body) + 1);
    TimedEndTrace(env, timeout, max, body, iteration, core, now, delta);
    TimedEndPath(env, timeout, max, body, iteration, core, now, delta);
    var read := core.(tick := core.tick + 1);
    LoopUntilFailure(env, timeout, max, body, iteration, core, TraceIteration(env, body, delta, read),
                     FailPathInNodes(env, body, read), FailsInNodes(env, body, read) + 1);
  }

  lemma LoopUntilFailure(
    env: Env, timeout: nat, max: nat, body: seq<Node>, iteration: nat, core: Core,
    t: Traced, path: seq<Node>, fails: nat)
    requires iteration <= max && core.outcome.Ok? && t.end.outcome.Err?
    requires t == TraceLoopUntil(env, timeout, max, body, iteration, core)
    requires path == FailPathInLoopUntil(env, timeout, max, body, iteration, core)
    requires fails == FailsInLoopUntil(env, timeout, max, body, iteration, core)
    requires Shape(t, fails) && |t.emitted| <= Times(max - iteration, CostOfAll(body) + 1)
    requires path != [] && path[0] in body && IsBranch(path) && Blames(t, fails, Tip(path))
    ensures LoopUntilAccounted(env, timeout, max, body, iteration, core)
  {
  }

  lemma TimedEndTrace(
    env: Env, timeout: nat, max: nat, body: seq<Node>, iteration: nat, core: Core, now: int, delta: Delta)
    requires iteration < max && core.outcome.Ok?
    requires env.clock(core.tick) == Returned(now) && now - env.startedAt < timeout
    requires delta == LoopUntilDelta(iteration, Some(now), PipelineSteps.Decision(iteration, max))
    requires TraceIteration(env, body, delta, core.(tick := core.tick + 1)).end.outcome.Err?
    ensures TraceLoopUntil(env, timeout, max, body, iteration, core)
         == TraceIteration(env, body, delta, core.(tick := core.tick + 1))
  {
  }

  lemma TimedEndPath(
    env: Env, timeout: nat, max: nat, body: seq<Node>, iteration: nat, core: Core, now: int, delta: Delta)
    requires iteration < max && core.outcome.Ok?
    requires env.clock(core.tick) == Returned(now)
    requires TraceLoopUntil(env, timeout, max, body, iteration, core).end.outcome.Err?
    requires delta == LoopUntilDelta(iteration, Some(now), PipelineSteps.Decision(iteration, max))
    requires TraceIteration(env, body, delta, core.(tick := core.tick + 1)).end.outcome.Err?
    ensures
      var read := core.(tick := core.tick + 1);
      && FailPathInLoopUntil(env, timeout, max, body, iteration, core) == FailPathInNodes(env, body, read)
      && (FailPathInNodes(env, body, read) != [] ==>
            FailsInLoopUntil(env, timeout, max, body, iteration, core) == FailsInNodes(env, body, read) + 1)
  {
  }

  lemma TimedAccountStep(
    env: Env, timeout: nat, max: nat, body: seq<Node>, iteration: nat, core: Core, now: int, once: Traced)
    requires iteration < max && core.outcome.Ok? && once.end.outcome.Ok?
    requires env.clock(core.tick) == Returned(now) && now - env.startedAt < timeout
    requires once == TraceIteration(
      env, body, LoopUntilDelta(iteration, Some(now), PipelineSteps.Decision(iteration, max)),
      core.(tick := core.tick + 1))
    requires Shape(once, 0) && Sized(once, CostOfAll(body) + 1, AllUntimed(body))
    requires ValidCore(core) ==> ValidCore(once.end)
    requires LoopUntilAccounted(env, timeout, max, body, iteration + 1, once.end)
    ensures LoopUntilAccounted(env, timeout, max, body, iteration, core)
  {
    var each := CostOfAll(body) + 1;
    assert Times(max - iteration, each) == each + Times(max - iteration - 1, each);
    var rest := TraceLoopUntil(env, timeout, max, body, iteration + 1, once.end);
    var fails := FailsInLoopUntil(env, timeout, max, body, iteration + 1, once.end);
    ChainShape(once, rest, fails);
    if rest.end.outcome.Err? {
      var path := FailPathInLoopUntil(env, timeout, max, body, iteration + 1, once.end);
      ChainBlames(once, rest, fails, if path == [] then LoopUntil(timeout, max, body) else Tip(path));
    }
    ChainSize(once, rest, each, Times(max - iteration - 1, each) + 1, false);
  }
}
