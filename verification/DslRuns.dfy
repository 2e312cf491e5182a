/** The results about whole executions: append-only hash chains, trace shape, bounds, conservation. */
module DslRuns {
  import opened Common
  import opened ReplayLog
  import opened ResultSteps
  import PipelineSteps
  import opened Dsl
  import opened DslExecution
  import opened DslTrace
  import opened DslAccounting

  // ----- every node, from any log -----

  /**
    Every node is append-only: the log it was given is a prefix of the one it leaves. It keeps a strict
    chain strict, and a step that agrees with its last entry in agreement.
  */
  lemma NodeAppends(env: Env, node: Node, current: Run)
    requires Grounded(current.step.log)
    ensures
      var next := ExecuteNode(env, node, current);
      && current.step.log <= next.step.log
      && (SelfChained(current.step.log) ==> SelfChained(next.step.log))
      && (Coherent(current.step) ==> Coherent(next.step))
  {
    var t := TraceNode(env, node, CoreOf(current));
    NodeLands(env, node, current);
    GrowAppends(current.step.log, t.emitted);
    if t.emitted != [] {
      NodeAccount(env, node, CoreOf(current));
      var next := ExecuteNode(env, node, current).step;
      var n := |current.step.log| + |t.emitted| - 1;
      assert PayloadOf(next.log[n]) == Payloads(next.log)[n] == t.emitted[|t.emitted| - 1];
    }
  }

  /**
    Running commutes with rebasing: on a success that has logged something, a node list does what it does
    from a fresh step with the same state and value, and logs the fresh log rebased on the last id.
  */
  lemma RunningCommutesWithRebasing(env: Env, nodes: seq<Node>, current: Run)
    requires current.step.log != [] && Grounded(current.step.log)
    ensures
      var alone := ExecuteNodes(
        env, nodes, current.(step := Fresh(current.step.state, current.step.outcome)));
      var next := ExecuteNodes(env, nodes, current);
      && next.step.state == alone.step.state
      && next.step.outcome == alone.step.outcome
      && next.tick == alone.tick
      && next.step.log
         == current.step.log + Rebase(alone.step.log, LastId(current.step.log, Absent))
  {
    var core := CoreOf(current);
    NodesLand(env, nodes, current);
    NodesLand(env, nodes, current.(step := Fresh(current.step.state, current.step.outcome)));
    GrowIsRebase(current.step.log, TraceNodes(env, nodes, core).emitted);
  }

  // ----- whole executions -----

  /** The start of an execution, once its input was accepted. */
  function Start(input: Value, tick: nat): Core {
    Core(Ok(input), tick)
  }

  lemma ExecuteLands(env: Env, root: Node, input: Value, tick: nat)
    requires input.Valid()
    ensures
      var r := Execute(env, root, input, tick);
      var t := TraceNode(env, root, Start(input, tick));
      && r == Land(Run(Fresh(InitialState(), Ok(input)), tick), t)
      && CoreOf(r) == t.end
      && r.step.log == Grow([], t.emitted)
      && Payloads(r.step.log) == t.emitted
      && r.step.state == Replay(InitialState(), t.emitted)
  {
    var start := Run(Fresh(InitialState(), Ok(input)), tick);
    NodeLands(env, root, start);
    GrowAppends([], TraceNode(env, root, Start(input, tick)).emitted);
  }

  /** What is grown from nothing hangs from the root of its first payload. */
  lemma GrowRoot(ps: seq<Payload>)
    requires ps != []
    ensures Grow([], ps)[0] == Link(Hash(Absent, EMPTY_DELTA, ps[0].ok, ps[0].code), ps[0])
  {
    assert ps == [ps[0]] + ps[1..];
    GrowConcat([], [ps[0]], ps[1..]);
    SingleGrows([], ps[0]);
    GrowAppends(Attach([], ps[0]), ps[1..]);
  }

  /**
    Every trace is a strict hash chain that ends in the result's id. Its first entry hangs from the id of
    a fresh step with that entry's own flag and code.
  */
  lemma ExecuteChains(env: Env, root: Node, input: Value, tick: nat)
    ensures
      var step := Execute(env, root, input, tick).step;
      && Coherent(step)
      && (step.log != [] ==>
            Chained(step.log, Hash(Absent, EMPTY_DELTA, step.log[0].ok, step.log[0].code)))
  {
    var step := Execute(env, root, input, tick).step;
    if input.Valid() {
      var ps := TraceNode(env, root, Start(input, tick)).emitted;
      ExecuteLands(env, root, input, tick);
      NodeAppends(env, root, Run(Fresh(InitialState(), Ok(input)), tick));
      if ps != [] {
        GrowRoot(ps);
      }
    } else {
      ChainOfOne(step.log[0], step.log[0].parent);
    }
  }

  /**
    The state of a run is the replay of its log, and so its node count is the number of logged nodes.
  */
  lemma StateIsReplay(env: Env, root: Node, input: Value, tick: nat)
    requires input.Valid()
    ensures
      var step := Execute(env, root, input, tick).step;
      && step.state == Replay(InitialState(), Payloads(step.log))
      && step.state.executed == VisitCount(Payloads(step.log))
  {
    ExecuteLands(env, root, input, tick);
    ReplayCounts(InitialState(), Payloads(Execute(env, root, input, tick).step.log));
  }

  function VisitCount(ps: seq<Payload>): nat {
    if ps == [] then 0
    else VisitCount(ps[..|ps| - 1]) + if Visited(ps[|ps| - 1]).Some? then 1 else 0
  }

  lemma {:induction false} ReplayCounts(state: PState, ps: seq<Payload>)
    ensures Replay(state, ps).executed == state.executed + VisitCount(ps)
  {
    if ps != [] {
      ReplayCounts(state, ps[..|ps| - 1]);
    }
  }

  /**
    The shape of a trace. A run fails exactly when some entry is a failure. Then all entries before the
    first failure are successes, all from it on are failures with the final error's code, and it is
    followed by one loop transition for each loop enclosing the failing node, and nothing else.
  */
  lemma ExecuteShape(env: Env, root: Node, input: Value, tick: nat)
    requires input.Valid()
    ensures
      var step := Execute(env, root, input, tick).step;
      var fails := Fails(env, root, Start(input, tick));
      && (step.outcome.Ok? <==> forall i | 0 <= i < |step.log| :: step.log[i].ok)
      && fails <= |step.log|
      && (forall i | 0 <= i < |step.log| - fails :: step.log[i].ok && step.log[i].code == None)
      && (forall i | |step.log| - fails <= i < |step.log| ::
            !step.log[i].ok && step.log[i].code == step.outcome.Code())
      && (forall i | |step.log| - fails < i < |step.log| :: step.log[i].delta.kind == Some("loop"))
      && (step.outcome.Err? ==>
            var path := FailPath(env, root, Start(input, tick));
            && fails == 1 + LoopsAbove(path)
            && path != [] && path[0] == root && IsBranch(path)
            && Reports(Tip(path), PayloadOf(step.log[|step.log| - fails])))
  {
    LogIsTrace(env, root, input, tick);
    NodeAccount(env, root, Start(input, tick));
  }

  lemma LogIsTrace(env: Env, root: Node, input: Value, tick: nat)
    requires input.Valid()
    ensures
      var step, t := Execute(env, root, input, tick).step, TraceNode(env, root, Start(input, tick));
      && step.outcome == t.end.outcome
      && |step.log| == |t.emitted|
      && forall i | 0 <= i < |step.log| :: PayloadOf(step.log[i]) == t.emitted[i]
  {
    ExecuteLands(env, root, input, tick);
    var log := Execute(env, root, input, tick).step.log;
    forall i | 0 <= i < |log|
      ensures PayloadOf(log[i]) == TraceNode(env, root, Start(input, tick)).emitted[i]
    {
      assert PayloadOf(log[i]) == Payloads(log)[i];
    }
  }

  /** The number of logged entries is bounded by the program, and fixed by it for an untimed success. */
  lemma ExecuteCost(env: Env, root: Node, input: Value, tick: nat)
    requires input.Valid()
    ensures
      var step := Execute(env, root, input, tick).step;
      && |step.log| <= Cost(root)
      && (step.outcome.Ok? && Untimed(root) ==> |step.log| == Cost(root))
  {
    ExecuteLands(env, root, input, tick);
    NodeAccount(env, root, Start(input, tick));
  }

  /** A run from a valid input ends in a valid value or in an error. */
  lemma ExecuteKeepsValuesValid(env: Env, root: Node, input: Value, tick: nat)
    ensures
      var outcome := Execute(env, root, input, tick).step.outcome;
      outcome.Ok? ==> input.Valid() && outcome.value.Valid()
  {
    if input.Valid() {
      ExecuteLands(env, root, input, tick);
      NodeAccount(env, root, Start(input, tick));
    }
  }

  // ----- accepted documents -----

  /** An entry that only a document the compiler rejects can cause. */
  predicate IsDefect(p: Payload) {
    || p.delta.name == "dsl.invalid-node"
    || (p.delta.metadata.Some?
        && "loop_decision" in p.delta.metadata.value
        && p.delta.metadata.value["loop_decision"] == Str("invalid")
        && IsLoopEntry(p))
  }

  /** No defects, and every entry is either a loop transition or the record of an executed node. */
  ghost predicate Sound(ps: seq<Payload>) {
    forall p | p in ps :: !IsDefect(p) && (Visited(p).Some? <==> !IsLoopEntry(p))
  }

  lemma {:induction false} NodeSound(contains: Contains, env: Env, node: Node, core: Core)
    requires Valid(contains, node)
    ensures Sound(TraceNode(env, node, core).emitted)
    decreases node, 0
  {
    ValidUnfolds(contains, node);
    if core.outcome.Ok? {
      match node
      case Pipeline(steps) => NodesSound(contains, env, steps, core);
      case Call(name, args) =>
        var (reply, tick) := env.invoke(name, core.outcome.value, args, core.tick);
        var outcome := CapabilityOutcome(name, reply);
        CapabilityDeltaVisits(name, args, DeltaSource(outcome), outcome.Ok?, outcome.Code());
      case Loop(max, body) =>
        if max > 0 {
          LoopSound(contains, env, max, body, 0, core);
        }
      case LoopUntil(timeout, max, body) => LoopUntilSound(contains, env, timeout, max, body, 0, core);
      case _ =>
    }
  }

  lemma {:induction false} NodesSound(contains: Contains, env: Env, nodes: seq<Node>, core: Core)
    requires forall n | n in nodes :: Valid(contains, n)
    ensures Sound(TraceNodes(env, nodes, core).emitted)
    decreases nodes, 0
  {
    if nodes != [] && core.outcome.Ok? {
      NodeSound(contains, env, nodes[0], core);
      NodesSound(contains, env, nodes[1..], TraceNode(env, nodes[0], core).end);
    }
  }

  lemma {:induction false} LoopSound(
    contains: Contains, env: Env, max: nat, body: seq<Node>, iteration: nat, core: Core)
    requires iteration <= max
    requires forall n | n in body :: Valid(contains, n)
    ensures Sound(TraceLoop(env, max, body, iteration, core).emitted)
    decreases body, 2 + max - iteration
  {
    if iteration < max {
      var delta := LoopDelta(iteration, PipelineSteps.Decision(iteration, max));
      NodesSound(contains, env, body, core);
      var once := TraceIteration(env, body, delta, core);
      if once.end.outcome.Ok? {
        LoopSound(contains, env, max, body, iteration + 1, once.end);
      }
    }
  }

  lemma {:induction false} LoopUntilSound(
    contains: Contains, env: Env, timeout: nat, max: nat, body: seq<Node>, iteration: nat, core: Core)
    requires iteration <= max
    requires forall n | n in body :: Valid(contains, n)
    ensures Sound(TraceLoopUntil(env, timeout, max, body, iteration, core).emitted)
    decreases body, 2 + max - iteration
  {
    if iteration < max && env.clock(core.tick).Returned? {
      var now := env.clock(core.tick).result;
      var read := core.(tick := core.tick + 1);
      if now - env.startedAt < timeout {
        var delta := LoopUntilDelta(iteration, Some(now), PipelineSteps.Decision(iteration, max));
        NodesSound(contains, env, body, read);
        MarkSound(TraceNodes(env, body, read), delta);
        var once := TraceIteration(env, body, delta, read);
        if once.end.outcome.Ok? {
          LoopUntilSound(contains, env, timeout, max, body, iteration + 1, once.end);
          ChainSound(once, TraceLoopUntil(env, timeout, max, body, iteration + 1, once.end));
        }
      }
    }
  }

  /** A transition entry of a loop with valid bounds is no defect. */
  lemma MarkSound(t: Traced, delta: Delta)
    requires Sound(t.emitted) && delta.kind == Some("loop") && delta.name != "dsl.invalid-node"
    requires delta.metadata.Some? && "loop_decision" in delta.metadata.value
    requires delta.metadata.value["loop_decision"] != Str("invalid")
    ensures Sound(Chain(t, Emit(t.end, delta)).emitted)
  {
  }

  lemma ChainSound(t: Traced, u: Traced)
    requires Sound(t.emitted) && Sound(u.emitted)
    ensures Sound(Chain(t, u).emitted)
  {
  }

  function NodeEntries(ps: seq<Payload>): nat {
    if ps == [] then 0
    else NodeEntries(ps[..|ps| - 1]) + if IsLoopEntry(ps[|ps| - 1]) then 0 else 1
  }

  lemma {:induction false} SoundCounts(ps: seq<Payload>)
    requires Sound(ps)
    ensures VisitCount(ps) == NodeEntries(ps)
  {
    if ps != [] {
      SoundCounts(ps[..|ps| - 1]);
    }
  }

  /**
    Compilation is sound: a run of an accepted document, on any input and in any world, never logs an
    unsupported node or invalid loop bounds, and its node count is the number of its non-loop entries.
  */
  lemma CompiledRunsAreSound(contains: Contains, env: Env, root: Node, input: Value, tick: nat)
    requires Compile(contains, root).Ok? && input.Valid()
    ensures
      var step := Execute(env, root, input, tick).step;
      && Sound(Payloads(step.log))
      && step.state.executed == NodeEntries(Payloads(step.log))
  {
    CompileAccepts(contains, root);
    ExecuteLands(env, root, input, tick);
    NodeSound(contains, env, root, Start(input, tick));
    StateIsReplay(env, root, input, tick);
    SoundCounts(Payloads(Execute(env, root, input, tick).step.log));
  }

  // ----- how loops end -----

  /** The entry of iteration `i` of a counted loop with `max` iterations. */
  ghost predicate IsStamp(delta: Delta, i: int, max: int) {
    delta.metadata == Some(map[
      "delta.kind" := Str("loop"),
      "loop_iteration" := Num(i),
      "loop_decision" := Str(if i == max - 1 then "max_iterations_reached" else "continue")])
  }

  /** The entry of some iteration, of the last one if the loop succeeded. */
  ghost predicate EndsStamped(delta: Delta, ok: bool, max: int) {
    exists i | 0 <= i < max :: IsStamp(delta, i, max) && (ok ==> i == max - 1)
  }

  lemma {:induction false} LoopStamp(env: Env, max: nat, body: seq<Node>, iteration: nat, core: Core)
    requires iteration < max && core.outcome.Ok?
    ensures
      var t := TraceLoop(env, max, body, iteration, core);
      t.emitted != [] && EndsStamped(t.emitted[|t.emitted| - 1].delta, t.end.outcome.Ok?, max)
    decreases max - iteration
  {
    var delta := LoopDelta(iteration, PipelineSteps.Decision(iteration, max));
    assert IsStamp(delta, iteration, max);
    var once := TraceIteration(env, body, delta, core);
    assert once.emitted[|once.emitted| - 1].delta == delta;
    if once.end.outcome.Ok? {
      var rest := TraceLoop(env, max, body, iteration + 1, once.end);
      assert TraceLoop(env, max, body, iteration, core) == Chain(once, rest);
      if iteration + 1 < max {
        LoopStamp(env, max, body, iteration + 1, once.end);
      } else {
        assert Chain(once, rest).emitted == once.emitted;
      }
    } else {
      assert EndsStamped(delta, false, max);
    }
  }

  lemma LandDelta(current: Run, t: Traced)
    requires t.emitted != []
    ensures Land(current, t).step.delta == t.emitted[|t.emitted| - 1].delta
    ensures Land(current, t).step.outcome == t.end.outcome && Land(current, t).tick == t.end.tick
  {
  }

  lemma LoopLandsOnLast(env: Env, max: nat, body: seq<Node>, current: Run)
    requires max > 0 && current.step.outcome.Ok? && Grounded(current.step.log)
    requires TraceLoop(env, max, body, 0, CoreOf(current)).emitted != []
    ensures
      var r, t := ExecuteNode(env, Loop(max, body), current).step, TraceLoop(env, max, body, 0, CoreOf(current));
      r.delta == t.emitted[|t.emitted| - 1].delta && r.outcome == t.end.outcome
  {
    LoopLands(env, max, body, 0, current);
    LandDelta(current, TraceLoop(env, max, body, 0, CoreOf(current)));
    assert ExecuteNode(env, Loop(max, body), current) == ExecuteLoop(env, max, body, 0, current);
  }

  /** A counted loop that succeeds ends with the entry of its last iteration; one that fails, of the failing one. */
  lemma LoopEnds(env: Env, max: nat, body: seq<Node>, current: Run)
    requires max > 0 && current.step.outcome.Ok? && Grounded(current.step.log)
    ensures
      var r := ExecuteNode(env, Loop(max, body), current).step;
      EndsStamped(r.delta, r.outcome.Ok?, max)
  {
    LoopStamp(env, max, body, 0, CoreOf(current));
    LoopLandsOnLast(env, max, body, current);
  }

  /**
    The two ways a timed loop succeeds: all iterations were run, or the last clock reading used, which the
    entry bears as its timestamp, is past the deadline.
  */
  ghost predicate IsTimedEnd(delta: Delta, env: Env, timeout: int, max: int, tick: nat) {
    || delta == LoopDelta(max, "max_iterations_reached")
    || (tick > 0
        && env.clock(tick - 1).Returned?
        && var now := env.clock(tick - 1).result;
           now - env.startedAt >= timeout
           && exists i | 0 <= i < max :: delta == LoopUntilDelta(i, Some(now), "timeout_reached"))
  }

  lemma {:induction false} TimedStamp(
    env: Env, timeout: nat, max: nat, body: seq<Node>, iteration: nat, core: Core)
    requires iteration <= max && core.outcome.Ok?
    ensures
      var t := TraceLoopUntil(env, timeout, max, body, iteration, core);
      t.end.outcome.Ok? ==>
        t.emitted != [] && IsTimedEnd(t.emitted[|t.emitted| - 1].delta, env, timeout, max, t.end.tick)
    decreases max - iteration
  {
    if iteration < max && env.clock(core.tick).Returned? {
      var now := env.clock(core.tick).result;
      if now - env.startedAt < timeout {
        var delta := LoopUntilDelta(iteration, Some(now), PipelineSteps.Decision(iteration, max));
        var once := TraceIteration(env, body, delta, core.(tick := core.tick + 1));
        if once.end.outcome.Ok? {
          TimedStamp(env, timeout, max, body, iteration + 1, once.end);
        }
      }
    }
  }

  /**
    A timed loop succeeds only past its deadline or after all its iterations. In the second case its last
    entry is that of a counted loop: it carries no timestamp.
  */
  lemma TimedLoopEnds(env: Env, timeout: int, max: int, body: seq<Node>, current: Run)
    requires current.step.outcome.Ok? && Grounded(current.step.log)
    ensures
      var r := ExecuteNode(env, LoopUntil(timeout, max, body), current);
      r.step.outcome.Ok? ==> IsTimedEnd(r.step.delta, env, timeout, max, r.tick)
  {
    if timeout >= 0 && max >= 0 {
      TimedStamp(env, timeout, max, body, 0, CoreOf(current));
      LoopUntilLands(env, timeout, max, body, 0, current);
      LandDelta(current, TraceLoopUntil(env, timeout, max, body, 0, CoreOf(current)));
    }
  }
}
