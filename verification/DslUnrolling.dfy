/** Counted loops mean repetition: unrolling every one of them, at any depth, preserves a program's meaning. */
module DslUnrolling {
  import opened Common
  import opened ReplayLog
  import PipelineSteps
  import opened Dsl
  import opened DslExecution
  import opened DslTrace
  import opened DslAccounting
  import DslRuns

  function Repeat(nodes: seq<Node>, n: nat): seq<Node> {
    if n == 0 then [] else nodes + Repeat(nodes, n - 1)
  }

  /** The node without counted loops and nested pipelines; a timed loop keeps its own bounds. */
  function Unroll(node: Node): seq<Node>
    decreases node, 0
  {
    match node
    case Pipeline(steps) => UnrollAll(steps)
    case Loop(max, body) => if max < 0 then [node] else Repeat(UnrollAll(body), max)
    case LoopUntil(timeout, max, body) => [LoopUntil(timeout, max, UnrollAll(body))]
    case _ => [node]
  }

  function UnrollAll(nodes: seq<Node>): seq<Node>
    decreases nodes, 0
  {
    if nodes == [] then [] else Unroll(nodes[0]) + UnrollAll(nodes[1..])
  }

  /** The payloads that are not loop transitions. */
  function Erase(ps: seq<Payload>): seq<Payload> {
    if ps == [] then []
    else Erase(ps[..|ps| - 1]) + if IsLoopEntry(ps[|ps| - 1]) then [] else [ps[|ps| - 1]]
  }

  lemma {:induction false} EraseConcat(ps: seq<Payload>, qs: seq<Payload>)
    ensures Erase(ps + qs) == Erase(ps) + Erase(qs)
  {
    if qs == [] {
      assert ps + qs == ps;
    } else {
      var front := qs[..|qs| - 1];
      assert (ps + qs)[..|ps + qs| - 1] == ps + front;
      EraseConcat(ps, front);
    }
  }

  lemma {:induction false} ReplayIgnoresLoops(state: PState, ps: seq<Payload>)
    ensures Replay(state, Erase(ps)) == Replay(state, ps)
  {
    if ps != [] {
      var front := ps[..|ps| - 1];
      ReplayIgnoresLoops(state, front);
      if IsLoopEntry(ps[|ps| - 1]) {
        assert Erase(ps) == Erase(front);
      } else {
        assert Erase(ps)[..|Erase(ps)| - 1] == Erase(front);
      }
    }
  }

  /** The same end, and the same trace up to loop transitions. */
  ghost predicate Same(t: Traced, u: Traced) {
    t.end == u.end && Erase(t.emitted) == Erase(u.emitted)
  }

  lemma ChainSame(t: Traced, u: Traced, t': Traced, u': Traced)
    requires Same(t, t') && Same(u, u')
    ensures Same(Chain(t, u), Chain(t', u'))
  {
    EraseConcat(t.emitted, u.emitted);
    EraseConcat(t'.emitted, u'.emitted);
  }

  /** An iteration is its body: the transition entry is erased. */
  lemma IterationSame(env: Env, body: seq<Node>, delta: Delta, core: Core)
    requires delta.kind == Some("loop")
    ensures Same(TraceIteration(env, body, delta, core), TraceNodes(env, body, core))
  {
    var ran := TraceNodes(env, body, core);
    var mark := Emit(ran.end, delta).emitted;
    EraseConcat(ran.emitted, mark);
    assert Erase(mark) == [] by {
      assert mark[..0] == [];
    }
  }

  lemma SingleNode(env: Env, node: Node, core: Core)
    ensures TraceNodes(env, [node], core) == TraceNode(env, node, core)
  {
    var t := TraceNode(env, node, core);
    assert [node][1..] == [] && t.emitted + [] == t.emitted;
  }

  lemma {:induction false} NodeUnrolls(env: Env, node: Node, core: Core)
    ensures Same(TraceNode(env, node, core), TraceNodes(env, Unroll(node), core))
    decreases node, 0
  {
    if core.outcome.Ok? {
      match node
      case Pipeline(steps) => NodesUnroll(env, steps, core);
      case Loop(max, body) =>
        if max < 0 {
          SingleNode(env, node, core);
        } else if max == 0 {
          assert TraceNode(env, node, core).emitted[..0] == [];
        } else {
          BodyUnrolls(env, body);
          LoopRepeats(env, max, body, UnrollAll(body), 0, core);
        }
      case LoopUntil(timeout, max, body) =>
        SingleNode(env, LoopUntil(timeout, max, UnrollAll(body)), core);
        if max >= 0 && timeout >= 0 {
          BodyUnrolls(env, body);
          LoopUntilFollows(env, timeout, max, body, UnrollAll(body), 0, core);
        }
      case _ => SingleNode(env, node, core);
    }
  }

  lemma {:induction false} NodesUnroll(env: Env, nodes: seq<Node>, core: Core)
    ensures Same(TraceNodes(env, nodes, core), TraceNodes(env, UnrollAll(nodes), core))
    decreases nodes, 0
  {
    if nodes != [] && core.outcome.Ok? {
      var t := TraceNode(env, nodes[0], core);
      NodeUnrolls(env, nodes[0], core);
      NodesUnroll(env, nodes[1..], t.end);
      NodesConcat(env, Unroll(nodes[0]), UnrollAll(nodes[1..]), core);
      ChainSame(t, TraceNodes(env, nodes[1..], t.end),
                TraceNodes(env, Unroll(nodes[0]), core), TraceNodes(env, UnrollAll(nodes[1..]), t.end));
    }
  }

  /** The two node lists run alike from everywhere. */
  ghost predicate Equivalent(env: Env, a: seq<Node>, b: seq<Node>) {
    forall core :: Same(TraceNodes(env, a, core), TraceNodes(env, b, core))
  }

  lemma {:induction false} BodyUnrolls(env: Env, body: seq<Node>)
    ensures Equivalent(env, body, UnrollAll(body))
    decreases body, 1
  {
    forall core
      ensures Same(TraceNodes(env, body, core), TraceNodes(env, UnrollAll(body), core))
    {
      NodesUnroll(env, body, core);
    }
  }

  /** A counted loop runs like the repetition of any list that runs like its body. */
  lemma {:induction false} LoopRepeats(
    env: Env, max: nat, body: seq<Node>, flat: seq<Node>, iteration: nat, core: Core)
    requires iteration <= max && core.outcome.Ok?
    requires Equivalent(env, body, flat)
    ensures Same(TraceLoop(env, max, body, iteration, core),
                 TraceNodes(env, Repeat(flat, max - iteration), core))
    decreases max - iteration
  {
    if iteration < max {
      var rest := Repeat(flat, max - iteration - 1);
      var delta := LoopDelta(iteration, PipelineSteps.Decision(iteration, max));
      var once, flatOnce := TraceIteration(env, body, delta, core), TraceNodes(env, flat, core);
      IterationSame(env, body, delta, core);
      assert Same(once, flatOnce);
      NodesConcat(env, flat, rest, core);
      if once.end.outcome.Ok? {
        LoopRepeats(env, max, body, flat, iteration + 1, once.end);
        ChainSame(once, TraceLoop(env, max, body, iteration + 1, once.end),
                  flatOnce, TraceNodes(env, rest, once.end));
      } else {
        ChainSame(once, Traced(once.end, []), flatOnce, TraceNodes(env, rest, once.end));
        assert once.emitted + [] == once.emitted;
      }
    }
  }

  /** A timed loop runs like the timed loop of any list that runs like its body. */
  lemma {:induction false} LoopUntilFollows(
    env: Env, timeout: nat, max: nat, body: seq<Node>, flat: seq<Node>, iteration: nat, core: Core)
    requires iteration <= max && core.outcome.Ok?
    requires Equivalent(env, body, flat)
    ensures Same(TraceLoopUntil(env, timeout, max, body, iteration, core),
                 TraceLoopUntil(env, timeout, max, flat, iteration, core))
    decreases max - iteration
  {
    if iteration < max && env.clock(core.tick).Returned? {
      var now := env.clock(core.tick).result;
      var read := core.(tick := core.tick + 1);
      if now - env.startedAt < timeout {
        var delta := LoopUntilDelta(iteration, Some(now), PipelineSteps.Decision(iteration, max));
        var once, flatOnce := TraceIteration(env, body, delta, read), TraceIteration(env, flat, delta, read);
        IterationSame(env, body, delta, read);
        IterationSame(env, flat, delta, read);
        assert Same(once, flatOnce);
        if once.end.outcome.Ok? {
          LoopUntilFollows(env, timeout, max, body, flat, iteration + 1, once.end);
          ChainSame(once, TraceLoopUntil(env, timeout, max, body, iteration + 1, once.end),
                    flatOnce, TraceLoopUntil(env, timeout, max, flat, iteration + 1, once.end));
        }
      }
    }
  }

  /**
    Unrolling all counted loops preserves meaning: on every input and in every world the unrolled
    program ends with the same value or error, in the same state, after the same clock readings, and
    logs the same entries once loop transitions are erased. Bodies may fail, suspend or nest.
  */
  lemma UnrollingPreservesMeaning(env: Env, root: Node, input: Value, tick: nat)
    ensures
      var looped := Execute(env, root, input, tick);
      var flat := Execute(env, Pipeline(Unroll(root)), input, tick);
      && looped.step.outcome == flat.step.outcome
      && looped.step.state == flat.step.state
      && looped.tick == flat.tick
      && Erase(Payloads(looped.step.log)) == Erase(Payloads(flat.step.log))
  {
    if input.Valid() {
      var start := DslRuns.Start(input, tick);
      DslRuns.ExecuteLands(env, root, input, tick);
      DslRuns.ExecuteLands(env, Pipeline(Unroll(root)), input, tick);
      NodeUnrolls(env, root, start);
      ReplayIgnoresLoops(InitialState(), TraceNode(env, root, start).emitted);
      ReplayIgnoresLoops(InitialState(), TraceNodes(env, Unroll(root), start).emitted);
    }
  }

  /** One level of it: a counted loop from any log is its body run that many times in sequence. */
  lemma LoopIsRepetition(env: Env, max: nat, body: seq<Node>, current: Run)
    requires current.step.outcome.Ok? && Grounded(current.step.log)
    ensures
      var looped := ExecuteNode(env, Loop(max, body), current);
      var flat := ExecuteNodes(env, Repeat(body, max), current);
      && looped.step.outcome == flat.step.outcome
      && looped.step.state == flat.step.state
      && looped.tick == flat.tick
      && Erase(Payloads(looped.step.log)) == Erase(Payloads(flat.step.log))
  {
    var core := CoreOf(current);
    var t := TraceNode(env, Loop(max, body), core);
    NodeLands(env, Loop(max, body), current);
    NodesLand(env, Repeat(body, max), current);
    if max == 0 {
      assert t.emitted[..0] == [];
    } else {
      LoopRepeats(env, max, body, body, 0, core);
    }
    SameLands(current, t, TraceNodes(env, Repeat(body, max), core));
  }

  lemma SameLands(current: Run, t: Traced, u: Traced)
    requires Grounded(current.step.log) && Same(t, u)
    requires Quiet(CoreOf(current), t) && Quiet(CoreOf(current), u)
    ensures
      var looped, flat := Land(current, t), Land(current, u);
      && looped.step.outcome == flat.step.outcome
      && looped.step.state == flat.step.state
      && looped.tick == flat.tick
      && Erase(Payloads(looped.step.log)) == Erase(Payloads(flat.step.log))
  {
    var log := current.step.log;
    ReplayIgnoresLoops(current.step.state, t.emitted);
    ReplayIgnoresLoops(current.step.state, u.emitted);
    GrowAppends(log, t.emitted);
    GrowAppends(log, u.emitted);
    EraseConcat(Payloads(log), t.emitted);
    EraseConcat(Payloads(log), u.emitted);
  }

  // ----- the unrolled program has no counted loop -----

  ghost predicate LoopFree(nodes: seq<Node>) {
    forall n, inner | n in nodes && Within(inner, n) :: !inner.Loop?
  }

  lemma {:induction false} UnrolledIsLoopFree(contains: Contains, node: Node)
    requires Valid(contains, node)
    ensures LoopFree(Unroll(node))
    decreases node, 0
  {
    ValidUnfolds(contains, node);
    match node
    case Pipeline(steps) => UnrolledAllLoopFree(contains, steps);
    case Loop(max, body) =>
      UnrolledAllLoopFree(contains, body);
      RepeatHasTheSameNodes(UnrollAll(body), max);
    case LoopUntil(timeout, max, body) => UnrolledAllLoopFree(contains, body);
    case _ =>
  }

  lemma {:induction false} UnrolledAllLoopFree(contains: Contains, nodes: seq<Node>)
    requires forall n | n in nodes :: Valid(contains, n)
    ensures LoopFree(UnrollAll(nodes))
    decreases nodes, 0
  {
    if nodes != [] {
      UnrolledIsLoopFree(contains, nodes[0]);
      UnrolledAllLoopFree(contains, nodes[1..]);
    }
  }

  lemma {:induction false} RepeatHasTheSameNodes(nodes: seq<Node>, n: nat)
    ensures forall node | node in Repeat(nodes, n) :: node in nodes
  {
    if n > 0 {
      RepeatHasTheSameNodes(nodes, n - 1);
    }
  }
}
