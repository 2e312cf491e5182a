/** Composition of compiled pipelines: `Bind`, `Select` and `Where` of `DslPipelineLinqExtensions`. */
module DslLinq {
  import opened Common
  import opened ReplayLog
  import opened ResultSteps
  import opened Dsl
  import opened DslExecution
  import opened DslTrace
  import opened DslAccounting
  import opened DslRuns

  /** A pipeline in a given world: from an input and a clock position to a result and the next position. */
  type KernelPipeline = (Value, nat) -> Run

  /** What a binder callback does: it throws, or returns a pipeline, which can be null. */
  type PipelineBinder = Value -> Attempt<Option<KernelPipeline>>

  function Compiled(env: Env, root: Node): KernelPipeline {
    (input: Value, tick: nat) => Execute(env, root, input, tick)
  }

  const LINQ_STATE := PState("dsl.pipeline.linq", "start", 0)

  function LinqFailure(error: Error, kind: string, name: string): DslStep {
    WithSemanticDelta(
      Fresh(LINQ_STATE, Err(error)), NodeDelta("dsl.pipeline.linq", kind, "linq", name, map[]), Absent)
  }

  function Bind(pipeline: KernelPipeline, binder: PipelineBinder): KernelPipeline {
    (input: Value, tick: nat) =>
      var first := pipeline(input, tick);
      if first.step.outcome.Err? then first
      else
        match binder(first.step.outcome.value)
        case Threw(exn) => first.(step := ResultSteps.Bind(first.step, _ => Threw(exn)))
        case Returned(None) =>
          first.(step := ResultSteps.Bind(
            first.step, _ => Returned(LinqFailure(InvalidRuntime(), "fail_closed", "select_many"))))
        case Returned(Some(next)) =>
          var second := next(first.step.outcome.value, first.tick);
          Run(ResultSteps.Bind(first.step, _ => Returned(second.step)), second.tick)
  }

  function Select(pipeline: KernelPipeline, selector: Value -> Attempt<Value>): KernelPipeline {
    (input: Value, tick: nat) =>
      var first := pipeline(input, tick);
      first.(step := ResultSteps.Map(first.step, selector))
  }

  function PredicateRejected(): Error {
    Error("DSL_PREDICATE_REJECTED", false, Some(Reject), Some(KernelFacade), Some(SlotT), None)
  }

  function PredicateException(exn: Exn): Error {
    FromException(exn).(failure := Some(FailClosed), origin := Some(KernelFacade), slot := Some(SlotT))
  }

  function Where(pipeline: KernelPipeline, predicate_: Value -> Attempt<bool>): KernelPipeline {
    (input: Value, tick: nat) =>
      var first := pipeline(input, tick);
      if first.step.outcome.Err? then first
      else
        var value := first.step.outcome.value;
        var checked :=
          match predicate_(value)
          case Threw(exn) => LinqFailure(PredicateException(exn), "fail_closed", "where")
          case Returned(true) => Fresh(LINQ_STATE, Ok(value))
          case Returned(false) => LinqFailure(PredicateRejected(), "reject", "where");
        first.(step := ResultSteps.Bind(first.step, _ => Returned(checked)))
  }

  /** The run of `q` that follows a successful run of `p`. */
  function Second(env: Env, p: seq<Node>, q: seq<Node>, input: Value, tick: nat): Run
    requires Execute(env, Pipeline(p), input, tick).step.outcome.Ok?
  {
    var first := Execute(env, Pipeline(p), input, tick);
    Execute(env, Pipeline(q), first.step.outcome.value, first.tick)
  }

  /** A log grown from nothing hangs from the root of a success unless its first entry is a failure. */
  lemma LeadingFailure(ps: seq<Payload>)
    requires ps != [] && ps[0].ok ==> ps[0].code == None
    ensures Rebase(Grow([], ps), RootId(Ok(()))) == Grow([], ps) <==> ps == [] || ps[0].ok
  {
    var log, root := Grow([], ps), RootId(Ok(()));
    RebaseAbsorbs(log, root, root);
    if ps != [] {
      GrowAppends([], ps);
      GrowRoot(ps);
      RebaseHead(log, root);
    }
  }

  /** The two logs a bind can produce: rebased on the first run's last id, or grown from it. */
  lemma RebasedOrGrown(ps: seq<Payload>, qs: seq<Payload>)
    requires qs != [] && qs[0].ok ==> qs[0].code == None
    ensures
      var bound := Grow([], ps) + Rebase(Grow([], qs), LastId(Grow([], ps), RootId(Ok(()))));
      && Payloads(bound) == ps + qs
      && (bound == Grow([], ps + qs) <==> ps != [] || qs == [] || qs[0].ok)
  {
    var first, second := Grow([], ps), Grow([], qs);
    var id := LastId(first, RootId(Ok(())));
    RebaseChains(second, id);
    PayloadsConcat(first, Rebase(second, id));
    GrowAppends([], ps);
    GrowAppends([], qs);
    if ps != [] {
      GrowConcat([], ps, qs);
      GrowIsRebase(first, qs);
    } else {
      assert ps + qs == qs;
      assert first + Rebase(second, id) == Rebase(second, id);
      LeadingFailure(qs);
    }
  }

  /** Compiled `p` bound to compiled `q`. */
  function Composed(env: Env, p: seq<Node>, q: seq<Node>): KernelPipeline {
    Bind(Compiled(env, Pipeline(p)), _ => Returned(Some(Compiled(env, Pipeline(q)))))
  }

  lemma ComposedUnfolds(env: Env, p: seq<Node>, q: seq<Node>, input: Value, tick: nat)
    ensures
      var first := Execute(env, Pipeline(p), input, tick);
      Composed(env, p, q)(input, tick) ==
      if first.step.outcome.Err? then first
      else
        var second := Second(env, p, q, input, tick);
        Run(ResultSteps.Bind<PState, Value, Value>(first.step, _ => Returned(second.step)), second.tick)
  {
  }

  /**
    Composition is concatenation: binding compiled `p` to compiled `q` gives the value, error, clock use
    and entries of the compiled concatenation of the two programs. The logs are identical, ids included,
    unless `p` logged nothing and `q` starts with a failure, which then hangs from the root of a success.
  */
  lemma BindIsConcatenation(env: Env, p: seq<Node>, q: seq<Node>, input: Value, tick: nat)
    ensures
      var bound := Composed(env, p, q)(input, tick);
      var whole := Execute(env, Pipeline(p + q), input, tick);
      var first := Execute(env, Pipeline(p), input, tick);
      && bound.step.outcome == whole.step.outcome
      && bound.tick == whole.tick
      && Payloads(bound.step.log) == Payloads(whole.step.log)
      && (bound.step.log == whole.step.log <==>
          || first.step.outcome.Err?
          || first.step.log != []
          || (var second := Second(env, p, q, input, tick); second.step.log == [] || second.step.log[0].ok))
      && (first.step.outcome.Ok? ==>
            whole.step.state.executed == first.step.state.executed + bound.step.state.executed)
  {
    ComposedUnfolds(env, p, q, input, tick);
    if input.Valid() {
      var t := TraceNodes(env, p, Start(input, tick));
      ExecuteLands(env, Pipeline(p), input, tick);
      if t.end.outcome.Ok? {
        NodesAccount(env, p, Start(input, tick));
        BoundRun(env, p, q, input, tick);
        WholeRun(env, p, q, input, tick);
        var u := TraceNodes(env, q, t.end);
        if u.emitted != [] {
          GrowRoot(u.emitted);
        }
      } else {
        WholeRun(env, p, q, input, tick);
      }
    }
  }

  /** The concatenated program runs `p` and, if that succeeds, `q`. */
  lemma WholeRun(env: Env, p: seq<Node>, q: seq<Node>, input: Value, tick: nat)
    requires input.Valid()
    ensures
      var t := TraceNodes(env, p, Start(input, tick));
      var u := TraceNodes(env, q, t.end);
      var whole := Execute(env, Pipeline(p + q), input, tick);
      && CoreOf(whole) == u.end
      && whole.step.log == Grow([], t.emitted + u.emitted)
      && Payloads(whole.step.log) == t.emitted + u.emitted
      && whole.step.state == Replay(InitialState(), t.emitted + u.emitted)
      && (t.end.outcome.Err? ==> whole == Execute(env, Pipeline(p), input, tick))
  {
    var t := TraceNodes(env, p, Start(input, tick));
    ExecuteLands(env, Pipeline(p), input, tick);
    ExecuteLands(env, Pipeline(p + q), input, tick);
    NodesConcat(env, p, q, Start(input, tick));
    if t.end.outcome.Err? {
      assert t.emitted + [] == t.emitted;
    }
  }

  lemma BoundRun(env: Env, p: seq<Node>, q: seq<Node>, input: Value, tick: nat)
    requires input.Valid()
    requires TraceNodes(env, p, Start(input, tick)).end.outcome.Ok?
    requires ValidCore(TraceNodes(env, p, Start(input, tick)).end)
    ensures
      var first := Execute(env, Pipeline(p), input, tick);
      var t := TraceNodes(env, p, Start(input, tick));
      var u := TraceNodes(env, q, t.end);
      && first.step.outcome.Ok?
      && var second := Second(env, p, q, input, tick);
      var bound := ResultSteps.Bind<PState, Value, Value>(first.step, _ => Returned(second.step));
      && CoreOf(second) == u.end
      && second.step.log == Grow([], u.emitted)
      && bound.outcome == second.step.outcome
      && bound.state == second.step.state
      && Payloads(bound.log) == t.emitted + u.emitted
      && (bound.log == Grow([], t.emitted + u.emitted) <==>
          t.emitted != [] || u.emitted == [] || u.emitted[0].ok)
      && Replay(InitialState(), t.emitted + u.emitted).executed
         == first.step.state.executed + second.step.state.executed
  {
    var t := TraceNodes(env, p, Start(input, tick));
    var u := TraceNodes(env, q, t.end);
    ExecuteLands(env, Pipeline(p), input, tick);
    ExecuteLands(env, Pipeline(q), t.end.outcome.value, t.end.tick);
    NodesAccount(env, q, t.end);
    RebasedOrGrown(t.emitted, u.emitted);
    ReplayConcat(InitialState(), t.emitted, u.emitted);
    ReplayCounts(InitialState(), u.emitted);
    ReplayCounts(Replay(InitialState(), t.emitted), u.emitted);
  }

  /** A projection that returns logs nothing and changes nothing but the value. */
  lemma SelectIsSilent(pipeline: KernelPipeline, selector: Value -> Attempt<Value>, input: Value, tick: nat)
    ensures
      var first, selected := pipeline(input, tick), Select(pipeline, selector)(input, tick);
      first.step.outcome.Ok? && selector(first.step.outcome.value).Returned? ==>
        selected == first.(step := first.step.(outcome := Ok(selector(first.step.outcome.value).result)))
  {
  }

  /**
    A passing filter logs nothing, but it leaves an id that is in no log. The entries of a program bound
    after it therefore say the same as without the filter, but are never the same entries.
  */
  lemma PassingWhereShiftsIds(
    env: Env, p: seq<Node>, q: seq<Node>, passes: Value -> Attempt<bool>, input: Value, tick: nat)
    requires Execute(env, Pipeline(p), input, tick).step.outcome.Ok?
    requires passes(Execute(env, Pipeline(p), input, tick).step.outcome.value) == Returned(true)
    ensures
      var first := Execute(env, Pipeline(p), input, tick);
      var filtered := Where(Compiled(env, Pipeline(p)), passes);
      var binder: PipelineBinder := _ => Returned(Some(Compiled(env, Pipeline(q))));
      var bound := Bind(filtered, binder)(input, tick);
      var unfiltered := Bind(Compiled(env, Pipeline(p)), binder)(input, tick);
      && filtered(input, tick).step.log == first.step.log
      && filtered(input, tick).step.outcome == first.step.outcome
      && bound.step.outcome == unfiltered.step.outcome
      && bound.tick == unfiltered.tick
      && Payloads(bound.step.log) == Payloads(unfiltered.step.log)
      && (bound.step.log == unfiltered.step.log <==> Second(env, p, q, input, tick).step.log == [])
  {
    var pipeline := Compiled(env, Pipeline(p));
    var first := pipeline(input, tick).step;
    PassingWhere(pipeline, passes, input, tick);
    BoundAfter(env, q, pipeline, input, tick);
    BoundAfter(env, q, Where(pipeline, passes), input, tick);
    IdsAreWellFounded(first.id, EMPTY_DELTA, true, None);
    RehungLogs(Second(env, p, q, input, tick).step, Hash(first.id, EMPTY_DELTA, true, None), first.id, first.log);
  }

  lemma PassingWhere(pipeline: KernelPipeline, passes: Value -> Attempt<bool>, input: Value, tick: nat)
    requires pipeline(input, tick).step.outcome.Ok?
    requires passes(pipeline(input, tick).step.outcome.value) == Returned(true)
    ensures
      var first, filtered := pipeline(input, tick), Where(pipeline, passes)(input, tick);
      && filtered.step.outcome == first.step.outcome
      && filtered.step.log == first.step.log
      && filtered.step.id == Hash(first.step.id, EMPTY_DELTA, true, None)
      && filtered.tick == first.tick
  {
  }

  /** Binding compiled `q` hangs its run under the id of the step before. */
  lemma BoundAfter(env: Env, q: seq<Node>, pipeline: KernelPipeline, input: Value, tick: nat)
    requires pipeline(input, tick).step.outcome.Ok?
    ensures
      var first := pipeline(input, tick);
      var second := Execute(env, Pipeline(q), first.step.outcome.value, first.tick);
      Bind(pipeline, _ => Returned(Some(Compiled(env, Pipeline(q)))))(input, tick)
      == Run(WithParentStepId(second.step, first.step.id, first.step.log), second.tick)
  {
  }

  /** The same step hung under two different ids: same payloads, different entries, if it has any. */
  lemma RehungLogs(step: DslStep, a: Id, b: Id, prefix: seq<Entry>)
    requires a != b
    ensures
      var x, y := WithParentStepId(step, a, prefix).log, WithParentStepId(step, b, prefix).log;
      Payloads(x) == Payloads(y) && (x == y <==> step.log == [])
  {
    RebaseChains(step.log, a);
    RebaseChains(step.log, b);
    PayloadsConcat(prefix, Rebase(step.log, a));
    PayloadsConcat(prefix, Rebase(step.log, b));
    if step.log != [] {
      RebaseSeparates(step.log, a, b, prefix);
    }
  }

  // ----- what the combinators answer -----

  /** One failing entry more, under the id of the step before, of the kind and for the combinator given. */
  ghost predicate FailsUnder(before: DslStep, after: DslStep, error: Error, kind: string, combinator: string) {
    var texts: Metadata := map[
      "delta.kind" := Str(kind), "dsl.node_type" := Str("linq"), "dsl.node_name" := Str(combinator)];
    && after.state == PState("dsl.pipeline.linq", "start", 0)
    && after.outcome == Err(error)
    && |after.log| == |before.log| + 1
    && after.log[..|before.log|] == before.log
    && var last := after.log[|before.log|];
       && last == Link(before.id, Payload(
            Delta("dsl.pipeline.linq", Some(KernelFacade), Some(SlotT), Some(texts), Some(kind)),
            false, Some(error.code)))
       && after.id == last.id
  }

  lemma FailureHangs(before: DslStep, error: Error, kind: string, combinator: string)
    ensures FailsUnder(before, WithParentStepId(LinqFailure(error, kind, combinator), before.id, before.log),
                       error, kind, combinator)
  {
    var failure := LinqFailure(error, kind, combinator);
    var none: Metadata := map[];
    var texts: Metadata := map[
      "delta.kind" := Str(kind), "dsl.node_type" := Str("linq"), "dsl.node_name" := Str(combinator)];
    assert texts + none == texts;
    assert |failure.log| == 1;
    assert failure.log[..0] == [];
    assert Rebase(failure.log, before.id) == [Link(before.id, PayloadOf(failure.log[0]))];
  }

  /**
    A filter passes the value on if the predicate says so, and logs nothing. If not, it fails with a
    rejection, and if the predicate throws, fail-closed, with one entry. A failed run passes through.
  */
  lemma WhereAnswers(pipeline: KernelPipeline, predicate_: Value -> Attempt<bool>, input: Value, tick: nat)
    ensures
      var first, r := pipeline(input, tick), Where(pipeline, predicate_)(input, tick);
      && r.tick == first.tick
      && match first.step.outcome
         case Err(_) => r == first
         case Ok(value) =>
           match predicate_(value)
           case Returned(true) =>
             r.step.outcome == Ok(value) && r.step.log == first.step.log
             && r.step.state == PState("dsl.pipeline.linq", "start", 0)
           case Returned(false) =>
             FailsUnder(first.step, r.step,
                        Error("DSL_PREDICATE_REJECTED", false, Some(Reject), Some(KernelFacade), Some(SlotT), None),
                        "reject", "where")
           case Threw(exn) =>
             FailsUnder(first.step, r.step,
                        Error("UNHANDLED_EXCEPTION", false, Some(FailClosed), Some(KernelFacade), Some(SlotT),
                              Some(map["exception_type" := Str(exn.typeName)])),
                        "fail_closed", "where")
  {
    var first := pipeline(input, tick);
    if first.step.outcome.Ok? {
      match predicate_(first.step.outcome.value)
      case Returned(true) => PassingWhere(pipeline, predicate_, input, tick);
      case Returned(false) => FailureHangs(first.step, PredicateRejected(), "reject", "where");
      case Threw(exn) => FailureHangs(first.step, PredicateException(exn), "fail_closed", "where");
    }
  }

  /** What is bound after a filter that does not pass, or after any failed pipeline, is never run. */
  lemma BlockedNeverRuns(pipeline: KernelPipeline, binder: PipelineBinder, input: Value, tick: nat)
    requires pipeline(input, tick).step.outcome.Err?
    ensures Bind(pipeline, binder)(input, tick) == pipeline(input, tick)
  {
  }

  /** A filtered pipeline succeeds if and only if the pipeline does and the predicate returns true. */
  lemma WherePasses(pipeline: KernelPipeline, predicate_: Value -> Attempt<bool>, input: Value, tick: nat)
    ensures
      var first := pipeline(input, tick);
      Where(pipeline, predicate_)(input, tick).step.outcome.Ok?
      <==> first.step.outcome.Ok? && predicate_(first.step.outcome.value) == Returned(true)
  {
    WhereAnswers(pipeline, predicate_, input, tick);
  }

  /**
    `Bind` runs the second pipeline on the value of the first, from where its clock readings ended, and
    takes its state and outcome; its entries follow, re-hung. Without a second pipeline it fails with one
    entry, and an exception of the binder fails in place.
  */
  lemma BindPipelineAnswers(pipeline: KernelPipeline, binder: PipelineBinder, input: Value, tick: nat)
    requires pipeline(input, tick).step.outcome.Ok?
    ensures
      var first, r := pipeline(input, tick), Bind(pipeline, binder)(input, tick);
      match binder(first.step.outcome.value)
      case Threw(exn) => r.tick == first.tick && FailsInPlace(first.step, exn, r.step)
      case Returned(None) =>
        && r.tick == first.tick
        && FailsUnder(first.step, r.step,
                      Error("DSL_RUNTIME_ERROR", false, Some(FailClosed), Some(KernelFacade), Some(SlotT), None),
                      "fail_closed", "select_many")
      case Returned(Some(next)) =>
        var second := next(first.step.outcome.value, first.tick);
        && r.tick == second.tick
        && r.step.state == second.step.state
        && r.step.outcome == second.step.outcome
        && Payloads(r.step.log) == Payloads(first.step.log) + Payloads(second.step.log)
  {
    var first := pipeline(input, tick);
    match binder(first.step.outcome.value)
    case Threw(_) =>
    case Returned(None) => FailureHangs(first.step, InvalidRuntime(), "fail_closed", "select_many");
    case Returned(Some(next)) =>
      var second := next(first.step.outcome.value, first.tick);
      RebaseChains(second.step.log, first.step.id);
      PayloadsConcat(first.step.log, Rebase(second.step.log, first.step.id));
  }

  /** A projection that throws fails in place; a failed run passes through. */
  lemma SelectAnswers(pipeline: KernelPipeline, selector: Value -> Attempt<Value>, input: Value, tick: nat)
    ensures
      var first, r := pipeline(input, tick), Select(pipeline, selector)(input, tick);
      && r.tick == first.tick
      && match first.step.outcome
         case Err(error) => r.step == first.step
         case Ok(value) =>
           match selector(value)
           case Returned(projected) => r.step == first.step.(outcome := Ok(projected))
           case Threw(exn) => FailsInPlace(first.step, exn, r.step)
  {
  }
}
