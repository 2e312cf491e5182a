/**
  What the generic loops compute: a fold over their body. Every iteration is given the value the one
  before left, the first failure or exception ends the loop, and every iteration that starts logs one
  numbered entry after what its body logged.
*/
module PipelineRuns {
  import opened Common
  import opened ReplayLog
  import opened ResultSteps
  import PipelineSteps

  /** Where a run of a loop ends, and what it says in its log. */
  datatype Ran<S, V> = Ran(state: S, outcome: Outcome<V>, said: seq<Payload>)

  /** The entry of one iteration, without or with a timestamp. */
  function LoopEntry(name: string, i: int, decision: string, timestamp: Option<int>): Delta {
    var texts: Metadata := map[
      "delta.kind" := Str("loop"), "loop_iteration" := Num(i), "loop_decision" := Str(decision)];
    var stamped := if timestamp.Some? then texts["loop_timestamp" := Instant(timestamp.value)] else texts;
    Delta(name, Some(KernelFacade), Some(SlotT), Some(stamped), Some("loop"))
  }

  function Counted(i: int, max: int): Delta {
    LoopEntry("pipeline.loop.iteration", i, if i == max - 1 then "max_iterations_reached" else "continue", None)
  }

  function Timed(i: int, decision: string, timestamp: Option<int>): Delta {
    LoopEntry("pipeline.loop_until.iteration", i, decision, timestamp)
  }

  /** A thrown exception, as a fail-closed error that says which iteration it ended. */
  function Thrown(exn: Exn, delta: Delta): Error
    requires delta.metadata.Some?
  {
    Error("UNHANDLED_EXCEPTION", false, Some(FailClosed), Some(KernelFacade), Some(SlotT),
          Some(map["exception_type" := Str(exn.typeName)] + delta.metadata.value))
  }

  function Said<V>(delta: Delta, outcome: Outcome<V>): Payload {
    Payload(delta, outcome.Ok?, if outcome.Ok? then None else Some(outcome.error.code))
  }

  /** One iteration: what its body said, and its entry. */
  function Once<S, V>(state: S, answer: Attempt<Step<S, V>>, delta: Delta): Ran<S, V>
    requires delta.metadata.Some?
  {
    match answer
    case Threw(exn) =>
      var failed: Outcome<V> := Err(Thrown(exn, delta));
      Ran(state, failed, [Said(delta, failed)])
    case Returned(next) => Ran(next.state, next.outcome, Payloads(next.log) + [Said(delta, next.outcome)])
  }

  function Before<S, V>(said: seq<Payload>, rest: Ran<S, V>): Ran<S, V> {
    Ran(rest.state, rest.outcome, said + rest.said)
  }

  /** The fold over the body of a counted loop, from iteration `i` on. */
  ghost function Fold<S, V>(state: S, value: V, i: nat, max: nat, body: PipelineSteps.LoopBody<S, V>): Ran<S, V>
    requires i <= max
    decreases max - i
  {
    if i == max then Ran(state, Ok(value), [])
    else
      var once := Once(state, body(i, value), Counted(i, max));
      if once.outcome.Err? then once
      else Before(once.said, Fold(once.state, once.outcome.value, i + 1, max, body))
  }

  /** The fold of a timed loop: it reads the clock before every iteration, and always logs how it ended. */
  ghost function TimedFold<S, V>(
    state: S, value: V, i: nat, max: nat, timeout: int, startedAt: int, clock: PipelineSteps.Clock,
    body: PipelineSteps.TimedBody<S, V>): Ran<S, V>
    requires i <= max
    decreases max - i
  {
    if i == max then Ran(state, Ok(value), [Said<V>(Timed(max, "max_iterations_reached", None), Ok(value))])
    else
      match clock(i)
      case Threw(exn) =>
        var failed: Outcome<V> := Err(Thrown(exn, Timed(i, "clock_failed", None)));
        Ran(state, failed, [Said(Timed(i, "clock_failed", None), failed)])
      case Returned(now) =>
        if now - startedAt >= timeout then
          Ran(state, Ok(value), [Said<V>(Timed(i, "timeout_reached", Some(now)), Ok(value))])
        else
          var decision := if i == max - 1 then "max_iterations_reached" else "continue";
          var once := Once(state, body(i, now, value), Timed(i, decision, Some(now)));
          if once.outcome.Err? then once
          else
            Before(once.said, TimedFold(once.state, once.outcome.value, i + 1, max, timeout, startedAt, clock, body))
  }

  /** The step ends as the run does, and its log goes on from `log` with what the run said. */
  ghost predicate IsRun<S, V>(step: Step<S, V>, log: seq<Entry>, ran: Ran<S, V>) {
    step.state == ran.state && step.outcome == ran.outcome && Payloads(step.log) == Payloads(log) + ran.said
  }

  lemma PrefixSays<S, V>(next: Step<S, V>, log: seq<Entry>)
    ensures
      var hung := WithReplayLogPrefix(next, log);
      hung.state == next.state && hung.outcome == next.outcome
      && Payloads(hung.log) == Payloads(log) + Payloads(next.log)
  {
    if log != [] {
      var parent := log[|log| - 1].id;
      RebaseChains(next.log, parent);
      PayloadsConcat(log, Rebase(next.log, parent));
    }
  }

  lemma DeltaSays<S, V>(s: Step<S, V>, delta: Delta, parent: Id)
    ensures
      var next := WithSemanticDelta(s, delta, parent);
      next.state == s.state && next.outcome == s.outcome
      && Payloads(next.log) == Payloads(s.log) + [Said(delta, s.outcome)]
  {
    var next := WithSemanticDelta(s, delta, parent);
    PayloadsConcat(s.log, [next.log[|s.log|]]);
    assert Payloads([next.log[|s.log|]]) == [Said(delta, s.outcome)];
  }

  lemma ThrownIsRun<S, V>(current: Step<S, V>, exn: Exn, delta: Delta)
    requires delta.metadata.Some?
    ensures
      var failed: Outcome<V> := Err(Thrown(exn, delta));
      IsRun(PipelineSteps.FailLoopIteration(current, exn, delta), current.log,
            Ran(current.state, failed, [Said(delta, failed)]))
  {
    var failed: Outcome<V> := Err(Thrown(exn, delta));
    var hung := WithReplayLogPrefix(Fresh(current.state, failed), current.log);
    PrefixSays(Fresh(current.state, failed), current.log);
    DeltaSays(hung, delta, LastId(current.log, Absent));
    assert Payloads(hung.log) == Payloads(current.log);
  }

  lemma OnceIsRun<S, V>(current: Step<S, V>, answer: Attempt<Step<S, V>>, delta: Delta)
    requires delta.metadata.Some?
    ensures IsRun(PipelineSteps.ApplyLoopIteration(current, answer, delta), current.log,
                  Once(current.state, answer, delta))
  {
    match answer
    case Threw(exn) => ThrownIsRun(current, exn, delta);
    case Returned(next) =>
      var hung := WithReplayLogPrefix(next, current.log);
      PrefixSays(next, current.log);
      DeltaSays(hung, delta,
                if |hung.log| > |current.log| then hung.log[|hung.log| - 1].id else LastId(current.log, Absent));
  }

  lemma RunsJoin<S, V>(
    step: Step<S, V>, middle: Step<S, V>, log: seq<Entry>, first: Ran<S, V>, rest: Ran<S, V>)
    requires IsRun(middle, log, first) && IsRun(step, middle.log, rest)
    ensures IsRun(step, log, Before(first.said, rest))
  {
  }

  lemma {:induction false} IterateFolds<S, V>(
    current: Step<S, V>, i: nat, max: nat, body: PipelineSteps.LoopBody<S, V>)
    requires i <= max && current.outcome.Ok?
    ensures IsRun(PipelineSteps.Iterate(current, i, max, body), current.log,
                  Fold(current.state, current.outcome.value, i, max, body))
    decreases max - i
  {
    if i < max {
      var answer := body(i, current.outcome.value);
      assert PipelineSteps.LoopDelta(i, PipelineSteps.Decision(i, max)) == Counted(i, max);
      OnceIsRun(current, answer, Counted(i, max));
      var next := PipelineSteps.ApplyLoopIteration(current, answer, Counted(i, max));
      if next.outcome.Ok? {
        IterateFolds(next, i + 1, max, body);
        RunsJoin(PipelineSteps.Iterate(next, i + 1, max, body), next, current.log,
                 Once(current.state, answer, Counted(i, max)),
                 Fold(next.state, next.outcome.value, i + 1, max, body));
      }
    }
  }

  /**
    `Loop` for every bound and every initial step. A negative bound is rejected; a failed step passes
    through; no iteration logs one entry; otherwise the loop is the fold over its body.
  */
  lemma LoopIsFold<S, V>(initial: Step<S, V>, max: int, body: PipelineSteps.LoopBody<S, V>)
    ensures
      var r := PipelineSteps.LoopResult(initial, max, body);
      if max < 0 then
        && r.state == initial.state && r.outcome.Err? && |r.log| == 1 && r.delta.name == "pipeline.loop.invalid"
        && r.outcome.error == Error("INVALID_PIPELINE_LOOP", false, Some(Reject), Some(KernelFacade), Some(SlotT), None)
      else if initial.outcome.Err? then r == initial
      else if max == 0 then
        IsRun(r, initial.log,
              Ran(initial.state, initial.outcome,
                  [Said(LoopEntry("pipeline.loop.iteration", 0, "max_iterations_reached", None), initial.outcome)]))
      else IsRun(r, initial.log, Fold(initial.state, initial.outcome.value, 0, max, body))
  {
    if max >= 0 && initial.outcome.Ok? {
      if max == 0 {
        DeltaSays(initial, PipelineSteps.LoopDelta(0, PipelineSteps.MAX_REACHED), Absent);
      } else {
        IterateFolds(initial, 0, max, body);
      }
    }
  }

  lemma {:induction false} IterateUntilFolds<S, V>(
    current: Step<S, V>, i: nat, max: nat, timer: PipelineSteps.Timer, clock: PipelineSteps.Clock,
    body: PipelineSteps.TimedBody<S, V>)
    requires i <= max && current.outcome.Ok?
    ensures IsRun(PipelineSteps.IterateUntil(current, i, max, timer, clock, body), current.log,
                  TimedFold(current.state, current.outcome.value, i, max, timer.timeout, timer.startedAt, clock, body))
    decreases max - i
  {
    if i == max {
      DeltaSays(current, Timed(max, "max_iterations_reached", None), Absent);
    } else {
      match clock(i)
      case Threw(exn) => ThrownIsRun(current, exn, Timed(i, "clock_failed", None));
      case Returned(now) =>
        if now - timer.startedAt >= timer.timeout {
          DeltaSays(current, Timed(i, "timeout_reached", Some(now)), Absent);
        } else {
          IterationFolds(current, i, max, timer, clock, body, now);
        }
    }
  }

  lemma {:induction false} IterationFolds<S, V>(
    current: Step<S, V>, i: nat, max: nat, timer: PipelineSteps.Timer, clock: PipelineSteps.Clock,
    body: PipelineSteps.TimedBody<S, V>, now: int)
    requires i < max && current.outcome.Ok?
    requires clock(i) == Returned(now) && now - timer.startedAt < timer.timeout
    ensures IsRun(PipelineSteps.IterateUntil(current, i, max, timer, clock, body), current.log,
                  TimedFold(current.state, current.outcome.value, i, max, timer.timeout, timer.startedAt, clock, body))
    decreases max - i, 0
  {
    var answer := body(i, now, current.outcome.value);
    var delta := Timed(i, if i == max - 1 then "max_iterations_reached" else "continue", Some(now));
    assert PipelineSteps.LoopUntilDelta(i, Some(now), PipelineSteps.Decision(i, max)) == delta;
    OnceIsRun(current, answer, delta);
    var next := PipelineSteps.ApplyLoopIteration(current, answer, delta);
    if next.outcome.Ok? {
      IterateUntilFolds(next, i + 1, max, timer, clock, body);
      RunsJoin(PipelineSteps.IterateUntil(next, i + 1, max, timer, clock, body), next, current.log,
               Once(current.state, answer, delta),
               TimedFold(next.state, next.outcome.value, i + 1, max, timer.timeout, timer.startedAt, clock, body));
    }
  }

  /** `LoopUntil` likewise; its deadline is the timeout after the start. */
  lemma LoopUntilIsFold<S, V>(
    initial: Step<S, V>, max: int, timer: PipelineSteps.Timer, clock: PipelineSteps.Clock,
    body: PipelineSteps.TimedBody<S, V>)
    ensures
      var r := PipelineSteps.LoopUntilResult(initial, max, timer, clock, body);
      if max < 0 || timer.timeout < 0 then
        && r.state == initial.state && r.outcome.Err? && |r.log| == 1 && r.delta.name == "pipeline.loop.invalid"
        && r.outcome.error == Error("INVALID_PIPELINE_LOOP", false, Some(Reject), Some(KernelFacade), Some(SlotT), None)
      else if initial.outcome.Err? then r == initial
      else
        IsRun(r, initial.log,
              TimedFold(initial.state, initial.outcome.value, 0, max, timer.timeout, timer.startedAt, clock, body))
  {
    if max >= 0 && timer.timeout >= 0 && initial.outcome.Ok? {
      IterateUntilFolds(initial, 0, max, timer, clock, body);
    }
  }

  /** A suspended step fails, may be tried again, and says why in its error and in its one entry. */
  lemma SuspendAnswers<S, V>(state: S, reason: string)
    ensures
      var s := PipelineSteps.Suspend<S, V>(state, reason);
      var text := if IsBlank(reason) then "Pipeline suspended." else reason;
      && s.state == state && s.outcome.Err? && |s.log| == 1 && Coherent(s)
      && s.outcome.error.code == "SUSPENDED" && s.outcome.error.retryable
      && s.outcome.error.failure == Some(Quarantine)
      && s.outcome.error.metadata == s.delta.metadata
         == Some(map["delta.kind" := Str("suspend"), "suspend_reason" := Str(text)])
      && s.delta.name == "pipeline.suspend" && s.delta.kind == Some("suspend")
  {
    var s := PipelineSteps.Suspend<S, V>(state, reason);
    ChainOfOne(s.log[0], s.log[0].parent);
  }
}
