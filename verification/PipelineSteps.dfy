/** The generic loop, suspend and resume combinators of `PipelineStep`. */
module PipelineSteps {
  import opened Common
  import opened ReplayLog
  import opened ResultSteps

  const SUSPENDED := "SUSPENDED"

  function LoopMetadata(iteration: int, decision: string): Metadata {
    map["delta.kind" := Str("loop"), "loop_iteration" := Num(iteration), "loop_decision" := Str(decision)]
  }

  function LoopDelta(iteration: int, decision: string): Delta {
    Delta("pipeline.loop.iteration", Some(KernelFacade), Some(SlotT),
          Some(LoopMetadata(iteration, decision)), Some("loop"))
  }

  function LoopUntilDelta(iteration: int, timestamp: Option<int>, decision: string): Delta {
    var metadata := LoopMetadata(iteration, decision);
    var stamped := if timestamp.Some? then metadata["loop_timestamp" := Instant(timestamp.value)] else metadata;
    Delta("pipeline.loop_until.iteration", Some(KernelFacade), Some(SlotT), Some(stamped), Some("loop"))
  }

  const MAX_REACHED := "max_iterations_reached"

  function Decision(iteration: int, max: int): string {
    if iteration == max - 1 then MAX_REACHED else "continue"
  }

  function InvalidLoop<S, V>(state: S): Step<S, V> {
    var error := Error("INVALID_PIPELINE_LOOP", false, Some(Reject), Some(KernelFacade), Some(SlotT), None);
    var metadata := map["delta.kind" := Str("loop"), "loop_decision" := Str("invalid")];
    WithSemanticDelta(
      Fresh(state, Err(error)),
      Delta("pipeline.loop.invalid", Some(KernelFacade), Some(SlotT), Some(metadata), Some("loop")),
      Absent)
  }

  function MergeMetadata(first: Option<Metadata>, second: Option<Metadata>): Option<Metadata> {
    if first.None? then second
    else if second.None? then first
    else Some(first.value + second.value)
  }

  function FailLoopIteration<S, V>(current: Step<S, V>, exn: Exn, delta: Delta): Step<S, V> {
    var error := FromException(exn).(
      failure := Some(FailClosed),
      origin := Some(KernelFacade),
      slot := Some(SlotT),
      metadata := MergeMetadata(FromException(exn).metadata, delta.metadata));
    WithSemanticDelta(
      WithReplayLogPrefix(Fresh(current.state, Err(error)), current.log),
      delta,
      LastId(current.log, Absent))
  }

  function ApplyLoopIteration<S, V>(current: Step<S, V>, ran: Attempt<Step<S, V>>, delta: Delta): Step<S, V> {
    match ran
    case Threw(exn) => FailLoopIteration(current, exn, delta)
    case Returned(next) =>
      var combined := WithReplayLogPrefix(next, current.log);
      var parent :=
        if |combined.log| > |current.log| then combined.log[|combined.log| - 1].id
        else LastId(current.log, Absent);
      WithSemanticDelta(combined, delta, parent)
  }

  // ----- Loop -----

  type LoopBody<!S, !V> = (int, V) -> Attempt<Step<S, V>>

  function Iterate<S, V>(current: Step<S, V>, iteration: nat, max: nat, body: LoopBody<S, V>): Step<S, V>
    requires iteration <= max && current.outcome.Ok?
    decreases max - iteration
  {
    if iteration == max then current
    else
      var next := ApplyLoopIteration(
        current, body(iteration, current.outcome.value), LoopDelta(iteration, Decision(iteration, max)));
      if next.outcome.Err? then next else Iterate(next, iteration + 1, max, body)
  }

  function LoopResult<S, V>(initial: Step<S, V>, max: int, body: LoopBody<S, V>): Step<S, V> {
    if max < 0 then InvalidLoop(initial.state)
    else if initial.outcome.Err? then initial
    else if max == 0 then WithSemanticDelta(initial, LoopDelta(0, MAX_REACHED), Absent)
    else Iterate(initial, 0, max, body)
  }

  method Loop<S, V>(initial: Step<S, V>, maxIterations: int, stepFunc: LoopBody<S, V>) returns (r: Step<S, V>)
    ensures r == LoopResult(initial, maxIterations, stepFunc)
  {
    if maxIterations < 0 {
      return InvalidLoop(initial.state);
    }
    var current := initial;
    if current.outcome.Err? {
      return current;
    }
    if maxIterations == 0 {
      return WithSemanticDelta(current, LoopDelta(0, MAX_REACHED), Absent);
    }
    for iteration := 0 to maxIterations
      invariant current.outcome.Ok?
      invariant Iterate(initial, 0, maxIterations, stepFunc)
             == Iterate(current, iteration, maxIterations, stepFunc)
    {
      current := ApplyLoopIteration(
        current,
        stepFunc(iteration, current.outcome.value),
        LoopDelta(iteration, Decision(iteration, maxIterations)));
      if current.outcome.Err? {
        return current;
      }
    }
    return current;
  }

  // ----- LoopUntil -----

  type TimedBody<!S, !V> = (int, int, V) -> Attempt<Step<S, V>>

  /** `nowProvider` as the sequence of its readings, one per iteration. */
  type Clock = nat -> Attempt<int>

  datatype Timer = Timer(timeout: int, startedAt: int)

  /** The reading is in time, so the body runs. */
  predicate InTime(timer: Timer, reading: Attempt<int>) {
    reading.Returned? && reading.result - timer.startedAt < timer.timeout
  }

  function TimedIteration<S, V>(
    current: Step<S, V>, iteration: nat, max: nat, now: int, body: TimedBody<S, V>): Step<S, V>
    requires current.outcome.Ok?
  {
    ApplyLoopIteration(
      current,
      body(iteration, now, current.outcome.value),
      LoopUntilDelta(iteration, Some(now), Decision(iteration, max)))
  }

  function IterateUntil<S, V>(
    current: Step<S, V>, iteration: nat, max: nat, timer: Timer, clock: Clock, body: TimedBody<S, V>): Step<S, V>
    requires iteration <= max && current.outcome.Ok?
    decreases max - iteration
  {
    if iteration == max then
      WithSemanticDelta(current, LoopUntilDelta(max, None, MAX_REACHED), Absent)
    else
      match clock(iteration)
      case Threw(exn) => FailLoopIteration(current, exn, LoopUntilDelta(iteration, None, "clock_failed"))
      case Returned(now) =>
        if !InTime(timer, clock(iteration)) then
          WithSemanticDelta(current, LoopUntilDelta(iteration, Some(now), "timeout_reached"), Absent)
        else
          var next := TimedIteration(current, iteration, max, now, body);
          if next.outcome.Err? then next else IterateUntil(next, iteration + 1, max, timer, clock, body)
  }

  function LoopUntilResult<S, V>(
    initial: Step<S, V>, max: int, timer: Timer, clock: Clock, body: TimedBody<S, V>): Step<S, V>
  {
    if timer.timeout < 0 || max < 0 then InvalidLoop(initial.state)
    else if initial.outcome.Err? then initial
    else IterateUntil(initial, 0, max, timer, clock, body)
  }

  method LoopUntil<S, V>(initial: Step<S, V>, maxIterations: int, timer: Timer, clock: Clock, stepFunc: TimedBody<S, V>)
    returns (r: Step<S, V>)
    ensures r == LoopUntilResult(initial, maxIterations, timer, clock, stepFunc)
  {
    if timer.timeout < 0 || maxIterations < 0 {
      return InvalidLoop(initial.state);
    }
    var current := initial;
    if current.outcome.Err? {
      return current;
    }
    for iteration := 0 to maxIterations
      invariant current.outcome.Ok?
      invariant IterateUntil(initial, 0, maxIterations, timer, clock, stepFunc)
             == IterateUntil(current, iteration, maxIterations, timer, clock, stepFunc)
    {
      var reading := clock(iteration);
      if reading.Threw? {
        return FailLoopIteration(current, reading.exn, LoopUntilDelta(iteration, None, "clock_failed"));
      }
      var now := reading.result;
      if now - timer.startedAt >= timer.timeout {
        return WithSemanticDelta(
            current, LoopUntilDelta(iteration, Some(now), "timeout_reached"), Absent);
      }
      current := ApplyLoopIteration(
        current,
        stepFunc(iteration, now, current.outcome.value),
        LoopUntilDelta(iteration, Some(now), Decision(iteration, maxIterations)));
      if current.outcome.Err? {
        return current;
      }
    }
    return WithSemanticDelta(current, LoopUntilDelta(maxIterations, None, MAX_REACHED), Absent);
  }

  // ----- chains through loops -----

  /** What a step appended to `log` has to look like after one iteration. */
  ghost predicate Extends<S, V>(s: Step<S, V>, log: seq<Entry>) {
    log < s.log && Coherent(s)
  }

  /**
    One iteration extends the log and leaves a coherent step, also when the body threw or logged
    nothing, and also when the incoming step's own id was in no log.
  */
  lemma IterationExtends<S, V>(current: Step<S, V>, ran: Attempt<Step<S, V>>, delta: Delta)
    requires SelfChained(current.log)
    requires current.log == [] && ran.Returned? ==> SelfChained(ran.result.log)
    ensures Extends(ApplyLoopIteration(current, ran, delta), current.log)
  {
    var log := current.log;
    match ran
    case Threw(exn) =>
      var failed := FailLoopIteration(current, exn, delta);
      var hung := WithReplayLogPrefix(Fresh<S, V>(current.state, failed.outcome), log);
      assert hung.log == log;
      AppendKeepsTheChain(hung, delta, LastId(log, Absent));
    case Returned(next) =>
      var combined := WithReplayLogPrefix(next, log);
      if log != [] {
        RebaseChains(next.log, LastId(log, Absent));
        ChainConcat(log, Rebase(next.log, LastId(log, Absent)), log[0].parent);
        assert combined.log == log + Rebase(next.log, LastId(log, Absent));
        assert combined.log[0] == log[0];
      }
      LastOfNonEmpty(combined.log);
      AppendKeepsTheChain(combined, delta,
        if |combined.log| > |log| then combined.log[|combined.log| - 1].id else LastId(log, Absent));
      assert log <= combined.log;
  }

  /** No entry of a strict chain has the null id. */
  lemma LastOfNonEmpty(log: seq<Entry>)
    requires SelfChained(log)
    ensures log != [] ==> LastId(log, Absent).Hash?
  {
    if log != [] {
      assert log[|log| - 1] == Link(LastId(log[..|log| - 1], log[0].parent), PayloadOf(log[|log| - 1]));
    }
  }

  lemma {:induction false} IterateExtends<S, V>(
    current: Step<S, V>, iteration: nat, max: nat, body: LoopBody<S, V>)
    requires iteration < max && current.outcome.Ok?
    requires SelfChained(current.log)
    requires
      var ran := body(iteration, current.outcome.value);
      current.log == [] && ran.Returned? ==> SelfChained(ran.result.log)
    ensures Extends(Iterate(current, iteration, max, body), current.log)
    decreases max - iteration
  {
    var ran := body(iteration, current.outcome.value);
    var delta := LoopDelta(iteration, Decision(iteration, max));
    IterationExtends(current, ran, delta);
    var next := ApplyLoopIteration(current, ran, delta);
    if next.outcome.Ok? && iteration + 1 < max {
      IterateExtends(next, iteration + 1, max, body);
    }
  }

  /**
    `Loop` only appends. It leaves a strict chain and a coherent step as soon as one iteration runs;
    with no iteration it does so exactly when the incoming id is the last logged one.
  */
  lemma LoopExtends<S, V>(initial: Step<S, V>, max: nat, body: LoopBody<S, V>)
    requires initial.outcome.Ok? && SelfChained(initial.log)
    requires
      var ran := body(0, initial.outcome.value);
      initial.log == [] && ran.Returned? ==> SelfChained(ran.result.log)
    ensures initial.log < LoopResult(initial, max, body).log
    ensures
      Coherent(LoopResult(initial, max, body)) <==>
      max > 0 || Linkable(initial)
  {
    if max == 0 {
      AppendExtends(initial, LoopDelta(0, MAX_REACHED));
    } else {
      IterateExtends(initial, 0, max, body);
    }
  }

  /** The chain goes on from `s`: its log is empty or its own id is the last logged one. */
  ghost predicate Linkable<S, V>(s: Step<S, V>) {
    s.log == [] || s.id == LastId(s.log, Absent)
  }

  lemma AppendExtends<S, V>(s: Step<S, V>, delta: Delta)
    requires SelfChained(s.log)
    ensures s.log < WithSemanticDelta(s, delta, Absent).log
    ensures Coherent(WithSemanticDelta(s, delta, Absent)) <==> Linkable(s)
  {
    AppendKeepsTheChain(s, delta, Absent);
  }

  lemma {:induction false} IterateUntilExtends<S, V>(
    current: Step<S, V>, iteration: nat, max: nat, timer: Timer, clock: Clock, body: TimedBody<S, V>)
    requires iteration <= max && current.outcome.Ok?
    requires SelfChained(current.log)
    requires
      iteration < max && InTime(timer, clock(iteration)) ==>
      var ran := body(iteration, clock(iteration).result, current.outcome.value);
      current.log == [] && ran.Returned? ==> SelfChained(ran.result.log)
    ensures current.log < IterateUntil(current, iteration, max, timer, clock, body).log
    ensures
      Coherent(IterateUntil(current, iteration, max, timer, clock, body)) <==>
      || (iteration < max && (InTime(timer, clock(iteration)) || clock(iteration).Threw?))
      || Linkable(current)
    decreases max - iteration
  {
    if iteration == max {
      AppendExtends(current, LoopUntilDelta(max, None, MAX_REACHED));
    } else if clock(iteration).Threw? {
      IterationExtends(
        current, Threw(clock(iteration).exn), LoopUntilDelta(iteration, None, "clock_failed"));
    } else if InTime(timer, clock(iteration)) {
      var now := clock(iteration).result;
      var next := TimedIteration(current, iteration, max, now, body);
      TimedIterationExtends(current, iteration, max, now, body);
      if next.outcome.Ok? {
        IterateUntilExtends(next, iteration + 1, max, timer, clock, body);
      }
      IterateUntilUnfolds(current, iteration, max, timer, clock, body);
    } else {
      AppendExtends(current, LoopUntilDelta(iteration, Some(clock(iteration).result), "timeout_reached"));
    }
  }

  lemma IterateUntilUnfolds<S, V>(
    current: Step<S, V>, iteration: nat, max: nat, timer: Timer, clock: Clock, body: TimedBody<S, V>)
    requires iteration < max && current.outcome.Ok? && InTime(timer, clock(iteration))
    ensures
      var next := TimedIteration(current, iteration, max, clock(iteration).result, body);
      IterateUntil(current, iteration, max, timer, clock, body)
      == if next.outcome.Err? then next else IterateUntil(next, iteration + 1, max, timer, clock, body)
  {
  }

  lemma TimedIterationExtends<S, V>(
    current: Step<S, V>, iteration: nat, max: nat, now: int, body: TimedBody<S, V>)
    requires current.outcome.Ok? && SelfChained(current.log)
    requires
      var ran := body(iteration, now, current.outcome.value);
      current.log == [] && ran.Returned? ==> SelfChained(ran.result.log)
    ensures
      var next := TimedIteration(current, iteration, max, now, body);
      Extends(next, current.log) && next.log != [] && SelfChained(next.log) && Linkable(next)
  {
    IterationExtends(
      current, body(iteration, now, current.outcome.value),
      LoopUntilDelta(iteration, Some(now), Decision(iteration, max)));
  }

  /**
    `LoopUntil` likewise: an iteration that starts, or a clock that throws, repairs a dangling id; a
    loop that stops at once, by bound or by timeout, keeps the chain exactly when there was none.
  */
  lemma {:induction false} LoopUntilExtends<S, V>(
    initial: Step<S, V>, max: nat, timer: Timer, clock: Clock, body: TimedBody<S, V>)
    requires initial.outcome.Ok? && SelfChained(initial.log) && timer.timeout >= 0
    requires
      max > 0 && InTime(timer, clock(0)) ==>
      var ran := body(0, clock(0).result, initial.outcome.value);
      initial.log == [] && ran.Returned? ==> SelfChained(ran.result.log)
    ensures initial.log < LoopUntilResult(initial, max, timer, clock, body).log
    ensures
      Coherent(LoopUntilResult(initial, max, timer, clock, body)) <==>
      || (max > 0 && (InTime(timer, clock(0)) || clock(0).Threw?))
      || Linkable(initial)
  {
    IterateUntilExtends(initial, 0, max, timer, clock, body);
    assert LoopUntilResult(initial, max, timer, clock, body) == IterateUntil(initial, 0, max, timer, clock, body);
  }

  // ----- suspend and resume -----

  function Suspend<S, V>(state: S, reason: string): Step<S, V> {
    var text := if IsBlank(reason) then "Pipeline suspended." else reason;
    var metadata := map["delta.kind" := Str("suspend"), "suspend_reason" := Str(text)];
    var error := Error(SUSPENDED, true, Some(Quarantine), Some(KernelFacade), Some(SlotT), Some(metadata));
    WithSemanticDelta(
      Fresh(state, Err(error)),
      Delta("pipeline.suspend", Some(KernelFacade), Some(SlotT), Some(metadata), Some("suspend")),
      Absent)
  }

  function Resume<S, V>(previous: seq<Entry>, state: S, value: V, reason: string): Step<S, V> {
    var text := if IsBlank(reason) then "Pipeline resumed." else reason;
    var metadata := map[
      "delta.kind" := Str("resume"),
      "resume_reason" := Str(text),
      "previous_replay_log_count" := Num(|previous|),
      "previous_replay_log_hash" := LogDigest(previous)];
    WithSemanticDelta(
      WithReplayLogPrefix(Fresh(state, Ok(value)), previous),
      Delta("pipeline.resume", Some(KernelFacade), Some(SlotT), Some(metadata), Some("resume")),
      LastId(previous, Absent))
  }

  /**
    Resuming extends the suspended log by one entry, linked to its last id, that names the length and
    the hash of exactly that log; the result is coherent, so work can go on from it.
  */
  lemma ResumeExtends<S, V>(previous: seq<Entry>, state: S, value: V, reason: string)
    requires SelfChained(previous)
    ensures
      var resumed := Resume(previous, state, value, reason);
      && Extends(resumed, previous)
      && |resumed.log| == |previous| + 1
      && resumed.parent == LastId(previous, RootId(Ok(value)))
      && resumed.delta.metadata.Some?
      && "previous_replay_log_count" in resumed.delta.metadata.value
      && resumed.delta.metadata.value["previous_replay_log_count"] == Num(|previous|)
      && "previous_replay_log_hash" in resumed.delta.metadata.value
      && resumed.delta.metadata.value["previous_replay_log_hash"] == LogDigest(previous)
      && resumed.outcome == Ok(value)
      && resumed.state == state
      && "resume_reason" in resumed.delta.metadata.value
      && resumed.delta.metadata.value["resume_reason"] == Str(if IsBlank(reason) then "Pipeline resumed." else reason)
      && resumed.delta.name == "pipeline.resume" && resumed.delta.kind == Some("resume")
      && resumed.log[|previous|].delta == resumed.delta && resumed.log[|previous|].ok
  {
    LastOfNonEmpty(previous);
    var hung := WithReplayLogPrefix(Fresh(state, Ok(value)), previous);
    assert hung.log == previous;
    AppendKeepsTheChain(hung, Resume(previous, state, value, reason).delta, LastId(previous, Absent));
  }
}
