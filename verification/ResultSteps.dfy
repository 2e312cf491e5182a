/**
  Result steps: a state, a value or an error, a step id and a replay log, with the monadic operations
  of `ResultStep<TState, TValue>`.

  A step whose log is empty still has an id, which occurs in no log. The laws below say exactly where
  that id shows.
*/
module ResultSteps {
  import opened Common
  import opened ReplayLog

  datatype FailureKind = FailClosed | Reject | Quarantine

  /** `ErrorContext` without its message text. */
  datatype Error = Error(
    code: string,
    retryable: bool,
    failure: Option<FailureKind>,
    origin: Option<Origin>,
    slot: Option<Slot>,
    metadata: Option<Metadata>)

  const UNHANDLED_EXCEPTION := "UNHANDLED_EXCEPTION"

  function FromException(exn: Exn): Error {
    Error(UNHANDLED_EXCEPTION, false, None, None, None,
          Some(map["exception_type" := Str(exn.typeName)]))
  }

  datatype Outcome<+V> = Ok(value: V) | Err(error: Error)
  {
    function Code(): Option<string> {
      if Ok? then None else Some(error.code)
    }
  }

  /** A step id is never null: the constructor computes one when none is given. */
  type StepId = id: Id | id.Hash? witness Hash(Absent, EMPTY_DELTA, true, None)

  datatype Step<+S, +V> = Step(
    state: S,
    outcome: Outcome<V>,
    id: StepId,
    delta: Delta,
    parent: Id,
    log: seq<Entry>)

  /** The id of a step that was given neither delta nor parent. */
  function RootId<V>(outcome: Outcome<V>): StepId {
    Hash(Absent, EMPTY_DELTA, outcome.Ok?, outcome.Code())
  }

  /** `Success` and `Fail`. */
  function Fresh<S, V>(state: S, outcome: Outcome<V>): Step<S, V> {
    Step(state, outcome, RootId(outcome), EMPTY_DELTA, Absent, [])
  }

  /** `WithSemanticDelta`: one more entry, under `parentStepId` or else under the step's own id. */
  function WithSemanticDelta<S, V>(s: Step<S, V>, delta: Delta, parentStepId: Id): Step<S, V> {
    var parent := if parentStepId.Absent? then s.id else parentStepId;
    var entry := Link(parent, Payload(delta, s.outcome.Ok?, s.outcome.Code()));
    Step(s.state, s.outcome, entry.id, delta, parent, s.log + [entry])
  }

  /** `WithParentStepId`: the log re-hung under a parent and put after a prefix. */
  function WithParentStepId<S, V>(s: Step<S, V>, parent: Id, prefix: seq<Entry>): Step<S, V> {
    var rebased := Rebase(s.log, parent);
    var final :=
      if rebased != [] then rebased[|rebased| - 1]
      else Link(parent, Payload(s.delta, s.outcome.Ok?, s.outcome.Code()));
    Step(s.state, s.outcome, FinalId(s, parent), final.delta, final.parent, prefix + rebased)
  }

  function FinalId<S, V>(s: Step<S, V>, parent: Id): StepId {
    RebaseChains(s.log, parent);
    LastId(Rebase(s.log, parent), Hash(parent, s.delta, s.outcome.Ok?, s.outcome.Code()))
  }

  function WithReplayLogPrefix<S, V>(s: Step<S, V>, prefix: seq<Entry>): Step<S, V> {
    if prefix == [] then s else WithParentStepId(s, prefix[|prefix| - 1].id, prefix)
  }

  function PropagateFailure<S, V, W>(s: Step<S, V>): Step<S, W>
    requires s.outcome.Err?
  {
    Step(s.state, Err(s.outcome.error), s.id, s.delta, s.parent, s.log)
  }

  function FailWithCurrentTrace<S, V, W>(s: Step<S, V>, error: Error): Step<S, W> {
    var marked := MarkFailure(s.log, error.code);
    var final := marked[|marked| - 1];
    Step(s.state, Err(error), final.id, final.delta, final.parent, marked)
  }

  function Map<S, V, W>(s: Step<S, V>, mapper: V -> Attempt<W>): Step<S, W> {
    if s.outcome.Err? then PropagateFailure(s)
    else
      match mapper(s.outcome.value)
      case Returned(w) => Step(s.state, Ok(w), s.id, s.delta, s.parent, s.log)
      case Threw(exn) => FailWithCurrentTrace(s, FromException(exn))
  }

  type Binder<!S, !V, !W> = V -> Attempt<Step<S, W>>

  function Bind<S, V, W>(s: Step<S, V>, binder: Binder<S, V, W>): Step<S, W> {
    if s.outcome.Err? then PropagateFailure(s)
    else
      match binder(s.outcome.value)
      case Returned(next) => WithParentStepId(next, s.id, s.log)
      case Threw(exn) => FailWithCurrentTrace(s, FromException(exn))
  }

  /** `v => f(v).Bind(g)`; an exception of `f` passes through. */
  function Then<S, U, V, W>(f: Binder<S, U, V>, g: Binder<S, V, W>): Binder<S, U, W> {
    u =>
      match f(u)
      case Returned(next) => Returned(Bind(next, g))
      case Threw(exn) => Threw(exn)
  }

  // ----- what the operations answer -----

  /** A callback threw: the step fails with the exception's error, and its last entry is marked as failed. */
  ghost predicate FailsInPlace<S, V, W>(s: Step<S, V>, exn: Exn, r: Step<S, W>) {
    && r.state == s.state
    && r.outcome == Err(Error("UNHANDLED_EXCEPTION", false, None, None, None,
                              Some(map["exception_type" := Str(exn.typeName)])))
    && IsMarked(s.log, "UNHANDLED_EXCEPTION", r.log)
    && var last := r.log[|r.log| - 1];
       r.id == last.id && r.delta == last.delta && r.parent == last.parent
  }

  ghost predicate IsUnchanged<S, V, W>(s: Step<S, V>, r: Step<S, W>) {
    r.state == s.state && r.id == s.id && r.delta == s.delta && r.parent == s.parent && r.log == s.log
  }

  /** `Map` changes the value and nothing else; a failure passes through, an exception fails in place. */
  lemma MapAnswers<S, V, W>(s: Step<S, V>, mapper: V -> Attempt<W>)
    ensures
      var r := Map(s, mapper);
      match s.outcome
      case Err(error) => IsUnchanged(s, r) && r.outcome == Err(error)
      case Ok(value) =>
        match mapper(value)
        case Returned(w) => IsUnchanged(s, r) && r.outcome == Ok(w)
        case Threw(exn) => FailsInPlace(s, exn, r)
  {
  }

  /**
    `Bind` takes state and outcome of the binder's step, and its entries, re-hung under the step's own id,
    behind the step's; a failure passes through, an exception fails in place.
  */
  lemma BindAnswers<S, V, W>(s: Step<S, V>, binder: Binder<S, V, W>)
    ensures
      var r := Bind(s, binder);
      match s.outcome
      case Err(error) => IsUnchanged(s, r) && r.outcome == Err(error)
      case Ok(value) =>
        match binder(value)
        case Threw(exn) => FailsInPlace(s, exn, r)
        case Returned(next) =>
          && r.state == next.state
          && r.outcome == next.outcome
          && s.log <= r.log
          && Chained(r.log[|s.log|..], s.id)
          && Payloads(r.log[|s.log|..]) == Payloads(next.log)
  {
    if s.outcome.Ok? && binder(s.outcome.value).Returned? {
      var next := binder(s.outcome.value).result;
      RebaseChains(next.log, s.id);
      assert Bind(s, binder).log[|s.log|..] == Rebase(next.log, s.id);
    }
  }

  // ----- ids -----

  /** Ids grow along a chain. */
  lemma {:induction false} IdsGrow(log: seq<Entry>, root: Id)
    requires Chained(log, root)
    ensures forall e | e in log :: root < e.id
    ensures forall e | e in log :: e.id == LastId(log, root) || e.id < LastId(log, root)
    decreases |log|
  {
    if log != [] {
      var front, last := log[..|log| - 1], log[|log| - 1];
      IdsGrow(front, root);
      assert LastId(front, root) < last.id;
      assert log == front + [last];
    }
  }

  /**
    A step re-hung under the end of a chain gets a new id: that of the last entry, if it logged something;
    otherwise one that occurs nowhere in the log.
  */
  lemma RehungId<S, V>(s: Step<S, V>, prefix: seq<Entry>, root: Id)
    requires Chained(prefix, root)
    ensures
      var parent := LastId(prefix, root);
      var next := WithParentStepId(s, parent, prefix);
      && next.id != parent
      && (forall e | e in prefix :: e.id != next.id)
      && (s.log != [] ==> next.log != [] && next.id == next.log[|next.log| - 1].id)
      && (s.log == [] ==> next.log == prefix)
  {
    var parent := LastId(prefix, root);
    var rebased := Rebase(s.log, parent);
    IdsGrow(prefix, root);
    RebaseChains(s.log, parent);
    IdsGrow(rebased, parent);
    if rebased == [] {
      assert parent < Hash(parent, s.delta, s.outcome.Ok?, s.outcome.Code());
    } else {
      assert rebased[|rebased| - 1] in rebased;
    }
  }

  // ----- associativity -----

  /** The run stops before `g`: the first step failed, `f` threw, or `f`'s step failed. */
  predicate StopsEarly<S, U, V>(a: Step<S, U>, f: Binder<S, U, V>) {
    a.outcome.Err? || f(a.outcome.value).Threw? || f(a.outcome.value).result.outcome.Err?
  }

  function Middle<S, U, V>(a: Step<S, U>, f: Binder<S, U, V>): Step<S, V>
    requires !StopsEarly(a, f)
  {
    f(a.outcome.value).result
  }

  /** What `g` did with the value of the middle step. */
  function Last<S, U, V, W>(a: Step<S, U>, f: Binder<S, U, V>, g: Binder<S, V, W>): Attempt<Step<S, W>>
    requires !StopsEarly(a, f)
  {
    g(Middle(a, f).outcome.value)
  }

  lemma IdsAreWellFounded(parent: Id, delta: Delta, ok: bool, code: Option<string>)
    ensures Hash(parent, delta, ok, code) != parent
  {
    assert parent < Hash(parent, delta, ok, code);
  }

  lemma RebaseHead(log: seq<Entry>, parent: Id)
    requires log != []
    ensures Rebase(log, parent)[0].parent == parent
  {
    RebaseChains(log, parent);
    ChainedAt(Rebase(log, parent), parent, 0);
  }

  /** Rebasing the same non-empty log under different parents gives logs that differ at their head. */
  lemma RebaseSeparates(log: seq<Entry>, p: Id, q: Id, prefix: seq<Entry>)
    requires log != [] && p != q
    ensures prefix + Rebase(log, p) != prefix + Rebase(log, q)
  {
    RebaseHead(log, p);
    RebaseHead(log, q);
    assert (prefix + Rebase(log, p))[|prefix|].parent == p;
    assert (prefix + Rebase(log, q))[|prefix|].parent == q;
  }

  /**
    Associativity of `Bind` for every kind of binder. The two groupings always agree on state and
    outcome. They agree on the log, and on the whole step, exactly under the stated conditions on which
    of the two later steps logged something.
  */
  lemma BindAssociativity<S, U, V, W>(a: Step<S, U>, f: Binder<S, U, V>, g: Binder<S, V, W>)
    ensures
      var left, right := Bind(Bind(a, f), g), Bind(a, Then(f, g));
      && left.state == right.state
      && left.outcome == right.outcome
      && (left.log == right.log <==>
          || StopsEarly(a, f)
          || Middle(a, f).log != []
          || (Last(a, f, g).Returned? && Last(a, f, g).result.log == []))
      && (Payloads(left.log) == Payloads(right.log) <==>
          || StopsEarly(a, f)
          || Middle(a, f).log != []
          || Last(a, f, g).Returned?
          || a.log == [])
      && (left == right <==>
          || StopsEarly(a, f)
          || (Middle(a, f).log != []
              && (Last(a, f, g).Threw? || Last(a, f, g).result.log != [])))
  {
    if !StopsEarly(a, f) {
      match Last(a, f, g)
      case Returned(_) => AssociativityWhenReturned(a, f, g);
      case Threw(_) => AssociativityWhenThrown(a, f, g);
    }
  }

  lemma AssociativityWhenReturned<S, U, V, W>(a: Step<S, U>, f: Binder<S, U, V>, g: Binder<S, V, W>)
    requires !StopsEarly(a, f) && Last(a, f, g).Returned?
    ensures
      var left, right := Bind(Bind(a, f), g), Bind(a, Then(f, g));
      var b, c := Middle(a, f), Last(a, f, g).result;
      && left.state == right.state
      && left.outcome == right.outcome
      && (left.log == right.log <==> b.log != [] || c.log == [])
      && Payloads(left.log) == Payloads(right.log)
      && (left == right <==> b.log != [] && c.log != [])
  {
    var b, c := Middle(a, f), Last(a, f, g).result;
    var ab, bc := Bind(a, f), Bind(b, g);
    var left, right := Bind(ab, g), Bind(a, Then(f, g));
    assert right == WithParentStepId(bc, a.id, a.log);
    var inner := LastId(Rebase(b.log, a.id), a.id);
    assert left.log == a.log + (Rebase(b.log, a.id) + Rebase(c.log, ab.id));
    var whole := Rebase(bc.log, a.id);
    assert whole == Rebase(b.log, a.id) + Rebase(c.log, inner) by {
      RebaseConcat(b.log, Rebase(c.log, b.id), a.id);
      RebaseAbsorbs(c.log, b.id, inner);
    }
    assert right.log == a.log + (Rebase(b.log, a.id) + Rebase(c.log, inner));
    assert Payloads(left.log) == Payloads(right.log) by {
      RebaseChains(c.log, ab.id);
      RebaseChains(c.log, inner);
      PayloadsConcat(Rebase(b.log, a.id), Rebase(c.log, ab.id));
      PayloadsConcat(Rebase(b.log, a.id), Rebase(c.log, inner));
      PayloadsConcat(a.log, Rebase(b.log, a.id) + Rebase(c.log, ab.id));
      PayloadsConcat(a.log, Rebase(b.log, a.id) + Rebase(c.log, inner));
    }
    IdsAreWellFounded(a.id, b.delta, b.outcome.Ok?, b.outcome.Code());
    if b.log == [] {
      if c.log != [] {
        RebaseSeparates(c.log, ab.id, a.id, a.log);
        assert left.log == a.log + Rebase(c.log, ab.id);
        assert right.log == a.log + Rebase(c.log, a.id);
      }
    } else {
      assert ab.id == inner;
      if c.log == [] {
        assert bc.log == b.log;
        assert right.id == inner;
        IdsAreWellFounded(inner, c.delta, c.outcome.Ok?, c.outcome.Code());
      } else {
        assert whole[|whole| - 1] == Rebase(c.log, inner)[|c.log| - 1];
      }
    }
  }

  lemma AssociativityWhenThrown<S, U, V, W>(a: Step<S, U>, f: Binder<S, U, V>, g: Binder<S, V, W>)
    requires !StopsEarly(a, f) && Last(a, f, g).Threw?
    ensures
      var left, right := Bind(Bind(a, f), g), Bind(a, Then(f, g));
      var b := Middle(a, f);
      && left.state == right.state
      && left.outcome == right.outcome
      && (left.log == right.log <==> b.log != [])
      && (Payloads(left.log) == Payloads(right.log) <==> b.log != [] || a.log == [])
      && (left == right <==> b.log != [])
  {
    var b := Middle(a, f);
    var code := UNHANDLED_EXCEPTION;
    var ab, bc := Bind(a, f), Bind(b, g);
    var left, right := Bind(ab, g), Bind(a, Then(f, g));
    assert right == WithParentStepId(bc, a.id, a.log);
    assert left.log == MarkFailure(ab.log, code);
    assert right.log == a.log + Rebase(MarkFailure(b.log, code), a.id);
    if b.log == [] {
      assert ab.log == a.log;
      RebaseHead(MarkFailure([], code), a.id);
      assert |left.log| == |Payloads(left.log)| && |right.log| == |Payloads(right.log)|;
      if a.log == [] {
        assert right.log == Rebase(MarkFailure([], code), a.id);
        assert left.log[0].parent != right.log[0].parent;
        RebaseChains(MarkFailure([], code), a.id);
      }
    } else {
      MarkCommutesWithRebase(b.log, code, a.id);
      var n := |b.log| - 1;
      assert ab.log[..|ab.log| - 1] == a.log + Rebase(b.log, a.id)[..n];
      assert left.log == right.log;
    }
  }

  // ----- identities -----

  /** The outcome, the id and the last log entry tell the same story, and the log is a strict chain. */
  ghost predicate Coherent<S, V>(s: Step<S, V>) {
    s.log != [] ==>
      var last := s.log[|s.log| - 1];
      && SelfChained(s.log)
      && s.id == last.id && s.delta == last.delta && s.parent == last.parent
      && last.ok == s.outcome.Ok? && last.code == s.outcome.Code()
  }

  /**
    Left identity holds exactly for the steps that hang from the root of a success already: with a log,
    a strict chain from there that ends in the step; without one, an id recomputed under that root. State,
    outcome and payloads are kept for every step.
  */
  lemma LeftIdentity<S, V, W>(state: S, value: V, binder: Binder<S, V, W>, next: Step<S, W>)
    requires binder(value) == Returned(next)
    ensures
      var bound, root := Bind(Fresh(state, Ok(value)), binder), RootId(Ok(value));
      && bound.state == next.state
      && bound.outcome == next.outcome
      && Payloads(bound.log) == Payloads(next.log)
      && (bound == next <==>
          if next.log == [] then
            next.parent == root && next.id == Hash(root, next.delta, next.outcome.Ok?, next.outcome.Code())
          else
            var last := next.log[|next.log| - 1];
            Chained(next.log, root) && next.id == last.id && next.delta == last.delta && next.parent == last.parent)
  {
    var root := RootId(Ok(value));
    assert Bind(Fresh(state, Ok(value)), binder).log == Rebase(next.log, root);
    RebaseChains(next.log, root);
    RebaseAbsorbs(next.log, root, root);
  }

  /** So it holds for a coherent step if its first entry hangs from there, and never for a fresh one. */
  lemma LeftIdentityOfCoherent<S, V, W>(state: S, value: V, binder: Binder<S, V, W>, next: Step<S, W>)
    requires binder(value) == Returned(next) && Coherent(next)
    requires next.log == [] ==> next == Fresh(next.state, next.outcome)
    ensures Bind(Fresh(state, Ok(value)), binder) == next
       <==> next.log != [] && next.log[0].parent == RootId(Ok(value))
  {
    LeftIdentity(state, value, binder, next);
    if next.log != [] && next.log[0].parent != RootId(Ok(value)) {
      RebaseHead(next.log, RootId(Ok(value)));
    }
  }

  /** Right identity holds for outcome and log only: the bound step always carries an id of its own. */
  lemma RightIdentity<S, V>(s: Step<S, V>, state: S, pure: Binder<S, V, V>)
    requires s.outcome.Ok? && pure(s.outcome.value) == Returned(Fresh(state, Ok(s.outcome.value)))
    ensures Bind(s, pure).outcome == s.outcome && Bind(s, pure).log == s.log
    ensures Bind(s, pure).state == state && Bind(s, pure).id != s.id
  {
    IdsAreWellFounded(s.id, EMPTY_DELTA, true, None);
  }

  // ----- chains -----

  /**
    `WithSemanticDelta` keeps a non-empty strict chain strict exactly when the chosen parent is the
    last id, and always leaves id, delta and outcome in step with the new last entry.
  */
  lemma AppendKeepsTheChain<S, V>(s: Step<S, V>, delta: Delta, parentStepId: Id)
    requires SelfChained(s.log)
    ensures
      var next := WithSemanticDelta(s, delta, parentStepId);
      var parent := if parentStepId.Absent? then s.id else parentStepId;
      && (SelfChained(next.log) <==> s.log == [] || parent == LastId(s.log, Absent))
      && (SelfChained(next.log) <==> Coherent(next))
  {
    var next := WithSemanticDelta(s, delta, parentStepId);
    var e := next.log[|s.log|];
    if s.log == [] {
      ChainOfOne(e, e.parent);
      assert next.log == [e];
    } else {
      assert next.log[0] == s.log[0];
      ChainExtends(s.log, e, s.log[0].parent);
    }
  }

  /** Hanging a coherent step under the end of a strict chain gives a strict chain. */
  lemma PrefixKeepsTheChain<S, V>(next: Step<S, V>, parent: Id, prefix: seq<Entry>)
    requires Coherent(next)
    requires prefix != [] ==> SelfChained(prefix) && parent == LastId(prefix, Absent)
    ensures SelfChained(WithParentStepId(next, parent, prefix).log)
    ensures Coherent(WithParentStepId(next, parent, prefix)) <==> next.log != [] || prefix == []
  {
    var rebased := Rebase(next.log, parent);
    var log := prefix + rebased;
    var root := if prefix == [] then parent else prefix[0].parent;
    RebaseChains(next.log, parent);
    ChainConcat(prefix, rebased, root);
    if rebased != [] {
      RebaseHead(next.log, parent);
      var n := |rebased| - 1;
      assert log[|log| - 1] == rebased[n];
      assert PayloadOf(rebased[n]) == Payloads(rebased)[n] == Payloads(next.log)[n];
    } else {
      assert log == prefix;
      IdsAreWellFounded(parent, next.delta, next.outcome.Ok?, next.outcome.Code());
    }
  }

  /**
    Binding a coherent step gives a strict chain, whatever the binder logs. The bound step is coherent
    again unless the binder's step logged nothing after a non-empty log; its id is then in no log.
  */
  lemma BindKeepsTheChain<S, V, W>(s: Step<S, V>, binder: Binder<S, V, W>)
    requires Coherent(s)
    requires s.outcome.Ok? && binder(s.outcome.value).Returned?
         ==> Coherent(binder(s.outcome.value).result)
    ensures SelfChained(Bind(s, binder).log)
    ensures
      Coherent(Bind(s, binder)) <==>
      || s.outcome.Err?
      || binder(s.outcome.value).Threw?
      || binder(s.outcome.value).result.log != []
      || s.log == []
  {
    if s.outcome.Ok? {
      match binder(s.outcome.value)
      case Threw(_) => MarkedIsChained(s.log, UNHANDLED_EXCEPTION);
      case Returned(next) => PrefixKeepsTheChain(next, s.id, s.log);
    }
  }

  lemma MarkedIsChained(log: seq<Entry>, code: string)
    requires SelfChained(log)
    ensures SelfChained(MarkFailure(log, code))
  {
    if log != [] {
      MarkKeepsTheChain(log, code, log[0].parent);
      var marked := MarkFailure(log, code);
      if |log| > 1 {
        assert marked[0] == marked[..|log| - 1][0] == log[..|log| - 1][0];
      } else {
        assert marked[0].parent == log[0].parent;
      }
    } else {
      ChainOfOne(MarkFailure(log, code)[0], Absent);
    }
  }
}
