/**
  `do` notation of the Python binding: a generator yields results, and a loop feeds their values back to
  it, merging metadata, until it returns, raises, or yields a failure.
*/
module ResultDo {

  /** What a failure carries: an object or exception of the program, or an error of the library. */
  datatype Cause<V> = Object(value: V) | TypeError | AttributeError

  type Metadata<V> = map<string, V>

  datatype Result<V> =
    | Success(value: V, metadata: Metadata<V>)
    | Failure(cause: Cause<V>, metadata: Metadata<V>)

  function WithMetadata<V>(r: Result<V>, metadata: Metadata<V>): Result<V> {
    r.(metadata := metadata)
  }

  /**
    What a program hands over where a result is expected: a result, or another object. Such an object may
    have a `bind` of its own; `answer` is what calling it comes to, AttributeError if there is none.
  */
  datatype Yielded<V> = AResult(result: Result<V>) | Other(answer: Called<V>)

  datatype Called<V> = Gave(yielded: Yielded<V>) | Raised(cause: Cause<V>)

  function Bind<V>(r: Result<V>, f: V -> Called<V>): Result<V> {
    match r
    case Failure(_, _) => r
    case Success(value, metadata) => Settle(metadata, f(value))
  }

  /** What `bind` makes of its callback's answer. */
  function Settle<V>(metadata: Metadata<V>, called: Called<V>): Result<V> {
    match called
    case Raised(cause) => Failure(cause, metadata)
    case Gave(Other(_)) => Failure(TypeError, metadata)
    case Gave(AResult(next)) => WithMetadata(next, metadata + next.metadata)
  }

  /** `f(value).bind(g)`; an object that is not a result gives the answer of its own `bind`, if any. */
  function BindCall<V>(called: Called<V>, g: V -> Called<V>): Called<V> {
    match called
    case Raised(cause) => called
    case Gave(Other(answer)) => answer
    case Gave(AResult(r)) => Gave(AResult(Bind(r, g)))
  }

  /** Every key of either side, with the later value where both have it. */
  ghost predicate IsMerged<V>(metadata: Metadata<V>, earlier: Metadata<V>, later: Metadata<V>) {
    && (forall key :: key in metadata <==> key in earlier || key in later)
    && forall key | key in metadata :: metadata[key] == if key in later then later[key] else earlier[key]
  }

  /**
    A failure does not call back. A success takes over value or cause of the result it is given, and its
    metadata over its own; an exception, or anything that is no result, fails with its own metadata.
  */
  lemma BindAnswers<V>(r: Result<V>, f: V -> Called<V>)
    ensures r.Failure? ==> Bind(r, f) == r
    ensures r.Success? ==>
      match f(r.value)
      case Raised(cause) => Bind(r, f) == Failure(cause, r.metadata)
      case Gave(Other(_)) => Bind(r, f) == Failure(TypeError, r.metadata)
      case Gave(AResult(Success(value, more))) =>
        Bind(r, f).Success? && Bind(r, f).value == value && IsMerged(Bind(r, f).metadata, r.metadata, more)
      case Gave(AResult(Failure(cause, more))) =>
        Bind(r, f).Failure? && Bind(r, f).cause == cause && IsMerged(Bind(r, f).metadata, r.metadata, more)
  {
  }

  /**
    The answer of a foreign `bind` comes to a TypeError as well: it is again no result, or raises
    TypeError, or is a result that failed with TypeError and adds nothing to the metadata gathered so far.
  */
  ghost predicate IsTypeError<V>(answer: Called<V>, metadata: Metadata<V>) {
    match answer
    case Raised(cause) => cause == TypeError
    case Gave(Other(_)) => true
    case Gave(AResult(Success(_, _))) => false
    case Gave(AResult(Failure(cause, more))) => cause == TypeError && metadata + more == metadata
  }

  /**
    `bind` is associative, metadata and exceptions included, unless the first callback returns a foreign
    object whose own `bind` does not come to a TypeError.
  */
  lemma BindAssociativity<V>(r: Result<V>, f: V -> Called<V>, g: V -> Called<V>)
    ensures Bind(Bind(r, f), g) == Bind(r, v => BindCall(f(v), g))
       <==>
         r.Success? && f(r.value).Gave? && f(r.value).yielded.Other? ==>
           IsTypeError(f(r.value).yielded.answer, r.metadata)
  {
    if r.Success? {
      match f(r.value)
      case Gave(AResult(m)) =>
        if m.Success? {
          match g(m.value)
          case Gave(AResult(n)) =>
            assert (r.metadata + m.metadata) + n.metadata == r.metadata + (m.metadata + n.metadata);
          case _ =>
        }
      case _ =>
    }
  }

  /**
    The library's other monads. `Option` and `Either` call back with their value, and want an object of
    their own kind, as `sameKind` says of what is no result; without a value they return themselves. The
    asynchronous ones return a promise and call back later.
  */
  datatype Foreign<V> = Empty | Full(value: V, sameKind: bool) | Promise

  function ForeignBind<V>(o: Foreign<V>, g: V -> Called<V>): Called<V> {
    match o
    case Empty => Gave(Other(Raised(TypeError)))
    case Promise => Gave(Other(Raised(TypeError)))
    case Full(value, sameKind) =>
      match g(value)
      case Raised(_) => g(value)
      case Gave(AResult(_)) => Raised(TypeError)
      case Gave(Other(_)) => if sameKind then g(value) else Raised(TypeError)
  }

  /** With the library's own monads the law fails only if the second callback raises another error. */
  lemma ForeignMonadsAssociate<V>(r: Result<V>, f: V -> Called<V>, g: V -> Called<V>, o: Foreign<V>)
    requires r.Success? && f(r.value) == Gave(Other(ForeignBind(o, g)))
    ensures Bind(Bind(r, f), g) == Bind(r, v => BindCall(f(v), g))
       <==> !(o.Full? && g(o.value).Raised? && g(o.value).cause != TypeError)
  {
    BindAssociativity(r, f, g);
  }

  // ----- programs -----

  /** A generator waiting to be sent a value. */
  datatype Program<!V, Y> =
    | Return(value: V)
    | Raise(cause: Cause<V>)
    | Yield(yielded: Y, resume: V -> Program<V, Y>)

  /** What calling the decorated function gives: a generator, a plain value, or an exception. */
  datatype Body<!V, Y> = Generator(program: Program<V, Y>) | Plain(value: V) | NoCall(cause: Cause<V>)

  /** The run of the program, each value being sent back, ends after at most `n` yields. */
  predicate EndsWithin<V>(p: Program<V, Yielded<V>>, n: nat)
    decreases n
  {
    match p
    case Yield(AResult(Success(value, _)), resume) => n > 0 && EndsWithin(resume(value), n - 1)
    case _ => true
  }

  /** The result of a program that has gathered `metadata` so far. */
  ghost function Outcome<V>(p: Program<V, Yielded<V>>, metadata: Metadata<V>, n: nat): Result<V>
    requires EndsWithin(p, n)
    decreases n
  {
    match p
    case Return(value) => Success(value, metadata)
    case Raise(cause) => Failure(cause, metadata)
    case Yield(Other(_), _) => Failure(TypeError, metadata)
    case Yield(AResult(Failure(cause, more)), _) => Failure(cause, metadata + more)
    case Yield(AResult(Success(value, more)), resume) => Outcome(resume(value), metadata + more, n - 1)
  }

  ghost function OutcomeOf<V>(body: Body<V, Yielded<V>>, n: nat): Result<V>
    requires body.Generator? ==> EndsWithin(body.program, n)
  {
    match body
    case Plain(value) => Success(value, map[])
    case NoCall(cause) => Failure(cause, map[])
    case Generator(p) => Outcome(p, map[], n)
  }

  /** The wrapper that `do(Result)` makes of a function. */
  method Do<V(0)>(body: Body<V, Yielded<V>>, ghost n: nat) returns (r: Result<V>)
    requires body.Generator? ==> EndsWithin(body.program, n)
    ensures r == OutcomeOf(body, n)
  {
    var metadata: Metadata<V> := map[];
    if body.NoCall? {
      return Failure(body.cause, metadata);
    }
    if body.Plain? {
      return Success(body.value, metadata);
    }
    var p := body.program;
    ghost var left := n;
    while true
      invariant EndsWithin(p, left) && Outcome(p, metadata, left) == Outcome(body.program, map[], n)
      decreases left
    {
      match p
      case Return(value) =>
        return Success(value, metadata);
      case Raise(cause) =>
        return Failure(cause, metadata);
      case Yield(yielded, resume) =>
        if yielded.Other? {
          return Failure(TypeError, metadata);
        }
        var monad := yielded.result;
        if monad.Failure? {
          return WithMetadata(monad, metadata + monad.metadata);
        }
        metadata := metadata + monad.metadata;
        p := resume(monad.value);
        left := left - 1;
    }
  }

  /** The same program written with `n` nested calls of `bind`. */
  ghost function Chain<V>(p: Program<V, Yielded<V>>, n: nat): Called<V>
    decreases n
  {
    match p
    case Return(value) => Gave(AResult(Success(value, map[])))
    case Raise(cause) => Raised(cause)
    case Yield(Other(answer), _) => answer
    case Yield(AResult(r), resume) =>
      if n == 0 then Gave(AResult(r)) else Gave(AResult(Bind(r, v => Chain(resume(v), n - 1))))
  }

  /** If the run ends at a foreign object, its own `bind` comes to a TypeError. */
  ghost predicate EndsAlike<V>(p: Program<V, Yielded<V>>, metadata: Metadata<V>, n: nat)
    requires EndsWithin(p, n)
    decreases n
  {
    match p
    case Yield(AResult(Success(value, more)), resume) => EndsAlike(resume(value), metadata + more, n - 1)
    case Yield(Other(answer), _) => IsTypeError(answer, metadata)
    case _ => true
  }

  lemma SettleTwice<V>(first: Metadata<V>, second: Metadata<V>, called: Called<V>)
    ensures Settle(first, Gave(AResult(Settle(second, called)))) == Settle(first + second, called)
  {
    match called
    case Gave(AResult(next)) =>
      assert first + (second + next.metadata) == (first + second) + next.metadata;
    case _ =>
      assert first + second == first + second;
  }

  lemma ChainUnfolds<V>(p: Program<V, Yielded<V>>, n: nat)
    requires p.Yield? && p.yielded.AResult? && p.yielded.result.Success? && n > 0
    ensures
      var r := p.yielded.result;
      Chain(p, n) == Gave(AResult(Settle(r.metadata, Chain(p.resume(r.value), n - 1))))
  {
  }

  lemma {:induction false} ChainFrom<V>(p: Program<V, Yielded<V>>, metadata: Metadata<V>, n: nat)
    requires EndsWithin(p, n)
    ensures Outcome(p, metadata, n) == Settle(metadata, Chain(p, n)) <==> EndsAlike(p, metadata, n)
    decreases n
  {
    match p
    case Yield(AResult(Success(value, more)), resume) =>
      ChainFrom(resume(value), metadata + more, n - 1);
      ChainUnfolds(p, n);
      SettleTwice(metadata, more, Chain(resume(value), n - 1));
    case _ =>
  }

  /**
    The `do` loop and the nested calls of `bind` agree on value, failure and metadata, with exceptions
    and early failures, exactly when the run does not end at a foreign object whose own `bind` comes to
    anything else than a TypeError. A run that yields nothing but results never does.
  */
  lemma DoIsBind<V>(p: Program<V, Yielded<V>>, start: V, n: nat)
    requires EndsWithin(p, n)
    ensures OutcomeOf(Generator(p), n) == Bind(Success(start, map[]), v => Chain(p, n)) <==> EndsAlike(p, map[], n)
  {
    ChainFrom(p, map[], n);
  }

  /** Along its run the program yields nothing but results. */
  predicate YieldsResults<V>(p: Program<V, Yielded<V>>, n: nat)
    requires EndsWithin(p, n)
    decreases n
  {
    match p
    case Yield(AResult(Success(value, _)), resume) => YieldsResults(resume(value), n - 1)
    case Yield(Other(_), _) => false
    case _ => true
  }

  lemma {:induction false} ResultsEndAlike<V>(p: Program<V, Yielded<V>>, metadata: Metadata<V>, n: nat)
    requires EndsWithin(p, n) && YieldsResults(p, n)
    ensures EndsAlike(p, metadata, n)
    decreases n
  {
    if p.Yield? && p.yielded.result.Success? {
      ResultsEndAlike(p.resume(p.yielded.result.value), metadata + p.yielded.result.metadata, n - 1);
    }
  }

  /** `Nothing()` is no result, and yet both laws hold where it is returned or yielded. */
  lemma NothingAgrees<V>(start: V, metadata: Metadata<V>, g: V -> Called<V>, resume: V -> Program<V, Yielded<V>>)
    ensures
      var nothing := Other(ForeignBind<V>(Empty, g));
      var r, f := Success(start, metadata), (v: V) => Gave(nothing);
      Bind(Bind(r, f), g) == Bind(r, v => BindCall(f(v), g)) == Failure(TypeError, metadata)
    ensures
      var p := Yield(Other(ForeignBind<V>(Empty, g)), resume);
      OutcomeOf(Generator(p), 0) == Bind(Success(start, map[]), v => Chain(p, 0)) == Failure(TypeError, map[])
  {
  }

  // ----- asynchronous programs -----

  /** An asynchronous program also yields awaitables. */
  datatype Awaitable<V> = Now(yielded: Yielded<V>) | Awaited(answer: Called<V>)

  /** `_resolve_result`, with the metadata gathered so far. */
  function Resolved<V>(a: Awaitable<V>, metadata: Metadata<V>): Result<V> {
    match a
    case Now(yielded) => Settle(metadata, Gave(yielded))
    case Awaited(answer) => Settle(metadata, answer)
  }

  function AnswerOf<V>(a: Awaitable<V>): Called<V> {
    match a
    case Now(yielded) => Gave(yielded)
    case Awaited(answer) => answer
  }

  /** The program that has awaited what it yields: an exception of the awaitable is its own. */
  ghost function Settled<V>(p: Program<V, Awaitable<V>>, n: nat): Program<V, Yielded<V>>
    decreases n
  {
    match p
    case Return(value) => Return(value)
    case Raise(cause) => Raise(cause)
    case Yield(a, resume) =>
      match AnswerOf(a)
      case Raised(cause) => Raise(cause)
      case Gave(yielded) => Yield(yielded, if n == 0 then v => Return(v) else v => Settled(resume(v), n - 1))
  }

  /** The run of the asynchronous program ends after at most `n` yields. */
  predicate AsyncEndsWithin<V>(p: Program<V, Awaitable<V>>, n: nat)
    decreases n
  {
    match p
    case Yield(a, resume) =>
      (match AnswerOf(a)
       case Gave(AResult(Success(value, _))) => n > 0 && AsyncEndsWithin(resume(value), n - 1)
       case _ => true)
    case _ => true
  }

  ghost function AsyncOutcome<V>(p: Program<V, Awaitable<V>>, metadata: Metadata<V>, n: nat): Result<V>
    requires AsyncEndsWithin(p, n)
    decreases n
  {
    match p
    case Return(value) => Success(value, metadata)
    case Raise(cause) => Failure(cause, metadata)
    case Yield(a, resume) =>
      var result := Resolved(a, metadata);
      if result.Failure? then result
      else AsyncOutcome(resume(result.value), metadata + result.metadata, n - 1)
  }

  ghost function AsyncOutcomeOf<V>(body: Body<V, Awaitable<V>>, n: nat): Result<V>
    requires body.Generator? ==> AsyncEndsWithin(body.program, n)
  {
    match body
    case Plain(value) => Success(value, map[])
    case NoCall(cause) => Failure(cause, map[])
    case Generator(p) => AsyncOutcome(p, map[], n)
  }

  /** `_run_async_result_do`. */
  method AsyncDo<V(0)>(body: Body<V, Awaitable<V>>, ghost n: nat) returns (r: Result<V>)
    requires body.Generator? ==> AsyncEndsWithin(body.program, n)
    ensures r == AsyncOutcomeOf(body, n)
  {
    var metadata: Metadata<V> := map[];
    if body.NoCall? {
      return Failure(body.cause, metadata);
    }
    if body.Plain? {
      return Success(body.value, metadata);
    }
    var p := body.program;
    ghost var left := n;
    while true
      invariant AsyncEndsWithin(p, left) && AsyncOutcome(p, metadata, left) == AsyncOutcome(body.program, map[], n)
      decreases left
    {
      match p
      case Return(value) =>
        return Success(value, metadata);
      case Raise(cause) =>
        return Failure(cause, metadata);
      case Yield(a, resume) =>
        var result := Resolved(a, metadata);
        if result.Failure? {
          return result;
        }
        metadata := metadata + result.metadata;
        p := resume(result.value);
        left := left - 1;
    }
  }

  /** The asynchronous loop is the synchronous one on the awaited program. */
  lemma {:induction false} AsyncIsSync<V>(p: Program<V, Awaitable<V>>, metadata: Metadata<V>, n: nat)
    requires AsyncEndsWithin(p, n)
    ensures EndsWithin(Settled(p, n), n)
    ensures AsyncOutcome(p, metadata, n) == Outcome(Settled(p, n), metadata, n)
    decreases n
  {
    if p.Yield? {
      match AnswerOf(p.yielded)
      case Gave(AResult(Success(value, more))) =>
        assert metadata + (metadata + more) == metadata + more;
        AsyncIsSync(p.resume(value), metadata + more, n - 1);
      case _ =>
    }
  }
}
