/** What the trace of a caller says about the stored programs it called. */
module DslRomTraces {
  import opened Common
  import opened ReplayLog
  import opened ResultSteps
  import opened Dsl
  import opened DslExecution
  import opened DslRuns
  import opened DslRom
  import opened DslRomLinking

  /** The metadata names the program by capability and hash, and its run by the length and hash of its log. */
  ghost predicate Commits(texts: Metadata, m: RomMetadata, log: seq<Entry>) {
    && "dsl_rom_call" in texts && texts["dsl_rom_call"] == Str(m.capability)
    && "dsl_rom_hash" in texts && texts["dsl_rom_hash"] == Str(m.hash)
    && "dsl_rom_replay_log_count" in texts && texts["dsl_rom_replay_log_count"] == Num(|log|)
    && "dsl_rom_replay_log_hash" in texts && texts["dsl_rom_replay_log_hash"] == LogDigest(log)
  }

  lemma ErrorCommits(error: Error, m: RomMetadata, log: seq<Entry>)
    requires !IsBlank(m.capability) && !IsBlank(m.hash)
    ensures
      var metadata := AttachRomMetadata(error, m, Some(log)).metadata;
      metadata.Some? && Commits(metadata.value, m, log)
  {
  }

  /** The reply of a stored program succeeds as the program did, and what it carries commits to its run. */
  lemma ReplyCommits(name: string, m: RomMetadata, step: DslStep)
    requires !IsBlank(m.capability) && !IsBlank(m.hash)
    requires step.outcome.Ok? ==> step.outcome.value.Valid()
    ensures
      var outcome := CapabilityOutcome(name, RomReply(m, step));
      outcome.Ok? == step.outcome.Ok? && Commits(DeltaSource(outcome), m, step.log)
  {
    match step.outcome
    case Err(error) => ErrorCommits(error, m, step.log);
    case Ok(value) =>
      var texts := value.Texts() + MetadataTexts(m) + LogTexts(step.log);
      RomKeysAreNamed(m, step.log);
      TextsAreValid(texts);
  }

  lemma RomKeysAreNamed(m: RomMetadata, log: seq<Entry>)
    ensures forall key | key in MetadataTexts(m) || key in LogTexts(log) :: !IsBlank(key)
  {
    forall key | key in MetadataTexts(m) || key in LogTexts(log)
      ensures !IsBlank(key)
    {
      assert key[0] == 'd';
    }
  }

  lemma TextsAreValid(texts: Metadata)
    requires forall key | key in texts :: !IsBlank(key)
    ensures
      var value := Value(Some(map key | key in texts :: Some(texts[key])));
      value.Valid() && value.Texts() == texts
  {
  }

  /** Whatever the arguments are, the entry of the call takes these texts over. */
  lemma DeltaCommits(name: string, args: map<string, string>, source: Metadata, m: RomMetadata, log: seq<Entry>)
    requires Commits(source, m, log)
    ensures
      var metadata := CapabilityDelta(name, args, source).metadata;
      metadata.Some? && Commits(metadata.value, m, log)
  {
  }

  /** A call adds one entry, whose delta is that of the step. */
  lemma CallLogsDelta(env: Env, name: string, args: map<string, string>, current: Run)
    requires current.step.outcome.Ok?
    ensures
      var called := ExecuteNode(env, Call(name, args), current);
      var (reply, tick) := env.invoke(name, current.step.outcome.value, args, current.tick);
      var outcome := CapabilityOutcome(name, reply);
      && called.tick == tick
      && called.step.outcome == outcome
      && called.step.delta == CapabilityDelta(name, args, DeltaSource(outcome))
      && |called.step.log| == |current.step.log| + 1
      && called.step.log[|current.step.log|].delta == called.step.delta
  {
  }

  /**
    A caller's trace commits to the runs of the programs it called: in every reachable registry, the entry
    of a call of a registered program carries the program's hash and the length and hash of exactly the log
    of its run, whether the run succeeds or fails, and the call succeeds as the run does.
  */
  lemma CallsCommit(
    w: World, files: map<string, string>, actions: seq<Action>, bottom: Invoke, depth: nat, startedAt: int,
    name: string, args: map<string, string>, current: Run)
    requires name in RunActions(w, Initial(files), actions).reg && depth > 0 && current.step.outcome.Ok?
    ensures
      var reg := RunActions(w, Initial(files), actions).reg;
      var run := Execute(
        RomEnv(w, Invoking(w, reg, bottom, depth - 1), EPOCH), reg[name].root,
        current.step.outcome.value, current.tick);
      var called := ExecuteNode(RomEnv(w, Invoking(w, reg, bottom, depth), startedAt), Call(name, args), current);
      && called.tick == run.tick
      && called.step.outcome.Ok? == run.step.outcome.Ok?
      && |called.step.log| == |current.step.log| + 1
      && var metadata := called.step.log[|current.step.log|].delta.metadata;
         metadata.Some? && Commits(metadata.value, reg[name].metadata, run.step.log)
  {
    var s := RunActions(w, Initial(files), actions);
    InitialInv(w, files);
    RunsKeepInv(w, Initial(files), actions);
    RegisteredResolves(w, s.files, s.reg);
    assert EntryOk(w, s.files, s.reg, name, s.reg[name]);
    ResolvedCallCommits(w, s.reg, bottom, depth, startedAt, name, args, current);
  }

  lemma ResolvedCallCommits(
    w: World, reg: Registry, bottom: Invoke, depth: nat, startedAt: int,
    name: string, args: map<string, string>, current: Run)
    requires Resolves(w, reg) && name in reg && IsDslCapability(name) && WellFormed(w, reg[name])
    requires depth > 0 && current.step.outcome.Ok?
    ensures
      var run := Execute(
        RomEnv(w, Invoking(w, reg, bottom, depth - 1), EPOCH), reg[name].root,
        current.step.outcome.value, current.tick);
      var called := ExecuteNode(RomEnv(w, Invoking(w, reg, bottom, depth), startedAt), Call(name, args), current);
      && called.tick == run.tick
      && called.step.outcome.Ok? == run.step.outcome.Ok?
      && |called.step.log| == |current.step.log| + 1
      && var metadata := called.step.log[|current.step.log|].delta.metadata;
         metadata.Some? && Commits(metadata.value, reg[name].metadata, run.step.log)
  {
    var env := RomEnv(w, Invoking(w, reg, bottom, depth), startedAt);
    var inner := RomEnv(w, Invoking(w, reg, bottom, depth - 1), EPOCH);
    var input, m := current.step.outcome.value, reg[name].metadata;
    var run := Execute(inner, reg[name].root, input, current.tick);
    CallUnfolds(w, reg, bottom, depth, name, input, args, current.tick);
    ExecuteKeepsValuesValid(inner, reg[name].root, input, current.tick);
    ReplyCommits(name, m, run.step);
    var outcome := CapabilityOutcome(name, RomReply(m, run.step));
    DeltaCommits(name, args, DeltaSource(outcome), m, run.step.log);
    CallLogsDelta(env, name, args, current);
    assert env.invoke(name, input, args, current.tick) == (RomReply(m, run.step), run.tick);
  }
}
