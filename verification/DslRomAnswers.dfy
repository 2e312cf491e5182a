/**
  What the ROM operations answer: when a program is accepted and under which name and path, what is
  registered, what a caller gets back, and what reaches the inner registry.
*/
module DslRomAnswers {
  import opened Common
  import opened ReplayLog
  import opened ResultSteps
  import opened Dsl
  import opened DslExecution
  import opened DslRuns
  import opened DslRom
  import opened DslRomLinking
  import DslRomTraces
  import VfsPaths

  // ----- names and paths -----

  /** The normalised name of a program: two single segments that are not empty. */
  ghost predicate IsNamed(namespace: string, name: string, ns: string, n: string) {
    && !IsBlank(namespace) && VfsPaths.Normalized(namespace) == Returned(ns) && ns != "" && '/' !in ns
    && !IsBlank(name) && VfsPaths.Normalized(name) == Returned(n) && n != "" && '/' !in n
  }

  ghost predicate HasName(namespace: string, name: string) {
    exists ns, n :: IsNamed(namespace, name, ns, n)
  }

  /** Under the path rules of the virtual file system, a capability name parses back to its two parts. */
  lemma CapabilityParses(w: World, ns: string, n: string)
    requires w.normalize == VfsPaths.Normalized
    requires VfsPaths.Normalized(ns) == Returned(ns) && VfsPaths.Normalized(n) == Returned(n)
    requires '/' !in ns && '/' !in n && ns != "" && n != ""
    ensures ParseCapabilityName(w, "dsl://" + ns + "/" + n) == Ok(Identity(ns, n))
  {
    NameParts(ns, n);
    VfsPaths.NormalizedTwice(ns);
    VfsPaths.NormalizedTwice(n);
  }

  lemma NameParts(ns: string, n: string)
    requires '/' !in ns
    ensures
      var name := "dsl://" + ns + "/" + n;
      var relative := name[|PREFIX|..];
      && PREFIX <= name && !IsBlank(name)
      && Separator(relative) == |ns| && |relative| == |ns| + 1 + |n|
      && relative[..|ns|] == ns && relative[|ns| + 1..] == n
  {
    var name := "dsl://" + ns + "/" + n;
    assert name[|PREFIX|..] == ns + "/" + n;
    assert !IsWhiteSpace(name[0]);
    VfsPaths.FirstSlash(ns, n);
  }

  lemma NamedIsValid(w: World, namespace: string, name: string, ns: string, n: string)
    requires w.normalize == VfsPaths.Normalized && IsNamed(namespace, name, ns, n)
    ensures PathOf(w, namespace, name) == Ok("rom/dsl/" + ns + "/" + n + ".json")
    ensures CapabilityNameOf(w, namespace, name) == Ok("dsl://" + ns + "/" + n)
    ensures ParseCapabilityName(w, "dsl://" + ns + "/" + n) == Ok(Identity(ns, n))
  {
    VfsPaths.NormalizedTwice(namespace);
    VfsPaths.NormalizedTwice(name);
    CapabilityParses(w, ns, n);
  }

  /** Two programs have the same path if and only if they have the same capability name. */
  lemma PathsAreDistinct(a: Identity, b: Identity)
    requires '/' !in a.namespace && '/' !in b.namespace
    ensures "rom/dsl/" + a.namespace + "/" + a.name + ".json" == "rom/dsl/" + b.namespace + "/" + b.name + ".json"
       <==> a == b
    ensures "dsl://" + a.namespace + "/" + a.name == "dsl://" + b.namespace + "/" + b.name <==> a == b
  {
    var x, y := a.namespace + "/" + a.name, b.namespace + "/" + b.name;
    SlashedPairs(a.namespace, a.name, b.namespace, b.name);
    Wrapped("rom/dsl/", x, y, ".json");
    Wrapped("dsl://", x, y, "");
    Regroup("rom/dsl/", a, ".json");
    Regroup("rom/dsl/", b, ".json");
    Regroup("dsl://", a, "");
    Regroup("dsl://", b, "");
  }

  lemma Regroup(prefix: string, id: Identity, suffix: string)
    ensures prefix + id.namespace + "/" + id.name + suffix == prefix + (id.namespace + "/" + id.name) + suffix
    ensures suffix == "" ==>
      prefix + id.namespace + "/" + id.name == prefix + (id.namespace + "/" + id.name) + suffix
  {
  }

  lemma SlashedPairs(a: string, b: string, c: string, d: string)
    requires '/' !in a && '/' !in c
    ensures a + "/" + b == c + "/" + d <==> a == c && b == d
  {
    var x, y := a + "/" + b, c + "/" + d;
    VfsPaths.FirstSlash(a, b);
    VfsPaths.FirstSlash(c, d);
    assert x[..|a|] == a && x[|a| + 1..] == b;
    assert y[..|c|] == c && y[|c| + 1..] == d;
  }

  lemma Wrapped(prefix: string, x: string, y: string, suffix: string)
    ensures prefix + x + suffix == prefix + y + suffix <==> x == y
  {
    var p, q := prefix + x + suffix, prefix + y + suffix;
    assert p[|prefix|..|p| - |suffix|] == x && q[|prefix|..|q| - |suffix|] == y;
  }

  // ----- accepting a program -----

  /** The hash is the expected one but for case, if one is expected. */
  ghost predicate MeetsExpectation(w: World, hash: string, expected: Option<string>) {
    expected.Some? && !IsBlank(expected.value) ==> hash == expected.value || w.sameFold(hash, expected.value)
  }

  /** Every capability the program calls is there: stored programs in the registry, others inside. */
  ghost predicate IsProgram(w: World, reg: Registry, root: Node) {
    root.Pipeline? && Valid(CapabilityContains(w, reg), root)
  }

  /**
    A snapshot is made if and only if there is JSON, both names are valid, its hash is the expected one, it
    parses, and the document compiles. It is then what was given, under its normalised name.
  */
  lemma CreateSucceedsWhen(
    w: World, reg: Registry, namespace: string, name: string, json: string, createdAt: int, expected: Option<string>)
    requires w.normalize == VfsPaths.Normalized
    ensures
      CreateSnapshot(w, reg, namespace, name, json, createdAt, expected).Ok?
      <==>
      && !IsBlank(json)
      && HasName(namespace, name)
      && MeetsExpectation(w, w.hash(json), expected)
      && w.parse(json).Ok? && IsProgram(w, reg, w.parse(json).value)
  {
    if HasName(namespace, name) {
      var ns, n :| IsNamed(namespace, name, ns, n);
      NamedIsValid(w, namespace, name, ns, n);
      NamedSucceedsWhen(w, reg, namespace, name, json, createdAt, expected);
    } else {
      NotNamed(w, namespace, name);
    }
  }

  lemma NamedSucceedsWhen(
    w: World, reg: Registry, namespace: string, name: string, json: string, createdAt: int, expected: Option<string>)
    requires PathOf(w, namespace, name).Ok? && CapabilityNameOf(w, namespace, name).Ok?
    requires ParseCapabilityName(w, CapabilityNameOf(w, namespace, name).value).Ok?
    ensures
      CreateSnapshot(w, reg, namespace, name, json, createdAt, expected).Ok?
      <==>
      && !IsBlank(json)
      && MeetsExpectation(w, w.hash(json), expected)
      && w.parse(json).Ok? && IsProgram(w, reg, w.parse(json).value)
  {
    if w.parse(json).Ok? {
      CompileAccepts(CapabilityContains(w, reg), w.parse(json).value);
    }
  }

  lemma NotNamed(w: World, namespace: string, name: string)
    requires w.normalize == VfsPaths.Normalized && !HasName(namespace, name)
    ensures
      var capability := CapabilityNameOf(w, namespace, name);
      capability.Err? || ParseCapabilityName(w, capability.value).Err?
  {
    var id := ValidateIdentity(w, namespace, name);
    if id.Ok? {
      var ns, n := id.value.namespace, id.value.name;
      assert !IsNamed(namespace, name, ns, n);
      EmptyNameFails(w, ns, n);
    }
  }

  lemma EmptyNameFails(w: World, ns: string, n: string)
    requires '/' !in ns && (ns == "" || n == "")
    ensures ParseCapabilityName(w, "dsl://" + ns + "/" + n).Err?
  {
    NameParts(ns, n);
  }

  lemma CreatedIsGiven(
    w: World, reg: Registry, namespace: string, name: string, json: string, createdAt: int, expected: Option<string>,
    ns: string, n: string)
    requires w.normalize == VfsPaths.Normalized && IsNamed(namespace, name, ns, n)
    ensures
      var made := CreateSnapshot(w, reg, namespace, name, json, createdAt, expected);
      made.Ok? ==>
        && made.value.json == json
        && w.parse(json) == Ok(made.value.root)
        && made.value.metadata == RomMetadata(
             ns, n, "rom/dsl/" + ns + "/" + n + ".json", "dsl://" + ns + "/" + n, w.hash(json), createdAt)
  {
    NamedIsValid(w, namespace, name, ns, n);
    if w.parse(json).Ok? {
      CompileAccepts(CapabilityContains(w, reg), w.parse(json).value);
    }
  }

  /** What was created is well formed if its hash is not blank. */
  lemma CreatedSucceeds(
    w: World, reg: Registry, namespace: string, name: string, json: string, createdAt: int, expected: Option<string>,
    ns: string, n: string)
    requires w.normalize == VfsPaths.Normalized && IsNamed(namespace, name, ns, n)
    ensures
      var made := CreateSnapshot(w, reg, namespace, name, json, createdAt, expected);
      && (made.Ok? <==>
            && !IsBlank(json) && MeetsExpectation(w, w.hash(json), expected)
            && w.parse(json).Ok? && IsProgram(w, reg, w.parse(json).value))
      && (made.Ok? ==>
            && made.value.json == json
            && made.value.metadata == RomMetadata(
                 ns, n, "rom/dsl/" + ns + "/" + n + ".json", "dsl://" + ns + "/" + n, w.hash(json), createdAt)
            && (WellFormed(w, made.value) <==> !IsBlank(w.hash(json))))
  {
    NamedIsValid(w, namespace, name, ns, n);
    NamedSucceedsWhen(w, reg, namespace, name, json, createdAt, expected);
    CreatedIsGiven(w, reg, namespace, name, json, createdAt, expected, ns, n);
    NormalNamesAreNamed(namespace, name, ns, n);
    NamedIsValid(w, ns, n, ns, n);
    var path, capability := "rom/dsl/" + ns + "/" + n + ".json", "dsl://" + ns + "/" + n;
    assert !IsWhiteSpace(path[0]) && !IsWhiteSpace(capability[0]);
  }

  lemma NormalNamesAreNamed(namespace: string, name: string, ns: string, n: string)
    requires IsNamed(namespace, name, ns, n)
    ensures IsNamed(ns, n, ns, n)
  {
    VfsPaths.NormalizedTwice(namespace);
    VfsPaths.NormalizedTwice(name);
  }

  /** A load of a file with another hash than the expected one fails and leaves no trace. */
  lemma WrongHashIsRefused(
    w: World, s: System, namespace: string, name: string, createdAt: int, expectedHash: string, fault: Option<Exn>)
    requires PathOf(w, namespace, name).Ok? && PathOf(w, namespace, name).value in s.files
    requires !MeetsExpectation(w, w.hash(s.files[PathOf(w, namespace, name).value]), Some(expectedHash))
    ensures ReadSnapshot(w, s, namespace, name, createdAt, expectedHash, fault).Err?
    ensures Apply(w, s, CompileForLoad(namespace, name, createdAt, expectedHash, fault)) == s
    ensures
      var error := ReadSnapshot(w, s, namespace, name, createdAt, expectedHash, fault).error;
      fault.None? && CapabilityNameOf(w, namespace, name).Ok? ==> error.code == "DSL_ROM_ERROR"
  {
  }

  // ----- registering -----

  /**
    Registering succeeds if and only if the snapshot is well formed and its name is free or bound to the
    same hash. It binds a free name, and answers with the metadata bound to it.
  */
  lemma RegisterAnswers(w: World, reg: Registry, s: Snapshot)
    ensures
      var name := s.metadata.capability;
      var r, reg' := RegisterResult(w, reg, s), Registered(w, reg, s);
      && (r.Ok? <==> WellFormed(w, s) && (name in reg ==> reg[name].metadata.hash == s.metadata.hash))
      && (r.Ok? ==> r.value == if name in reg then reg[name].metadata else s.metadata)
      && (r.Err? ==> r.error.code == "DSL_ROM_ERROR")
      && reg' == if WellFormed(w, s) && name !in reg then reg[name := s] else reg
  {
  }

  /** What is well formed has all its names, canonical ones, and the hash of its own JSON. */
  lemma WellFormedMeans(w: World, s: Snapshot)
    requires w.normalize == VfsPaths.Normalized
    ensures
      var m := s.metadata;
      WellFormed(w, s) ==>
        && !IsBlank(s.json) && m.hash == w.hash(s.json) && !IsBlank(m.hash)
        && exists ns, n ::
             && IsNamed(m.namespace, m.name, ns, n)
             && m.capability == "dsl://" + ns + "/" + n
             && m.path == "rom/dsl/" + ns + "/" + n + ".json"
  {
    var m := s.metadata;
    if WellFormed(w, s) {
      if !HasName(m.namespace, m.name) {
        NotNamed(w, m.namespace, m.name);
      }
      var ns, n :| IsNamed(m.namespace, m.name, ns, n);
      NamedIsValid(w, m.namespace, m.name, ns, n);
    }
  }

  // ----- calling -----

  const ROM_KEYS: set<string> := {
    "dsl_rom_call", "dsl_rom_hash", "dsl_rom_path", "dsl_rom_namespace", "dsl_rom_name",
    "dsl_rom_replay_log_count", "dsl_rom_replay_log_hash"}

  /** The result has all texts of the value under their own keys, and the seven ROM keys, and nothing else. */
  ghost predicate Carries(value: Value, result: Value) {
    && value.data.Some? && result.data.Some?
    && (forall key :: key in result.data.value <==> key in value.data.value || key in ROM_KEYS)
    && forall key | key in value.data.value && key !in ROM_KEYS :: result.data.value[key] == value.data.value[key]
  }

  /** The same error, with ROM keys added to its metadata. */
  ghost predicate Relabels(error: Error, result: Error) {
    var own: Metadata := if error.metadata.Some? then error.metadata.value else map[];
    && result.code == error.code && result.retryable == error.retryable
    && result.failure == error.failure && result.origin == error.origin && result.slot == error.slot
    && result.metadata.Some?
    && (forall key | key !in ROM_KEYS :: key in result.metadata.value <==> key in own)
    && forall key | key in own && key !in ROM_KEYS :: result.metadata.value[key] == own[key]
  }

  ghost predicate Brings(run: Outcome<Value>, called: Outcome<Value>) {
    match run
    case Ok(value) => called.Ok? && Carries(value, called.value)
    case Err(error) => called.Err? && Relabels(error, called.error)
  }

  /** A text under a ROM key; an error leaves out what is blank. */
  ghost predicate Names(texts: Metadata, key: string, text: string) {
    !IsBlank(text) ==> key in texts && texts[key] == Str(text)
  }

  ghost predicate NamesProgram(texts: Metadata, m: RomMetadata) {
    && Names(texts, "dsl_rom_call", m.capability)
    && Names(texts, "dsl_rom_path", m.path)
    && Names(texts, "dsl_rom_namespace", m.namespace)
    && Names(texts, "dsl_rom_name", m.name)
    && Names(texts, "dsl_rom_hash", m.hash)
  }

  lemma ReplyBrings(name: string, m: RomMetadata, step: DslStep)
    requires step.outcome.Ok? ==> step.outcome.value.Valid()
    ensures Brings(step.outcome, CapabilityOutcome(name, RomReply(m, step)))
    ensures NamesProgram(DeltaSource(CapabilityOutcome(name, RomReply(m, step))), m)
  {
    RomTextsAre(m, step.log);
    match step.outcome
    case Err(error) =>
      ErrorIsRelabelled(error, m, step.log);
    case Ok(value) =>
      var texts := value.Texts() + MetadataTexts(m) + LogTexts(step.log);
      DslRomTraces.RomKeysAreNamed(m, step.log);
      DslRomTraces.TextsAreValid(texts);
      ValueIsCarried(value, MetadataTexts(m), LogTexts(step.log));
  }

  lemma RomTextsAre(m: RomMetadata, log: seq<Entry>)
    ensures MetadataTexts(m).Keys + LogTexts(log).Keys == ROM_KEYS
    ensures NamesProgram(MetadataTexts(m), m)
    ensures forall key | key in MetadataTexts(m) :: key !in LogTexts(log) && MetadataTexts(m)[key].Str?
  {
  }

  lemma ValueIsCarried(value: Value, names: Metadata, digest: Metadata)
    requires value.Valid() && names.Keys + digest.Keys == ROM_KEYS
    ensures
      var texts := value.Texts() + names + digest;
      Carries(value, Value(Some(map key | key in texts :: Some(texts[key]))))
  {
    var texts := value.Texts() + names + digest;
    forall key
      ensures key in texts <==> key in value.data.value || key in ROM_KEYS
    {
      assert key in ROM_KEYS <==> key in names.Keys + digest.Keys;
    }
  }

  lemma ErrorIsRelabelled(error: Error, m: RomMetadata, log: seq<Entry>)
    ensures
      var result := AttachRomMetadata(error, m, Some(log));
      Relabels(error, result) && NamesProgram(result.metadata.value, m)
  {
    RomTextsAre(m, log);
    var own: Metadata := if error.metadata.Some? then error.metadata.value else map[];
    var names, digest := MetadataTexts(m), LogTexts(log);
    var present := map key | key in names && !IsBlank(names[key].s) :: names[key];
    forall key | key !in ROM_KEYS
      ensures key !in names && key !in digest
    {
      assert key !in names.Keys + digest.Keys;
    }
  }

  /**
    A call of a stored program brings its result back: on a success all texts of its value, on a failure
    its own error, each with the ROM keys added, which name the program.
  */
  lemma CallsBringResults(
    w: World, files: map<string, string>, actions: seq<Action>, bottom: Invoke, depth: nat, startedAt: int,
    name: string, args: map<string, string>, current: Run)
    requires name in RunActions(w, Initial(files), actions).reg && depth > 0 && current.step.outcome.Ok?
    ensures
      var reg := RunActions(w, Initial(files), actions).reg;
      var run := Execute(
        RomEnv(w, Invoking(w, reg, bottom, depth - 1), EPOCH), reg[name].root,
        current.step.outcome.value, current.tick);
      var called := ExecuteNode(RomEnv(w, Invoking(w, reg, bottom, depth), startedAt), Call(name, args), current);
      && Brings(run.step.outcome, called.step.outcome)
      && NamesProgram(DeltaSource(called.step.outcome), reg[name].metadata)
  {
    var s := RunActions(w, Initial(files), actions);
    InitialInv(w, files);
    RunsKeepInv(w, Initial(files), actions);
    RegisteredResolves(w, s.files, s.reg);
    assert EntryOk(w, s.files, s.reg, name, s.reg[name]);
    ResolvedCallBrings(w, s.reg, bottom, depth, startedAt, name, args, current);
  }

  lemma ResolvedCallBrings(
    w: World, reg: Registry, bottom: Invoke, depth: nat, startedAt: int,
    name: string, args: map<string, string>, current: Run)
    requires Resolves(w, reg) && name in reg && IsDslCapability(name)
    requires depth > 0 && current.step.outcome.Ok?
    ensures
      var run := Execute(
        RomEnv(w, Invoking(w, reg, bottom, depth - 1), EPOCH), reg[name].root,
        current.step.outcome.value, current.tick);
      var called := ExecuteNode(RomEnv(w, Invoking(w, reg, bottom, depth), startedAt), Call(name, args), current);
      && Brings(run.step.outcome, called.step.outcome)
      && NamesProgram(DeltaSource(called.step.outcome), reg[name].metadata)
  {
    var env := RomEnv(w, Invoking(w, reg, bottom, depth), startedAt);
    var inner := RomEnv(w, Invoking(w, reg, bottom, depth - 1), EPOCH);
    var input := current.step.outcome.value;
    var run := Execute(inner, reg[name].root, input, current.tick);
    CallUnfolds(w, reg, bottom, depth, name, input, args, current.tick);
    ExecuteKeepsValuesValid(inner, reg[name].root, input, current.tick);
    ReplyBrings(name, reg[name].metadata, run.step);
    DslRomTraces.CallLogsDelta(env, name, args, current);
    assert env.invoke(name, input, args, current.tick) == (RomReply(reg[name].metadata, run.step), run.tick);
  }

  /** A name that is not bound is refused as not found, without reading the clock. */
  lemma UnknownIsRefused(
    w: World, reg: Registry, bottom: Invoke, depth: nat,
    name: string, input: Value, args: map<string, string>, tick: nat)
    requires "dsl://" <= name && ParseCapabilityName(w, name).Ok? && name !in reg && depth > 0
    ensures InvokeAt(w, reg, bottom, depth, name, input, args, tick)
         == (Refused(Error("DSL_ROM_NOT_FOUND", false, Some(Reject), Some(Capability), Some(SlotT),
                           Some(map["dsl.capability_name" := Str(name)]))), tick)
  {
  }

  /**
    Every other name goes to the inner registry, with the same value, arguments and clock position. Its
    answer comes back as it is, an exception as a fail-closed error that names the capability.
  */
  lemma InnerAnswers(
    w: World, reg: Registry, bottom: Invoke, depth: nat,
    name: string, input: Value, args: map<string, string>, tick: nat)
    requires !("dsl://" <= name)
    ensures
      var (reply, next) := w.innerInvoke(name, input, args, tick);
      var (answer, end) := InvokeAt(w, reg, bottom, depth, name, input, args, tick);
      && end == next
      && answer == if reply.Raised? then
           Refused(Error("UNHANDLED_EXCEPTION", false, Some(FailClosed), Some(Capability), Some(SlotT),
                         Some(map["exception_type" := Str(reply.exn.typeName), "dsl.capability_name" := Str(name)])))
         else reply
  {
    var (reply, _) := w.innerInvoke(name, input, args, tick);
    if reply.Raised? {
      var texts: Metadata := map["exception_type" := Str(reply.exn.typeName)];
      assert texts["dsl.capability_name" := Str(name)]
          == map["exception_type" := Str(reply.exn.typeName), "dsl.capability_name" := Str(name)];
    }
  }
}
