/**
  All runs of the ROM store: saves and loads as interleaved compile, store and register steps. The call
  graph of every reachable registry is acyclic, so nested calls end, none of them fails to resolve, and
  later registrations cannot be noticed by a compiled pipeline.
*/
module DslRomLinking {
  import opened Common
  import opened ResultSteps
  import opened Dsl
  import opened DslExecution
  import opened DslCongruence
  import opened DslRom

  // ----- the machine -----

  /** A save or load under way: its snapshot is compiled; it may still have to be written to its file. */
  datatype Pending = Pending(snapshot: Snapshot, stored: bool)

  datatype System = System(files: map<string, string>, reg: Registry, pending: seq<Pending>)

  datatype Action =
    | CompileForSave(namespace: string, name: string, json: string, createdAt: int, expected: Option<string>)
    | CompileForLoad(namespace: string, name: string, createdAt: int, expectedHash: string, fault: Option<Exn>)
    | Store(index: nat, io: Io)
    | Register(index: nat)

  function Without(pending: seq<Pending>, i: nat): seq<Pending>
    requires i < |pending|
  {
    pending[..i] + pending[i + 1..]
  }

  /** Work begins with a compiled snapshot; what does not compile leaves no trace. */
  function Begin(s: System, made: Outcome<Snapshot>, stored: bool): System {
    if made.Err? then s else s.(pending := s.pending + [Pending(made.value, stored)])
  }

  /** `LoadDslRomAsync` up to the compiled snapshot: the expected hash is required, the file is read. */
  function ReadSnapshot(
    w: World, s: System, namespace: string, name: string, createdAt: int, expectedHash: string, fault: Option<Exn>)
    : Outcome<Snapshot>
  {
    var path := PathOf(w, namespace, name);
    if IsBlank(expectedHash) then Err(RomError())
    else if path.Err? then Err(path.error)
    else if fault.Some? then Err(StoreException(fault.value))
    else if path.value !in s.files then Err(StoreException(Exn("System.IO.FileNotFoundException")))
    else CreateSnapshot(w, s.reg, namespace, name, s.files[path.value], createdAt, Some(expectedHash))
  }

  /** What the file system does when a snapshot is stored: each access can throw. */
  datatype Io = Io(probe: Option<Exn>, read: Option<Exn>, write: Option<Exn>)

  /** `EnsureSnapshotStoredAsync`: an existing file must have the snapshot's hash, a missing one is written. */
  function EnsureStored(w: World, files: map<string, string>, snapshot: Snapshot, io: Io)
    : Outcome<map<string, string>>
  {
    var path := snapshot.metadata.path;
    if io.probe.Some? then Err(StoreException(io.probe.value))
    else if path in files then
      if io.read.Some? then Err(FromException(io.read.value))
      else if w.hash(files[path]) == snapshot.metadata.hash then Ok(files)
      else Err(RomError())
    else if io.write.Some? then Err(StoreException(io.write.value))
    else Ok(files[path := snapshot.json])
  }

  function StoreStep(w: World, s: System, i: nat, io: Io): System {
    if i >= |s.pending| || s.pending[i].stored then s
    else
      match EnsureStored(w, s.files, s.pending[i].snapshot, io)
      case Ok(files) => s.(files := files, pending := s.pending[i := s.pending[i].(stored := true)])
      case Err(_) => s.(pending := Without(s.pending, i))
  }

  function RegisterStep(w: World, s: System, i: nat): System {
    if i >= |s.pending| || !s.pending[i].stored then s
    else System(s.files, Registered(w, s.reg, s.pending[i].snapshot), Without(s.pending, i))
  }

  /** One step; a step that is not enabled does nothing, one that fails drops what it was working on. */
  function Apply(w: World, s: System, action: Action): System {
    match action
    case CompileForSave(namespace, name, json, createdAt, expected) =>
      Begin(s, CreateSnapshot(w, s.reg, namespace, name, json, createdAt, expected), false)
    case CompileForLoad(namespace, name, createdAt, expectedHash, fault) =>
      Begin(s, ReadSnapshot(w, s, namespace, name, createdAt, expectedHash, fault), true)
    case Store(i, io) => StoreStep(w, s, i, io)
    case Register(i) => RegisterStep(w, s, i)
  }

  function RunActions(w: World, s: System, actions: seq<Action>): System
    decreases |actions|
  {
    if actions == [] then s else RunActions(w, Apply(w, s, actions[0]), actions[1..])
  }

  /** A store over any files, with nothing registered. */
  function Initial(files: map<string, string>): System {
    System(files, map[], [])
  }

  // ----- what every step keeps -----

  ghost predicate Extends<V>(m: map<string, V>, m': map<string, V>) {
    forall key | key in m :: key in m' && m'[key] == m[key]
  }

  /** Every stored program that `root` calls is registered. */
  ghost predicate Linked(reg: Registry, root: Node) {
    forall name | name in Calls(root) && IsDslCapability(name) :: name in reg
  }

  /** The callees of every registered program are registered, with a smaller rank. */
  ghost predicate Ranked(reg: Registry, rank: map<string, nat>) {
    && rank.Keys == reg.Keys
    && (forall name | name in reg :: rank[name] < |reg|)
    && forall name, callee |
         name in reg && callee in Calls(reg[name].root) && IsDslCapability(callee) ::
         callee in rank && rank[callee] < rank[name]
  }

  /** The snapshot's file is there and has its hash. */
  predicate OnFile(w: World, files: map<string, string>, snapshot: Snapshot) {
    var path := snapshot.metadata.path;
    path in files && w.hash(files[path]) == snapshot.metadata.hash
  }

  /** The snapshot is what its own JSON parses and compiles to, under the identity its name parses to. */
  ghost predicate Compiled(w: World, reg: Registry, snapshot: Snapshot) {
    var m := snapshot.metadata;
    && w.parse(snapshot.json) == Ok(snapshot.root)
    && Compile(CapabilityContains(w, reg), snapshot.root).Ok?
    && w.hash(snapshot.json) == m.hash
    && ParseCapabilityName(w, m.capability) == Ok(Identity(m.namespace, m.name))
  }

  /** A program registered under its own name: well formed, compiled, and on file. */
  ghost predicate EntryOk(w: World, files: map<string, string>, reg: Registry, name: string, snapshot: Snapshot) {
    && WellFormed(w, snapshot)
    && snapshot.metadata.capability == name
    && Compiled(w, reg, snapshot)
    && OnFile(w, files, snapshot)
  }

  ghost predicate RegistryOk(w: World, files: map<string, string>, reg: Registry) {
    forall name | name in reg :: EntryOk(w, files, reg, name, reg[name])
  }

  ghost predicate PendingOk(w: World, files: map<string, string>, reg: Registry, p: Pending) {
    && Compiled(w, reg, p.snapshot)
    && (p.stored ==> OnFile(w, files, p.snapshot))
  }

  ghost predicate Inv(w: World, s: System) {
    && (exists rank :: Ranked(s.reg, rank))
    && RegistryOk(w, s.files, s.reg)
    && forall p | p in s.pending :: PendingOk(w, s.files, s.reg, p)
  }

  lemma CompiledIsLinked(w: World, reg: Registry, root: Node)
    requires Compile(CapabilityContains(w, reg), root).Ok?
    ensures Linked(reg, root)
  {
    CompileAccepts(CapabilityContains(w, reg), root);
    ValidCallsExist(CapabilityContains(w, reg), root);
  }

  lemma SnapshotIsCompiled(
    w: World, reg: Registry, namespace: string, name: string, json: string, createdAt: int, expected: Option<string>)
    requires CreateSnapshot(w, reg, namespace, name, json, createdAt, expected).Ok?
    ensures
      var snapshot := CreateSnapshot(w, reg, namespace, name, json, createdAt, expected).value;
      && Compiled(w, reg, snapshot)
      && snapshot.json == json
      && PathOf(w, namespace, name) == Ok(snapshot.metadata.path)
  {
    CompileAccepts(CapabilityContains(w, reg), w.parse(json).value);
  }

  /** What compiles against a registry compiles against every extension of it. */
  lemma CompilingIsMonotone(w: World, reg: Registry, reg': Registry, root: Node)
    requires Extends(reg, reg') && Compile(CapabilityContains(w, reg), root).Ok?
    ensures Compile(CapabilityContains(w, reg'), root).Ok?
  {
    CompileAccepts(CapabilityContains(w, reg), root);
    CompileAccepts(CapabilityContains(w, reg'), root);
    forall inner | Within(inner, root)
      ensures LocallyValid(CapabilityContains(w, reg'), inner)
    {
      assert LocallyValid(CapabilityContains(w, reg), inner);
      if inner.Call? && IsDslCapability(inner.name) {
        assert RomContains(w, reg, inner.name) && RomContains(w, reg', inner.name);
      }
    }
  }

  lemma CompiledStays(w: World, reg: Registry, reg': Registry, snapshot: Snapshot)
    requires Compiled(w, reg, snapshot) && Extends(reg, reg')
    ensures Compiled(w, reg', snapshot)
  {
    CompilingIsMonotone(w, reg, reg', snapshot.root);
  }

  /** Binding a new name to a linked program puts it above all its callees; an old name is not rebound. */
  lemma BindingKeepsRanks(w: World, reg: Registry, snapshot: Snapshot, rank: map<string, nat>)
    returns (rank': map<string, nat>)
    requires Ranked(reg, rank) && Linked(reg, snapshot.root)
    ensures Ranked(Registered(w, reg, snapshot), rank')
  {
    var name := snapshot.metadata.capability;
    if WellFormed(w, snapshot) && name !in reg {
      rank' := rank[name := |reg|];
      assert |reg[name := snapshot]| == |reg| + 1;
    } else {
      rank' := rank;
    }
  }

  /** What holds of a registry and of pending work survives new files and new bindings. */
  lemma GrowthKeeps(w: World, s: System, files: map<string, string>, reg: Registry)
    requires Inv(w, s) && Extends(s.files, files) && Extends(s.reg, reg)
    ensures RegistryOk(w, files, s.reg)
    ensures forall p | p in s.pending :: PendingOk(w, files, reg, p)
  {
    forall p | p in s.pending
      ensures PendingOk(w, files, reg, p)
    {
      CompiledStays(w, s.reg, reg, p.snapshot);
    }
  }

  lemma BeginKeepsInv(w: World, s: System, made: Outcome<Snapshot>, stored: bool)
    requires Inv(w, s) && (made.Ok? ==> PendingOk(w, s.files, s.reg, Pending(made.value, stored)))
    ensures
      var s' := Begin(s, made, stored);
      Inv(w, s') && Extends(s.reg, s'.reg) && Extends(s.files, s'.files)
  {
  }

  lemma SaveBegins(
    w: World, s: System, namespace: string, name: string, json: string, createdAt: int, expected: Option<string>)
    requires Inv(w, s)
    ensures
      var s' := Begin(s, CreateSnapshot(w, s.reg, namespace, name, json, createdAt, expected), false);
      Inv(w, s') && Extends(s.reg, s'.reg) && Extends(s.files, s'.files)
  {
    var made := CreateSnapshot(w, s.reg, namespace, name, json, createdAt, expected);
    if made.Ok? {
      SnapshotIsCompiled(w, s.reg, namespace, name, json, createdAt, expected);
    }
    BeginKeepsInv(w, s, made, false);
  }

  lemma LoadBegins(
    w: World, s: System, namespace: string, name: string, createdAt: int, expectedHash: string, fault: Option<Exn>)
    requires Inv(w, s)
    ensures
      var s' := Begin(s, ReadSnapshot(w, s, namespace, name, createdAt, expectedHash, fault), true);
      Inv(w, s') && Extends(s.reg, s'.reg) && Extends(s.files, s'.files)
  {
    var made := ReadSnapshot(w, s, namespace, name, createdAt, expectedHash, fault);
    if made.Ok? {
      var json := s.files[PathOf(w, namespace, name).value];
      SnapshotIsCompiled(w, s.reg, namespace, name, json, createdAt, Some(expectedHash));
    }
    BeginKeepsInv(w, s, made, true);
  }

  lemma StoreKeepsInv(w: World, s: System, i: nat, io: Io)
    requires Inv(w, s)
    ensures Inv(w, StoreStep(w, s, i, io))
    ensures Extends(s.files, StoreStep(w, s, i, io).files)
    ensures Extends(s.reg, StoreStep(w, s, i, io).reg)
  {
    if i < |s.pending| && !s.pending[i].stored {
      var p := s.pending[i];
      assert PendingOk(w, s.files, s.reg, p);
      match EnsureStored(w, s.files, p.snapshot, io)
      case Err(_) =>
        WithoutIsFewer(s.pending, i);
      case Ok(files) =>
        StoredIsOnFile(w, s.files, p.snapshot, io);
        StoredKeepsInv(w, s, i, files);
    }
  }

  lemma StoredKeepsInv(w: World, s: System, i: nat, files: map<string, string>)
    requires Inv(w, s) && i < |s.pending| && Extends(s.files, files) && OnFile(w, files, s.pending[i].snapshot)
    ensures
      var pending := s.pending[i := s.pending[i].(stored := true)];
      Inv(w, s.(files := files, pending := pending))
  {
    GrowthKeeps(w, s, files, s.reg);
    StoredPending(w, files, s.reg, s.pending, i);
  }

  lemma StoredPending(w: World, files: map<string, string>, reg: Registry, pending: seq<Pending>, i: nat)
    requires i < |pending| && OnFile(w, files, pending[i].snapshot)
    requires forall p | p in pending :: PendingOk(w, files, reg, p)
    ensures forall p | p in pending[i := pending[i].(stored := true)] :: PendingOk(w, files, reg, p)
  {
    var p := pending[i].(stored := true);
    assert PendingOk(w, files, reg, pending[i]);
    assert forall q | q in pending[i := p] :: q in pending || q == p;
  }

  lemma WithoutIsFewer(pending: seq<Pending>, i: nat)
    requires i < |pending|
    ensures forall p | p in Without(pending, i) :: p in pending
  {
  }

  lemma StoredIsOnFile(w: World, files: map<string, string>, snapshot: Snapshot, io: Io)
    requires EnsureStored(w, files, snapshot, io).Ok? && w.hash(snapshot.json) == snapshot.metadata.hash
    ensures
      var stored := EnsureStored(w, files, snapshot, io).value;
      Extends(files, stored) && OnFile(w, stored, snapshot)
  {
  }

  lemma BindingKeepsRegistry(w: World, files: map<string, string>, reg: Registry, snapshot: Snapshot)
    requires RegistryOk(w, files, reg) && OnFile(w, files, snapshot) && Compiled(w, reg, snapshot)
    ensures RegistryOk(w, files, Registered(w, reg, snapshot))
    ensures Extends(reg, Registered(w, reg, snapshot))
  {
    var reg' := Registered(w, reg, snapshot);
    forall name | name in reg'
      ensures EntryOk(w, files, reg', name, reg'[name])
    {
      BoundEntryIsOk(w, files, reg, snapshot, name);
    }
  }

  lemma BoundEntryIsOk(w: World, files: map<string, string>, reg: Registry, snapshot: Snapshot, name: string)
    requires RegistryOk(w, files, reg) && OnFile(w, files, snapshot) && Compiled(w, reg, snapshot)
    requires name in Registered(w, reg, snapshot)
    ensures
      var reg' := Registered(w, reg, snapshot);
      EntryOk(w, files, reg', name, reg'[name])
  {
    RegisteredExtends(w, reg, snapshot, name);
    EntryStays(w, files, reg, Registered(w, reg, snapshot), name, Registered(w, reg, snapshot)[name]);
  }

  /** A name is bound as it was, or for the first time, to the snapshot under its own name. */
  lemma RegisteredExtends(w: World, reg: Registry, snapshot: Snapshot, name: string)
    requires name in Registered(w, reg, snapshot)
    ensures Extends(reg, Registered(w, reg, snapshot))
    ensures
      if name in reg then Registered(w, reg, snapshot)[name] == reg[name]
      else
        && Registered(w, reg, snapshot)[name] == snapshot
        && snapshot.metadata.capability == name
        && WellFormed(w, snapshot)
  {
  }

  lemma EntryStays(
    w: World, files: map<string, string>, reg: Registry, reg': Registry, name: string, snapshot: Snapshot)
    requires EntryOk(w, files, reg, name, snapshot) && Extends(reg, reg')
    ensures EntryOk(w, files, reg', name, snapshot)
  {
    CompiledStays(w, reg, reg', snapshot);
  }

  lemma RegisterKeepsInv(w: World, s: System, i: nat)
    requires Inv(w, s)
    ensures Inv(w, RegisterStep(w, s, i))
    ensures Extends(s.reg, RegisterStep(w, s, i).reg)
    ensures Extends(s.files, RegisterStep(w, s, i).files)
  {
    if i < |s.pending| && s.pending[i].stored {
      var snapshot := s.pending[i].snapshot;
      var reg := Registered(w, s.reg, snapshot);
      assert PendingOk(w, s.files, s.reg, s.pending[i]);
      BindingKeepsRegistry(w, s.files, s.reg, snapshot);
      GrowthKeeps(w, s, s.files, reg);
      BindingKeepsAcyclicity(w, s.reg, snapshot);
      WithoutIsFewer(s.pending, i);
    }
  }

  lemma BindingKeepsAcyclicity(w: World, reg: Registry, snapshot: Snapshot)
    requires exists rank :: Ranked(reg, rank)
    requires Compiled(w, reg, snapshot)
    ensures exists rank :: Ranked(Registered(w, reg, snapshot), rank)
  {
    CompiledIsLinked(w, reg, snapshot.root);
    var rank :| Ranked(reg, rank);
    var rank' := BindingKeepsRanks(w, reg, snapshot, rank);
  }

  /** Every step keeps the invariant, and neither rebinds a name nor changes a file. */
  lemma StepKeepsInv(w: World, s: System, action: Action)
    requires Inv(w, s)
    ensures Inv(w, Apply(w, s, action))
    ensures Extends(s.reg, Apply(w, s, action).reg)
    ensures Extends(s.files, Apply(w, s, action).files)
  {
    match action
    case CompileForSave(namespace, name, json, createdAt, expected) =>
      SaveBegins(w, s, namespace, name, json, createdAt, expected);
    case CompileForLoad(namespace, name, createdAt, expectedHash, fault) =>
      LoadBegins(w, s, namespace, name, createdAt, expectedHash, fault);
    case Store(i, io) => StoreKeepsInv(w, s, i, io);
    case Register(i) => RegisterKeepsInv(w, s, i);
  }

  /** Every state of every run satisfies the invariant; names and files, once there, stay as they are. */
  lemma {:induction false} RunsKeepInv(w: World, s: System, actions: seq<Action>)
    requires Inv(w, s)
    ensures Inv(w, RunActions(w, s, actions))
    ensures Extends(s.reg, RunActions(w, s, actions).reg)
    ensures Extends(s.files, RunActions(w, s, actions).files)
    decreases |actions|
  {
    if actions != [] {
      StepKeepsInv(w, s, actions[0]);
      RunsKeepInv(w, Apply(w, s, actions[0]), actions[1..]);
    }
  }

  lemma InitialInv(w: World, files: map<string, string>)
    ensures Inv(w, Initial(files))
  {
    assert Ranked(Initial(files).reg, map[]);
  }

  // ----- the call graph -----

  /** A chain of calls from one registered program to the next. */
  ghost predicate CallChain(reg: Registry, path: seq<string>) {
    && (forall i | 0 <= i < |path| :: path[i] in reg && IsDslCapability(path[i]))
    && forall i | 0 < i < |path| :: path[i] in Calls(reg[path[i - 1]].root)
  }

  lemma {:induction false} RanksFall(reg: Registry, rank: map<string, nat>, path: seq<string>)
    requires Ranked(reg, rank) && CallChain(reg, path) && path != []
    ensures rank[path[0]] >= rank[path[|path| - 1]] + |path| - 1
  {
    if |path| > 1 {
      var front := path[..|path| - 1];
      RanksFall(reg, rank, front);
      assert path[|path| - 1] in Calls(reg[path[|path| - 2]].root);
    }
  }

  /**
    In every reachable registry, under every interleaving of saves and loads, no program calls itself
    through any chain of calls, and no chain is longer than the number of registered programs.
  */
  lemma CallGraphIsAcyclic(w: World, files: map<string, string>, actions: seq<Action>, path: seq<string>)
    requires CallChain(RunActions(w, Initial(files), actions).reg, path)
    ensures |path| <= |RunActions(w, Initial(files), actions).reg|
    ensures |path| > 1 ==> path[0] != path[|path| - 1]
  {
    InitialInv(w, files);
    RunsKeepInv(w, Initial(files), actions);
    var reg := RunActions(w, Initial(files), actions).reg;
    var rank :| Ranked(reg, rank);
    if path != [] {
      RanksFall(reg, rank, path);
    }
  }

  // ----- resolving -----

  /** The name resolves to its own snapshot, which passes the validation of a call. */
  ghost predicate ResolvesTo(w: World, reg: Registry, name: string)
    requires name in reg
  {
    ResolveForCall(w, reg, name) == Ok(reg[name])
  }

  /** Every bound name does. */
  ghost predicate Resolves(w: World, reg: Registry) {
    forall name {:trigger ResolvesTo(w, reg, name)} | name in reg && IsDslCapability(name) ::
      ResolvesTo(w, reg, name)
  }

  lemma RegisteredResolves(w: World, files: map<string, string>, reg: Registry)
    requires RegistryOk(w, files, reg)
    ensures Resolves(w, reg)
  {
  }

  /**
    No ROM call of a compiled program fails at resolve or validation, now or in any later state: it gets
    the snapshot that was registered when the program was compiled.
  */
  lemma CompiledCallsResolve(
    w: World, files: map<string, string>, before: seq<Action>, after: seq<Action>, root: Node, name: string)
    requires
      var s := RunActions(w, Initial(files), before);
      && Compile(CapabilityContains(w, s.reg), root).Ok?
      && name in Calls(root) && IsDslCapability(name)
    ensures
      var s := RunActions(w, Initial(files), before);
      var later := RunActions(w, s, after);
      name in s.reg && ResolveForCall(w, later.reg, name) == Ok(s.reg[name])
  {
    var s := RunActions(w, Initial(files), before);
    ReachableResolves(w, files, before, after);
    CompiledIsLinked(w, s.reg, root);
    assert ResolvesTo(w, RunActions(w, s, after).reg, name);
  }

  lemma ReachableResolves(w: World, files: map<string, string>, before: seq<Action>, after: seq<Action>)
    ensures
      var s := RunActions(w, Initial(files), before);
      var later := RunActions(w, s, after);
      Resolves(w, later.reg) && Extends(s.reg, later.reg)
  {
    var s := RunActions(w, Initial(files), before);
    var later := RunActions(w, s, after);
    InitialInv(w, files);
    RunsKeepInv(w, Initial(files), before);
    RunsKeepInv(w, s, after);
    RegisteredResolves(w, later.files, later.reg);
  }

  // ----- nested runs -----

  /** The second registry extends the first, whose call graph has the given ranks. */
  ghost predicate Grown(w: World, reg: Registry, reg': Registry, rank: map<string, nat>) {
    && Resolves(w, reg) && Resolves(w, reg')
    && Extends(reg, reg')
    && Ranked(reg, rank)
  }

  /**
    A call behaves the same in a registry and in any extension of it, however deep the nesting may go and
    whatever answers beyond that depth, as long as the depth exceeds the rank of the called program.
  */
  lemma {:induction false} CallsAreStable(
    w: World, reg: Registry, reg': Registry, rank: map<string, nat>,
    bottom: Invoke, bottom': Invoke, depth: nat, depth': nat, names: set<string>, bound: nat)
    requires Grown(w, reg, reg', rank)
    requires forall name | name in names && IsDslCapability(name) :: name in rank && rank[name] < bound
    requires bound <= depth && bound <= depth'
    ensures Alike(Invoking(w, reg, bottom, depth), Invoking(w, reg', bottom', depth'), names)
    decreases bound, 0
  {
    forall name, value, args, tick: nat | name in names
      ensures InvokeAt(w, reg, bottom, depth, name, value, args, tick)
           == InvokeAt(w, reg', bottom', depth', name, value, args, tick)
    {
      if IsDslCapability(name) {
        CallIsStable(w, reg, reg', rank, bottom, bottom', depth, depth', name, value, args, tick);
      }
    }
  }

  lemma {:induction false} CallIsStable(
    w: World, reg: Registry, reg': Registry, rank: map<string, nat>,
    bottom: Invoke, bottom': Invoke, depth: nat, depth': nat,
    name: string, value: Value, args: map<string, string>, tick: nat)
    requires Grown(w, reg, reg', rank)
    requires IsDslCapability(name) && name in rank && rank[name] < depth && rank[name] < depth'
    ensures InvokeAt(w, reg, bottom, depth, name, value, args, tick)
         == InvokeAt(w, reg', bottom', depth', name, value, args, tick)
    decreases rank[name], 1
  {
    var snapshot := reg[name];
    var deeper, deeper' := Invoking(w, reg, bottom, depth - 1), Invoking(w, reg', bottom', depth' - 1);
    CalleesRankLower(reg, rank, name);
    CallsAreStable(
      w, reg, reg', rank, bottom, bottom', depth - 1, depth' - 1, Calls(snapshot.root), rank[name]);
    SnapshotIsStable(w, snapshot, deeper, deeper', value, tick);
    CallUnfolds(w, reg, bottom, depth, name, value, args, tick);
    CallUnfolds(w, reg', bottom', depth', name, value, args, tick);
  }

  lemma CalleesRankLower(reg: Registry, rank: map<string, nat>, name: string)
    requires Ranked(reg, rank) && name in reg
    ensures forall callee | callee in Calls(reg[name].root) && IsDslCapability(callee) ::
              callee in rank && rank[callee] < rank[name]
  {
  }

  /** A call of a registered program runs it one level further down. */
  lemma CallUnfolds(
    w: World, reg: Registry, bottom: Invoke, depth: nat,
    name: string, value: Value, args: map<string, string>, tick: nat)
    requires Resolves(w, reg) && name in reg && IsDslCapability(name) && depth > 0
    ensures InvokeAt(w, reg, bottom, depth, name, value, args, tick)
         == CallSnapshot(w, Ok(reg[name]), Invoking(w, reg, bottom, depth - 1), value, tick)
  {
    assert ResolvesTo(w, reg, name);
  }

  lemma SnapshotIsStable(w: World, snapshot: Snapshot, deeper: Invoke, deeper': Invoke, value: Value, tick: nat)
    requires Alike(deeper, deeper', Calls(snapshot.root))
    ensures CallSnapshot(w, Ok(snapshot), deeper, value, tick) == CallSnapshot(w, Ok(snapshot), deeper', value, tick)
  {
    RunsAreCongruent(RomEnv(w, deeper, EPOCH), RomEnv(w, deeper', EPOCH), snapshot.root, value, tick);
  }

  /**
    Nested execution ends and later registrations are invisible. A program compiled in a reachable state
    runs the same there and in every later state: same result, same log, same clock readings. Any nesting
    depth from the number of registered programs on will do, and what would answer deeper calls is never
    asked.
  */
  lemma GrowthIsInvisible(
    w: World, files: map<string, string>, before: seq<Action>, after: seq<Action>, root: Node,
    bottom: Invoke, bottom': Invoke, depth: nat, depth': nat, startedAt: int, input: Value, tick: nat)
    requires Compile(CapabilityContains(w, RunActions(w, Initial(files), before).reg), root).Ok?
    requires depth >= |RunActions(w, Initial(files), before).reg|
    requires depth' >= |RunActions(w, Initial(files), before).reg|
    ensures
      var s := RunActions(w, Initial(files), before);
      var later := RunActions(w, s, after);
      Execute(RomEnv(w, Invoking(w, s.reg, bottom, depth), startedAt), root, input, tick)
      == Execute(RomEnv(w, Invoking(w, later.reg, bottom', depth'), startedAt), root, input, tick)
  {
    var s := RunActions(w, Initial(files), before);
    var later := RunActions(w, s, after);
    InitialInv(w, files);
    RunsKeepInv(w, Initial(files), before);
    RunsKeepInv(w, s, after);
    CompiledIsLinked(w, s.reg, root);
    RunsAreStable(w, s, later, root, bottom, bottom', depth, depth', startedAt, input, tick);
  }

  lemma RunsAreStable(
    w: World, s: System, later: System, root: Node,
    bottom: Invoke, bottom': Invoke, depth: nat, depth': nat, startedAt: int, input: Value, tick: nat)
    requires Inv(w, s) && Inv(w, later) && Extends(s.reg, later.reg)
    requires Linked(s.reg, root) && depth >= |s.reg| && depth' >= |s.reg|
    ensures Execute(RomEnv(w, Invoking(w, s.reg, bottom, depth), startedAt), root, input, tick)
         == Execute(RomEnv(w, Invoking(w, later.reg, bottom', depth'), startedAt), root, input, tick)
  {
    RegisteredResolves(w, s.files, s.reg);
    RegisteredResolves(w, later.files, later.reg);
    LinkedRunsAreStable(
      w, s.reg, later.reg, root, bottom, bottom', depth, depth', startedAt, input, tick);
  }

  lemma LinkedRunsAreStable(
    w: World, reg: Registry, reg': Registry, root: Node,
    bottom: Invoke, bottom': Invoke, depth: nat, depth': nat, startedAt: int, input: Value, tick: nat)
    requires Resolves(w, reg) && Resolves(w, reg') && Extends(reg, reg')
    requires exists rank :: Ranked(reg, rank)
    requires Linked(reg, root) && |reg| <= depth && |reg| <= depth'
    ensures Execute(RomEnv(w, Invoking(w, reg, bottom, depth), startedAt), root, input, tick)
         == Execute(RomEnv(w, Invoking(w, reg', bottom', depth'), startedAt), root, input, tick)
  {
    var rank :| Ranked(reg, rank);
    CallsAreStable(w, reg, reg', rank, bottom, bottom', depth, depth', Calls(root), |reg|);
    RunsAreCongruent(
      RomEnv(w, Invoking(w, reg, bottom, depth), startedAt),
      RomEnv(w, Invoking(w, reg', bottom', depth'), startedAt), root, input, tick);
  }

  // ----- save and load -----

  /**
    Loading what is registered gives it back: in every reachable state, reading a registered program under
    its own identity and hash recompiles the very same program if and only if its file is its text; the
    file has the same hash in any case, so it can only be another text that collides with it. Registering
    the program again returns the metadata bound first and leaves the registry as it was.
  */
  lemma LoadReturnsWhatWasSaved(
    w: World, files: map<string, string>, actions: seq<Action>, name: string, createdAt: int)
    requires name in RunActions(w, Initial(files), actions).reg
    ensures
      var s := RunActions(w, Initial(files), actions);
      var saved := s.reg[name];
      var m := saved.metadata;
      var loaded := saved.(metadata := m.(createdAt := createdAt));
      && m.path in s.files && w.hash(s.files[m.path]) == w.hash(saved.json)
      && (ReadSnapshot(w, s, m.namespace, m.name, createdAt, m.hash, None) == Ok(loaded)
          <==> s.files[m.path] == saved.json)
      && RegisterResult(w, s.reg, loaded) == Ok(m)
      && Registered(w, s.reg, loaded) == s.reg
  {
    InitialInv(w, files);
    RunsKeepInv(w, Initial(files), actions);
    var s := RunActions(w, Initial(files), actions);
    LoadAgain(w, s, s.reg[name], createdAt);
  }

  lemma LoadAgain(w: World, s: System, saved: Snapshot, createdAt: int)
    requires saved.metadata.capability in s.reg && s.reg[saved.metadata.capability] == saved
    requires WellFormed(w, saved) && Compiled(w, s.reg, saved) && OnFile(w, s.files, saved)
    ensures
      var m := saved.metadata;
      var loaded := saved.(metadata := m.(createdAt := createdAt));
      && (ReadSnapshot(w, s, m.namespace, m.name, createdAt, m.hash, None) == Ok(loaded)
          <==> s.files[m.path] == saved.json)
      && RegisterResult(w, s.reg, loaded) == Ok(m)
      && Registered(w, s.reg, loaded) == s.reg
  {
    CompileAccepts(CapabilityContains(w, s.reg), saved.root);
  }

  /** In every reachable state every registered program is on file, under the hash it was registered with. */
  lemma RegisteredIsOnFile(w: World, files: map<string, string>, actions: seq<Action>, name: string)
    requires name in RunActions(w, Initial(files), actions).reg
    ensures
      var s := RunActions(w, Initial(files), actions);
      OnFile(w, s.files, s.reg[name]) && Extends(files, s.files)
  {
    InitialInv(w, files);
    RunsKeepInv(w, Initial(files), actions);
  }
}
