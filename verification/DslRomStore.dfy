/** The ROM store object: saves and loads as the source performs them, as runs of the linking machine. */
module DslRomStore {
  import opened Common
  import opened ResultSteps
  import opened DslRom
  import opened DslRomLinking
  import DslRomAnswers
  import VfsPaths

  class DslRomStore {
    const registry: DslRomRegistry
    var files: map<string, string>

    constructor (registry: DslRomRegistry, files: map<string, string>)
      ensures this.registry == registry && this.files == files
      ensures registry.snapshots == map[] ==> Idle() == Initial(files)
    {
      this.registry := registry;
      this.files := files;
    }

    /** The store with no work under way. */
    function Idle(): System
      reads this, registry
    {
      System(files, registry.snapshots, [])
    }

    /** `EnsureSnapshotStoredAsync`. */
    method EnsureSnapshotStored(snapshot: Snapshot, io: Io) returns (r: Outcome<bool>)
      modifies `files
      ensures
        var stored := EnsureStored(registry.world, old(files), snapshot, io);
        && r.Ok? == stored.Ok?
        && (r.Err? ==> r.error == stored.error)
        && files == if stored.Ok? then stored.value else old(files)
    {
      var path := snapshot.metadata.path;
      if io.probe.Some? {
        return Err(StoreException(io.probe.value));
      }
      if path in files {
        if io.read.Some? {
          return Err(FromException(io.read.value));
        }
        if registry.world.hash(files[path]) == snapshot.metadata.hash {
          return Ok(true);
        }
        return Err(RomError());
      }
      if io.write.Some? {
        return Err(StoreException(io.write.value));
      }
      files := files[path := snapshot.json];
      return Ok(true);
    }

    /** `SaveDslAsRomAsync`: compile, store, register; a failure leaves the registry as it was. */
    method SaveDslAsRom(
      namespace: string, name: string, json: string, createdAt: int, expected: Option<string>, io: Io)
      returns (r: Outcome<RomMetadata>)
      requires registry.Valid()
      modifies this, registry
      ensures registry.Valid()
      ensures Idle() == RunActions(
                registry.world, old(Idle()),
                [CompileForSave(namespace, name, json, createdAt, expected), Store(0, io), Register(0)])
      ensures r.Ok? ==>
        && DslRomAnswers.MeetsExpectation(registry.world, registry.world.hash(json), expected)
        && HoldsHash(registry.world, files, namespace, name, registry.world.hash(json))
      ensures r.Ok? ==>
        r.value.capability in registry.snapshots && registry.snapshots[r.value.capability].metadata == r.value
      ensures r.Err? ==> registry.snapshots == old(registry.snapshots)
      ensures
        var made := CreateSnapshot(
          registry.world, old(registry.snapshots), namespace, name, json, createdAt, expected);
        r == SaveResult(registry.world, old(Idle()), made, io)
    {
      SaveRuns(registry.world, Idle(), namespace, name, json, createdAt, expected, io);
      var made := CreateSnapshot(registry.world, registry.snapshots, namespace, name, json, createdAt, expected);
      if made.Err? {
        return Err(made.error);
      }
      SavedHoldsHash(registry.world, registry.snapshots, files, namespace, name, json, createdAt, expected, io);
      var stored := EnsureSnapshotStored(made.value, io);
      if stored.Err? {
        return Err(stored.error);
      }
      r := registry.Register(made.value);
    }

    /** `LoadDslRomAsync`: read, compile, register. */
    method LoadDslRom(
      namespace: string, name: string, createdAt: int, expectedHash: string, fault: Option<Exn>)
      returns (r: Outcome<RomMetadata>)
      requires registry.Valid()
      modifies registry
      ensures registry.Valid()
      ensures Idle() == RunActions(
                registry.world, old(Idle()),
                [CompileForLoad(namespace, name, createdAt, expectedHash, fault), Register(0)])
      ensures r.Ok? ==>
        var path := PathOf(registry.world, namespace, name);
        && path.Ok? && path.value in files
        && DslRomAnswers.MeetsExpectation(
             registry.world, registry.world.hash(files[path.value]), Some(expectedHash))
      ensures r.Ok? ==>
        r.value.capability in registry.snapshots && registry.snapshots[r.value.capability].metadata == r.value
      ensures r.Err? ==> registry.snapshots == old(registry.snapshots)
      ensures
        var made := ReadSnapshot(registry.world, old(Idle()), namespace, name, createdAt, expectedHash, fault);
        r == LoadResult(registry.world, old(Idle()), made)
    {
      LoadRuns(registry.world, Idle(), namespace, name, createdAt, expectedHash, fault);
      var made := ReadSnapshot(registry.world, Idle(), namespace, name, createdAt, expectedHash, fault);
      if made.Err? {
        return Err(made.error);
      }
      r := registry.Register(made.value);
    }
  }

  function SaveResult(w: World, s: System, made: Outcome<Snapshot>, io: Io): Outcome<RomMetadata> {
    match made
    case Err(error) => Err(error)
    case Ok(snapshot) =>
      match EnsureStored(w, s.files, snapshot, io)
      case Err(error) => Err(error)
      case Ok(_) => RegisterResult(w, s.reg, snapshot)
  }

  function LoadResult(w: World, s: System, made: Outcome<Snapshot>): Outcome<RomMetadata> {
    match made
    case Err(error) => Err(error)
    case Ok(snapshot) => RegisterResult(w, s.reg, snapshot)
  }

  // ----- when saves and loads succeed -----

  /** The file system answers, and the file is free or holds a text of the same hash. */
  ghost predicate Storable(w: World, files: map<string, string>, path: string, hash: string, io: Io) {
    && io.probe.None?
    && if path in files then io.read.None? && w.hash(files[path]) == hash else io.write.None?
  }

  /** The JSON is a program that can be registered under its name. */
  ghost predicate Registrable(w: World, reg: Registry, json: string, expected: Option<string>, capability: string) {
    var hash := w.hash(json);
    && !IsBlank(json) && !IsBlank(hash)
    && DslRomAnswers.MeetsExpectation(w, hash, expected)
    && w.parse(json).Ok? && DslRomAnswers.IsProgram(w, reg, w.parse(json).value)
    && (capability in reg ==> reg[capability].metadata.hash == hash)
  }

  /** What is registered under the name already, or else what was given. */
  ghost predicate IsRegistered(reg: Registry, m: RomMetadata, result: RomMetadata) {
    result == if m.capability in reg then reg[m.capability].metadata else m
  }

  /**
    A save succeeds if and only if its program can be registered and its file can hold it. It writes the
    file if that is missing, and answers with what is registered.
  */
  lemma SaveSucceedsWhen(
    w: World, s: System, namespace: string, name: string, json: string, createdAt: int, expected: Option<string>,
    io: Io, ns: string, n: string)
    requires w.normalize == VfsPaths.Normalized && DslRomAnswers.IsNamed(namespace, name, ns, n)
    ensures
      var path, capability := "rom/dsl/" + ns + "/" + n + ".json", "dsl://" + ns + "/" + n;
      var made := CreateSnapshot(w, s.reg, namespace, name, json, createdAt, expected);
      var result := SaveResult(w, s, made, io);
      && (result.Ok? <==>
            Registrable(w, s.reg, json, expected, capability) && Storable(w, s.files, path, w.hash(json), io))
      && (result.Ok? ==>
            && AfterSave(w, s, made, io).files == (if path in s.files then s.files else s.files[path := json])
            && IsRegistered(s.reg, RomMetadata(ns, n, path, capability, w.hash(json), createdAt), result.value))
  {
    DslRomAnswers.CreatedSucceeds(w, s.reg, namespace, name, json, createdAt, expected, ns, n);
    var made := CreateSnapshot(w, s.reg, namespace, name, json, createdAt, expected);
    if made.Ok? {
      MadeIsSaved(w, s, made.value, io);
    }
  }

  lemma MadeIsSaved(w: World, s: System, snapshot: Snapshot, io: Io)
    ensures
      var m := snapshot.metadata;
      var result := SaveResult(w, s, Ok(snapshot), io);
      && (result.Ok? <==>
            && Storable(w, s.files, m.path, m.hash, io) && WellFormed(w, snapshot)
            && (m.capability in s.reg ==> s.reg[m.capability].metadata.hash == m.hash))
      && (result.Ok? ==>
            && AfterSave(w, s, Ok(snapshot), io).files
               == (if m.path in s.files then s.files else s.files[m.path := snapshot.json])
            && IsRegistered(s.reg, m, result.value))
  {
    DslRomAnswers.RegisterAnswers(w, s.reg, snapshot);
  }

  /** A load succeeds if and only if the hash is given, and the file is there and holds such a program. */
  lemma LoadSucceedsWhen(
    w: World, s: System, namespace: string, name: string, createdAt: int, expectedHash: string, fault: Option<Exn>,
    ns: string, n: string)
    requires w.normalize == VfsPaths.Normalized && DslRomAnswers.IsNamed(namespace, name, ns, n)
    ensures
      var path, capability := "rom/dsl/" + ns + "/" + n + ".json", "dsl://" + ns + "/" + n;
      var result := LoadResult(w, s, ReadSnapshot(w, s, namespace, name, createdAt, expectedHash, fault));
      && (result.Ok? <==>
            && !IsBlank(expectedHash) && fault.None? && path in s.files
            && Registrable(w, s.reg, s.files[path], Some(expectedHash), capability))
      && (result.Ok? ==>
            IsRegistered(
              s.reg, RomMetadata(ns, n, path, capability, w.hash(s.files[path]), createdAt), result.value))
  {
    var path := "rom/dsl/" + ns + "/" + n + ".json";
    DslRomAnswers.NamedIsValid(w, namespace, name, ns, n);
    if path in s.files {
      DslRomAnswers.CreatedSucceeds(w, s.reg, namespace, name, s.files[path], createdAt, Some(expectedHash), ns, n);
    }
  }

  /** The program's file is there, and has the hash. */
  ghost predicate HoldsHash(w: World, files: map<string, string>, namespace: string, name: string, hash: string) {
    var path := PathOf(w, namespace, name);
    path.Ok? && path.value in files && w.hash(files[path.value]) == hash
  }

  /** What was made met the expected hash, and has its file once it is stored. */
  lemma SavedHoldsHash(
    w: World, reg: Registry, files: map<string, string>, namespace: string, name: string, json: string,
    createdAt: int, expected: Option<string>, io: Io)
    requires CreateSnapshot(w, reg, namespace, name, json, createdAt, expected).Ok?
    ensures
      var made := CreateSnapshot(w, reg, namespace, name, json, createdAt, expected).value;
      var stored := EnsureStored(w, files, made, io);
      && DslRomAnswers.MeetsExpectation(w, w.hash(json), expected)
      && (stored.Ok? ==> HoldsHash(w, stored.value, namespace, name, w.hash(json)))
  {
    SnapshotIsCompiled(w, reg, namespace, name, json, createdAt, expected);
    if EnsureStored(w, files, CreateSnapshot(w, reg, namespace, name, json, createdAt, expected).value, io).Ok? {
      StoredIsOnFile(w, files, CreateSnapshot(w, reg, namespace, name, json, createdAt, expected).value, io);
    }
  }

  /** What a save makes of a store with no other work under way, given the compiled snapshot. */
  function AfterSave(w: World, s: System, made: Outcome<Snapshot>, io: Io): System {
    if made.Err? then s
    else
      match EnsureStored(w, s.files, made.value, io)
      case Err(_) => s
      case Ok(files) => System(files, Registered(w, s.reg, made.value), [])
  }

  function AfterLoad(w: World, s: System, made: Outcome<Snapshot>): System {
    if made.Err? then s else System(s.files, Registered(w, s.reg, made.value), [])
  }

  lemma SaveIsThreeSteps(w: World, s: System, made: Outcome<Snapshot>, io: Io)
    requires s.pending == []
    ensures RegisterStep(w, StoreStep(w, Begin(s, made, false), 0, io), 0)
         == AfterSave(w, s, made, io)
  {
    if made.Ok? {
      var p := Pending(made.value, false);
      assert Begin(s, made, false).pending == [p];
      assert Without([p], 0) == [] && Without([p.(stored := true)], 0) == [];
    }
  }

  lemma LoadIsTwoSteps(w: World, s: System, made: Outcome<Snapshot>)
    requires s.pending == []
    ensures RegisterStep(w, Begin(s, made, true), 0) == AfterLoad(w, s, made)
  {
    if made.Ok? {
      var p := Pending(made.value, true);
      assert Begin(s, made, true).pending == [p];
      assert Without([p], 0) == [];
    }
  }

  lemma RunOfTwo(w: World, s: System, a: Action, b: Action)
    ensures RunActions(w, s, [a, b]) == Apply(w, Apply(w, s, a), b)
  {
    assert [a, b][1..] == [b] && [b][1..] == [];
    assert RunActions(w, Apply(w, s, a), [b]) == Apply(w, Apply(w, s, a), b);
  }

  lemma RunOfThree(w: World, s: System, a: Action, b: Action, c: Action)
    ensures RunActions(w, s, [a, b, c]) == Apply(w, Apply(w, Apply(w, s, a), b), c)
  {
    assert [a, b, c][1..] == [b, c];
    RunOfTwo(w, Apply(w, s, a), b, c);
  }

  lemma SaveRuns(
    w: World, s: System, namespace: string, name: string, json: string, createdAt: int, expected: Option<string>,
    io: Io)
    requires s.pending == []
    ensures
      var made := CreateSnapshot(w, s.reg, namespace, name, json, createdAt, expected);
      RunActions(
        w, s, [CompileForSave(namespace, name, json, createdAt, expected), Store(0, io), Register(0)])
      == AfterSave(w, s, made, io)
  {
    RunOfThree(
      w, s, CompileForSave(namespace, name, json, createdAt, expected), Store(0, io), Register(0));
    SaveIsThreeSteps(
      w, s, CreateSnapshot(w, s.reg, namespace, name, json, createdAt, expected), io);
  }

  lemma LoadRuns(
    w: World, s: System, namespace: string, name: string, createdAt: int, expectedHash: string, fault: Option<Exn>)
    requires s.pending == []
    ensures
      RunActions(w, s, [CompileForLoad(namespace, name, createdAt, expectedHash, fault), Register(0)])
      == AfterLoad(w, s, ReadSnapshot(w, s, namespace, name, createdAt, expectedHash, fault))
  {
    RunOfTwo(w, s, CompileForLoad(namespace, name, createdAt, expectedHash, fault), Register(0));
    LoadIsTwoSteps(w, s, ReadSnapshot(w, s, namespace, name, createdAt, expectedHash, fault));
  }
}
