/**
  History ROMs: markdown files stored under `rom/history/{namespace}/{name}.md`, checked by loading them
  back, and registered once. A save that fails removes the file it wrote.
*/
module HistoryRom {
  import opened Common
  import VfsPaths

  datatype Problem =
    | InvalidIdentity
    | InvalidId
    | PathTaken
    | Missing(field: string)
    | IdMismatch
    | PathMismatch
    | NotVerified
    | WrongSourceKind
    | HashMismatch
    | NotCanonical
    | Immutable
    | NotRegistered
    | Io(exn: Exn)

  datatype Result<+T> = Ok(value: T) | Fail(problem: Problem)

  datatype Signature = Signature(isVerified: bool, actualHash: string)

  /** What the loader makes of a file. */
  datatype Rom = Rom(romId: string, sourcePath: string, signature: Option<Signature>, sourceKind: Option<string>)

  datatype Metadata = Metadata(
    namespace: string, name: string, path: string, romId: string, romHash: string, createdAt: int)

  datatype Snapshot = Snapshot(metadata: Metadata, markdown: string, rom: Rom)

  type Normalize = string -> Attempt<string>

  type Snapshots = map<string, Snapshot>

  type Files = map<string, string>

  // ----- names and paths -----

  const PREFIX := "history://"
  const FOLDER := "rom/history/"

  function IdentityOf(normalize: Normalize, namespace: string, name: string): Option<Identity> {
    if IsBlank(namespace) || IsBlank(name) then None
    else
      match (normalize(namespace), normalize(name))
      case (Returned(ns), Returned(n)) =>
        if SingleSegment(ns) && SingleSegment(n) then Some(Identity(ns, n)) else None
      case _ => None
  }

  function PathFor(normalize: Normalize, namespace: string, name: string): Option<string> {
    match IdentityOf(normalize, namespace, name)
    case Some(id) => Some(FOLDER + (id.namespace + "/" + id.name) + ".md")
    case None => None
  }

  function RomIdFor(normalize: Normalize, namespace: string, name: string): Option<string> {
    match IdentityOf(normalize, namespace, name)
    case Some(id) => Some(PREFIX + (id.namespace + "/" + id.name))
    case None => None
  }

  function ParseRomId(normalize: Normalize, romId: string): Option<Identity> {
    if IsBlank(romId) || !(PREFIX <= romId) then None
    else
      var relative := romId[|PREFIX|..];
      var i := Separator(relative);
      if i == 0 || i >= |relative| - 1 then None
      else IdentityOf(normalize, relative[..i], relative[i + 1..])
  }

  // ----- snapshots and their registration -----

  /** `HistoryRomProvider.CreateSnapshot`. */
  function CreateSnapshot(
    normalize: Normalize, namespace: string, name: string, markdown: string, createdAt: int, rom: Rom,
    expected: Option<string>): Result<Snapshot>
  {
    if IsBlank(markdown) then Fail(Missing("markdown"))
    else
      var path := PathFor(normalize, namespace, name);
      var romId := RomIdFor(normalize, namespace, name);
      if path.None? || romId.None? then Fail(InvalidIdentity)
      else
        var parsed := ParseRomId(normalize, romId.value);
        if parsed.None? then Fail(InvalidId)
        else if rom.romId != romId.value then Fail(IdMismatch)
        else if rom.sourcePath != path.value then Fail(PathMismatch)
        else if rom.signature.None? || !rom.signature.value.isVerified then Fail(NotVerified)
        else if rom.sourceKind != Some("chat_history") then Fail(WrongSourceKind)
        else
          var hash := rom.signature.value.actualHash;
          if expected.Some? && !IsBlank(expected.value) && hash != expected.value then Fail(HashMismatch)
          else
            Ok(Snapshot(
                 Metadata(parsed.value.namespace, parsed.value.name, path.value, romId.value, hash, createdAt),
                 markdown, rom))
  }

  /** The metadata's id and path are those of its namespace and name. */
  predicate IsCanonical(normalize: Normalize, m: Metadata) {
    && ParseRomId(normalize, m.romId).Some?
    && RomIdFor(normalize, m.namespace, m.name) == Some(m.romId)
    && PathFor(normalize, m.namespace, m.name) == Some(m.path)
  }

  /** The guards of `Register`. */
  function Objection(normalize: Normalize, s: Snapshot): Option<Problem> {
    var m := s.metadata;
    if IsBlank(m.romId) then Some(Missing("id"))
    else if IsBlank(m.romHash) then Some(Missing("hash"))
    else if IsBlank(m.namespace) then Some(Missing("namespace"))
    else if IsBlank(m.name) then Some(Missing("name"))
    else if IsBlank(m.path) then Some(Missing("path"))
    else if !IsCanonical(normalize, m) then Some(NotCanonical)
    else if IsBlank(s.markdown) then Some(Missing("markdown"))
    else if s.rom.romId != m.romId then Some(IdMismatch)
    else if s.rom.signature.None? || !s.rom.signature.value.isVerified then Some(NotVerified)
    else if s.rom.signature.value.actualHash != m.romHash then Some(HashMismatch)
    else None
  }

  datatype Registration = Registration(snapshots: Snapshots, result: Result<Metadata>)

  function Registered(normalize: Normalize, snapshots: Snapshots, s: Snapshot): Registration {
    var objection := Objection(normalize, s);
    if objection.Some? then Registration(snapshots, Fail(objection.value))
    else
      var id := s.metadata.romId;
      var bound := if id in snapshots then snapshots else snapshots[id := s];
      var existing := bound[id].metadata;
      Registration(bound, if existing.romHash == s.metadata.romHash then Ok(existing) else Fail(Immutable))
  }

  function Resolve(normalize: Normalize, snapshots: Snapshots, romId: string): Result<Snapshot> {
    if ParseRomId(normalize, romId).None? then Fail(InvalidId)
    else if romId in snapshots then Ok(snapshots[romId])
    else Fail(NotRegistered)
  }

  // ----- saving and loading -----

  /** How the file system and the loader behave during one call. */
  datatype Weather = Weather(
    probe: Option<Exn>,
    readBack: Option<Exn>,
    write: Option<Exn>,
    read: Option<Exn>,
    rom: Attempt<Rom>,
    delete: Option<Exn>,
    deleteAgain: Option<Exn>)

  datatype State = State(files: Files, snapshots: Snapshots)

  datatype Stepped = Stepped(state: State, result: Result<Metadata>)

  function Read(files: Files, path: string, fault: Option<Exn>): Attempt<string> {
    if fault.Some? then Threw(fault.value)
    else if path in files then Returned(files[path])
    else Threw(Exn("VfsFileNotFoundException"))
  }

  /** `TryDeleteAsync`. */
  function Deleted(files: Files, path: string, fault: Option<Exn>): Files {
    if fault.None? && path in files then files - {path} else files
  }

  datatype Request = Request(namespace: string, name: string, createdAt: int)

  function Loaded(normalize: Normalize, s: State, rq: Request, expected: Option<string>, sky: Weather): Stepped {
    match PathFor(normalize, rq.namespace, rq.name)
    case None => Stepped(s, Fail(InvalidIdentity))
    case Some(path) =>
      match Read(s.files, path, sky.read)
      case Threw(exn) => Stepped(s, Fail(Io(exn)))
      case Returned(markdown) =>
        match sky.rom
        case Threw(exn) => Stepped(s, Fail(Io(exn)))
        case Returned(rom) =>
          match CreateSnapshot(normalize, rq.namespace, rq.name, markdown, rq.createdAt, rom, expected)
          case Fail(problem) => Stepped(s, Fail(problem))
          case Ok(snapshot) =>
            var r := Registered(normalize, s.snapshots, snapshot);
            Stepped(State(s.files, r.snapshots), r.result)
  }

  function Saved(normalize: Normalize, s: State, rq: Request, markdown: string, sky: Weather): Stepped {
    match PathFor(normalize, rq.namespace, rq.name)
    case None => Stepped(s, Fail(InvalidIdentity))
    case Some(path) =>
      if sky.probe.Some? then Stepped(s, Fail(Io(sky.probe.value)))
      else if path in s.files then
        match Read(s.files, path, sky.readBack)
        case Threw(exn) => Stepped(s, Fail(Io(exn)))
        case Returned(existing) =>
          if existing != markdown then Stepped(s, Fail(PathTaken))
          else Loaded(normalize, s, rq, None, sky)
      else if sky.write.Some? then Stepped(s, Fail(Io(sky.write.value)))
      else
        var loaded := Loaded(normalize, State(s.files[path := markdown], s.snapshots), rq, None, sky);
        if loaded.result.Ok? then loaded
        else
          var once := Deleted(loaded.state.files, path, sky.delete);
          Stepped(State(Deleted(once, path, sky.deleteAgain), loaded.state.snapshots), loaded.result)
  }

  class HistoryRomStore {
    const normalize: Normalize
    var files: Files
    var snapshots: Snapshots

    constructor (normalize: Normalize, files: Files)
      ensures this.normalize == normalize && Value() == State(files, map[])
    {
      this.normalize := normalize;
      this.files := files;
      snapshots := map[];
    }

    function Value(): State
      reads this
    {
      State(files, snapshots)
    }

    method Register(snapshot: Snapshot) returns (result: Result<Metadata>)
      modifies this`snapshots
      ensures Registration(snapshots, result) == Registered(normalize, old(snapshots), snapshot)
    {
      var objection := Objection(normalize, snapshot);
      if objection.Some? {
        return Fail(objection.value);
      }
      var id := snapshot.metadata.romId;
      if id !in snapshots {
        snapshots := snapshots[id := snapshot];
      }
      var existing := snapshots[id].metadata;
      if existing.romHash != snapshot.metadata.romHash {
        return Fail(Immutable);
      }
      return Ok(existing);
    }

    method Load(rq: Request, expected: Option<string>, sky: Weather) returns (result: Result<Metadata>)
      modifies this`snapshots
      ensures Stepped(Value(), result) == Loaded(normalize, old(Value()), rq, expected, sky)
    {
      var path := PathFor(normalize, rq.namespace, rq.name);
      if path.None? {
        return Fail(InvalidIdentity);
      }
      var markdown := Read(files, path.value, sky.read);
      if markdown.Threw? {
        return Fail(Io(markdown.exn));
      }
      if sky.rom.Threw? {
        return Fail(Io(sky.rom.exn));
      }
      var snapshot := CreateSnapshot(
        normalize, rq.namespace, rq.name, markdown.result, rq.createdAt, sky.rom.result, expected);
      if snapshot.Fail? {
        return Fail(snapshot.problem);
      }
      result := Register(snapshot.value);
    }

    method Save(rq: Request, markdown: string, sky: Weather) returns (result: Result<Metadata>)
      modifies this
      ensures Stepped(Value(), result) == Saved(normalize, old(Value()), rq, markdown, sky)
    {
      var path := PathFor(normalize, rq.namespace, rq.name);
      if path.None? {
        return Fail(InvalidIdentity);
      }
      var wroteNewFile := false;
      if sky.probe.Some? {
        return Fail(Io(sky.probe.value));
      }
      if path.value in files {
        var existing := Read(files, path.value, sky.readBack);
        if existing.Threw? {
          return Fail(Io(existing.exn));
        }
        if existing.result != markdown {
          return Fail(PathTaken);
        }
      } else {
        if sky.write.Some? {
          return Fail(Io(sky.write.value));
        }
        files := files[path.value := markdown];
        wroteNewFile := true;
      }
      result := Load(rq, None, sky);
      if result.Fail? && wroteNewFile {
        files := Deleted(files, path.value, sky.delete);
      }
      if result.Fail? && wroteNewFile {
        files := Deleted(files, path.value, sky.deleteAgain);
      }
    }
  }

  // ----- registry and files agree -----

  /** Every registered id is bound to the markdown of its own file, and its hash is the verified one. */
  ghost predicate Agrees(normalize: Normalize, s: State) {
    forall id | id in s.snapshots :: AgreesAt(normalize, s.files, id, s.snapshots[id])
  }

  ghost predicate AgreesAt(normalize: Normalize, files: Files, id: string, snapshot: Snapshot) {
    var m := snapshot.metadata;
    && m.romId == id
    && Objection(normalize, snapshot) == None
    && m.path in files
    && files[m.path] == snapshot.markdown
  }

  /** What was registered stays, and what was on file stays as it was. */
  ghost predicate Keeps(s: State, s': State) {
    && (forall id | id in s.snapshots :: id in s'.snapshots && s'.snapshots[id] == s.snapshots[id])
    && (forall path | path in s.files :: path in s'.files && s'.files[path] == s.files[path])
  }

  /** The id determines the path. */
  lemma IdGivesPath(normalize: Normalize, namespace: string, name: string)
    ensures
      var id, path := RomIdFor(normalize, namespace, name), PathFor(normalize, namespace, name);
      id.Some? <==> path.Some?
    ensures
      var id, path := RomIdFor(normalize, namespace, name), PathFor(normalize, namespace, name);
      id.Some? ==> path.value == FOLDER + id.value[|PREFIX|..] + ".md"
  {
  }

  lemma SameIdSamePath(normalize: Normalize, a: Metadata, b: Metadata)
    requires IsCanonical(normalize, a) && IsCanonical(normalize, b) && a.romId == b.romId
    ensures a.path == b.path
  {
    IdGivesPath(normalize, a.namespace, a.name);
    IdGivesPath(normalize, b.namespace, b.name);
  }

  /** The markdown is on file at the path, and resolving the id gives it back. */
  ghost predicate IsOnFile(normalize: Normalize, s: State, path: string, markdown: string, m: Metadata) {
    && path in s.files
    && s.files[path] == markdown
    && m.path == path
    && var found := Resolve(normalize, s.snapshots, m.romId);
       found.Ok? && found.value.metadata == m && found.value.markdown == markdown
  }

  lemma KnownIsOnFile(normalize: Normalize, s: State, snapshot: Snapshot)
    requires Agrees(normalize, s) && Objection(normalize, snapshot).None? && snapshot.metadata.romId in s.snapshots
    requires snapshot.metadata.path in s.files && s.files[snapshot.metadata.path] == snapshot.markdown
    ensures
      var m := s.snapshots[snapshot.metadata.romId].metadata;
      IsOnFile(normalize, s, snapshot.metadata.path, snapshot.markdown, m)
  {
    var id := snapshot.metadata.romId;
    assert AgreesAt(normalize, s.files, id, s.snapshots[id]);
    SameIdSamePath(normalize, snapshot.metadata, s.snapshots[id].metadata);
  }

  lemma BindingAgrees(normalize: Normalize, s: State, snapshot: Snapshot)
    requires Agrees(normalize, s) && Objection(normalize, snapshot).None? && snapshot.metadata.romId !in s.snapshots
    requires snapshot.metadata.path in s.files && s.files[snapshot.metadata.path] == snapshot.markdown
    ensures
      var s' := State(s.files, s.snapshots[snapshot.metadata.romId := snapshot]);
      && Agrees(normalize, s')
      && Keeps(s, s')
      && IsOnFile(normalize, s', snapshot.metadata.path, snapshot.markdown, snapshot.metadata)
  {
    assert AgreesAt(normalize, s.files, snapshot.metadata.romId, snapshot);
  }

  lemma RegisteredAgrees(normalize: Normalize, s: State, snapshot: Snapshot)
    requires Agrees(normalize, s)
    requires snapshot.metadata.path in s.files && s.files[snapshot.metadata.path] == snapshot.markdown
    ensures
      var r := Registered(normalize, s.snapshots, snapshot);
      var s' := State(s.files, r.snapshots);
      && Agrees(normalize, s')
      && Keeps(s, s')
      && (r.result.Fail? ==> r.snapshots == s.snapshots)
      && (r.result.Ok? ==> IsOnFile(normalize, s', snapshot.metadata.path, snapshot.markdown, r.result.value))
  {
    if Objection(normalize, snapshot).None? {
      if snapshot.metadata.romId in s.snapshots {
        KnownIsOnFile(normalize, s, snapshot);
      } else {
        BindingAgrees(normalize, s, snapshot);
      }
    }
  }

  /** Loading never touches a file; it fails without a trace, or what it registered is on file. */
  lemma LoadAgrees(normalize: Normalize, s: State, rq: Request, expected: Option<string>, sky: Weather)
    requires Agrees(normalize, s)
    ensures
      var step := Loaded(normalize, s, rq, expected, sky);
      && Agrees(normalize, step.state)
      && Keeps(s, step.state)
      && step.state.files == s.files
      && (step.result.Fail? ==> step.state == s)
      && (step.result.Ok? ==>
            var path := PathFor(normalize, rq.namespace, rq.name);
            && path.Some? && path.value in s.files
            && IsOnFile(normalize, step.state, path.value, s.files[path.value], step.result.value))
  {
    var path := PathFor(normalize, rq.namespace, rq.name);
    if path.Some? && Read(s.files, path.value, sky.read).Returned? && sky.rom.Returned? {
      var markdown := s.files[path.value];
      var snapshot := CreateSnapshot(
        normalize, rq.namespace, rq.name, markdown, rq.createdAt, sky.rom.result, expected);
      if snapshot.Ok? {
        SnapshotNamesItsFile(normalize, rq, markdown, sky.rom.result, expected);
        RegisteredAgrees(normalize, s, snapshot.value);
      }
    }
  }

  lemma SnapshotNamesItsFile(normalize: Normalize, rq: Request, markdown: string, rom: Rom, expected: Option<string>)
    ensures
      var made := CreateSnapshot(normalize, rq.namespace, rq.name, markdown, rq.createdAt, rom, expected);
      made.Ok? ==>
        && made.value.markdown == markdown
        && PathFor(normalize, rq.namespace, rq.name) == Some(made.value.metadata.path)
  {
  }

  // ----- when a load succeeds -----

  /** A normalised name that is not blank stays as it is when it is normalised again. */
  ghost predicate Stable(normalize: Normalize) {
    forall x | normalize(x).Returned? && !IsBlank(normalize(x).result) ::
      normalize(normalize(x).result) == normalize(x)
  }

  /** The path rules of the virtual file system are stable. */
  lemma PathRulesAreStable()
    ensures Stable(VfsPaths.Normalized)
  {
    forall x | VfsPaths.Normalized(x).Returned? && !IsBlank(VfsPaths.Normalized(x).result)
      ensures VfsPaths.Normalized(VfsPaths.Normalized(x).result) == VfsPaths.Normalized(x)
    {
      VfsPaths.NormalizedTwice(x);
    }
  }

  predicate IsNamed(id: Identity) {
    !IsBlank(id.namespace) && !IsBlank(id.name)
  }

  /** What a load needs: a name, a readable file that is not blank, and a loaded ROM that fits both and is
      verified, with the hash that is expected and the one that is registered, if any. */
  ghost predicate Acceptable(normalize: Normalize, s: State, rq: Request, expected: Option<string>, sky: Weather) {
    var id := IdentityOf(normalize, rq.namespace, rq.name);
    && id.Some? && IsNamed(id.value)
    && var path := PathFor(normalize, rq.namespace, rq.name).value;
       var romId := RomIdFor(normalize, rq.namespace, rq.name).value;
    && path in s.files && sky.read.None? && !IsBlank(s.files[path])
    && sky.rom.Returned? && Fits(sky.rom.result, romId, path)
    && var hash := sky.rom.result.signature.value.actualHash;
    && (expected.Some? && !IsBlank(expected.value) ==> hash == expected.value)
    && (romId in s.snapshots ==> s.snapshots[romId].metadata.romHash == hash)
  }

  ghost predicate Fits(rom: Rom, romId: string, path: string) {
    && rom.romId == romId
    && rom.sourcePath == path
    && rom.sourceKind == Some("chat_history")
    && rom.signature.Some?
    && rom.signature.value.isVerified
    && !IsBlank(rom.signature.value.actualHash)
  }

  /** A ROM id parses back to the identity it was made of, if this has two names that are not blank. */
  lemma IdParses(normalize: Normalize, namespace: string, name: string)
    requires Stable(normalize)
    ensures
      var id := IdentityOf(normalize, namespace, name);
      id.Some? ==>
        ParseRomId(normalize, RomIdFor(normalize, namespace, name).value)
        == if IsNamed(id.value) then id else None
  {
    var id := IdentityOf(normalize, namespace, name);
    if id.Some? {
      var a, b := id.value.namespace, id.value.name;
      VfsPaths.FirstSlash(a, b);
      var relative := a + "/" + b;
      assert relative[..|a|] == a && relative[|a| + 1..] == b;
      var romId := PREFIX + relative;
      assert romId[|PREFIX|..] == relative;
      assert !IsWhiteSpace(romId[0]);
    }
  }

  lemma OwnIdParses(namespace: string, name: string)
    ensures
      var id := IdentityOf(VfsPaths.Normalized, namespace, name);
      id.Some? ==>
        ParseRomId(VfsPaths.Normalized, RomIdFor(VfsPaths.Normalized, namespace, name).value)
        == if IsNamed(id.value) then id else None
  {
    PathRulesAreStable();
    IdParses(VfsPaths.Normalized, namespace, name);
  }

  lemma SnapshotIsMade(normalize: Normalize, rq: Request, markdown: string, rom: Rom, expected: Option<string>)
    requires Stable(normalize) && IdentityOf(normalize, rq.namespace, rq.name).Some?
    ensures
      var id := IdentityOf(normalize, rq.namespace, rq.name).value;
      var path := PathFor(normalize, rq.namespace, rq.name).value;
      var romId := RomIdFor(normalize, rq.namespace, rq.name).value;
      var made := CreateSnapshot(normalize, rq.namespace, rq.name, markdown, rq.createdAt, rom, expected);
      && (made.Ok? && !IsBlank(made.value.metadata.romHash) <==>
            && IsNamed(id) && !IsBlank(markdown) && Fits(rom, romId, path)
            && (expected.Some? && !IsBlank(expected.value) ==> rom.signature.value.actualHash == expected.value))
      && (made.Ok? ==> made.value == Snapshot(
            Metadata(id.namespace, id.name, path, romId, rom.signature.value.actualHash, rq.createdAt), markdown, rom))
      && (made.Ok? ==> IsNamed(id))
  {
    IdParses(normalize, rq.namespace, rq.name);
  }

  lemma MadeIsCanonical(normalize: Normalize, rq: Request, m: Metadata)
    requires Stable(normalize)
    requires IdentityOf(normalize, rq.namespace, rq.name) == Some(Identity(m.namespace, m.name))
    requires IsNamed(Identity(m.namespace, m.name))
    requires PathFor(normalize, rq.namespace, rq.name) == Some(m.path)
    requires RomIdFor(normalize, rq.namespace, rq.name) == Some(m.romId)
    ensures IsCanonical(normalize, m) && !IsBlank(m.path) && !IsBlank(m.romId)
  {
    IdParses(normalize, rq.namespace, rq.name);
    assert !IsWhiteSpace(m.path[0]) && !IsWhiteSpace(m.romId[0]);
  }

  /**
    Under the path rules of the virtual file system, a load succeeds exactly when the names, the file, the
    loaded ROM and the registry fit together.
  */
  lemma LoadSucceedsWhen(s: State, rq: Request, expected: Option<string>, sky: Weather)
    ensures Loaded(VfsPaths.Normalized, s, rq, expected, sky).result.Ok?
       <==> Acceptable(VfsPaths.Normalized, s, rq, expected, sky)
  {
    PathRulesAreStable();
    LoadSucceeds(VfsPaths.Normalized, s, rq, expected, sky);
  }

  lemma LoadSucceeds(normalize: Normalize, s: State, rq: Request, expected: Option<string>, sky: Weather)
    requires Stable(normalize)
    ensures Loaded(normalize, s, rq, expected, sky).result.Ok? <==> Acceptable(normalize, s, rq, expected, sky)
  {
    var id, path := IdentityOf(normalize, rq.namespace, rq.name), PathFor(normalize, rq.namespace, rq.name);
    if id.Some? && Read(s.files, path.value, sky.read).Returned? && sky.rom.Returned? {
      var markdown := s.files[path.value];
      SnapshotIsMade(normalize, rq, markdown, sky.rom.result, expected);
      var made := CreateSnapshot(
        normalize, rq.namespace, rq.name, markdown, rq.createdAt, sky.rom.result, expected);
      if made.Ok? {
        MadeIsCanonical(normalize, rq, made.value.metadata);
      }
    }
  }

  /** A failed save leaves everything as it was, unless it wrote a file and twice could not delete it. */
  ghost predicate RolledBack(s: State, s': State, path: string, markdown: string, sky: Weather) {
    var wroteNewFile := sky.probe.None? && path !in s.files && sky.write.None?;
    s' == if wroteNewFile && sky.delete.Some? && sky.deleteAgain.Some? then
            State(s.files[path := markdown], s.snapshots)
          else s
  }

  /** What a save does: it is rolled back, or the markdown is on file and can be resolved. */
  ghost predicate SaveIsSafe(
    normalize: Normalize, s: State, rq: Request, markdown: string, sky: Weather, step: Stepped)
  {
    var path := PathFor(normalize, rq.namespace, rq.name);
    && Agrees(normalize, step.state)
    && Keeps(s, step.state)
    && (path.None? ==> step == Stepped(s, Fail(InvalidIdentity)))
    && (path.Some? && step.result.Fail? ==> RolledBack(s, step.state, path.value, markdown, sky))
    && (path.Some? && step.result.Ok? ==>
          && step.state.files == s.files[path.value := markdown]
          && IsOnFile(normalize, step.state, path.value, markdown, step.result.value))
  }

  lemma SaveAgrees(normalize: Normalize, s: State, rq: Request, markdown: string, sky: Weather)
    requires Agrees(normalize, s)
    ensures SaveIsSafe(normalize, s, rq, markdown, sky, Saved(normalize, s, rq, markdown, sky))
  {
    var path := PathFor(normalize, rq.namespace, rq.name);
    if path.Some? && sky.probe.None? {
      if path.value in s.files {
        OldFileAgrees(normalize, s, rq, path.value, markdown, sky);
      } else if sky.write.None? {
        NewFileAgrees(normalize, s, rq, path.value, markdown, sky);
      }
    }
  }

  lemma OldFileAgrees(normalize: Normalize, s: State, rq: Request, path: string, markdown: string, sky: Weather)
    requires Agrees(normalize, s) && PathFor(normalize, rq.namespace, rq.name) == Some(path)
    requires sky.probe.None? && path in s.files
    ensures SaveIsSafe(normalize, s, rq, markdown, sky, Saved(normalize, s, rq, markdown, sky))
  {
    if s.files[path] == markdown {
      LoadAgrees(normalize, s, rq, None, sky);
      assert s.files[path := markdown] == s.files;
    }
  }

  lemma NewFileAgrees(normalize: Normalize, s: State, rq: Request, path: string, markdown: string, sky: Weather)
    requires Agrees(normalize, s) && PathFor(normalize, rq.namespace, rq.name) == Some(path)
    requires sky.probe.None? && path !in s.files && sky.write.None?
    ensures SaveIsSafe(normalize, s, rq, markdown, sky, Saved(normalize, s, rq, markdown, sky))
  {
    WritingAgrees(normalize, s, path, markdown);
    LoadAgrees(normalize, State(s.files[path := markdown], s.snapshots), rq, None, sky);
    assert s.files[path := markdown] - {path} == s.files;
  }

  lemma WritingAgrees(normalize: Normalize, s: State, path: string, markdown: string)
    requires Agrees(normalize, s) && path !in s.files
    ensures
      var s' := State(s.files[path := markdown], s.snapshots);
      Agrees(normalize, s') && Keeps(s, s')
  {
    forall id | id in s.snapshots
      ensures AgreesAt(normalize, s.files[path := markdown], id, s.snapshots[id])
    {
      assert AgreesAt(normalize, s.files, id, s.snapshots[id]);
    }
  }

  // ----- runs -----

  datatype Call =
    | SaveCall(rq: Request, markdown: string, sky: Weather)
    | LoadCall(rq: Request, expected: Option<string>, sky: Weather)

  function Stepping(normalize: Normalize, s: State, call: Call): Stepped {
    match call
    case SaveCall(rq, markdown, sky) => Saved(normalize, s, rq, markdown, sky)
    case LoadCall(rq, expected, sky) => Loaded(normalize, s, rq, expected, sky)
  }

  function Running(normalize: Normalize, s: State, calls: seq<Call>): State
    decreases |calls|
  {
    if calls == [] then s else Running(normalize, Stepping(normalize, s, calls[0]).state, calls[1..])
  }

  /**
    Whatever files there were before, and however the file system and the loader behave, after every run
    of saves and loads each registered id is bound to the markdown on file, no file that existed has
    changed, and no registration has changed.
  */
  lemma {:induction false} RunsAgree(normalize: Normalize, s: State, calls: seq<Call>)
    requires Agrees(normalize, s)
    ensures Agrees(normalize, Running(normalize, s, calls)) && Keeps(s, Running(normalize, s, calls))
    decreases |calls|
  {
    if calls != [] {
      var next := Stepping(normalize, s, calls[0]).state;
      match calls[0] {
        case SaveCall(rq, markdown, sky) => SaveAgrees(normalize, s, rq, markdown, sky);
        case LoadCall(rq, expected, sky) => LoadAgrees(normalize, s, rq, expected, sky);
      }
      RunsAgree(normalize, next, calls[1..]);
    }
  }

  /** What was saved can be resolved after any further run, and its file still holds it. */
  lemma SavedIsKept(
    normalize: Normalize, s: State, rq: Request, markdown: string, sky: Weather, calls: seq<Call>)
    requires Agrees(normalize, s) && Saved(normalize, s, rq, markdown, sky).result.Ok?
    ensures
      var step := Saved(normalize, s, rq, markdown, sky);
      var end := Running(normalize, step.state, calls);
      var path := PathFor(normalize, rq.namespace, rq.name);
      path.Some? && IsOnFile(normalize, end, path.value, markdown, step.result.value)
  {
    SaveAgrees(normalize, s, rq, markdown, sky);
    RunsAgree(normalize, Saved(normalize, s, rq, markdown, sky).state, calls);
  }
}
