/**
  What saves and loads of history ROMs answer: when a save succeeds, which failure a load gives, and what
  exactly is registered.
*/
module HistoryAnswers {
  import opened Common
  import opened HistoryRom
  import VfsPaths

  // ----- names -----

  /** The names are normalised, and neither becomes more than one segment. */
  lemma IdentityIsNormalised(normalize: Normalize, namespace: string, name: string, id: Identity)
    ensures IdentityOf(normalize, namespace, name) == Some(id) <==>
      && !IsBlank(namespace) && normalize(namespace) == Returned(id.namespace) && '/' !in id.namespace
      && !IsBlank(name) && normalize(name) == Returned(id.name) && '/' !in id.name
  {
  }

  /** The id and the path spell out both names. */
  ghost predicate Spells(romId: string, path: string, id: Identity) {
    && romId == "history://" + id.namespace + "/" + id.name
    && path == "rom/history/" + id.namespace + "/" + id.name + ".md"
  }

  lemma NamesAreSpelled(normalize: Normalize, namespace: string, name: string)
    ensures
      var id := IdentityOf(normalize, namespace, name);
      var romId, path := RomIdFor(normalize, namespace, name), PathFor(normalize, namespace, name);
      if id.None? then romId.None? && path.None?
      else romId.Some? && path.Some? && Spells(romId.value, path.value, id.value)
  {
    var id := IdentityOf(normalize, namespace, name);
    if id.Some? {
      var relative := id.value.namespace + "/" + id.value.name;
      assert "history://" + relative == "history://" + id.value.namespace + "/" + id.value.name;
      assert "rom/history/" + relative == "rom/history/" + id.value.namespace + "/" + id.value.name;
    }
  }

  // ----- saves -----

  /** The file can be written, or holds the very text already. */
  ghost predicate CanHold(files: Files, path: string, markdown: string, sky: Weather) {
    && sky.probe.None?
    && if path in files then sky.readBack.None? && files[path] == markdown else sky.write.None?
  }

  /** A save succeeds exactly when the file can hold the text and can then be loaded. */
  lemma SaveSucceedsWhen(s: State, rq: Request, markdown: string, sky: Weather)
    ensures
      var path := PathFor(VfsPaths.Normalized, rq.namespace, rq.name);
      Saved(VfsPaths.Normalized, s, rq, markdown, sky).result.Ok? <==>
        && path.Some?
        && CanHold(s.files, path.value, markdown, sky)
        && Acceptable(VfsPaths.Normalized, State(s.files[path.value := markdown], s.snapshots), rq, None, sky)
  {
    var path := PathFor(VfsPaths.Normalized, rq.namespace, rq.name);
    if path.Some? {
      LoadSucceedsWhen(State(s.files[path.value := markdown], s.snapshots), rq, None, sky);
      if path.value in s.files && s.files[path.value] == markdown {
        assert s.files[path.value := markdown] == s.files;
      }
    }
  }

  /** A save of the text on file is a load; a save of another text is refused and changes nothing. */
  lemma SaveAgain(normalize: Normalize, s: State, rq: Request, markdown: string, sky: Weather)
    requires var path := PathFor(normalize, rq.namespace, rq.name); path.Some? && path.value in s.files
    requires sky.probe.None? && sky.readBack.None?
    ensures
      var path := PathFor(normalize, rq.namespace, rq.name);
      Saved(normalize, s, rq, markdown, sky)
      == if s.files[path.value] == markdown then Loaded(normalize, s, rq, None, sky)
         else Stepped(s, Fail(PathTaken))
  {
  }

  /** A failure of the file system before the load is the failure of the save. */
  lemma SaveReports(normalize: Normalize, s: State, rq: Request, markdown: string, sky: Weather, exn: Exn)
    requires PathFor(normalize, rq.namespace, rq.name).Some?
    requires
      var path := PathFor(normalize, rq.namespace, rq.name).value;
      sky.probe == Some(exn) || (sky.probe.None? && (if path in s.files then sky.readBack else sky.write) == Some(exn))
    ensures Saved(normalize, s, rq, markdown, sky) == Stepped(s, Fail(Io(exn)))
  {
  }

  // ----- loads -----

  /** What each problem says of a load; `id` is the identity of the names, if they have one. */
  ghost predicate Concerns(s: State, rq: Request, expected: Option<string>, sky: Weather, problem: Problem) {
    var id := IdentityOf(VfsPaths.Normalized, rq.namespace, rq.name);
    if id.None? then problem.InvalidIdentity?
    else
      var path := PathFor(VfsPaths.Normalized, rq.namespace, rq.name).value;
      var romId := RomIdFor(VfsPaths.Normalized, rq.namespace, rq.name).value;
      var markdown := Read(s.files, path, sky.read);
      match markdown
      case Threw(exn) => problem == Io(exn)
      case Returned(text) => ConcernsText(s, expected, id.value, path, romId, text, sky.rom, problem)
  }

  ghost predicate ConcernsText(
    s: State, expected: Option<string>, id: Identity, path: string, romId: string, text: string,
    loaded: Attempt<Rom>, problem: Problem)
  {
    match loaded
    case Threw(exn) => problem == Io(exn)
    case Returned(rom) => ConcernsRom(s, expected, id, path, romId, text, rom, problem)
  }

  ghost predicate ConcernsRom(
    s: State, expected: Option<string>, id: Identity, path: string, romId: string, text: string, rom: Rom,
    problem: Problem)
  {
    match problem
    case Missing(field) => (field == "markdown" && IsBlank(text)) || (field == "hash" && IsBlank(HashOf(rom)))
    case InvalidId => IsBlank(id.namespace) || IsBlank(id.name)
    case IdMismatch => rom.romId != romId
    case PathMismatch => rom.sourcePath != path
    case NotVerified => rom.signature.None? || !rom.signature.value.isVerified
    case WrongSourceKind => rom.sourceKind.None? || rom.sourceKind.value != "chat_history"
    case HashMismatch => expected.Some? && !IsBlank(expected.value) && HashOf(rom) != expected.value
    case Immutable => romId in s.snapshots && s.snapshots[romId].metadata.romHash != HashOf(rom)
    case _ => false
  }

  function HashOf(rom: Rom): string {
    if rom.signature.Some? then rom.signature.value.actualHash else ""
  }

  /** The order in which problems are found. */
  function Rank(problem: Problem): nat {
    match problem
    case InvalidIdentity => 0
    case Io(_) => 1
    case Missing(field) => if field == "markdown" then 2 else 9
    case InvalidId => 3
    case IdMismatch => 4
    case PathMismatch => 5
    case NotVerified => 6
    case WrongSourceKind => 7
    case HashMismatch => 8
    case Immutable => 10
    case _ => 11
  }

  /** A load fails if and only if something is wrong with it, and with the first thing that is. */
  lemma LoadFailsFirst(s: State, rq: Request, expected: Option<string>, sky: Weather, problem: Problem)
    ensures Loaded(VfsPaths.Normalized, s, rq, expected, sky).result == Fail(problem) <==>
      && Concerns(s, rq, expected, sky, problem)
      && forall other | Concerns(s, rq, expected, sky, other) :: Rank(problem) <= Rank(other)
  {
    var id := IdentityOf(VfsPaths.Normalized, rq.namespace, rq.name);
    if id.Some? {
      var path := PathFor(VfsPaths.Normalized, rq.namespace, rq.name).value;
      var romId := RomIdFor(VfsPaths.Normalized, rq.namespace, rq.name).value;
      var markdown := Read(s.files, path, sky.read);
      if markdown.Returned? && sky.rom.Returned? {
        RomFailsFirst(s, rq, expected, id.value, path, romId, markdown.result, sky.rom.result, problem);
      }
    }
  }

  /** Checking and registering a ROM that could be loaded. */
  function Checked(s: State, rq: Request, expected: Option<string>, text: string, rom: Rom): Result<Metadata> {
    match CreateSnapshot(VfsPaths.Normalized, rq.namespace, rq.name, text, rq.createdAt, rom, expected)
    case Fail(problem) => Fail(problem)
    case Ok(snapshot) => Registered(VfsPaths.Normalized, s.snapshots, snapshot).result
  }

  lemma RomFailsFirst(
    s: State, rq: Request, expected: Option<string>, id: Identity, path: string, romId: string, text: string,
    rom: Rom, problem: Problem)
    requires IdentityOf(VfsPaths.Normalized, rq.namespace, rq.name) == Some(id)
    requires PathFor(VfsPaths.Normalized, rq.namespace, rq.name) == Some(path)
    requires RomIdFor(VfsPaths.Normalized, rq.namespace, rq.name) == Some(romId)
    ensures Checked(s, rq, expected, text, rom) == Fail(problem) <==>
      && ConcernsRom(s, expected, id, path, romId, text, rom, problem)
      && forall other | ConcernsRom(s, expected, id, path, romId, text, rom, other) :: Rank(problem) <= Rank(other)
  {
    CheckedFails(s, rq, expected, id, path, romId, text, rom);
    FirstIsFirst(s, expected, id, path, romId, text, rom, problem);
  }

  /** The first problem, if there is one. */
  function FirstProblem(
    s: State, expected: Option<string>, id: Identity, path: string, romId: string, text: string, rom: Rom)
    : Option<Problem>
  {
    if IsBlank(text) then Some(Missing("markdown"))
    else if !IsNamed(id) then Some(InvalidId)
    else if rom.romId != romId then Some(IdMismatch)
    else if rom.sourcePath != path then Some(PathMismatch)
    else if rom.signature.None? || !rom.signature.value.isVerified then Some(NotVerified)
    else if rom.sourceKind != Some("chat_history") then Some(WrongSourceKind)
    else if expected.Some? && !IsBlank(expected.value) && HashOf(rom) != expected.value then Some(HashMismatch)
    else HashProblem(s.snapshots, romId, HashOf(rom))
  }

  function HashProblem(snapshots: Snapshots, romId: string, hash: string): Option<Problem> {
    if IsBlank(hash) then Some(Missing("hash"))
    else if romId in snapshots && snapshots[romId].metadata.romHash != hash then Some(Immutable)
    else None
  }

  lemma MakingFails(
    normalize: Normalize, s: State, rq: Request, expected: Option<string>, id: Identity, path: string, romId: string,
    text: string, rom: Rom)
    requires Stable(normalize) && IdentityOf(normalize, rq.namespace, rq.name) == Some(id)
    requires PathFor(normalize, rq.namespace, rq.name) == Some(path)
    requires RomIdFor(normalize, rq.namespace, rq.name) == Some(romId)
    ensures
      var made := CreateSnapshot(normalize, rq.namespace, rq.name, text, rq.createdAt, rom, expected);
      var first := FirstProblem(s, expected, id, path, romId, text, rom);
      && (made.Fail? ==> first == Some(made.problem))
      && (made.Ok? ==>
            && first == HashProblem(s.snapshots, romId, HashOf(rom))
            && made.value
               == Snapshot(Metadata(id.namespace, id.name, path, romId, HashOf(rom), rq.createdAt), text, rom)
            && IsNamed(id) && !IsBlank(text) && rom.romId == romId
            && rom.signature.Some? && rom.signature.value.isVerified)
  {
    IdParses(normalize, rq.namespace, rq.name);
  }

  lemma RegisteringFails(normalize: Normalize, snapshots: Snapshots, snapshot: Snapshot)
    requires
      var m := snapshot.metadata;
      && IsCanonical(normalize, m) && !IsBlank(m.romId) && !IsBlank(m.path)
      && !IsBlank(m.namespace) && !IsBlank(m.name) && !IsBlank(snapshot.markdown)
      && snapshot.rom.romId == m.romId && snapshot.rom.signature.Some? && snapshot.rom.signature.value.isVerified
      && m.romHash == HashOf(snapshot.rom)
    ensures
      var m := snapshot.metadata;
      match HashProblem(snapshots, m.romId, m.romHash)
      case Some(problem) => Registered(normalize, snapshots, snapshot).result == Fail(problem)
      case None => Registered(normalize, snapshots, snapshot).result.Ok?
  {
  }

  lemma CheckedFails(
    s: State, rq: Request, expected: Option<string>, id: Identity, path: string, romId: string, text: string, rom: Rom)
    requires IdentityOf(VfsPaths.Normalized, rq.namespace, rq.name) == Some(id)
    requires PathFor(VfsPaths.Normalized, rq.namespace, rq.name) == Some(path)
    requires RomIdFor(VfsPaths.Normalized, rq.namespace, rq.name) == Some(romId)
    ensures
      var first := FirstProblem(s, expected, id, path, romId, text, rom);
      var result := Checked(s, rq, expected, text, rom);
      match first
      case Some(problem) => result == Fail(problem)
      case None => result.Ok?
  {
    PathRulesAreStable();
    MakingFails(VfsPaths.Normalized, s, rq, expected, id, path, romId, text, rom);
    var made := CreateSnapshot(VfsPaths.Normalized, rq.namespace, rq.name, text, rq.createdAt, rom, expected);
    if made.Ok? {
      MadeIsCanonical(VfsPaths.Normalized, rq, made.value.metadata);
      RegisteringFails(VfsPaths.Normalized, s.snapshots, made.value);
    }
  }

  lemma FirstIsFirst(
    s: State, expected: Option<string>, id: Identity, path: string, romId: string, text: string, rom: Rom,
    problem: Problem)
    ensures FirstProblem(s, expected, id, path, romId, text, rom) == Some(problem) <==>
      && ConcernsRom(s, expected, id, path, romId, text, rom, problem)
      && forall other | ConcernsRom(s, expected, id, path, romId, text, rom, other) :: Rank(problem) <= Rank(other)
  {
    var first := FirstProblem(s, expected, id, path, romId, text, rom);
    if first.Some? {
      assert ConcernsRom(s, expected, id, path, romId, text, rom, first.value);
    }
  }

  // ----- what is registered -----

  /**
    A load that succeeds gives the metadata that is registered under its id already; if there is none, it
    registers the text and the ROM under the names, the verified hash and the time of the request.
  */
  lemma LoadRegisters(s: State, rq: Request, expected: Option<string>, sky: Weather)
    requires Acceptable(VfsPaths.Normalized, s, rq, expected, sky)
    ensures
      var id := IdentityOf(VfsPaths.Normalized, rq.namespace, rq.name).value;
      var path := PathFor(VfsPaths.Normalized, rq.namespace, rq.name).value;
      var romId := RomIdFor(VfsPaths.Normalized, rq.namespace, rq.name).value;
      var rom := sky.rom.result;
      var m := Metadata(id.namespace, id.name, path, romId, rom.signature.value.actualHash, rq.createdAt);
      Loaded(VfsPaths.Normalized, s, rq, expected, sky)
      == if romId in s.snapshots then Stepped(s, Ok(s.snapshots[romId].metadata))
         else Stepped(State(s.files, s.snapshots[romId := Snapshot(m, s.files[path], rom)]), Ok(m))
  {
    PathRulesAreStable();
    LoadSucceedsWhen(s, rq, expected, sky);
    var path := PathFor(VfsPaths.Normalized, rq.namespace, rq.name).value;
    SnapshotIsMade(VfsPaths.Normalized, rq, s.files[path], sky.rom.result, expected);
  }
}
