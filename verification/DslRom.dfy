/**
  DSL ROM: programs stored under `dsl://{namespace}/{name}`, bound once, and called from other programs.
*/
module DslRom {
  import opened Common
  import opened ReplayLog
  import opened ResultSteps
  import opened Dsl
  import opened DslExecution

  /**
    What the ROM code builds on: path normalisation, the content hash, the comparison of texts without
    regard to case, the JSON parser, the inner capability registry, and the clock readings.
  */
  datatype World = World(
    normalize: string -> Attempt<string>,
    hash: string -> string,
    sameFold: (string, string) -> bool,
    parse: string -> Outcome<Node>,
    innerContains: Contains,
    innerInvoke: Invoke,
    clock: nat -> Attempt<int>)

  function RomError(): Error {
    Error("DSL_ROM_ERROR", false, Some(FailClosed), Some(KernelFacade), Some(SlotG), None)
  }

  function StoreException(exn: Exn): Error {
    FromException(exn).(failure := Some(FailClosed), origin := Some(KernelFacade), slot := Some(SlotG))
  }

  // ----- names and paths -----

  const PREFIX := "dsl://"

  predicate IsDslCapability(name: string) {
    PREFIX <= name
  }

  function ValidateIdentity(w: World, namespace: string, name: string): Outcome<Identity> {
    if IsBlank(namespace) || IsBlank(name) then Err(RomError())
    else
      match (w.normalize(namespace), w.normalize(name))
      case (Returned(ns), Returned(n)) =>
        if SingleSegment(ns) && SingleSegment(n) then Ok(Identity(ns, n)) else Err(RomError())
      case (Threw(exn), _) => Err(PathError(exn))
      case (_, Threw(exn)) => Err(PathError(exn))
  }

  function PathError(exn: Exn): Error {
    RomError().(metadata := FromException(exn).metadata)
  }

  function PathOf(w: World, namespace: string, name: string): Outcome<string> {
    match ValidateIdentity(w, namespace, name)
    case Ok(id) => Ok("rom/dsl/" + id.namespace + "/" + id.name + ".json")
    case Err(error) => Err(error)
  }

  function CapabilityNameOf(w: World, namespace: string, name: string): Outcome<string> {
    match ValidateIdentity(w, namespace, name)
    case Ok(id) => Ok(PREFIX + id.namespace + "/" + id.name)
    case Err(error) => Err(error)
  }

  function ParseCapabilityName(w: World, name: string): Outcome<Identity> {
    if IsBlank(name) || !IsDslCapability(name) then Err(RomError())
    else
      var relative := name[|PREFIX|..];
      var i := Separator(relative);
      if i == 0 || i >= |relative| - 1 then Err(RomError())
      else ValidateIdentity(w, relative[..i], relative[i + 1..])
  }

  // ----- snapshots -----

  datatype RomMetadata = RomMetadata(
    namespace: string, name: string, path: string, capability: string, hash: string, createdAt: int)

  /** A stored program; its compiled pipeline is the accepted syntax tree. */
  datatype Snapshot = Snapshot(metadata: RomMetadata, json: string, root: Node)

  type Registry = map<string, Snapshot>

  /** `DslRomRegistry.Contains`: the name parses, and is bound as it stands. */
  predicate RomContains(w: World, reg: Registry, name: string) {
    ParseCapabilityName(w, name).Ok? && name in reg
  }

  /** `DslRomCapabilityRegistry.Contains`, which the compiler asks. */
  function CapabilityContains(w: World, reg: Registry): Contains {
    name => if IsDslCapability(name) then Returned(RomContains(w, reg, name)) else w.innerContains(name)
  }

  /** Hashes are compared without regard to case. */
  predicate SameHash(w: World, actual: string, expected: string) {
    actual == expected || w.sameFold(actual, expected)
  }

  /** `DslRomProvider.CreateSnapshot`. */
  function CreateSnapshot(
    w: World, reg: Registry, namespace: string, name: string, json: string, createdAt: int, expected: Option<string>)
    : Outcome<Snapshot>
  {
    var path := PathOf(w, namespace, name);
    var capability := CapabilityNameOf(w, namespace, name);
    if IsBlank(json) then Err(RomError())
    else if path.Err? then Err(path.error)
    else if capability.Err? then Err(capability.error)
    else if expected.Some? && !IsBlank(expected.value) && !SameHash(w, w.hash(json), expected.value) then
      Err(RomError())
    else
      match w.parse(json)
      case Err(error) => Err(error)
      case Ok(document) =>
        match Compile(CapabilityContains(w, reg), document)
        case Err(error) => Err(error)
        case Ok(root) =>
          match ParseCapabilityName(w, capability.value)
          case Err(error) => Err(error)
          case Ok(id) =>
            Ok(Snapshot(
                 RomMetadata(id.namespace, id.name, path.value, capability.value, w.hash(json), createdAt),
                 json, root))
  }

  // ----- the registry -----

  /** The metadata names its own capability and path in canonical form. */
  predicate IsCanonical(w: World, m: RomMetadata) {
    && ParseCapabilityName(w, m.capability).Ok?
    && CapabilityNameOf(w, m.namespace, m.name) == Ok(m.capability)
    && PathOf(w, m.namespace, m.name) == Ok(m.path)
  }

  /** What both `Register` and a later `Invoke` demand of a snapshot. */
  predicate WellFormed(w: World, s: Snapshot) {
    && !IsBlank(s.metadata.capability) && !IsBlank(s.metadata.hash) && !IsBlank(s.metadata.namespace)
    && !IsBlank(s.metadata.name) && !IsBlank(s.metadata.path)
    && IsCanonical(w, s.metadata)
    && !IsBlank(s.json)
    && w.hash(s.json) == s.metadata.hash
  }

  /** Write-once binding: the first snapshot under a name stays. */
  function Bound(reg: Registry, s: Snapshot): Registry {
    if s.metadata.capability in reg then reg else reg[s.metadata.capability := s]
  }

  function RegisterResult(w: World, reg: Registry, s: Snapshot): Outcome<RomMetadata> {
    if !WellFormed(w, s) then Err(RomError())
    else if Bound(reg, s)[s.metadata.capability].metadata.hash != s.metadata.hash then Err(RomError())
    else Ok(Bound(reg, s)[s.metadata.capability].metadata)
  }

  function Registered(w: World, reg: Registry, s: Snapshot): Registry {
    if WellFormed(w, s) then Bound(reg, s) else reg
  }

  class DslRomRegistry {
    const world: World
    var snapshots: Registry

    /** Every snapshot is bound under its own name. */
    ghost predicate Valid()
      reads this
    {
      forall key | key in snapshots :: snapshots[key].metadata.capability == key
    }

    constructor (world: World)
      ensures this.world == world && snapshots == map[] && Valid()
    {
      this.world := world;
      snapshots := map[];
    }

    method Register(snapshot: Snapshot) returns (r: Outcome<RomMetadata>)
      requires Valid()
      modifies this
      ensures Valid()
      ensures snapshots == Registered(world, old(snapshots), snapshot)
      ensures r == RegisterResult(world, old(snapshots), snapshot)
      ensures r.Ok? ==>
        r.value.capability in snapshots && snapshots[r.value.capability].metadata == r.value
      ensures r.Err? ==> snapshots == old(snapshots)
    {
      if !WellFormed(world, snapshot) {
        return Err(RomError());
      }
      var key := snapshot.metadata.capability;
      if key !in snapshots {
        snapshots := snapshots[key := snapshot];
      }
      var existing := snapshots[key];
      if existing.metadata.hash != snapshot.metadata.hash {
        return Err(RomError());
      }
      return Ok(existing.metadata);
    }

    method Contains(name: string) returns (found: bool)
      ensures found == RomContains(world, snapshots, name)
      ensures found <==> ResolveResult(world, snapshots, name).Ok?
    {
      found := ParseCapabilityName(world, name).Ok? && name in snapshots;
    }

    method Resolve(name: string) returns (r: Outcome<Snapshot>)
      ensures r == ResolveResult(world, snapshots, name)
    {
      var id := ParseCapabilityName(world, name);
      if id.Err? {
        return Err(id.error);
      }
      if name !in snapshots {
        return Err(NotFound(name));
      }
      return Ok(snapshots[name]);
    }
  }

  function NotFound(name: string): Error {
    Error("DSL_ROM_NOT_FOUND", false, Some(Reject), Some(Capability), Some(SlotT),
          Some(map["dsl.capability_name" := Str(name)]))
  }

  function ResolveResult(w: World, reg: Registry, name: string): Outcome<Snapshot> {
    match ParseCapabilityName(w, name)
    case Err(error) => Err(error)
    case Ok(_) => if name in reg then Ok(reg[name]) else Err(NotFound(name))
  }

  // ----- calling a stored program -----

  function RomCallError(): Error {
    RomError().(origin := Some(Capability), slot := Some(SlotT))
  }

  /** `Invoke` up to the point where the snapshot runs: parse, resolve, validate. */
  function ResolveForCall(w: World, reg: Registry, name: string): Outcome<Snapshot> {
    if ParseCapabilityName(w, name).Err? then
      Err(RomCallError().(metadata := Some(map["dsl.capability_name" := Str(name)])))
    else
      match ResolveResult(w, reg, name)
      case Err(error) => Err(error)
      case Ok(s) =>
        if WellFormed(w, s) && s.metadata.capability == name then Ok(s)
        else Err(AttachRomMetadata(RomCallError(), s.metadata, None))
  }

  function MetadataTexts(m: RomMetadata): Metadata {
    map["dsl_rom_call" := Str(m.capability), "dsl_rom_hash" := Str(m.hash), "dsl_rom_path" := Str(m.path),
        "dsl_rom_namespace" := Str(m.namespace), "dsl_rom_name" := Str(m.name)]
  }

  function LogTexts(log: seq<Entry>): Metadata {
    map["dsl_rom_replay_log_count" := Num(|log|), "dsl_rom_replay_log_hash" := LogDigest(log)]
  }

  function AttachRomMetadata(error: Error, m: RomMetadata, log: Option<seq<Entry>>): Error {
    var own := if error.metadata.Some? then error.metadata.value else map[];
    var texts := MetadataTexts(m);
    var present := map key | key in texts && !IsBlank(texts[key].s) :: texts[key];
    error.(metadata := Some(own + present + (if log.Some? then LogTexts(log.value) else map[])))
  }

  /** The result of a stored program as the reply to its caller. */
  function RomReply(m: RomMetadata, step: DslStep): Reply {
    match step.outcome
    case Err(error) => Refused(AttachRomMetadata(error, m, Some(step.log)))
    case Ok(value) =>
      if !value.Valid() then Refused(FromException(Exn("System.InvalidOperationException")))
      else
        var texts := value.Texts() + MetadataTexts(m) + LogTexts(step.log);
        Replied(Some(Value(Some(map key | key in texts :: Some(texts[key])))))
  }

  /**
    `DslRomCapabilityRegistry.Invoke`. Calls nest: a stored program runs in the same registry. `depth`
    bounds the nesting, and `bottom` answers the calls beyond it; the results about linking show that in
    a reachable registry `bottom` is never asked.
  */
  function InvokeAt(
    w: World, reg: Registry, bottom: Invoke, depth: nat,
    name: string, input: Value, args: map<string, string>, tick: nat): (Reply, nat)
    decreases depth, 0
  {
    if !IsDslCapability(name) then InvokeInner(w, name, input, args, tick)
    else if depth == 0 then bottom(name, input, args, tick)
    else CallSnapshot(w, ResolveForCall(w, reg, name), Invoking(w, reg, bottom, depth - 1), input, tick)
  }

  function Invoking(w: World, reg: Registry, bottom: Invoke, depth: nat): Invoke
    decreases depth, 1
  {
    (name: string, input: Value, args: map<string, string>, tick: nat) =>
      InvokeAt(w, reg, bottom, depth, name, input, args, tick)
  }

  function InvokeInner(w: World, name: string, input: Value, args: map<string, string>, tick: nat): (Reply, nat) {
    var (reply, next) := w.innerInvoke(name, input, args, tick);
    (if reply.Raised? then Refused(CapabilityException(name, FromException(reply.exn))) else reply, next)
  }

  /** `ExecuteSnapshot` of what a name resolved to; the arguments of the call are not passed on. */
  function CallSnapshot(w: World, resolved: Outcome<Snapshot>, deeper: Invoke, input: Value, tick: nat): (Reply, nat) {
    match resolved
    case Err(error) => (Refused(error), tick)
    case Ok(s) =>
      var r := Execute(RomEnv(w, deeper, EPOCH), s.root, input, tick);
      (RomReply(s.metadata, r.step), r.tick)
  }

  /** A stored program always starts at the Unix epoch, whatever the caller's start time. */
  const EPOCH := 0

  function RomEnv(w: World, invoke: Invoke, startedAt: int): Env {
    Env(invoke, w.clock, startedAt)
  }
}
