/**
  Context assembly: a depth-limited depth-first walk over ROM documents and the relations between them.
  The walk may meet cycles; it checks the identity and the governance of every ROM it loads.
*/
module ContextAssembly {
  import opened Common
  import opened Ordering

  datatype Relation = Relation(target: string, kind: string)

  /** A loaded ROM; `content` stands for everything but its id and relations. */
  datatype Rom = Rom(id: string, relations: seq<Relation>, content: string)

  datatype Edge = Edge(source: string, target: string, kind: string)

  datatype Failure =
    | InvalidDepth
    | DepthExceeded
    | PathUnresolved
    | LoadFailed(exn: Exn)
    | IdentityMismatch
    | PolicyFailed(exn: Exn)
    | GovernanceDenied
    | BlankTarget

  /** An empty set of kinds means that every relation is followed. */
  datatype Request = Request(root: string, maxDepth: int, kinds: set<string>)

  datatype Services = Services(
    resolve: string -> Attempt<string>,
    load: string -> Attempt<Rom>,
    evaluate: Rom -> Attempt<bool>)

  datatype Fetched = Fetched(rom: Rom) | Refused(failure: Failure)

  /** Resolving, loading and checking one ROM. */
  function Fetch(sv: Services, id: string): Fetched {
    match sv.resolve(id)
    case Threw(_) => Refused(PathUnresolved)
    case Returned(path) =>
      match sv.load(path)
      case Threw(exn) => Refused(LoadFailed(exn))
      case Returned(rom) =>
        if rom.id != id then Refused(IdentityMismatch)
        else
          match sv.evaluate(rom)
          case Threw(exn) => Refused(PolicyFailed(exn))
          case Returned(allowed) => if allowed then Fetched(rom) else Refused(GovernanceDenied)
  }

  /** A ROM is loaded exactly as resolved and read, under the id that was asked for, and only if allowed. */
  ghost predicate Checked(sv: Services, id: string, rom: Rom) {
    var path := sv.resolve(id);
    && path.Returned?
    && sv.load(path.result) == Returned(rom)
    && rom.id == id
    && sv.evaluate(rom) == Returned(true)
  }

  lemma FetchIsChecked(sv: Services, id: string, rom: Rom)
    ensures Fetch(sv, id) == Fetched(rom) <==> Checked(sv, id, rom)
  {
  }

  predicate RelationLe(a: Relation, b: Relation) {
    if a.target == b.target then StringLe(a.kind, b.kind) else StringLe(a.target, b.target)
  }

  function Where(relations: seq<Relation>, kinds: set<string>): seq<Relation> {
    if relations == [] then []
    else (if relations[0].kind in kinds then [relations[0]] else []) + Where(relations[1..], kinds)
  }

  /** `GetRelationsToFollow`. */
  function Followed(rq: Request, rom: Rom): seq<Relation> {
    var sorted := Sort(rom.relations, RelationLe);
    if rq.kinds == {} then sorted else Where(sorted, rq.kinds)
  }

  // ----- the walk -----

  datatype State = State(loaded: map<string, Rom>, loading: set<string>, edges: seq<Edge>)

  datatype Walked = Walked(state: State, failure: Option<Failure>)

  function AddEdge(edges: seq<Edge>, edge: Edge): seq<Edge> {
    if edge in edges then edges else edges + [edge]
  }

  function Left(rq: Request, depth: nat): nat {
    if depth <= rq.maxDepth then rq.maxDepth - depth + 1 else 0
  }

  /** `LoadGraphAsync`; the edge is the relation that led here, if any. */
  function LoadGraph(
    sv: Services, rq: Request, id: string, edge: Option<Edge>, depth: nat, s: State): Walked
    decreases Left(rq, depth), 1, 0
  {
    if depth > rq.maxDepth then Walked(s, Some(DepthExceeded))
    else
      var seen := if edge.Some? then s.(edges := AddEdge(s.edges, edge.value)) else s;
      if id in seen.loaded || id in seen.loading then Walked(seen, None)
      else
        match Fetch(sv, id)
        case Refused(failure) => Walked(seen.(loading := seen.loading + {id}), Some(failure))
        case Fetched(rom) =>
          var entered := seen.(loading := seen.loading + {id}, loaded := seen.loaded[id := rom]);
          var walked := LoadRelations(sv, rq, Followed(rq, rom), id, depth, entered);
          if walked.failure.Some? then walked
          else Walked(walked.state.(loading := walked.state.loading - {id}), None)
  }

  function LoadRelations(
    sv: Services, rq: Request, relations: seq<Relation>, source: string, depth: nat, s: State): Walked
    requires depth <= rq.maxDepth
    decreases Left(rq, depth), 0, |relations|
  {
    if relations == [] then Walked(s, None)
    else if IsBlank(relations[0].target) then Walked(s, Some(BlankTarget))
    else
      var edge := EdgeOf(source, relations[0]);
      var walked := LoadGraph(sv, rq, edge.target, Some(edge), depth + 1, s);
      if walked.failure.Some? then walked
      else LoadRelations(sv, rq, relations[1..], source, depth, walked.state)
  }

  /** The edge a relation stands for: its target is the trimmed id. */
  function EdgeOf(source: string, relation: Relation): Edge {
    Edge(source, Trim(relation.target), relation.kind)
  }

  const EMPTY_STATE := State(map[], {}, [])

  /** `AssembleAsync` up to the ordering of its results. */
  function Assemble(sv: Services, rq: Request): Walked {
    if rq.maxDepth < 0 then Walked(EMPTY_STATE, Some(InvalidDepth))
    else LoadGraph(sv, rq, rq.root, None, 0, EMPTY_STATE)
  }

  /** The mutable state of one assembly, and the recursive walk that fills it. */
  class AssemblyState {
    const services: Services
    const request: Request
    var loaded: map<string, Rom>
    var loading: set<string>
    var edges: seq<Edge>

    constructor (services: Services, request: Request)
      ensures this.services == services && this.request == request && Value() == EMPTY_STATE
      ensures Keyed(loaded)
    {
      this.services := services;
      this.request := request;
      loaded := map[];
      loading := {};
      edges := [];
    }

    function Value(): State
      reads this
    {
      State(loaded, loading, edges)
    }

    method LoadGraphInto(id: string, edge: Option<Edge>, depth: nat) returns (failure: Option<Failure>)
      requires Keyed(loaded)
      modifies this
      ensures Keyed(loaded)
      ensures Walked(Value(), failure) == LoadGraph(services, request, id, edge, depth, old(Value()))
      decreases Left(request, depth), 1, 0
    {
      if depth > request.maxDepth {
        return Some(DepthExceeded);
      }
      if edge.Some? && edge.value !in edges {
        edges := edges + [edge.value];
      }
      if id in loaded || id in loading {
        return None;
      }
      loading := loading + {id};
      var fetched := Fetch(services, id);
      if fetched.Refused? {
        return Some(fetched.failure);
      }
      assert fetched.rom.id == id && id !in loaded;  // so the dictionary's `Add` cannot throw
      loaded := loaded[id := fetched.rom];
      var relations := Followed(request, fetched.rom);
      ghost var entered := Value();
      for i := 0 to |relations|
        invariant Keyed(loaded)
        invariant LoadRelations(services, request, relations, id, depth, entered)
               == LoadRelations(services, request, relations[i..], id, depth, Value())
      {
        if IsBlank(relations[i].target) {
          return Some(BlankTarget);
        }
        var next := EdgeOf(id, relations[i]);
        failure := LoadGraphInto(next.target, Some(next), depth + 1);
        if failure.Some? {
          return failure;
        }
        assert relations[i..][1..] == relations[i + 1..];
      }
      loading := loading - {id};
      return None;
    }

    /** The dictionary gives its values in an order of its own; they are then sorted by id. */
    method GetRomsInDeterministicOrder() returns (roms: seq<Rom>)
      requires Keyed(loaded)
      ensures IsListing(loaded, roms)
    {
      var ids := [];
      var rest := loaded.Keys;
      while rest != {}
        invariant rest <= loaded.Keys && multiset(ids) + multiset(rest) == multiset(loaded.Keys)
      {
        var id :| id in rest;
        ids := ids + [id];
        rest := rest - {id};
      }
      StringOrder();
      SortSorts(ids, StringLe);
      SortedIdsList(loaded, Sort(ids, StringLe));
      roms := Lookup(loaded, Sort(ids, StringLe));
    }

    method GetEdgesInDeterministicOrder() returns (sorted: seq<Edge>)
      ensures sorted == Sort(edges, EdgeLe)
      ensures Sorted(sorted, EdgeLe) && multiset(sorted) == multiset(edges)
    {
      EdgeOrder();
      SortSorts(edges, EdgeLe);
      sorted := Sort(edges, EdgeLe);
    }
  }

  // ----- the ordered results -----

  predicate EdgeLe(a: Edge, b: Edge) {
    if a.source != b.source then StringLe(a.source, b.source)
    else if a.target != b.target then StringLe(a.target, b.target)
    else StringLe(a.kind, b.kind)
  }

  lemma RelationOrder()
    ensures TotalOrder(RelationLe)
  {
    forall a: Relation, b: Relation
      ensures RelationLe(a, b) || RelationLe(b, a)
      ensures RelationLe(a, b) && RelationLe(b, a) ==> a == b
    {
      StringsCompare(a.target, b.target);
      StringsCompare(a.kind, b.kind);
    }
    forall a: Relation, b: Relation, c: Relation | RelationLe(a, b) && RelationLe(b, c)
      ensures RelationLe(a, c)
    {
      StringsCompare(a.target, b.target);
      StringsChain(a.target, b.target, c.target);
      StringsChain(a.kind, b.kind, c.kind);
    }
  }

  lemma EdgeOrder()
    ensures TotalOrder(EdgeLe)
  {
    forall a: Edge, b: Edge
      ensures EdgeLe(a, b) || EdgeLe(b, a)
      ensures EdgeLe(a, b) && EdgeLe(b, a) ==> a == b
    {
      StringsCompare(a.source, b.source);
      StringsCompare(a.target, b.target);
      StringsCompare(a.kind, b.kind);
    }
    forall a: Edge, b: Edge, c: Edge | EdgeLe(a, b) && EdgeLe(b, c)
      ensures EdgeLe(a, c)
    {
      StringsCompare(a.source, b.source);
      StringsCompare(a.target, b.target);
      StringsChain(a.source, b.source, c.source);
      StringsChain(a.target, b.target, c.target);
      StringsChain(a.kind, b.kind, c.kind);
    }
  }

  function IdsOf(roms: seq<Rom>): seq<string> {
    seq(|roms|, i requires 0 <= i < |roms| => roms[i].id)
  }

  /** The ROMs of the map, each once, by ascending id. */
  ghost predicate IsListing(loaded: map<string, Rom>, roms: seq<Rom>) {
    && Sorted(IdsOf(roms), StringLe)
    && multiset(IdsOf(roms)) == multiset(loaded.Keys)
    && forall rom | rom in roms :: rom.id in loaded && loaded[rom.id] == rom
  }

  function Lookup(loaded: map<string, Rom>, ids: seq<string>): seq<Rom>
    requires forall id | id in ids :: id in loaded
  {
    seq(|ids|, i requires 0 <= i < |ids| => loaded[ids[i]])
  }

  lemma SortedIdsList(loaded: map<string, Rom>, ids: seq<string>)
    requires Keyed(loaded) && Sorted(ids, StringLe) && multiset(ids) == multiset(loaded.Keys)
    ensures forall id | id in ids :: id in loaded
    ensures IsListing(loaded, Lookup(loaded, ids))
  {
    forall id | id in ids
      ensures id in loaded
    {
      assert id in multiset(ids);
    }
    assert IdsOf(Lookup(loaded, ids)) == ids;
  }

  ghost predicate Keyed(loaded: map<string, Rom>) {
    forall id | id in loaded :: loaded[id].id == id
  }

  datatype Assembly = Assembled(roms: seq<Rom>, edges: seq<Edge>) | NotAssembled(failure: Failure)

  /** `AssembleAsync`: what the context and its hash are made of. */
  method AssembleContext(services: Services, request: Request) returns (a: Assembly)
    ensures
      var w := Assemble(services, request);
      match w.failure
      case Some(failure) => a == NotAssembled(failure)
      case None =>
        && a.Assembled?
        && IsListing(w.state.loaded, a.roms)
        && a.edges == Sort(w.state.edges, EdgeLe)
        && Sorted(a.edges, EdgeLe) && multiset(a.edges) == multiset(w.state.edges)
  {
    if request.maxDepth < 0 {
      return NotAssembled(InvalidDepth);
    }
    var state := new AssemblyState(services, request);
    var failure := state.LoadGraphInto(request.root, None, 0);
    if failure.Some? {
      return NotAssembled(failure.value);
    }
    var roms := state.GetRomsInDeterministicOrder();
    var edges := state.GetEdgesInDeterministicOrder();
    return Assembled(roms, edges);
  }

  // ----- the graph -----

  /** The edge is a followed relation of a ROM that can be fetched. */
  ghost predicate IsEdge(sv: Services, rq: Request, e: Edge) {
    var fetched := Fetch(sv, e.source);
    fetched.Fetched? && IsEdgeOf(Followed(rq, fetched.rom), e)
  }

  ghost predicate IsEdgeOf(relations: seq<Relation>, e: Edge) {
    exists r | r in relations :: !IsBlank(r.target) && EdgeOf(e.source, r) == e
  }

  /** The edges lead, one after the other, from the root to `id`. */
  ghost predicate Trail(sv: Services, rq: Request, trail: seq<Edge>, id: string) {
    if trail == [] then id == rq.root
    else
      var last := trail[|trail| - 1];
      last.target == id && IsEdge(sv, rq, last) && Trail(sv, rq, trail[..|trail| - 1], last.source)
  }

  ghost predicate Reachable(sv: Services, rq: Request, id: string) {
    exists trail :: Trail(sv, rq, trail, id)
  }

  ghost predicate Near(sv: Services, rq: Request, id: string) {
    exists trail :: Trail(sv, rq, trail, id) && |trail| <= rq.maxDepth
  }

  /** No ROM is left twice. */
  ghost predicate IsPath(trail: seq<Edge>) {
    forall i, j | 0 <= i < j < |trail| :: trail[i].source != trail[j].source
  }

  /** A path of one edge more than the depth limit leads to `id`. */
  ghost predicate TooFar(sv: Services, rq: Request, id: string) {
    exists trail :: Trail(sv, rq, trail, id) && |trail| == rq.maxDepth + 1 && IsPath(trail)
  }

  /** The graph of a request: its edges, the ROMs that can be fetched, those within the depth limit, and
      those that name every target. */
  datatype Graph = Graph(edges: iset<Edge>, roms: imap<string, Rom>, near: iset<string>, named: iset<string>)

  ghost function GraphOf(sv: Services, rq: Request): Graph {
    Graph(
      iset e | IsEdge(sv, rq, e),
      imap id | Fetch(sv, id).Fetched? :: Fetch(sv, id).rom,
      iset id | Near(sv, rq, id),
      iset id | Fetch(sv, id).Fetched? && !HasBlankTarget(rq, Fetch(sv, id).rom))
  }

  // ----- the invariant of the walk -----

  ghost predicate NoDuplicates(edges: seq<Edge>) {
    forall i, j | 0 <= i < j < |edges| :: edges[i] != edges[j]
  }

  ghost predicate Inv(g: Graph, s: State) {
    && s.loading <= s.loaded.Keys
    && (forall x | x in s.loaded :: x in g.roms && g.roms[x] == s.loaded[x] && x in g.near)
    && (forall e | e in s.edges :: e in g.edges && e.source in s.loaded && e.target in s.loaded)
    && NoDuplicates(s.edges)
  }

  /** All edges that leave `x` are recorded, and no target of `x` is blank. */
  ghost predicate Done(g: Graph, s: State, x: string) {
    x in g.named && forall e | e in g.edges && e.source == x :: e in s.edges
  }

  /** From `s` to `s'` the walk only added, and what it loaded it also finished. */
  ghost predicate Grew(g: Graph, s: State, s': State) {
    && s'.loading == s.loading
    && (forall x | x in s.loaded :: x in s'.loaded)
    && (forall e | e in s.edges :: e in s'.edges)
    && forall x | x in s'.loaded && x !in s.loaded :: Done(g, s', x)
  }

  function Seen(s: State, edge: Option<Edge>): State {
    if edge.Some? then s.(edges := AddEdge(s.edges, edge.value)) else s
  }

  function Entered(s: State, edge: Option<Edge>, id: string, rom: Rom): State {
    var seen := Seen(s, edge);
    seen.(loading := seen.loading + {id}, loaded := seen.loaded[id := rom])
  }

  lemma AddEdgeKeepsNoDuplicates(edges: seq<Edge>, edge: Edge)
    requires NoDuplicates(edges)
    ensures NoDuplicates(AddEdge(edges, edge))
    ensures forall e :: e in AddEdge(edges, edge) <==> e in edges || e == edge
  {
  }

  lemma SeenKeepsInv(g: Graph, s: State, edge: Option<Edge>)
    requires Inv(g, s)
    requires edge.Some? ==>
      edge.value in g.edges && edge.value.source in s.loaded && edge.value.target in s.loaded
    ensures Inv(g, Seen(s, edge)) && Grew(g, s, Seen(s, edge))
    ensures edge.Some? ==> edge.value in Seen(s, edge).edges
  {
    if edge.Some? {
      AddEdgeKeepsNoDuplicates(s.edges, edge.value);
    }
  }

  lemma EnteredKeepsInv(g: Graph, s: State, edge: Option<Edge>, id: string, rom: Rom)
    requires Inv(g, s) && id in g.near && id in g.roms && g.roms[id] == rom
    requires edge.Some? ==>
      edge.value in g.edges && edge.value.source in s.loaded && edge.value.target == id
    ensures Inv(g, Entered(s, edge, id, rom))
    ensures edge.Some? ==> edge.value in Entered(s, edge, id, rom).edges
    ensures forall e | e in s.edges :: e in Entered(s, edge, id, rom).edges
  {
    if edge.Some? {
      AddEdgeKeepsNoDuplicates(s.edges, edge.value);
    }
  }

  /** Once all edges of `id` are recorded, the walk through it is complete. */
  lemma LeftGrew(g: Graph, s: State, edge: Option<Edge>, id: string, rom: Rom, walked: State)
    requires Inv(g, walked) && id !in s.loaded && id !in s.loading
    requires forall e | e in s.edges :: e in Entered(s, edge, id, rom).edges
    requires Grew(g, Entered(s, edge, id, rom), walked)
    requires Done(g, walked, id)
    ensures
      var left := walked.(loading := walked.loading - {id});
      Inv(g, left) && Grew(g, s, left) && id in left.loaded
  {
    var left := walked.(loading := walked.loading - {id});
    forall x | x in left.loaded && x !in s.loaded
      ensures Done(g, left, x)
    {
      assert Done(g, walked, x);
    }
  }

  lemma GrewTransitive(g: Graph, s: State, s': State, s'': State)
    requires Grew(g, s, s') && Grew(g, s', s'')
    ensures Grew(g, s, s'')
  {
    forall x | x in s''.loaded && x !in s.loaded
      ensures Done(g, s'', x)
    {
      if x in s'.loaded {
        assert Done(g, s', x);
      }
    }
  }

  // ----- the walk keeps the invariant -----

  /** The failure has its cause in the graph. */
  ghost predicate Explained(sv: Services, rq: Request, failure: Failure) {
    match failure
    case InvalidDepth => rq.maxDepth < 0
    case DepthExceeded => exists id :: TooFar(sv, rq, id)
    case BlankTarget =>
      exists id :: Reachable(sv, rq, id) && Fetch(sv, id).Fetched? && HasBlankTarget(rq, Fetch(sv, id).rom)
    case _ => exists id :: Reachable(sv, rq, id) && Fetch(sv, id) == Refused(failure)
  }

  ghost predicate HasBlankTarget(rq: Request, rom: Rom) {
    exists r | r in Followed(rq, rom) :: IsBlank(r.target)
  }

  ghost predicate EdgeLeadsTo(g: Graph, edge: Option<Edge>, id: string, s: State) {
    edge.Some? ==> edge.value in g.edges && edge.value.source in s.loaded && edge.value.target == id
  }

  /** The trail is the path of the ROMs whose relations are being followed. */
  ghost predicate InProgress(trail: seq<Edge>, s: State) {
    IsPath(trail) && forall e | e in trail :: e.source in s.loading
  }

  /** No edge of the trail leaves `id`. */
  ghost predicate NotLeft(trail: seq<Edge>, id: string) {
    forall e | e in trail :: e.source != id
  }

  /** A followed relation prolongs the trail to its source. */
  lemma RelationExtends(
    sv: Services, rq: Request, g: Graph, source: string, rom: Rom, r: Relation, trail: seq<Edge>, s: State)
    returns (next: seq<Edge>)
    requires g == GraphOf(sv, rq) && source in s.loaded
    requires Fetch(sv, source) == Fetched(rom) && r in Followed(rq, rom) && !IsBlank(r.target)
    requires Trail(sv, rq, trail, source) && InProgress(trail, s) && NotLeft(trail, source) && source in s.loading
    ensures EdgeLeadsTo(g, Some(EdgeOf(source, r)), EdgeOf(source, r).target, s)
    ensures Trail(sv, rq, next, EdgeOf(source, r).target) && InProgress(next, s) && |next| == |trail| + 1
  {
    var e := EdgeOf(source, r);
    assert IsEdgeOf(Followed(rq, rom), e);
    next := trail + [e];
    assert next[..|trail|] == trail;
  }

  lemma RelationsAreAllEdges(sv: Services, rq: Request, id: string, rom: Rom, s: State)
    requires Fetch(sv, id) == Fetched(rom)
    requires forall r | r in Followed(rq, rom) :: !IsBlank(r.target) && EdgeOf(id, r) in s.edges
    ensures Done(GraphOf(sv, rq), s, id)
  {
  }

  lemma TrailEndsNear(sv: Services, rq: Request, trail: seq<Edge>, id: string)
    requires Trail(sv, rq, trail, id) && IsPath(trail)
    ensures Reachable(sv, rq, id)
    ensures |trail| <= rq.maxDepth ==> id in GraphOf(sv, rq).near
    ensures |trail| == rq.maxDepth + 1 ==> TooFar(sv, rq, id)
  {
  }

  /** What a walk to `id` along `edge` does: it fails for a cause in the graph, or keeps the invariant. */
  ghost predicate Arrives(
    sv: Services, rq: Request, g: Graph, id: string, edge: Option<Edge>, s: State, w: Walked)
  {
    if w.failure.Some? then Explained(sv, rq, w.failure.value)
    else
      && Inv(g, w.state)
      && Grew(g, s, w.state)
      && id in w.state.loaded
      && (edge.Some? ==> edge.value in w.state.edges)
  }

  ghost predicate Records(
    sv: Services, rq: Request, g: Graph, relations: seq<Relation>, source: string, s: State, w: Walked)
  {
    if w.failure.Some? then Explained(sv, rq, w.failure.value)
    else
      && Inv(g, w.state)
      && Grew(g, s, w.state)
      && forall r | r in relations :: !IsBlank(r.target) && EdgeOf(source, r) in w.state.edges
  }

  lemma KnownIsReached(
    sv: Services, rq: Request, g: Graph, id: string, edge: Option<Edge>, depth: nat, s: State)
    requires Inv(g, s) && EdgeLeadsTo(g, edge, id, s) && depth <= rq.maxDepth && id in s.loaded
    ensures Arrives(sv, rq, g, id, edge, s, LoadGraph(sv, rq, id, edge, depth, s))
  {
    SeenKeepsInv(g, s, edge);
    assert LoadGraph(sv, rq, id, edge, depth, s) == Walked(Seen(s, edge), None);
  }

  lemma RefusalIsExplained(
    sv: Services, rq: Request, g: Graph, id: string, edge: Option<Edge>, depth: nat, s: State, failure: Failure)
    requires depth <= rq.maxDepth && id !in s.loaded && id !in s.loading
    requires Reachable(sv, rq, id) && Fetch(sv, id) == Refused(failure)
    ensures Arrives(sv, rq, g, id, edge, s, LoadGraph(sv, rq, id, edge, depth, s))
  {
  }

  lemma DepthIsExplained(
    sv: Services, rq: Request, g: Graph, id: string, edge: Option<Edge>, depth: nat, s: State)
    requires depth > rq.maxDepth && TooFar(sv, rq, id)
    ensures Arrives(sv, rq, g, id, edge, s, LoadGraph(sv, rq, id, edge, depth, s))
  {
  }

  lemma LoadGraphUnfolds(
    sv: Services, rq: Request, id: string, edge: Option<Edge>, depth: nat, s: State, rom: Rom)
    requires depth <= rq.maxDepth && id !in s.loaded && id !in s.loading && Fetch(sv, id) == Fetched(rom)
    ensures
      var w := LoadRelations(sv, rq, Followed(rq, rom), id, depth, Entered(s, edge, id, rom));
      LoadGraph(sv, rq, id, edge, depth, s)
      == if w.failure.Some? then w else Walked(w.state.(loading := w.state.loading - {id}), None)
  {
  }

  lemma EnteredIsReached(
    sv: Services, rq: Request, g: Graph, id: string, edge: Option<Edge>, s: State, rom: Rom, w: Walked)
    requires g == GraphOf(sv, rq) && Inv(g, s) && EdgeLeadsTo(g, edge, id, s)
    requires id !in s.loaded && id !in s.loading && id in g.near && Fetch(sv, id) == Fetched(rom)
    requires Records(sv, rq, g, Followed(rq, rom), id, Entered(s, edge, id, rom), w) && w.failure.None?
    ensures Arrives(sv, rq, g, id, edge, s, Walked(w.state.(loading := w.state.loading - {id}), None))
  {
    EnteredKeepsInv(g, s, edge, id, rom);
    RelationsAreAllEdges(sv, rq, id, rom, w.state);
    LeftGrew(g, s, edge, id, rom, w.state);
  }

  lemma {:induction false} GraphIsWalked(
    sv: Services, rq: Request, g: Graph, id: string, edge: Option<Edge>, trail: seq<Edge>, s: State)
    requires g == GraphOf(sv, rq) && Inv(g, s) && EdgeLeadsTo(g, edge, id, s)
    requires 0 <= rq.maxDepth && |trail| <= rq.maxDepth + 1 && Trail(sv, rq, trail, id) && InProgress(trail, s)
    ensures Arrives(sv, rq, g, id, edge, s, LoadGraph(sv, rq, id, edge, |trail|, s))
    decreases rq.maxDepth + 1 - |trail|, 2, 0
  {
    TrailEndsNear(sv, rq, trail, id);
    if |trail| > rq.maxDepth {
      DepthIsExplained(sv, rq, g, id, edge, |trail|, s);
    } else {
      if id in s.loaded {
        KnownIsReached(sv, rq, g, id, edge, |trail|, s);
      } else {
        match Fetch(sv, id)
        case Refused(failure) =>
          RefusalIsExplained(sv, rq, g, id, edge, |trail|, s, failure);
        case Fetched(rom) =>
          FetchedIsWalked(sv, rq, g, id, rom, edge, trail, s);
      }
    }
  }

  lemma {:induction false} FetchedIsWalked(
    sv: Services, rq: Request, g: Graph, id: string, rom: Rom, edge: Option<Edge>, trail: seq<Edge>, s: State)
    requires g == GraphOf(sv, rq) && Inv(g, s) && EdgeLeadsTo(g, edge, id, s)
    requires |trail| <= rq.maxDepth && Trail(sv, rq, trail, id) && InProgress(trail, s) && id in g.near
    requires id !in s.loaded && Fetch(sv, id) == Fetched(rom)
    ensures Arrives(sv, rq, g, id, edge, s, LoadGraph(sv, rq, id, edge, |trail|, s))
    decreases rq.maxDepth + 1 - |trail|, 1, 0
  {
    var entered := Entered(s, edge, id, rom);
    EnteredKeepsInv(g, s, edge, id, rom);
    RelationsAreWalked(sv, rq, g, Followed(rq, rom), id, rom, trail, entered);
    var w := LoadRelations(sv, rq, Followed(rq, rom), id, |trail|, entered);
    LoadGraphUnfolds(sv, rq, id, edge, |trail|, s, rom);
    if w.failure.None? {
      EnteredIsReached(sv, rq, g, id, edge, s, rom, w);
    }
  }

  lemma LoadRelationsUnfolds(
    sv: Services, rq: Request, relations: seq<Relation>, source: string, depth: nat, s: State)
    requires depth <= rq.maxDepth && relations != [] && !IsBlank(relations[0].target)
    ensures
      var edge := EdgeOf(source, relations[0]);
      var w := LoadGraph(sv, rq, edge.target, Some(edge), depth + 1, s);
      LoadRelations(sv, rq, relations, source, depth, s)
      == if w.failure.Some? then w else LoadRelations(sv, rq, relations[1..], source, depth, w.state)
  {
  }

  lemma RecordsOneMore(
    sv: Services, rq: Request, g: Graph, relations: seq<Relation>, source: string, s: State, w: Walked, end: Walked)
    requires relations != [] && !IsBlank(relations[0].target)
    requires var edge := EdgeOf(source, relations[0]); Arrives(sv, rq, g, edge.target, Some(edge), s, w)
    requires w.failure.None? && Records(sv, rq, g, relations[1..], source, w.state, end)
    ensures Records(sv, rq, g, relations, source, s, end)
  {
    if end.failure.None? {
      GrewTransitive(g, s, w.state, end.state);
      assert forall q | q in relations :: q == relations[0] || q in relations[1..];
    }
  }

  lemma BlankIsExplained(
    sv: Services, rq: Request, g: Graph, relations: seq<Relation>, source: string, rom: Rom, depth: nat, s: State)
    requires depth <= rq.maxDepth && relations != [] && IsBlank(relations[0].target)
    requires Reachable(sv, rq, source) && Fetch(sv, source) == Fetched(rom) && relations[0] in Followed(rq, rom)
    ensures Records(sv, rq, g, relations, source, s, LoadRelations(sv, rq, relations, source, depth, s))
  {
    assert HasBlankTarget(rq, rom);
  }

  lemma ArrivalKeepsInv(
    sv: Services, rq: Request, g: Graph, id: string, edge: Option<Edge>, s: State, w: Walked, source: string)
    requires Arrives(sv, rq, g, id, edge, s, w) && w.failure.None? && source in s.loaded
    ensures Inv(g, w.state) && source in w.state.loaded
  {
  }

  lemma {:induction false} RelationsAreWalked(
    sv: Services, rq: Request, g: Graph, relations: seq<Relation>, source: string, rom: Rom, trail: seq<Edge>,
    s: State)
    requires g == GraphOf(sv, rq) && Inv(g, s)
    requires |trail| <= rq.maxDepth && Trail(sv, rq, trail, source)
    requires InProgress(trail, s) && NotLeft(trail, source) && source in s.loading
    requires source in s.loaded && Fetch(sv, source) == Fetched(rom)
    requires forall r | r in relations :: r in Followed(rq, rom)
    ensures Records(sv, rq, g, relations, source, s, LoadRelations(sv, rq, relations, source, |trail|, s))
    decreases rq.maxDepth + 1 - |trail|, 0, |relations|
  {
    if relations == [] {
      assert LoadRelations(sv, rq, relations, source, |trail|, s) == Walked(s, None);
    } else if IsBlank(relations[0].target) {
      TrailEndsNear(sv, rq, trail, source);
      BlankIsExplained(sv, rq, g, relations, source, rom, |trail|, s);
    } else {
      var edge := EdgeOf(source, relations[0]);
      var next := RelationExtends(sv, rq, g, source, rom, relations[0], trail, s);
      GraphIsWalked(sv, rq, g, edge.target, Some(edge), next, s);
      var w := LoadGraph(sv, rq, edge.target, Some(edge), |trail| + 1, s);
      LoadRelationsUnfolds(sv, rq, relations, source, |trail|, s);
      if w.failure.None? {
        ArrivalKeepsInv(sv, rq, g, edge.target, Some(edge), s, w, source);
        RelationsAreWalked(sv, rq, g, relations[1..], source, rom, trail, w.state);
        RecordsOneMore(sv, rq, g, relations, source, s, w,
                       LoadRelations(sv, rq, relations[1..], source, |trail|, w.state));
      }
    }
  }

  // ----- what an assembly loads -----

  ghost predicate ClosedUnderEdges(sv: Services, rq: Request, ids: set<string>) {
    forall e | IsEdge(sv, rq, e) && e.source in ids :: e.target in ids
  }

  lemma {:induction false} TrailEndsIn(sv: Services, rq: Request, ids: set<string>, trail: seq<Edge>, id: string)
    requires rq.root in ids && ClosedUnderEdges(sv, rq, ids)
    requires Trail(sv, rq, trail, id)
    ensures id in ids
    decreases |trail|
  {
    if trail != [] {
      var last := trail[|trail| - 1];
      TrailEndsIn(sv, rq, ids, trail[..|trail| - 1], last.source);
    }
  }

  lemma FinishedIsClosed(sv: Services, rq: Request, s: State)
    requires Inv(GraphOf(sv, rq), s)
    requires forall x | x in s.loaded :: Done(GraphOf(sv, rq), s, x)
    ensures ClosedUnderEdges(sv, rq, s.loaded.Keys)
  {
    forall e | IsEdge(sv, rq, e) && e.source in s.loaded
      ensures e.target in s.loaded
    {
      assert e in GraphOf(sv, rq).edges;
      assert Done(GraphOf(sv, rq), s, e.source);
    }
  }

  /**
    A successful assembly loads exactly the ROMs reachable from the root, through cycles or not, each one
    as fetched and checked and within the depth limit. Its edges are exactly the followed relations of
    these ROMs, each once. A failed one has its cause in the graph.
  */
  lemma AssemblyIsExact(sv: Services, rq: Request)
    ensures
      var w := Assemble(sv, rq);
      if w.failure.Some? then Explained(sv, rq, w.failure.value)
      else
        && (forall id :: id in w.state.loaded <==> Reachable(sv, rq, id))
        && (forall id | id in w.state.loaded ::
              && Checked(sv, id, w.state.loaded[id])
              && !HasBlankTarget(rq, w.state.loaded[id])
              && Near(sv, rq, id))
        && (forall e :: e in w.state.edges <==> Stated(w.state.loaded, rq, e))
        && NoDuplicates(w.state.edges)
        && w.state.loading == {}
  {
    var g := GraphOf(sv, rq);
    if rq.maxDepth >= 0 {
      GraphIsWalked(sv, rq, g, rq.root, None, [], EMPTY_STATE);
      var w := Assemble(sv, rq);
      if w.failure.None? {
        FinishedIsExact(sv, rq, w.state);
        forall id | id in w.state.loaded
          ensures Checked(sv, id, w.state.loaded[id])
        {
          FetchIsChecked(sv, id, w.state.loaded[id]);
        }
        forall e
          ensures e in w.state.edges <==> Stated(w.state.loaded, rq, e)
        {
          EdgeIsStated(sv, rq, w.state, e);
        }
      }
    }
  }

  /** A loaded ROM states a relation of the edge's kind, which is one to follow, to the edge's target. */
  ghost predicate Stated(loaded: map<string, Rom>, rq: Request, e: Edge) {
    e.source in loaded && exists r | r in loaded[e.source].relations ::
      (rq.kinds == {} || r.kind in rq.kinds) && e.target == Trim(r.target) && e.kind == r.kind
  }

  lemma EdgeIsStated(sv: Services, rq: Request, s: State, e: Edge)
    requires forall id | id in s.loaded ::
      Fetch(sv, id) == Fetched(s.loaded[id]) && !HasBlankTarget(rq, s.loaded[id])
    requires e in s.edges <==> IsEdge(sv, rq, e) && e.source in s.loaded
    ensures e in s.edges <==> Stated(s.loaded, rq, e)
  {
    if e.source in s.loaded {
      FollowedIsExact(rq, s.loaded[e.source]);
    }
  }

  lemma FollowedIsExact(rq: Request, rom: Rom)
    ensures forall r :: r in Followed(rq, rom) <==>
      r in rom.relations && (rq.kinds == {} || r.kind in rq.kinds)
  {
    var sorted := Sort(rom.relations, RelationLe);
    RelationOrder();
    SortSorts(rom.relations, RelationLe);
    forall r
      ensures r in sorted <==> r in rom.relations
    {
      assert r in multiset(sorted) <==> r in multiset(rom.relations);
    }
    WhereIsExact(sorted, rq.kinds);
  }

  lemma {:induction false} WhereIsExact(relations: seq<Relation>, kinds: set<string>)
    ensures forall r :: r in Where(relations, kinds) <==> r in relations && r.kind in kinds
  {
    if relations != [] {
      WhereIsExact(relations[1..], kinds);
      assert forall r :: r in relations <==> r == relations[0] || r in relations[1..];
    }
  }

  lemma FinishedIsExact(sv: Services, rq: Request, s: State)
    requires Inv(GraphOf(sv, rq), s) && Grew(GraphOf(sv, rq), EMPTY_STATE, s) && rq.root in s.loaded
    ensures forall id :: id in s.loaded <==> Reachable(sv, rq, id)
    ensures forall id | id in s.loaded ::
      Fetch(sv, id) == Fetched(s.loaded[id]) && !HasBlankTarget(rq, s.loaded[id]) && Near(sv, rq, id)
    ensures forall e :: e in s.edges <==> IsEdge(sv, rq, e) && Reachable(sv, rq, e.source)
  {
    var g := GraphOf(sv, rq);
    FinishedIsClosed(sv, rq, s);
    forall id
      ensures id in s.loaded <==> Reachable(sv, rq, id)
    {
      if Reachable(sv, rq, id) {
        var trail :| Trail(sv, rq, trail, id);
        TrailEndsIn(sv, rq, s.loaded.Keys, trail, id);
      }
      if id in s.loaded {
        assert id in g.near && Done(g, s, id);
      }
    }
    forall e
      ensures e in s.edges <==> IsEdge(sv, rq, e) && Reachable(sv, rq, e.source)
    {
      assert e in g.edges <==> IsEdge(sv, rq, e);
      if e.source in s.loaded {
        assert Done(g, s, e.source);
      }
    }
  }

  /**
    Assembly succeeds whenever the limit is not negative, everything reachable can be fetched and names
    its targets, and no walk from the root is longer than the limit.
  */
  lemma AssemblySucceeds(sv: Services, rq: Request)
    requires rq.maxDepth >= 0
    requires forall id | Reachable(sv, rq, id) :: Fetch(sv, id).Fetched? && !HasBlankTarget(rq, Fetch(sv, id).rom)
    requires forall id :: !TooFar(sv, rq, id)
    ensures Assemble(sv, rq).failure == None
  {
    AssemblyIsExact(sv, rq);
  }
}
