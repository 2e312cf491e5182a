/**
  What the outcome of a context assembly does not depend on: the order of a ROM's relations, the order in
  which a dictionary enumerates its entries, and a depth limit that was not reached.
*/
module ContextCanonicity {
  import opened Common
  import opened Ordering
  import opened ContextAssembly

  // ----- the order of relations -----

  ghost predicate SameRom(a: Rom, b: Rom) {
    a.id == b.id && a.content == b.content && multiset(a.relations) == multiset(b.relations)
  }

  ghost predicate SameLoad(a: Attempt<Rom>, b: Attempt<Rom>) {
    match (a, b)
    case (Returned(x), Returned(y)) => SameRom(x, y)
    case (Threw(x), Threw(y)) => x == y
    case _ => false
  }

  /** The same ROMs, but for the order of their relations; the policy does not look at that order. */
  ghost predicate SameServices(sv: Services, tv: Services) {
    && (forall id :: sv.resolve(id) == tv.resolve(id))
    && (forall path :: SameLoad(sv.load(path), tv.load(path)))
    && (forall a, b | SameRom(a, b) :: sv.evaluate(a) == tv.evaluate(b))
  }

  ghost predicate SameFetch(a: Fetched, b: Fetched) {
    match (a, b)
    case (Fetched(x), Fetched(y)) => SameRom(x, y)
    case (Refused(x), Refused(y)) => x == y
    case _ => false
  }

  ghost predicate SameState(s: State, t: State) {
    && s.loading == t.loading
    && s.edges == t.edges
    && SameLoaded(s.loaded, t.loaded)
  }

  ghost predicate SameLoaded(a: map<string, Rom>, b: map<string, Rom>) {
    a.Keys == b.Keys && forall id | id in a :: SameRom(a[id], b[id])
  }

  ghost predicate SameWalk(w: Walked, v: Walked) {
    w.failure == v.failure && SameState(w.state, v.state)
  }

  lemma FetchesTheSame(sv: Services, tv: Services, id: string)
    requires SameServices(sv, tv)
    ensures SameFetch(Fetch(sv, id), Fetch(tv, id))
  {
    if sv.resolve(id).Returned? {
      assert SameLoad(sv.load(sv.resolve(id).result), tv.load(sv.resolve(id).result));
    }
  }

  lemma FollowsTheSame(rq: Request, a: Rom, b: Rom)
    requires SameRom(a, b)
    ensures Followed(rq, a) == Followed(rq, b)
  {
    RelationOrder();
    SortIsCanonical(a.relations, b.relations, RelationLe);
  }

  lemma EntersTheSame(s: State, t: State, edge: Option<Edge>, id: string, a: Rom, b: Rom)
    requires SameState(s, t) && SameRom(a, b)
    ensures SameState(Entered(s, edge, id, a), Entered(t, edge, id, b))
  {
  }

  lemma {:induction false} WalksTheSame(
    sv: Services, tv: Services, rq: Request, id: string, edge: Option<Edge>, depth: nat, s: State, t: State)
    requires SameServices(sv, tv) && SameState(s, t)
    ensures SameWalk(LoadGraph(sv, rq, id, edge, depth, s), LoadGraph(tv, rq, id, edge, depth, t))
    decreases Left(rq, depth), 1, 0
  {
    if depth <= rq.maxDepth && id !in s.loaded && id !in s.loading {
      FetchesTheSame(sv, tv, id);
      match Fetch(sv, id)
      case Refused(_) =>
      case Fetched(a) =>
        var b := Fetch(tv, id).rom;
        FollowsTheSame(rq, a, b);
        EntersTheSame(s, t, edge, id, a, b);
        LoadGraphUnfolds(sv, rq, id, edge, depth, s, a);
        LoadGraphUnfolds(tv, rq, id, edge, depth, t, b);
        FollowTheSame(sv, tv, rq, Followed(rq, a), id, depth, Entered(s, edge, id, a), Entered(t, edge, id, b));
    }
  }

  lemma {:induction false} FollowTheSame(
    sv: Services, tv: Services, rq: Request, relations: seq<Relation>, source: string, depth: nat,
    s: State, t: State)
    requires SameServices(sv, tv) && SameState(s, t) && depth <= rq.maxDepth
    ensures SameWalk(
              LoadRelations(sv, rq, relations, source, depth, s),
              LoadRelations(tv, rq, relations, source, depth, t))
    decreases Left(rq, depth), 0, |relations|
  {
    if relations != [] && !IsBlank(relations[0].target) {
      var edge := EdgeOf(source, relations[0]);
      WalksTheSame(sv, tv, rq, edge.target, Some(edge), depth + 1, s, t);
      LoadRelationsUnfolds(sv, rq, relations, source, depth, s);
      LoadRelationsUnfolds(tv, rq, relations, source, depth, t);
      var w := LoadGraph(sv, rq, edge.target, Some(edge), depth + 1, s);
      var v := LoadGraph(tv, rq, edge.target, Some(edge), depth + 1, t);
      if w.failure.None? {
        FollowTheSame(sv, tv, rq, relations[1..], source, depth, w.state, v.state);
      }
    }
  }

  // ----- the ordered results -----

  ghost predicate SameRoms(a: seq<Rom>, b: seq<Rom>) {
    |a| == |b| && forall i | 0 <= i < |a| :: SameRom(a[i], b[i])
  }

  /** The ordered list of the loaded ROMs does not depend on how the dictionary enumerates them. */
  lemma ListingIsCanonical(a: map<string, Rom>, b: map<string, Rom>, x: seq<Rom>, y: seq<Rom>)
    requires SameLoaded(a, b) && IsListing(a, x) && IsListing(b, y)
    ensures SameRoms(x, y)
    ensures a == b ==> x == y
  {
    StringOrder();
    SortedUnique(IdsOf(x), IdsOf(y), StringLe);
    assert |IdsOf(x)| == |x| && |IdsOf(y)| == |y|;
    forall i | 0 <= i < |x|
      ensures SameRom(x[i], y[i]) && (a == b ==> x[i] == y[i])
    {
      assert x[i].id == IdsOf(x)[i] == IdsOf(y)[i] == y[i].id;
      assert x[i] in x && y[i] in y;
    }
  }

  /**
    Assembly is canonical: permuting the relations of any ROM changes neither success, nor the failure,
    nor the ordered lists of ROMs and edges that the context and its hash are made of.
  */
  lemma AssemblyIsCanonical(sv: Services, tv: Services, rq: Request)
    requires SameServices(sv, tv)
    ensures
      var w, v := Assemble(sv, rq), Assemble(tv, rq);
      && w.failure == v.failure
      && Sort(w.state.edges, EdgeLe) == Sort(v.state.edges, EdgeLe)
      && forall x, y | IsListing(w.state.loaded, x) && IsListing(v.state.loaded, y) :: SameRoms(x, y)
  {
    var w, v := Assemble(sv, rq), Assemble(tv, rq);
    if rq.maxDepth >= 0 {
      WalksTheSame(sv, tv, rq, rq.root, None, 0, EMPTY_STATE, EMPTY_STATE);
    }
    forall x, y | IsListing(w.state.loaded, x) && IsListing(v.state.loaded, y)
      ensures SameRoms(x, y)
    {
      ListingIsCanonical(w.state.loaded, v.state.loaded, x, y);
    }
  }

  // ----- the depth limit -----

  lemma {:induction false} WalksDeeper(
    sv: Services, rq: Request, deep: Request, id: string, edge: Option<Edge>, depth: nat, s: State)
    requires deep == rq.(maxDepth := deep.maxDepth) && rq.maxDepth <= deep.maxDepth
    requires LoadGraph(sv, rq, id, edge, depth, s).failure != Some(DepthExceeded)
    ensures LoadGraph(sv, deep, id, edge, depth, s) == LoadGraph(sv, rq, id, edge, depth, s)
    decreases Left(rq, depth), 1, 0
  {
    if id !in s.loaded && id !in s.loading && Fetch(sv, id).Fetched? {
      var rom := Fetch(sv, id).rom;
      LoadGraphUnfolds(sv, rq, id, edge, depth, s, rom);
      LoadGraphUnfolds(sv, deep, id, edge, depth, s, rom);
      FollowsDeeper(sv, rq, deep, Followed(rq, rom), id, depth, Entered(s, edge, id, rom));
    }
  }

  lemma {:induction false} FollowsDeeper(
    sv: Services, rq: Request, deep: Request, relations: seq<Relation>, source: string, depth: nat, s: State)
    requires deep == rq.(maxDepth := deep.maxDepth) && rq.maxDepth <= deep.maxDepth && depth <= rq.maxDepth
    requires LoadRelations(sv, rq, relations, source, depth, s).failure != Some(DepthExceeded)
    ensures LoadRelations(sv, deep, relations, source, depth, s)
         == LoadRelations(sv, rq, relations, source, depth, s)
    decreases Left(rq, depth), 0, |relations|
  {
    if relations != [] && !IsBlank(relations[0].target) {
      var edge := EdgeOf(source, relations[0]);
      LoadRelationsUnfolds(sv, rq, relations, source, depth, s);
      LoadRelationsUnfolds(sv, deep, relations, source, depth, s);
      WalksDeeper(sv, rq, deep, edge.target, Some(edge), depth + 1, s);
      var w := LoadGraph(sv, rq, edge.target, Some(edge), depth + 1, s);
      if w.failure.None? {
        FollowsDeeper(sv, rq, deep, relations[1..], source, depth, w.state);
      }
    }
  }

  /** Unless an assembly fails at the depth limit, a higher limit gives the same outcome. */
  lemma HigherLimitChangesNothing(sv: Services, rq: Request, deep: Request)
    requires deep == rq.(maxDepth := deep.maxDepth) && 0 <= rq.maxDepth <= deep.maxDepth
    requires Assemble(sv, rq).failure != Some(DepthExceeded)
    ensures Assemble(sv, deep) == Assemble(sv, rq)
  {
    WalksDeeper(sv, rq, deep, rq.root, None, 0, EMPTY_STATE);
  }

  ghost function Sources(trail: seq<Edge>): set<string> {
    if trail == [] then {} else Sources(trail[..|trail| - 1]) + {trail[|trail| - 1].source}
  }

  lemma {:induction false} PathSources(trail: seq<Edge>)
    requires IsPath(trail)
    ensures |Sources(trail)| == |trail|
    ensures forall x | x in Sources(trail) :: exists i | 0 <= i < |trail| :: trail[i].source == x
  {
    if trail != [] {
      PathSources(trail[..|trail| - 1]);
    }
  }

  lemma {:induction false} SourcesAreReachable(sv: Services, rq: Request, trail: seq<Edge>, id: string)
    requires Trail(sv, rq, trail, id)
    ensures forall x | x in Sources(trail) :: Reachable(sv, rq, x)
    decreases |trail|
  {
    if trail != [] {
      SourcesAreReachable(sv, rq, trail[..|trail| - 1], trail[|trail| - 1].source);
    }
  }

  /**
    A limit of as many steps as there are reachable ROMs is never exceeded, whatever cycles there are:
    the assembly succeeds if and only if all of them can be fetched and name their targets.
  */
  lemma LargeLimitSuffices(sv: Services, rq: Request, ids: set<string>)
    requires |ids| <= rq.maxDepth
    requires forall id | Reachable(sv, rq, id) :: id in ids
    ensures Assemble(sv, rq).failure == None
       <==> forall id | Reachable(sv, rq, id) ::
              Fetch(sv, id).Fetched? && !HasBlankTarget(rq, Fetch(sv, id).rom)
  {
    AssemblyIsExact(sv, rq);
    forall id
      ensures !TooFar(sv, rq, id)
    {
      NothingIsTooFar(sv, rq, ids, id);
    }
  }

  lemma NothingIsTooFar(sv: Services, rq: Request, ids: set<string>, id: string)
    requires |ids| <= rq.maxDepth
    requires forall id | Reachable(sv, rq, id) :: id in ids
    ensures !TooFar(sv, rq, id)
  {
    if TooFar(sv, rq, id) {
      var trail :| Trail(sv, rq, trail, id) && |trail| == rq.maxDepth + 1 && IsPath(trail);
      SourcesAreReachable(sv, rq, trail, id);
      PathSources(trail);
      SubsetIsSmaller(Sources(trail), ids);
      assert false;
    }
  }

  /**
    The depth is checked before the walk looks whether it knows the ROM: a root that only follows a
    relation to itself fails with limit zero, though nothing else is reachable, and succeeds with any other.
  */
  lemma SelfLinkNeedsOneStep(sv: Services, rq: Request, rom: Rom, r: Relation)
    requires rq.maxDepth >= 0 && Fetch(sv, rq.root) == Fetched(rom)
    requires Followed(rq, rom) == [r] && !IsBlank(r.target) && Trim(r.target) == rq.root
    ensures Assemble(sv, rq).failure == if rq.maxDepth == 0 then Some(DepthExceeded) else None
  {
    var entered := Entered(EMPTY_STATE, None, rq.root, rom);
    LoadGraphUnfolds(sv, rq, rq.root, None, 0, EMPTY_STATE, rom);
    LoadRelationsUnfolds(sv, rq, [r], rq.root, 0, entered);
    var next := LoadGraph(sv, rq, rq.root, Some(EdgeOf(rq.root, r)), 1, entered);
    assert next.failure == if rq.maxDepth == 0 then Some(DepthExceeded) else None;
    assert [r][1..] == [];
  }

  lemma {:induction false} SubsetIsSmaller<T>(a: set<T>, b: set<T>)
    requires a <= b
    ensures |a| <= |b|
  {
    if a != {} {
      var x :| x in a;
      SubsetIsSmaller(a - {x}, b - {x});
    }
  }
}
