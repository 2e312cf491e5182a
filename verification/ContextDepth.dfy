/**
  When exactly a context assembly fails at its depth limit. The walk enters every ROM along the first of
  the simple routes to it, in the order of the relations; the depth of a ROM is the length of that route.
*/
module ContextDepth {
  import opened Common
  import opened ContextAssembly
  import opened RouteOrder

  /** The targets of the relations to follow, in order. */
  function Targets(sv: Services, rq: Request, id: string): seq<string> {
    match Fetch(sv, id)
    case Refused(_) => []
    case Fetched(rom) =>
      var relations := Followed(rq, rom);
      seq(|relations|, i requires 0 <= i < |relations| => Trim(relations[i].target))
  }

  function WebOf(sv: Services, rq: Request): Web {
    Web(rq.root, (id: string) => Targets(sv, rq, id))
  }

  /** Nothing but the depth can go wrong. */
  ghost predicate AllSound(sv: Services, rq: Request) {
    forall id | Reachable(sv, rq, id) :: Fetch(sv, id).Fetched? && !HasBlankTarget(rq, Fetch(sv, id).rom)
  }

  lemma {:induction false} RouteReaches(sv: Services, rq: Request, p: Route)
    requires AllSound(sv, rq) && IsRoute(WebOf(sv, rq), p)
    ensures Reachable(sv, rq, NodeAt(WebOf(sv, rq), p))
    decreases |p|
  {
    var w := WebOf(sv, rq);
    if p == [] {
      assert Trail(sv, rq, [], rq.root);
    } else {
      var front, last := p[..|p| - 1], p[|p| - 1];
      RouteReaches(sv, rq, front);
      var id := NodeAt(w, front);
      var trail :| Trail(sv, rq, trail, id);
      var relation := Followed(rq, Fetch(sv, id).rom)[last];
      var e := EdgeOf(id, relation);
      assert !IsBlank(relation.target);
      assert IsEdgeOf(Followed(rq, Fetch(sv, id).rom), e);
      assert (trail + [e])[..|trail|] == trail;
      assert Trail(sv, rq, trail + [e], e.target);
    }
  }

  /** A ROM whose first route is as long as the limit, and that follows a relation. */
  ghost predicate IsTooDeep(sv: Services, rq: Request, p: Route) {
    var w := WebOf(sv, rq);
    IsFirst(w, p) && |p| == rq.maxDepth && Targets(sv, rq, NodeAt(w, p)) != []
  }

  ghost predicate TooDeepBelow(sv: Services, rq: Request, p: Route) {
    exists q :: IsTooDeep(sv, rq, q) && p <= q
  }

  /** What is loaded when the walk comes along `p`. */
  ghost predicate LoadedBefore(w: Web, p: Route, s: State) {
    forall x :: x in s.loaded <==> IsEarlier(w, p, x)
  }

  ghost predicate LoadedAfter(w: Web, p: Route, s: State) {
    forall x :: x in s.loaded <==> IsEarlier(w, p, x) || IsBelow(w, p, x)
  }

  ghost predicate FailsAt(sv: Services, rq: Request, p: Route) {
    |p| > rq.maxDepth || TooDeepBelow(sv, rq, p)
  }

  ghost predicate Goes(sv: Services, rq: Request, p: Route, s: State, w: Walked) {
    && (w.failure.Some? <==> FailsAt(sv, rq, p))
    && (w.failure.None? ==> LoadedAfter(WebOf(sv, rq), p, w.state) && w.state.loading == s.loading)
  }

  ghost predicate ChoicesGo(sv: Services, rq: Request, p: Route, j: nat, n: nat, s: State, w: Walked) {
    && (w.failure.Some? <==> exists k: nat :: j <= k < n && FailsAt(sv, rq, p + [k]))
    && (w.failure.None? ==> LoadedBefore(WebOf(sv, rq), p + [n], w.state) && w.state.loading == s.loading)
  }

  /** The walk comes along `p`, with what is before `p` loaded. */
  ghost predicate Comes(sv: Services, rq: Request, p: Route, s: State) {
    && LoadedBefore(WebOf(sv, rq), p, s)
    && s.loading <= s.loaded.Keys
  }

  lemma {:induction false} WalkGoes(sv: Services, rq: Request, p: Route, edge: Option<Edge>, s: State)
    requires AllSound(sv, rq) && IsRoute(WebOf(sv, rq), p) && |p| <= rq.maxDepth + 1
    requires p != [] ==> IsFirst(WebOf(sv, rq), p[..|p| - 1])
    requires Comes(sv, rq, p, s)
    ensures Goes(sv, rq, p, s, LoadGraph(sv, rq, NodeAt(WebOf(sv, rq), p), edge, |p|, s))
    decreases rq.maxDepth + 1 - |p|, 1, 0
  {
    var w := WebOf(sv, rq);
    var id := NodeAt(w, p);
    if |p| <= rq.maxDepth {
      if id in s.loaded {
        KnownGoes(sv, rq, p, edge, s);
      } else {
        NewIsFirst(w, p, s);
        RouteReaches(sv, rq, p);
        var rom := Fetch(sv, id).rom;
        var entered := Entered(s, edge, id, rom);
        LoadGraphUnfolds(sv, rq, id, edge, |p|, s, rom);
        EntersFirstChoice(sv, rq, p, edge, s, rom);
        ChoicesAreWalked(sv, rq, p, rom, 0, entered);
        assert Followed(rq, rom)[0..] == Followed(rq, rom);
        AllChoicesGo(sv, rq, p, edge, s, rom, LoadRelations(sv, rq, Followed(rq, rom), id, |p|, entered));
      }
    }
  }

  lemma KnownGoes(sv: Services, rq: Request, p: Route, edge: Option<Edge>, s: State)
    requires |p| <= rq.maxDepth && Comes(sv, rq, p, s) && NodeAt(WebOf(sv, rq), p) in s.loaded
    ensures Goes(sv, rq, p, s, LoadGraph(sv, rq, NodeAt(WebOf(sv, rq), p), edge, |p|, s))
  {
    var w := WebOf(sv, rq);
    assert IsEarlier(w, p, NodeAt(w, p));
    forall x | IsBelow(w, p, x)
      ensures IsEarlier(w, p, x)
    {
      BelowIsEarlier(w, p, x);
    }
    NothingDeepBelow(sv, rq, p);
  }

  /** Below a route that is not the first one to its end, no route is the first one to its end. */
  lemma NothingDeepBelow(sv: Services, rq: Request, p: Route)
    requires IsEarlier(WebOf(sv, rq), p, NodeAt(WebOf(sv, rq), p))
    ensures !TooDeepBelow(sv, rq, p)
  {
    forall q | p <= q
      ensures !IsTooDeep(sv, rq, q)
    {
      assert q[..|p|] == p;
      if IsTooDeep(sv, rq, q) {
        PrefixIsFirst(WebOf(sv, rq), q, |p|);
      }
    }
  }

  /** A ROM that is not loaded when the walk comes along `p` is entered, along its first route. */
  lemma NewIsFirst(w: Web, p: Route, s: State)
    requires IsRoute(w, p) && LoadedBefore(w, p, s) && NodeAt(w, p) !in s.loaded
    requires p != [] ==> IsFirst(w, p[..|p| - 1])
    ensures IsFirst(w, p)
  {
    forall i, j | 0 <= i < j <= |p|
      ensures NodeAt(w, p[..i]) != NodeAt(w, p[..j])
    {
      var front := p[..|p| - 1];
      assert front[..i] == p[..i];
      if j < |p| {
        assert front[..j] == p[..j];
      } else {
        assert p[..j] == p;
        PrefixIsEarlier(w, p, i);
      }
    }
  }

  lemma PrefixIsEarlier(w: Web, p: Route, i: nat)
    requires i < |p| && IsSimple(w, p[..|p| - 1])
    ensures IsEarlier(w, p, NodeAt(w, p[..i]))
  {
    var front := p[..|p| - 1];
    PrefixIsSimple(w, front, i);
    assert front[..i] == p[..i];
    assert PartsAt(p[..i], p, i);
    assert LeadsTo(w, p[..i], NodeAt(w, p[..i]));
  }

  lemma EntersFirstChoice(sv: Services, rq: Request, p: Route, edge: Option<Edge>, s: State, rom: Rom)
    requires Comes(sv, rq, p, s) && IsFirst(WebOf(sv, rq), p)
    ensures Comes(sv, rq, p + [0], Entered(s, edge, NodeAt(WebOf(sv, rq), p), rom))
  {
    forall x
      ensures x in Entered(s, edge, NodeAt(WebOf(sv, rq), p), rom).loaded <==>
              IsEarlier(WebOf(sv, rq), p + [0], x)
    {
      BeforeFirstChoice(WebOf(sv, rq), p, x);
    }
  }

  lemma {:induction false} ChoicesAreWalked(
    sv: Services, rq: Request, p: Route, rom: Rom, j: nat, s: State)
    requires AllSound(sv, rq) && IsFirst(WebOf(sv, rq), p) && |p| <= rq.maxDepth
    requires Fetch(sv, NodeAt(WebOf(sv, rq), p)) == Fetched(rom) && j <= |Followed(rq, rom)|
    requires Comes(sv, rq, p + [j], s)
    ensures ChoicesGo(sv, rq, p, j, |Followed(rq, rom)|, s,
                      LoadRelations(sv, rq, Followed(rq, rom)[j..], NodeAt(WebOf(sv, rq), p), |p|, s))
    decreases rq.maxDepth + 1 - |p|, 0, |Followed(rq, rom)| - j
  {
    var id, relations := NodeAt(WebOf(sv, rq), p), Followed(rq, rom);
    if j == |relations| {
      assert LoadRelations(sv, rq, [], id, |p|, s) == Walked(s, None);
    } else {
      var edge := EdgeOf(id, relations[j]);
      ChoiceIsWalked(sv, rq, p, rom, j, s);
      var next := LoadGraph(sv, rq, edge.target, Some(edge), |p| + 1, s);
      RelationUnfolds(sv, rq, relations, j, id, |p|, s);
      if next.failure.None? {
        AfterChoice(sv, rq, p, j, s, next.state);
        ChoicesAreWalked(sv, rq, p, rom, j + 1, next.state);
        ChoicesGoOn(sv, rq, p, j, |relations|, s, next,
                    LoadRelations(sv, rq, relations[j + 1..], id, |p|, next.state));
      } else {
        ChoiceStops(sv, rq, p, j, |relations|, s, next);
      }
    }
  }

  lemma RelationUnfolds(
    sv: Services, rq: Request, relations: seq<Relation>, j: nat, source: string, depth: nat, s: State)
    requires depth <= rq.maxDepth && j < |relations| && !IsBlank(relations[j].target)
    ensures
      var edge := EdgeOf(source, relations[j]);
      var w := LoadGraph(sv, rq, edge.target, Some(edge), depth + 1, s);
      LoadRelations(sv, rq, relations[j..], source, depth, s)
      == if w.failure.Some? then w else LoadRelations(sv, rq, relations[j + 1..], source, depth, w.state)
  {
    assert relations[j..][1..] == relations[j + 1..];
    LoadRelationsUnfolds(sv, rq, relations[j..], source, depth, s);
  }

  lemma ChoiceStops(sv: Services, rq: Request, p: Route, j: nat, n: nat, s: State, next: Walked)
    requires j < n && Goes(sv, rq, p + [j], s, next) && next.failure.Some?
    ensures ChoicesGo(sv, rq, p, j, n, s, next)
  {
  }

  lemma {:induction false} ChoiceIsWalked(
    sv: Services, rq: Request, p: Route, rom: Rom, j: nat, s: State)
    requires AllSound(sv, rq) && IsFirst(WebOf(sv, rq), p) && |p| <= rq.maxDepth
    requires Fetch(sv, NodeAt(WebOf(sv, rq), p)) == Fetched(rom) && j < |Followed(rq, rom)|
    requires Comes(sv, rq, p + [j], s)
    ensures !IsBlank(Followed(rq, rom)[j].target)
    ensures
      var edge := EdgeOf(NodeAt(WebOf(sv, rq), p), Followed(rq, rom)[j]);
      Goes(sv, rq, p + [j], s, LoadGraph(sv, rq, edge.target, Some(edge), |p| + 1, s))
    decreases rq.maxDepth + 1 - |p|, 0, 0
  {
    ChoiceLeads(sv, rq, p, rom, j);
    WalkGoes(sv, rq, p + [j], Some(EdgeOf(NodeAt(WebOf(sv, rq), p), Followed(rq, rom)[j])), s);
  }

  lemma ChoicesGoOn(
    sv: Services, rq: Request, p: Route, j: nat, n: nat, s: State, next: Walked, end: Walked)
    requires j < n && Goes(sv, rq, p + [j], s, next) && next.failure.None?
    requires ChoicesGo(sv, rq, p, j + 1, n, next.state, end)
    ensures ChoicesGo(sv, rq, p, j, n, s, end)
  {
  }

  lemma ChoiceLeads(sv: Services, rq: Request, p: Route, rom: Rom, j: nat)
    requires AllSound(sv, rq) && IsRoute(WebOf(sv, rq), p)
    requires Fetch(sv, NodeAt(WebOf(sv, rq), p)) == Fetched(rom) && j < |Followed(rq, rom)|
    ensures !IsBlank(Followed(rq, rom)[j].target)
    ensures IsRoute(WebOf(sv, rq), p + [j])
    ensures NodeAt(WebOf(sv, rq), p + [j]) == Trim(Followed(rq, rom)[j].target)
    ensures (p + [j])[..|p + [j]| - 1] == p
  {
    RouteReaches(sv, rq, p);
    assert Followed(rq, rom)[j] in Followed(rq, rom);
    ChoiceIsRoute(WebOf(sv, rq), p, j);
  }

  lemma ChoiceIsRoute(w: Web, p: Route, j: nat)
    requires IsRoute(w, p) && j < |w.next(NodeAt(w, p))|
    ensures IsRoute(w, p + [j]) && NodeAt(w, p + [j]) == w.next(NodeAt(w, p))[j]
    ensures (p + [j])[..|p + [j]| - 1] == p
  {
    assert (p + [j])[..|p|] == p;
  }

  lemma AfterChoice(sv: Services, rq: Request, p: Route, j: nat, s: State, s': State)
    requires Comes(sv, rq, p + [j], s) && LoadedAfter(WebOf(sv, rq), p + [j], s') && s'.loading == s.loading
    ensures Comes(sv, rq, p + [j + 1], s')
  {
    forall x
      ensures x in s'.loaded <==> IsEarlier(WebOf(sv, rq), p + [j + 1], x)
    {
      BeforeNextChoice(WebOf(sv, rq), p, j, x);
    }
  }

  lemma AllChoicesGo(
    sv: Services, rq: Request, p: Route, edge: Option<Edge>, s: State, rom: Rom, v: Walked)
    requires IsFirst(WebOf(sv, rq), p) && |p| <= rq.maxDepth
    requires Fetch(sv, NodeAt(WebOf(sv, rq), p)) == Fetched(rom)
    requires NodeAt(WebOf(sv, rq), p) !in s.loading
    requires ChoicesGo(sv, rq, p, 0, |Followed(rq, rom)|, Entered(s, edge, NodeAt(WebOf(sv, rq), p), rom), v)
    ensures Goes(sv, rq, p, s,
                 if v.failure.Some? then v
                 else Walked(v.state.(loading := v.state.loading - {NodeAt(WebOf(sv, rq), p)}), None))
  {
    var w := WebOf(sv, rq);
    DeepBelowChoices(sv, rq, p, |Followed(rq, rom)|);
    forall x
      ensures IsEarlier(w, p + [|Followed(rq, rom)|], x) <==> IsEarlier(w, p, x) || IsBelow(w, p, x)
    {
      AfterLastChoice(w, p, x);
    }
  }

  /** A ROM is too deep below `p` if it is below one of the choices, or if `p` itself is at the limit. */
  lemma DeepBelowChoices(sv: Services, rq: Request, p: Route, n: nat)
    requires IsFirst(WebOf(sv, rq), p) && |p| <= rq.maxDepth
    requires n == |Targets(sv, rq, NodeAt(WebOf(sv, rq), p))|
    ensures FailsAt(sv, rq, p) <==> exists k: nat :: k < n && FailsAt(sv, rq, p + [k])
  {
    if q :| IsTooDeep(sv, rq, q) && p <= q {
      DeepChoice(sv, rq, p, q);
    }
    if k: nat :| k < n && FailsAt(sv, rq, p + [k]) {
      DeepAbove(sv, rq, p, k);
    }
  }

  lemma DeepChoice(sv: Services, rq: Request, p: Route, q: Route)
    requires IsTooDeep(sv, rq, q) && p <= q
    ensures exists k: nat :: k < |Targets(sv, rq, NodeAt(WebOf(sv, rq), p))| && FailsAt(sv, rq, p + [k])
  {
    if p == q {
      assert FailsAt(sv, rq, p + [0]);
    } else {
      var k := NextChoice(WebOf(sv, rq), p, q);
      assert FailsAt(sv, rq, p + [k]);
    }
  }

  lemma NextChoice(w: Web, p: Route, q: Route) returns (k: nat)
    requires IsRoute(w, q) && p <= q && p != q
    ensures k < |w.next(NodeAt(w, p))| && p + [k] <= q
  {
    k := q[|p|];
    assert q[..|p|] == p && q[..|p| + 1] == p + [k];
    PrefixIsRoute(w, q, |p|);
  }

  lemma DeepAbove(sv: Services, rq: Request, p: Route, k: nat)
    requires IsFirst(WebOf(sv, rq), p) && |p| <= rq.maxDepth
    requires k < |Targets(sv, rq, NodeAt(WebOf(sv, rq), p))| && FailsAt(sv, rq, p + [k])
    ensures TooDeepBelow(sv, rq, p)
  {
    if |p| == rq.maxDepth {
      assert IsTooDeep(sv, rq, p);
    } else {
      var q :| IsTooDeep(sv, rq, q) && p + [k] <= q;
      assert p <= q;
    }
  }

  /**
    Where nothing else can go wrong, an assembly fails, at its depth limit, if and only if the first route
    to some ROM has as many steps as the limit and the ROM follows a relation, known target or not.
  */
  lemma DepthFailsExactly(sv: Services, rq: Request)
    requires rq.maxDepth >= 0 && AllSound(sv, rq)
    ensures Assemble(sv, rq).failure
         == if exists p :: IsTooDeep(sv, rq, p) then Some(DepthExceeded) else None
  {
    var w := WebOf(sv, rq);
    forall x
      ensures !IsEarlier(w, [], x)
    {
    }
    WalkGoes(sv, rq, [], None, EMPTY_STATE);
    AssemblyIsExact(sv, rq);
    assert TooDeepBelow(sv, rq, []) <==> exists p :: IsTooDeep(sv, rq, p);
  }
}
