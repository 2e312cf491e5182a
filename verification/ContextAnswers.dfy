/**
  What the steps of a context assembly answer: which failure a ROM that cannot be fetched gives, in which
  order relations are followed and edges are listed, and that the first failure ends the walk.
*/
module ContextAnswers {
  import opened Common
  import opened Ordering
  import opened ContextAssembly

  /** The failure is that of the first step that goes wrong: path, load, identity, governance. */
  ghost predicate IsRefusal(sv: Services, id: string, failure: Failure) {
    match sv.resolve(id)
    case Threw(_) => failure == PathUnresolved
    case Returned(path) => IsLoadRefusal(sv, id, sv.load(path), failure)
  }

  ghost predicate IsLoadRefusal(sv: Services, id: string, loaded: Attempt<Rom>, failure: Failure) {
    match failure
    case LoadFailed(exn) => loaded == Threw(exn)
    case IdentityMismatch => loaded.Returned? && loaded.result.id != id
    case PolicyFailed(exn) => loaded.Returned? && loaded.result.id == id && sv.evaluate(loaded.result) == Threw(exn)
    case GovernanceDenied =>
      loaded.Returned? && loaded.result.id == id && sv.evaluate(loaded.result) == Returned(false)
    case _ => false
  }

  lemma RefusalIsExact(sv: Services, id: string, failure: Failure)
    ensures Fetch(sv, id) == Refused(failure) <==> IsRefusal(sv, id, failure)
  {
  }

  // ----- orders -----

  /** By target, and by kind among relations to one target. */
  ghost predicate ComesBefore(a: Relation, b: Relation) {
    StringLe(a.target, b.target) && (a.target == b.target ==> StringLe(a.kind, b.kind))
  }

  /** Relations are followed by target and kind; each of a kind to follow as often as the ROM states it. */
  lemma FollowedInOrder(rq: Request, rom: Rom)
    ensures
      var followed := Followed(rq, rom);
      && (forall i, j | 0 <= i < j < |followed| :: ComesBefore(followed[i], followed[j]))
      && (forall r :: multiset(followed)[r]
                      == if rq.kinds == {} || r.kind in rq.kinds then multiset(rom.relations)[r] else 0)
  {
    var sorted := Sort(rom.relations, RelationLe);
    RelationOrder();
    SortSorts(rom.relations, RelationLe);
    WhereIsSorted(sorted, rq.kinds);
    forall r
      ensures multiset(Where(sorted, rq.kinds))[r] == if r.kind in rq.kinds then multiset(sorted)[r] else 0
    {
      WhereCounts(sorted, rq.kinds, r);
    }
    var followed := Followed(rq, rom);
    forall i, j | 0 <= i < j < |followed|
      ensures ComesBefore(followed[i], followed[j])
    {
      SortedAt(followed, RelationLe, i, j);
      StringsCompare(followed[i].target, followed[j].target);
    }
  }

  lemma {:induction false} WhereIsSorted(relations: seq<Relation>, kinds: set<string>)
    requires Sorted(relations, RelationLe)
    ensures Sorted(Where(relations, kinds), RelationLe)
  {
    if relations != [] {
      var head, rest := relations[0], Where(relations[1..], kinds);
      WhereIsSorted(relations[1..], kinds);
      WhereIsExact(relations[1..], kinds);
      assert ([head] + rest)[1..] == rest && [] + rest == rest;
    }
  }

  lemma {:induction false} WhereCounts(relations: seq<Relation>, kinds: set<string>, r: Relation)
    ensures multiset(Where(relations, kinds))[r] == if r.kind in kinds then multiset(relations)[r] else 0
  {
    if relations != [] {
      WhereCounts(relations[1..], kinds, r);
      assert relations == [relations[0]] + relations[1..];
    }
  }

  /** Edges are listed by source, then by target, then by kind. */
  ghost predicate IsListedBefore(a: Edge, b: Edge) {
    && StringLe(a.source, b.source)
    && (a.source == b.source ==> StringLe(a.target, b.target))
    && (a.source == b.source && a.target == b.target ==> StringLe(a.kind, b.kind))
  }

  lemma EdgesInOrder(edges: seq<Edge>, i: nat, j: nat)
    requires Sorted(edges, EdgeLe) && i < j < |edges|
    ensures IsListedBefore(edges[i], edges[j])
  {
    SortedAt(edges, EdgeLe, i, j);
    StringsCompare(edges[i].source, edges[j].source);
    StringsCompare(edges[i].target, edges[j].target);
  }

  // ----- failures -----

  /** After the first failure no further relation is followed. */
  lemma {:induction false} FirstFailureStops(
    sv: Services, rq: Request, relations: seq<Relation>, more: seq<Relation>, source: string, depth: nat, s: State)
    requires depth <= rq.maxDepth && LoadRelations(sv, rq, relations, source, depth, s).failure.Some?
    ensures LoadRelations(sv, rq, relations + more, source, depth, s)
         == LoadRelations(sv, rq, relations, source, depth, s)
    decreases |relations|
  {
    assert (relations + more)[1..] == relations[1..] + more;
    if !IsBlank(relations[0].target) {
      LoadRelationsUnfolds(sv, rq, relations, source, depth, s);
      LoadRelationsUnfolds(sv, rq, relations + more, source, depth, s);
      var edge := EdgeOf(source, relations[0]);
      var w := LoadGraph(sv, rq, edge.target, Some(edge), depth + 1, s);
      if w.failure.None? {
        FirstFailureStops(sv, rq, relations[1..], more, source, depth, w.state);
      }
    }
  }

  /** What follows a relation is walked from where it left off. */
  lemma {:induction false} RelationsInTurn(
    sv: Services, rq: Request, relations: seq<Relation>, more: seq<Relation>, source: string, depth: nat, s: State)
    requires depth <= rq.maxDepth && LoadRelations(sv, rq, relations, source, depth, s).failure.None?
    ensures LoadRelations(sv, rq, relations + more, source, depth, s)
         == LoadRelations(sv, rq, more, source, depth, LoadRelations(sv, rq, relations, source, depth, s).state)
    decreases |relations|
  {
    if relations == [] {
      assert [] + more == more;
    } else {
      assert (relations + more)[1..] == relations[1..] + more;
      LoadRelationsUnfolds(sv, rq, relations, source, depth, s);
      LoadRelationsUnfolds(sv, rq, relations + more, source, depth, s);
      var edge := EdgeOf(source, relations[0]);
      var w := LoadGraph(sv, rq, edge.target, Some(edge), depth + 1, s);
      RelationsInTurn(sv, rq, relations[1..], more, source, depth, w.state);
    }
  }

  /** The failure of the limit itself. */
  lemma NegativeLimitFails(sv: Services, rq: Request)
    ensures Assemble(sv, rq).failure == Some(InvalidDepth) <==> rq.maxDepth < 0
  {
    AssemblyIsExact(sv, rq);
  }
}
