/**
  Routes in a graph whose nodes list their successors in order. A depth-first walk enters every node along
  the first of the simple routes to it; the results here are what that takes.
*/
module RouteOrder {

  datatype Web = Web(root: string, next: string -> seq<string>)

  /** A route from the root, as the choice made at every node. */
  type Route = seq<nat>

  function NodeAt(w: Web, p: Route): string
    decreases |p|
  {
    if p == [] then w.root
    else
      var successors := w.next(NodeAt(w, p[..|p| - 1]));
      if p[|p| - 1] < |successors| then successors[p[|p| - 1]] else w.root
  }

  predicate IsRoute(w: Web, p: Route)
    decreases |p|
  {
    p == [] || (IsRoute(w, p[..|p| - 1]) && p[|p| - 1] < |w.next(NodeAt(w, p[..|p| - 1]))|)
  }

  /** No node is met twice. */
  ghost predicate IsSimple(w: Web, p: Route) {
    && IsRoute(w, p)
    && forall i, j | 0 <= i < j <= |p| :: NodeAt(w, p[..i]) != NodeAt(w, p[..j])
  }

  /** `q` comes before `p` in lexicographic order; they part after `i` choices. */
  predicate PartsAt(q: Route, p: Route, i: nat) {
    i <= |q| && i < |p| && q[..i] == p[..i] && (i == |q| || q[i] < p[i])
  }

  ghost predicate Sooner(q: Route, p: Route) {
    exists i: nat :: PartsAt(q, p, i)
  }

  /** The first of the simple routes to its end. */
  ghost predicate IsFirst(w: Web, p: Route) {
    IsSimple(w, p) && !IsEarlier(w, p, NodeAt(w, p))
  }

  /** Some simple route before `p` leads to `x`. */
  ghost predicate IsEarlier(w: Web, p: Route, x: string) {
    exists q :: LeadsTo(w, q, x) && Sooner(q, p)
  }

  /** Some simple route through `p` leads to `x`. */
  ghost predicate IsBelow(w: Web, p: Route, x: string) {
    exists q :: LeadsTo(w, q, x) && p <= q
  }

  ghost predicate LeadsTo(w: Web, q: Route, x: string) {
    IsSimple(w, q) && NodeAt(w, q) == x
  }

  lemma PrefixIsRoute(w: Web, p: Route, n: nat)
    requires IsRoute(w, p) && n <= |p|
    ensures IsRoute(w, p[..n])
    ensures n < |p| ==> p[n] < |w.next(NodeAt(w, p[..n]))|
    decreases |p|
  {
    if n < |p| - 1 {
      PrefixIsRoute(w, p[..|p| - 1], n);
      assert p[..|p| - 1][..n] == p[..n];
    } else {
      assert p[..|p|] == p;
    }
  }

  lemma PrefixIsSimple(w: Web, p: Route, n: nat)
    requires IsSimple(w, p) && n <= |p|
    ensures IsSimple(w, p[..n])
  {
    PrefixIsRoute(w, p, n);
    forall i, j | 0 <= i < j <= n
      ensures NodeAt(w, p[..n][..i]) != NodeAt(w, p[..n][..j])
    {
      assert p[..n][..i] == p[..i] && p[..n][..j] == p[..j];
    }
  }

  /** What follows a node can be followed from wherever the node is met. */
  lemma {:induction false} Splice(w: Web, a: Route, b: Route, c: Route)
    requires IsRoute(w, a) && IsRoute(w, b + c) && NodeAt(w, a) == NodeAt(w, b)
    ensures IsRoute(w, a + c) && NodeAt(w, a + c) == NodeAt(w, b + c)
    decreases |c|
  {
    if c == [] {
      assert a + c == a && b + c == b;
    } else {
      var front := c[..|c| - 1];
      assert (b + c)[..|b + c| - 1] == b + front && (a + c)[..|a + c| - 1] == a + front;
      Splice(w, a, b, front);
    }
  }

  /** Node `k` of `r` lies on `q`. */
  ghost predicate Meets(w: Web, q: Route, r: Route, k: nat)
    requires k <= |r|
  {
    exists i: nat :: i <= |q| && NodeAt(w, r[..k]) == NodeAt(w, q[..i])
  }

  /** The last of the nodes `start` to `end` of `r` that lies on `q`. */
  lemma {:induction false} LastMeeting(w: Web, q: Route, r: Route, start: nat, end: nat) returns (o: nat)
    requires start <= end <= |r| && Meets(w, q, r, start)
    ensures start <= o <= end && Meets(w, q, r, o)
    ensures forall k | o < k <= end :: !Meets(w, q, r, k)
    decreases end
  {
    if start == end || Meets(w, q, r, end) {
      o := end;
    } else {
      o := LastMeeting(w, q, r, start, end - 1);
    }
  }

  /** Up to node `m` along `q`, then on as after node `o` of `r`. */
  function Joined(q: Route, m: nat, r: Route, o: nat): Route
    requires m <= |q| && o <= |r|
  {
    q[..m] + r[o..]
  }

  lemma JoinedNode(w: Web, q: Route, m: nat, r: Route, o: nat, j: nat)
    requires IsRoute(w, q) && IsRoute(w, r) && m <= |q| && o <= |r| && j <= |Joined(q, m, r, o)|
    requires NodeAt(w, r[..o]) == NodeAt(w, q[..m])
    ensures NodeAt(w, Joined(q, m, r, o)[..j]) == if j <= m then NodeAt(w, q[..j]) else NodeAt(w, r[..o + j - m])
    ensures IsRoute(w, Joined(q, m, r, o)[..j])
  {
    if j <= m {
      assert Joined(q, m, r, o)[..j] == q[..j];
      PrefixIsRoute(w, q, j);
    } else {
      var c := r[o..o + j - m];
      assert Joined(q, m, r, o)[..j] == q[..m] + c;
      assert r[..o + j - m] == r[..o] + c;
      PrefixIsRoute(w, q, m);
      PrefixIsRoute(w, r, o + j - m);
      Splice(w, q[..m], r[..o], c);
    }
  }

  lemma JoinedIsSimple(w: Web, q: Route, m: nat, r: Route, o: nat)
    requires IsSimple(w, q) && IsSimple(w, r) && m <= |q| && o <= |r|
    requires NodeAt(w, r[..o]) == NodeAt(w, q[..m])
    requires forall k | o < k <= |r| :: !Meets(w, q, r, k)
    ensures LeadsTo(w, Joined(q, m, r, o), NodeAt(w, r))
  {
    var route := Joined(q, m, r, o);
    JoinedNode(w, q, m, r, o, |route|);
    assert route[..|route|] == route && r[..|r|] == r;
    forall i, j | 0 <= i < j <= |route|
      ensures NodeAt(w, route[..i]) != NodeAt(w, route[..j])
    {
      JoinedNode(w, q, m, r, o, i);
      JoinedNode(w, q, m, r, o, j);
      assert i <= m < j ==> !Meets(w, q, r, o + j - m);
    }
  }

  /** Who can be at the end of `p` earlier can be earlier wherever a simple route leads from there. */
  lemma Shortcut(w: Web, q: Route, p: Route, r: Route)
    requires IsSimple(w, q) && Sooner(q, p) && NodeAt(w, q) == NodeAt(w, p)
    requires IsSimple(w, r) && p <= r
    ensures IsEarlier(w, p, NodeAt(w, r))
  {
    var i: nat :| PartsAt(q, p, i);
    assert r[..|p|] == p && q[..|q|] == q;
    var o := LastMeeting(w, q, r, |p|, |r|);
    var m: nat :| m <= |q| && NodeAt(w, r[..o]) == NodeAt(w, q[..m]);
    JoinedIsSimple(w, q, m, r, o);
    SharedIsOver(w, q, p, r, i, o, m);
    var route := Joined(q, m, r, o);
    assert route[..i] == q[..i] && route[i] == q[i];
    assert PartsAt(route, p, i);
  }

  /** The meeting lies behind the choice where `q` and `p` part. */
  lemma SharedIsOver(w: Web, q: Route, p: Route, r: Route, i: nat, o: nat, m: nat)
    requires PartsAt(q, p, i) && NodeAt(w, q) == NodeAt(w, p)
    requires IsSimple(w, r) && p <= r && |p| <= o <= |r| && m <= |q|
    requires NodeAt(w, r[..o]) == NodeAt(w, q[..m])
    ensures i < m
  {
    assert r[..|p|] == p && r[..i] == q[..i];
    if m <= i {
      SharedPrefix(q, r, i, m);
    }
  }

  lemma SharedPrefix(q: Route, r: Route, i: nat, m: nat)
    requires m <= i <= |q| && i <= |r| && q[..i] == r[..i]
    ensures q[..m] == r[..m]
  {
    assert q[..m] == q[..i][..m] && r[..m] == r[..i][..m];
  }

  // ----- consequences -----

  /** What a first route runs through, it is the first route to. */
  lemma PrefixIsFirst(w: Web, p: Route, n: nat)
    requires IsFirst(w, p) && n <= |p|
    ensures IsFirst(w, p[..n])
  {
    PrefixIsSimple(w, p, n);
    var front := p[..n];
    if IsEarlier(w, front, NodeAt(w, front)) {
      var q :| LeadsTo(w, q, NodeAt(w, front)) && Sooner(q, front);
      Shortcut(w, q, front, p);
      SoonerThanLonger(w, front, p, NodeAt(w, p));
    }
  }

  lemma SoonerThanLonger(w: Web, front: Route, p: Route, x: string)
    requires front <= p && IsEarlier(w, front, x)
    ensures IsEarlier(w, p, x)
  {
    var q :| LeadsTo(w, q, x) && Sooner(q, front);
    var i: nat :| PartsAt(q, front, i);
    assert PartsAt(q, p, i);
  }

  /** Below a route that is not the first one to its end, all is known earlier. */
  lemma BelowIsEarlier(w: Web, p: Route, x: string)
    requires IsEarlier(w, p, NodeAt(w, p)) && IsBelow(w, p, x)
    ensures IsEarlier(w, p, x)
  {
    var q :| LeadsTo(w, q, NodeAt(w, p)) && Sooner(q, p);
    var r :| LeadsTo(w, r, x) && p <= r;
    Shortcut(w, q, p, r);
  }

  /** Before the first choice after `p` lies what is before `p`, and `p` itself. */
  lemma BeforeFirstChoice(w: Web, p: Route, x: string)
    requires IsSimple(w, p)
    ensures IsEarlier(w, p + [0], x) <==> IsEarlier(w, p, x) || x == NodeAt(w, p)
  {
    assert x == NodeAt(w, p) ==> LeadsTo(w, p, x);
    forall q
      ensures Sooner(q, p + [0]) <==> Sooner(q, p) || q == p
    {
      SoonerThanChild(q, p, 0);
    }
  }

  lemma SoonerThanChild(q: Route, p: Route, j: nat)
    ensures Sooner(q, p + [j]) <==> Sooner(q, p) || (p <= q && (q == p || q[|p|] < j))
  {
    var child := p + [j];
    if i: nat :| PartsAt(q, child, i) {
      if i < |p| {
        assert child[..i] == p[..i];
        assert PartsAt(q, p, i);
      } else {
        assert child[..i] == p;
      }
    }
    if i: nat :| PartsAt(q, p, i) {
      assert child[..i] == p[..i];
      assert PartsAt(q, child, i);
    }
    if p <= q && (q == p || q[|p|] < j) {
      assert child[..|p|] == p;
      assert PartsAt(q, child, |p|);
    }
  }

  /** Before the next choice lies what is before this one and what is below it. */
  lemma BeforeNextChoice(w: Web, p: Route, j: nat, x: string)
    ensures IsEarlier(w, p + [j + 1], x) <==> IsEarlier(w, p + [j], x) || IsBelow(w, p + [j], x)
  {
    forall q
      ensures Sooner(q, p + [j + 1]) <==> Sooner(q, p + [j]) || p + [j] <= q
    {
      SoonerThanChild(q, p, j);
      SoonerThanChild(q, p, j + 1);
    }
  }

  /** After the last choice lies what is before `p` and what is below it. */
  lemma AfterLastChoice(w: Web, p: Route, x: string)
    ensures IsEarlier(w, p + [|w.next(NodeAt(w, p))|], x) <==> IsEarlier(w, p, x) || IsBelow(w, p, x)
  {
    var n := |w.next(NodeAt(w, p))|;
    forall q | IsSimple(w, q)
      ensures Sooner(q, p + [n]) <==> Sooner(q, p) || p <= q
    {
      SoonerThanChild(q, p, n);
      if p <= q && p != q {
        PrefixIsRoute(w, q, |p|);
        assert q[..|p|] == p;
      }
    }
  }
}
