/** Enumerating the best paths, and the set of ASes the Tor client is sent (Destination.cs, Program.cs). */
module BestPaths {
  import opened Topology
  import opened GaoRexford
  import opened ValleyFree
  import opened MiniDestination

  const MAX_PATH := 20  // paths are not extended beyond this many ASes

  /** `q` follows best parents from `src`, and does not go on after the destination. */
  ghost predicate IsWalk(d: MiniDestination, src: Asn, q: seq<Asn>) {
    && q != [] && q[0] == src
    && (forall i | 0 <= i < |q| - 1 :: q[i] != d.destination && q[i + 1] in d.Parents(q[i]))
  }

  ghost predicate IsBestPath(d: MiniDestination, src: Asn, q: seq<Asn>) {
    IsWalk(d, src, q) && q[|q| - 1] == d.destination
  }

  /** Following best parents leads one row closer at every step. */
  lemma {:induction false} WalkDescends(d: MiniDestination, src: Asn, q: seq<Asn>)
    requires d.Valid() && d.Reached(src) && IsWalk(d, src, q)
    ensures forall i | 0 <= i < |q| :: d.Reached(q[i]) && d.l[q[i]] + i == d.l[src]
    decreases |q|
  {
    if |q| > 1 {
      var front := q[..|q| - 1];
      WalkDescends(d, src, front);
      assert d.NodeValid(front[|front| - 1]);
      assert q[|front|] in d.Parents(front[|front| - 1]);
    }
  }

  /** A best path has L + 1 ASes, none of them twice. */
  lemma BestPathIsSimple(d: MiniDestination, src: Asn, q: seq<Asn>)
    requires d.Valid() && d.Reached(src) && IsBestPath(d, src, q)
    ensures |q| == d.l[src] + 1 && NoDup(q)
  {
    WalkDescends(d, src, q);
    assert d.NodeValid(d.destination);
  }

  /** The classes along a best path. */
  function Classes(d: MiniDestination, q: seq<Asn>): (cols: seq<nat>)
    requires |d.bestRelation| == |d.best|
  {
    seq(if q == [] then 0 else |q| - 1, i requires 0 <= i < |q| - 1 => if q[i] < |d.best| then d.bestRelation[q[i]] else 0)
  }

  /** Along every best path the classes are provider* peer? customer*. */
  lemma BestPathIsValleyFree(d: MiniDestination, src: Asn, q: seq<Asn>)
    requires d.Valid() && d.Reached(src) && IsBestPath(d, src, q)
    ensures Shaped(Classes(d, q))
  {
    WalkDescends(d, src, q);
    var cols := Classes(d, q);
    forall i | 0 <= i < |cols| - 1 ensures Legal(cols[i], cols[i + 1]) {
      assert d.NodeValid(q[i]) && q[i + 1] in d.Parents(q[i]);
    }
    forall c | c in cols ensures c <= PROVIDER_COLUMN {
      var i :| 0 <= i < |cols| && cols[i] == c;
      assert d.NodeValid(q[i]);
    }
    PairwiseIsShape(cols);
  }

  lemma {:induction false} PathToDestination(d: MiniDestination, src: Asn) returns (q: seq<Asn>)
    requires d.Valid() && d.Reached(src)
    ensures IsBestPath(d, src, q)
    decreases d.l[src]
  {
    if src == d.destination {
      q := [src];
    } else {
      assert d.NodeValid(src);
      var p := d.Parents(src)[0];
      assert p in d.Parents(src);
      q := PathToDestination(d, p);
      q := [src] + q;
    }
  }

  // ---- The queue of partial paths

  ghost predicate PrefixFree(items: seq<seq<Asn>>) {
    forall i, j | 0 <= i < |items| && 0 <= j < |items| && i != j :: !(items[i] <= items[j])
  }

  function Extensions(path: seq<Asn>, parents: seq<Asn>): (r: seq<seq<Asn>>)
    ensures |r| == |parents| && forall i | 0 <= i < |r| :: r[i] == path + [parents[i]]
  {
    seq(|parents|, i requires 0 <= i < |parents| => path + [parents[i]])
  }

  lemma PrefixOfExtension(a: seq<Asn>, path: seq<Asn>, x: Asn)
    ensures a <= path + [x] ==> a <= path || a == path + [x]
    ensures path + [x] <= a ==> path <= a
  {
    if a <= path + [x] && |a| <= |path| {
      assert (path + [x])[..|a|] == path[..|a|];
    }
    if path + [x] <= a {
      assert a[..|path|] == (path + [x])[..|path|] == path;
    }
  }

  /** Replacing a partial path by its extensions leaves no entry a prefix of another. */
  lemma ExpandKeepsPrefixFree(found: seq<seq<Asn>>, queue: seq<seq<Asn>>, path: seq<Asn>, parents: seq<Asn>)
    requires PrefixFree(found + [path] + queue) && NoDup(parents)
    ensures PrefixFree(found + queue + Extensions(path, parents))
  {
    var was, now := found + [path] + queue, found + queue + Extensions(path, parents);
    var k, m := |found|, |found| + |queue|;
    assert was[k] == path;
    forall i, j | 0 <= i < |now| && 0 <= j < |now| && i != j ensures !(now[i] <= now[j]) {
      var oi, oj := if i < k then i else if i < m then i + 1 else k, if j < k then j else if j < m then j + 1 else k;
      assert i < m ==> now[i] == was[oi];
      assert j < m ==> now[j] == was[oj];
      if i < m && j < m {
      } else if i >= m && j >= m {
        assert now[i] == path + [parents[i - m]] && now[j] == path + [parents[j - m]];
        assert |now[i]| == |now[j]| && now[i][|path|] != now[j][|path|];
      } else if i >= m {
        PrefixOfExtension(now[j], path, parents[i - m]);
      } else {
        PrefixOfExtension(now[i], path, parents[j - m]);
      }
    }
  }

  lemma DropKeepsPrefixFree(found: seq<seq<Asn>>, queue: seq<seq<Asn>>, path: seq<Asn>)
    requires PrefixFree(found + [path] + queue)
    ensures PrefixFree(found + queue)
  {
    var was, now := found + [path] + queue, found + queue;
    forall i, j | 0 <= i < |now| && 0 <= j < |now| && i != j ensures !(now[i] <= now[j]) {
      assert now[i] == was[if i < |found| then i else i + 1] && now[j] == was[if j < |found| then j else j + 1];
    }
  }

  /** The size of the tree of partial paths below `v`: what the loop counts down. */
  ghost function Subtree(d: MiniDestination, v: Asn): nat
    requires d.Valid() && d.Reached(v)
    decreases d.l[v], |d.Parents(v)| + 1
  {
    if v == d.destination then 1 else 1 + Subtrees(d, v, d.Parents(v))
  }

  ghost function Subtrees(d: MiniDestination, v: Asn, parents: seq<Asn>): nat
    requires d.Valid() && d.Reached(v) && v != d.destination && forall p | p in parents :: p in d.Parents(v)
    decreases d.l[v], |parents|
  {
    assert d.NodeValid(v);
    if parents == [] then 0
    else Subtrees(d, v, parents[..|parents| - 1]) + Subtree(d, parents[|parents| - 1])
  }

  ghost predicate AllWalks(d: MiniDestination, src: Asn, queue: seq<seq<Asn>>) {
    forall q | q in queue :: IsWalk(d, src, q) && |q| <= MAX_PATH && d.Reached(q[|q| - 1])
  }

  ghost function Work(d: MiniDestination, src: Asn, queue: seq<seq<Asn>>): nat
    requires d.Valid() && AllWalks(d, src, queue)
  {
    if queue == [] then 0
    else
      assert queue[|queue| - 1] in queue;
      Work(d, src, queue[..|queue| - 1]) + Subtree(d, queue[|queue| - 1][|queue[|queue| - 1]| - 1])
  }

  lemma {:induction false} WorkOfFirst(d: MiniDestination, src: Asn, queue: seq<seq<Asn>>)
    requires d.Valid() && AllWalks(d, src, queue) && queue != []
    ensures queue[0] in queue && Work(d, src, queue) == Work(d, src, queue[1..]) + Subtree(d, queue[0][|queue[0]| - 1])
  {
    hide IsWalk, Subtree;
    if |queue| == 1 {
      assert queue[..0] == [] && queue[1..] == [];
    } else {
      var front := queue[..|queue| - 1];
      WorkOfFirst(d, src, front);
      assert front[1..] == queue[1..][..|queue| - 2];
    }
  }

  lemma {:induction false} WorkOfExtensions(d: MiniDestination, src: Asn, queue: seq<seq<Asn>>, path: seq<Asn>, parents: seq<Asn>)
    requires d.Valid() && path != [] && d.Reached(path[|path| - 1]) && path[|path| - 1] != d.destination
    requires forall p | p in parents :: p in d.Parents(path[|path| - 1])
    requires AllWalks(d, src, queue + Extensions(path, parents)) && AllWalks(d, src, queue)
    ensures Work(d, src, queue + Extensions(path, parents)) == Work(d, src, queue) + Subtrees(d, path[|path| - 1], parents)
  {
    hide IsWalk, Subtree;
    var all := queue + Extensions(path, parents);
    if parents == [] {
      assert all == queue;
    } else {
      var shorter := parents[..|parents| - 1];
      assert all[..|all| - 1] == queue + Extensions(path, shorter);
      assert all[|all| - 1] == path + [parents[|parents| - 1]];
      assert forall p | p in shorter :: p in parents;
      WorkOfExtensions(d, src, queue, path, shorter);
    }
  }

  ghost predicate Covered(found: seq<seq<Asn>>, queue: seq<seq<Asn>>, P: seq<Asn>) {
    P in found || exists q | q in queue :: q <= P
  }

  /** Every best path of at most 20 ASes is found, or a prefix of it is still queued. */
  ghost predicate CoversAll(d: MiniDestination, src: Asn, found: seq<seq<Asn>>, queue: seq<seq<Asn>>) {
    forall P {:trigger Covered(found, queue, P)} | IsBestPath(d, src, P) && |P| <= MAX_PATH :: Covered(found, queue, P)
  }

  lemma FinishedIsCovered(d: MiniDestination, src: Asn, found: seq<seq<Asn>>, queue: seq<seq<Asn>>, path: seq<Asn>)
    requires CoversAll(d, src, found, [path] + queue) && IsBestPath(d, src, path)
    ensures CoversAll(d, src, found + [path], queue)
  {
    forall P | IsBestPath(d, src, P) && |P| <= MAX_PATH ensures Covered(found + [path], queue, P) {
      assert Covered(found, [path] + queue, P);
      if P !in found && !exists q | q in queue :: q <= P {
        assert path <= P;
        assert P[|path| - 1] == d.destination;
        assert P == path;
        assert (found + [path])[|found|] == P;
      }
    }
  }

  lemma ExpandedIsCovered(d: MiniDestination, src: Asn, found: seq<seq<Asn>>, queue: seq<seq<Asn>>, path: seq<Asn>)
    requires CoversAll(d, src, found, [path] + queue) && IsWalk(d, src, path) && path[|path| - 1] != d.destination
    ensures CoversAll(d, src, found, queue + Extensions(path, d.Parents(path[|path| - 1])))
  {
    var parents := d.Parents(path[|path| - 1]);
    var exts := Extensions(path, parents);
    forall P | IsBestPath(d, src, P) && |P| <= MAX_PATH ensures Covered(found, queue + exts, P) {
      assert Covered(found, [path] + queue, P);
      if P !in found {
        if q :| q in queue && q <= P {
          assert q in queue + exts;
        } else {
          assert path <= P && path != P;
          assert P[|path|] in d.Parents(P[|path| - 1]);
          var k :| 0 <= k < |parents| && parents[k] == P[|path|];
          assert exts[k] == P[..|path| + 1] && exts[k] in queue + exts;
        }
      }
    }
  }

  lemma DroppedIsCovered(d: MiniDestination, src: Asn, found: seq<seq<Asn>>, queue: seq<seq<Asn>>, path: seq<Asn>)
    requires CoversAll(d, src, found, [path] + queue) && |path| == MAX_PATH && path[|path| - 1] != d.destination
    ensures CoversAll(d, src, found, queue)
  {
    forall P | IsBestPath(d, src, P) && |P| <= MAX_PATH ensures Covered(found, queue, P) {
      assert Covered(found, [path] + queue, P);
      assert !(path <= P);
    }
  }

  /** What the loop knows. */
  ghost predicate Searching(d: MiniDestination, src: Asn, found: seq<seq<Asn>>, queue: seq<seq<Asn>>) {
    && AllWalks(d, src, queue) && PrefixFree(found + queue) && CoversAll(d, src, found, queue)
    && (forall p | p in found :: IsBestPath(d, src, p) && |p| <= MAX_PATH)
  }

  lemma StepFinish(d: MiniDestination, src: Asn, found: seq<seq<Asn>>, queue: seq<seq<Asn>>, path: seq<Asn>)
    requires d.Valid() && Searching(d, src, found, [path] + queue) && path != [] && path[|path| - 1] == d.destination
    ensures Searching(d, src, found + [path], queue) && Work(d, src, queue) < Work(d, src, [path] + queue)
  {
    assert path in [path] + queue && forall q | q in queue :: q in [path] + queue;
    FinishedIsCovered(d, src, found, queue, path);
    assert found + ([path] + queue) == (found + [path]) + queue;
    WorkOfFirst(d, src, [path] + queue);
    assert ([path] + queue)[1..] == queue;
  }

  lemma ExtensionsAreWalks(d: MiniDestination, src: Asn, queue: seq<seq<Asn>>, path: seq<Asn>)
    requires d.Valid() && AllWalks(d, src, [path] + queue) && path != [] && path[|path| - 1] != d.destination && |path| < MAX_PATH
    ensures AllWalks(d, src, queue) && AllWalks(d, src, queue + Extensions(path, d.Parents(path[|path| - 1])))
  {
    assert path in [path] + queue && forall q | q in queue :: q in [path] + queue;
    LastReached(d, src, queue, path);
    hide IsWalk;
    var parents := d.Parents(path[|path| - 1]);
    forall q | q in queue + Extensions(path, parents) ensures IsWalk(d, src, q) && |q| <= MAX_PATH && d.Reached(q[|q| - 1]) {
      if q !in queue {
        var k :| 0 <= k < |parents| && Extensions(path, parents)[k] == q;
        OneExtension(d, src, path, parents[k]);
      }
    }
  }

  lemma OneExtension(d: MiniDestination, src: Asn, path: seq<Asn>, p: Asn)
    requires d.Valid() && IsWalk(d, src, path) && d.Reached(path[|path| - 1]) && path[|path| - 1] != d.destination
    requires p in d.Parents(path[|path| - 1])
    ensures IsWalk(d, src, path + [p]) && d.Reached(p)
  {
    assert d.NodeValid(path[|path| - 1]);
  }

  lemma LastReached(d: MiniDestination, src: Asn, queue: seq<seq<Asn>>, path: seq<Asn>)
    requires d.Valid() && AllWalks(d, src, [path] + queue)
    ensures path != [] && IsWalk(d, src, path) && d.Reached(path[|path| - 1]) && NoDup(d.Parents(path[|path| - 1]))
  {
    assert path in [path] + queue && d.NodeValid(path[|path| - 1]);
  }

  lemma WorkShrinks(d: MiniDestination, src: Asn, queue: seq<seq<Asn>>, path: seq<Asn>)
    requires d.Valid() && AllWalks(d, src, [path] + queue) && path != [] && path[|path| - 1] != d.destination
    requires AllWalks(d, src, queue) && AllWalks(d, src, queue + Extensions(path, d.Parents(path[|path| - 1])))
    ensures Work(d, src, queue + Extensions(path, d.Parents(path[|path| - 1]))) < Work(d, src, [path] + queue)
  {
    hide IsWalk, Work, Subtrees, AllWalks;
    var last := path[|path| - 1];
    LastReached(d, src, queue, path);
    assert ([path] + queue)[0] == path && ([path] + queue)[1..] == queue && path in [path] + queue;
    WorkOfFirst(d, src, [path] + queue);
    WorkOfExtensions(d, src, queue, path, d.Parents(last));
  }

  lemma StepExpand(d: MiniDestination, src: Asn, found: seq<seq<Asn>>, queue: seq<seq<Asn>>, path: seq<Asn>)
    requires d.Valid() && Searching(d, src, found, [path] + queue) && path != [] && path[|path| - 1] != d.destination && |path| < MAX_PATH
    ensures var queue' := queue + Extensions(path, d.Parents(path[|path| - 1]));
            Searching(d, src, found, queue') && Work(d, src, queue') < Work(d, src, [path] + queue)
  {
    hide PrefixFree, CoversAll, Work, AllWalks, IsWalk;
    var last := path[|path| - 1];
    LastReached(d, src, queue, path);
    ExtensionsAreWalks(d, src, queue, path);
    WorkShrinks(d, src, queue, path);
    ExpandedIsCovered(d, src, found, queue, path);
    assert found + ([path] + queue) == found + [path] + queue;
    ExpandKeepsPrefixFree(found, queue, path, d.Parents(last));
    assert found + (queue + Extensions(path, d.Parents(last))) == found + queue + Extensions(path, d.Parents(last));
  }

  lemma StepDrop(d: MiniDestination, src: Asn, found: seq<seq<Asn>>, queue: seq<seq<Asn>>, path: seq<Asn>)
    requires d.Valid() && Searching(d, src, found, [path] + queue) && path != [] && path[|path| - 1] != d.destination && |path| >= MAX_PATH
    ensures Searching(d, src, found, queue) && Work(d, src, queue) < Work(d, src, [path] + queue)
  {
    assert path in [path] + queue && forall q | q in queue :: q in [path] + queue;
    DroppedIsCovered(d, src, found, queue, path);
    assert found + ([path] + queue) == found + [path] + queue;
    DropKeepsPrefixFree(found, queue, path);
    WorkOfFirst(d, src, [path] + queue);
    assert ([path] + queue)[1..] == queue;
  }

  lemma SearchHead(d: MiniDestination, src: Asn, found: seq<seq<Asn>>, queue: seq<seq<Asn>>)
    requires d.Valid() && Searching(d, src, found, queue) && queue != []
    ensures queue[0] != [] && d.Reached(queue[0][|queue[0]| - 1]) && d.best[queue[0][|queue[0]| - 1]].Some?
  {
    assert queue[0] in queue;
  }

  lemma SearchDone(d: MiniDestination, src: Asn, found: seq<seq<Asn>>)
    requires d.Valid() && Searching(d, src, found, [])
    ensures NoDup(found) && forall p :: p in found <==> IsBestPath(d, src, p) && |p| <= MAX_PATH
  {
    assert found + [] == found;
    forall i, j | 0 <= i < j < |found| ensures found[i] != found[j] {
      assert !(found[i] <= found[j]);
    }
    forall p ensures p in found <==> IsBestPath(d, src, p) && |p| <= MAX_PATH {
      if IsBestPath(d, src, p) && |p| <= MAX_PATH { assert Covered(found, [], p); }
    }
  }

  /** `GetAllBestPaths`: appends every best path of at most 20 ASes, each once, and nothing else. */
  method GetAllBestPaths(d: MiniDestination, src: Asn, dst: Asn, allPaths: seq<seq<Asn>>) returns (ok: bool, allPaths': seq<seq<Asn>>, ghost found: seq<seq<Asn>>)
    requires d.Valid() && src < |d.best|
    ensures ok <==> dst == d.destination
    ensures allPaths' == allPaths + found && NoDup(found)
    ensures forall p :: p in found <==> ok && d.Reached(src) && IsBestPath(d, src, p) && |p| <= MAX_PATH
  {
    hide PrefixFree, CoversAll, IsWalk, IsBestPath, Work, AllWalks;
    found, allPaths' := [], allPaths;
    if dst != d.destination { return false, allPaths', found; }
    ok := true;
    if d.best[src].Some? {
      var queue := [[src]];
      assert Searching(d, src, [], queue) by { StartSearch(d, src); }
      while |queue| > 0
        invariant Searching(d, src, found, queue) && allPaths' == allPaths + found
        decreases Work(d, src, queue)
      {
        var path, rest := queue[0], queue[1..];
        assert queue == [path] + rest;
        SearchHead(d, src, found, queue);
        var last := path[|path| - 1];
        if last == dst {
          StepFinish(d, src, found, rest, path);
          allPaths' := allPaths' + [path];
          found := found + [path];
          queue := rest;
        } else if |path| < MAX_PATH {
          StepExpand(d, src, found, rest, path);
          var best := d.Parents(last);
          queue := rest;
          for i := 0 to |best|
            invariant queue == rest + Extensions(path, best)[..i]
          {
            queue := queue + [path + [best[i]]];
          }
          assert queue == rest + Extensions(path, best);
        } else {
          StepDrop(d, src, found, rest, path);
          queue := rest;
        }
      }
      SearchDone(d, src, found);
    }
  }

  lemma StartSearch(d: MiniDestination, src: Asn)
    requires d.Valid() && d.Reached(src)
    ensures Searching(d, src, [], [[src]])
  {
    assert [src] in [[src]];
    forall P | IsBestPath(d, src, P) && |P| <= MAX_PATH ensures Covered([], [[src]], P) {
      assert [src] <= P;
    }
  }

  /** `a` can be reached from `src` along best parents, without going on after the destination. */
  ghost predicate Reaches(d: MiniDestination, src: Asn, a: Asn) {
    exists q :: IsWalk(d, src, q) && q[|q| - 1] == a
  }

  /** Every AS reached along best parents lies on a best path. */
  lemma ReachedLiesOnPath(d: MiniDestination, src: Asn, a: Asn) returns (p: seq<Asn>)
    requires d.Valid() && d.Reached(src) && Reaches(d, src, a)
    ensures IsBestPath(d, src, p) && a in p
  {
    var q :| IsWalk(d, src, q) && q[|q| - 1] == a;
    WalkDescends(d, src, q);
    var r := PathToDestination(d, a);
    p := q + r[1..];
    forall i | 0 <= i < |p| - 1 ensures p[i] != d.destination && p[i + 1] in d.Parents(p[i]) {
      if i >= |q| - 1 {
        assert p[i] == r[i - (|q| - 1)] && p[i + 1] == r[i - (|q| - 1) + 1];
      } else {
        assert p[i] == q[i] && p[i + 1] == q[i + 1];
      }
    }
    assert p[|q| - 1] == a;
  }

  lemma OnPathIsReached(d: MiniDestination, src: Asn, p: seq<Asn>, i: nat)
    requires IsBestPath(d, src, p) && i < |p|
    ensures Reaches(d, src, p[i])
  {
    var q := p[..i + 1];
    assert IsWalk(d, src, q) && q[|q| - 1] == p[i];
  }

  /** `q` goes from `src` along neighbours that offer the route held, and stops at the destination. */
  ghost predicate IsOfferChain(g: Graph, dst: Asn, R: Routing, src: Asn, q: seq<Asn>) {
    && q != [] && q[0] == src
    && (forall i | 0 <= i < |q| - 1 :: q[i] != dst && OffersBest(g, R, q[i + 1], q[i]))
  }

  /** Traffic of `src` may pass through `a` in the routing R. */
  ghost predicate PassesThrough(g: Graph, dst: Asn, R: Routing, src: Asn, a: Asn) {
    exists q :: IsOfferChain(g, dst, R, src, q) && q[|q| - 1] == a
  }

  /** What the client is sent, in terms of the graph: the ASes the traffic of `src` may pass through in the
      stable routing, when `src` is fewer than 20 hops away. */
  ghost predicate SentFor(g: Graph, dst: Asn, R: Routing, src: Asn, asnSet: set<Asn>) {
    forall a :: a in asnSet <==> src in R && R[src].depth < MAX_PATH && PassesThrough(g, dst, R, src, a)
  }

  lemma WalkIsOfferChain(d: MiniDestination, g: Graph, src: Asn, q: seq<Asn>)
    requires Solves(d, g)
    ensures IsWalk(d, src, q) <==> IsOfferChain(g, d.destination, Routes(d), src, q)
  {
    var R := Routes(d);
    if q != [] && q[0] == src {
      forall i | 0 <= i < |q| - 1 && q[i] != d.destination
        ensures q[i + 1] in d.Parents(q[i]) <==> OffersBest(g, R, q[i + 1], q[i])
      {
        var u, v := q[i + 1], q[i];
        assert !d.Reached(v) ==> v !in R;
        assert d.Reached(v) ==> (u in d.Parents(v) <==> OffersBest(g, R, u, v));
      }
    }
  }

  /** What is reached along best parents is what traffic may pass through in the stable routing. */
  lemma ReachesInGraph(d: MiniDestination, g: Graph, R: Routing, src: Asn, a: Asn)
    requires Solves(d, g) && Stable(g, d.destination, R)
    ensures Reaches(d, src, a) <==> PassesThrough(g, d.destination, R, src, a)
    ensures d.Reached(src) <==> src in R
    ensures d.Reached(src) ==> d.l[src] == R[src].depth
  {
    StableIsUnique(g, d.destination, R, Routes(d));
    if q :| IsWalk(d, src, q) && q[|q| - 1] == a {
      WalkIsOfferChain(d, g, src, q);
    }
    if q :| IsOfferChain(g, d.destination, R, src, q) && q[|q| - 1] == a {
      WalkIsOfferChain(d, g, src, q);
    }
  }

  /** `getBestPaths`: the ASes the Tor client is told about, exactly those reached from `src` along
      best parents when its paths have at most 20 ASes, and none otherwise. */
  method GetBestPaths(ds: map<Asn, MiniDestination>, src: Asn, dst: Asn) returns (asnSet: set<Asn>)
    requires forall t | t in ds :: ds[t].Valid() && ds[t].destination == t && src < |ds[t].best|
    ensures dst !in ds ==> asnSet == {}
    ensures dst in ds ==> forall a :: a in asnSet <==> src < |ds[dst].l| && ds[dst].Reached(src) && ds[dst].l[src] < MAX_PATH && Reaches(ds[dst], src, a)
    ensures dst in ds ==> forall g: Graph, R: Routing {:trigger Solves(ds[dst], g), Stable(g, dst, R)} ::
              Solves(ds[dst], g) && Stable(g, dst, R) ==> SentFor(g, dst, R, src, asnSet)
  {
    hide Solves, Stable, SentFor, IsBestPath, Reaches, IsWalk, LiesOn;
    asnSet := {};
    if dst in ds {
      var d := ds[dst];
      var ok, allPaths;
      ghost var found;
      ok, allPaths, found := GetAllBestPaths(d, src, dst, []);
      assert allPaths == found;
      asnSet := Collect(allPaths);
      SentAreReached(d, src, found, asnSet);
      SentInGraph(d, src, asnSet);
    }
  }

  /** `a` lies on one of the first `count` paths. */
  ghost predicate LiesOn(paths: seq<seq<Asn>>, count: nat, a: Asn)
    requires count <= |paths|
  {
    exists j :: 0 <= j < count && a in paths[j]
  }

  lemma LiesOnNext(paths: seq<seq<Asn>>, count: nat, a: Asn)
    requires count < |paths|
    ensures LiesOn(paths, count + 1, a) <==> LiesOn(paths, count, a) || a in paths[count]
  {
  }

  /** The ASes on any of the paths. */
  method Collect(paths: seq<seq<Asn>>) returns (asnSet: set<Asn>)
    ensures forall a :: a in asnSet <==> LiesOn(paths, |paths|, a)
  {
    hide LiesOn;
    asnSet := {};
    assert forall a :: !LiesOn(paths, 0, a) by { LiesOnNone(paths); }
    for k := 0 to |paths|
      invariant forall a :: a in asnSet <==> LiesOn(paths, k, a)
    {
      var path := paths[k];
      ghost var before := asnSet;
      for i := 0 to |path|
        invariant forall a :: a in asnSet <==> a in before || a in path[..i]
      {
        assert path[..i + 1] == path[..i] + [path[i]];
        asnSet := asnSet + {path[i]};
      }
      assert path[..|path|] == path;
      forall a ensures LiesOn(paths, k + 1, a) <==> LiesOn(paths, k, a) || a in path {
        LiesOnNext(paths, k, a);
      }
    }
  }

  lemma LiesOnNone(paths: seq<seq<Asn>>)
    ensures forall a :: !LiesOn(paths, 0, a)
  {
  }

  lemma SentInGraph(d: MiniDestination, src: Asn, asnSet: set<Asn>)
    requires d.Valid()
    requires forall a :: a in asnSet <==> d.Reached(src) && d.l[src] < MAX_PATH && Reaches(d, src, a)
    ensures forall g: Graph, R: Routing {:trigger Solves(d, g), Stable(g, d.destination, R)} ::
              Solves(d, g) && Stable(g, d.destination, R) ==> SentFor(g, d.destination, R, src, asnSet)
  {
    forall g: Graph, R: Routing | Solves(d, g) && Stable(g, d.destination, R) ensures SentFor(g, d.destination, R, src, asnSet) {
      forall a: Asn ensures a in asnSet <==> src in R && R[src].depth < MAX_PATH && PassesThrough(g, d.destination, R, src, a) {
        ReachesInGraph(d, g, R, src, a);
      }
    }
  }

  lemma SentAreReached(d: MiniDestination, src: Asn, found: seq<seq<Asn>>, asnSet: set<Asn>)
    requires d.Valid()
    requires forall p :: p in found <==> d.Reached(src) && IsBestPath(d, src, p) && |p| <= MAX_PATH
    requires forall a :: a in asnSet <==> LiesOn(found, |found|, a)
    ensures forall a :: a in asnSet <==> d.Reached(src) && d.l[src] < MAX_PATH && Reaches(d, src, a)
  {
    forall a: Asn ensures a in asnSet <==> d.Reached(src) && d.l[src] < MAX_PATH && Reaches(d, src, a) {
      if a in asnSet {
        var j :| 0 <= j < |found| && a in found[j];
        assert found[j] in found;
        BestPathIsSimple(d, src, found[j]);
        var i :| 0 <= i < |found[j]| && found[j][i] == a;
        OnPathIsReached(d, src, found[j], i);
      }
      if d.Reached(src) && d.l[src] < MAX_PATH && Reaches(d, src, a) {
        var p := ReachedLiesOnPath(d, src, a);
        BestPathIsSimple(d, src, p);
        assert p in found;
      }
    }
  }
}
