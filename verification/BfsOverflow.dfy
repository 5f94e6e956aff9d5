/** When a pass runs past the end of the bucket table: then the graph has more nodes than the
    table has rows, and a stable routing has a route too long for the table. */
module BfsOverflow {
  import opened Topology
  import opened GaoRexford
  import opened BfsState
  import opened BfsInvariant
  import opened BfsSteps
  import opened BfsPasses

  /** Pass `k` runs into the end of the table at the edge from `cur` to `bad`. */
  ghost predicate Overflow(p: Problem, k: nat, s0: State, x: Run, s: State, cur: Asn, bad: Asn) {
    && k < 3 && Settled(p, k, s0) && x.pass == p.PassOf(k) && x.start == Start(x.pass, s0)
    && Overflowing(x, s, cur, bad)
  }

  /** The edges of the first `k` passes. */
  function Truncated(g: Graph, k: nat): Graph {
    g.(customerOf := if k > 0 then g.customerOf else map[], peerOf := if k > 1 then g.peerOf else map[],
       providerTo := if k > 2 then g.providerTo else map[])
  }

  function BestClasses(R: Routing, k: nat): Routing {
    map v | v in R && R[v].col < k :: R[v]
  }

  lemma TruncatedNeighbors(g: Graph, k: nat, r: Relationship, u: Asn)
    ensures Truncated(g, k).Neighbors(r, u) == if ColumnOf(r) < k then g.Neighbors(r, u) else []
  {
  }

  /** The better classes of a stable routing are stable over their own edges. */
  lemma BestClassesStable(g: Graph, dst: Asn, R: Routing, k: nat)
    requires Stable(g, dst, R) && k > 0
    ensures Stable(Truncated(g, k), dst, BestClasses(R, k))
  {
    var g', R' := Truncated(g, k), BestClasses(R, k);
    forall v | v != dst ensures StableAt(g', R', v) {
      assert StableAt(g, R, v);
      if v in R' {
        var r, u :| Offers(g, R, r, u, v, R[v]);
        TruncatedNeighbors(g, k, r, u);
        StableColumns(g, dst, R, u);
        assert Offers(g', R', r, u, v, R'[v]);
      }
      forall o | Offered(g', R', v, o) ensures v in R' && !Better(o, R'[v]) {
        var r, u :| Offers(g', R', r, u, v, o);
        TruncatedNeighbors(g, k, r, u);
        assert Offers(g, R, r, u, v, o);
        assert Offered(g, R, v, o);
      }
    }
  }

  /** The routing after `k` passes is stable over the edges of those passes. */
  lemma SettledStable(p: Problem, k: nat, s: State)
    requires Settled(p, k, s) && 0 < k <= 3
    ensures Stable(Truncated(p.g, k), p.root, RoutingOf(p.root, s))
  {
    var g', R := Truncated(p.g, k), RoutingOf(p.root, s);
    assert SettledAt(p, k, s, p.root);
    forall v: Asn | v != p.root ensures StableAt(g', R, v) {
      RoutingIsKnown(p, k, s, v);
      if v in R {
        assert SettledAt(p, k, s, v);
        var r := if s.rel[v] == 0 then CustomerOf else if s.rel[v] == 1 then PeerOf else ProviderTo;
        TruncatedNeighbors(p.g, k, r, s.nodes[v].parent.value);
        TruncatedOffers(p, k, s, r, s.nodes[v].parent.value, v, R[v]);
      }
      forall o | Offered(g', R, v, o) ensures v in R && !Better(o, R[v]) {
        var r, u :| Offers(g', R, r, u, v, o);
        TruncatedOffers(p, k, s, r, u, v, o);
        assert EdgeSettled(p, k, s, ColumnOf(r), u, v);
      }
    }
  }

  lemma TruncatedOffers(p: Problem, k: nat, s: State, r: Relationship, u: Asn, v: Asn, o: Route)
    requires Settled(p, k, s) && 0 < k <= 3
    ensures Offers(Truncated(p.g, k), RoutingOf(p.root, s), r, u, v, o) <==>
            (Source(s, p.root, ColumnOf(r), u) && p.Edge(ColumnOf(r), u, v) && ColumnOf(r) < k
             && o.col == ColumnOf(r) && o.depth == s.nodes[u].depth + 1)
  {
    TruncatedNeighbors(p.g, k, r, u);
    RoutingIsKnown(p, k, s, u);
    if u in s.nodes { assert SettledAt(p, k, s, u); }
  }

  /** What earlier passes found is what any stable routing has in their classes. */
  lemma SettledAgrees(p: Problem, k: nat, s: State, R: Routing)
    requires Settled(p, k, s) && 0 < k <= 3 && Stable(p.g, p.root, R)
    ensures RoutingOf(p.root, s) == BestClasses(R, k)
  {
    SettledStable(p, k, s);
    BestClassesStable(p.g, p.root, R, k);
    StableIsUnique(Truncated(p.g, k), p.root, RoutingOf(p.root, s), BestClasses(R, k));
  }

  /** A node of the earlier trees that lies above the depth worked on has been processed. */
  lemma {:induction false} PriorAbove(p: Problem, k: nat, s0: State, x: Run, s: State, cur: Asn, bad: Asn, v: Asn)
    requires Overflow(p, k, s0, x, s, cur, bad) && v in s.nodes && (s.nodes[v].prior || v == p.root)
    requires s.nodes[v].depth < x.depth
    ensures s.nodes[v].status == Processed
    decreases s.nodes[v].depth
  {
    assert NodeOk(x, s, v);
    if v != p.root {
      var u := s.nodes[v].parent.value;
      assert NodeOk(x, s, u) && SettledAt(p, k, s0, v) && SettledAt(p, k, s0, u);
      PriorAbove(p, k, s0, x, s, cur, bad, u);
    }
  }

  lemma NewAbove(p: Problem, k: nat, s0: State, x: Run, s: State, cur: Asn, bad: Asn, v: Asn)
    requires Overflow(p, k, s0, x, s, cur, bad) && s.New(p.root, v) && !x.pass.limited
    requires s.nodes[v].depth < x.depth
    ensures s.nodes[v].status == Processed
  {
    assert NodeOk(x, s, v);
  }

  /** Nodes of earlier passes hold the routes a stable routing gives them. */
  lemma EarlierRoute(p: Problem, k: nat, s0: State, x: Run, s: State, cur: Asn, bad: Asn, R: Routing, v: Asn)
    requires Overflow(p, k, s0, x, s, cur, bad) && Stable(p.g, p.root, R)
    ensures v in s.nodes && (s.nodes[v].prior || v == p.root) <==> v in R && (R[v].col < k || v == p.root)
    ensures v in R && (R[v].col < k || v == p.root) ==> s.nodes[v].depth == R[v].depth
  {
    assert NodeOk(x, s, p.root) && SettledAt(p, k, s0, p.root);
    if v in s.nodes { assert NodeOk(x, s, v) && SettledAt(p, k, s0, v); }
    if k > 0 {
      SettledAgrees(p, k, s0, R);
      RoutingIsKnown(p, k, s0, v);
      assert v in RoutingOf(p.root, s0) <==> v in BestClasses(R, k);
    }
  }

  /** A node a stable routing gives a route of this class, no deeper than the depth worked on,
      has been found, and no deeper. */
  lemma {:induction false} RouteFound(p: Problem, k: nat, s0: State, x: Run, s: State, cur: Asn, bad: Asn, R: Routing, v: Asn)
    requires Overflow(p, k, s0, x, s, cur, bad) && Stable(p.g, p.root, R)
    requires v in R && v != p.root && R[v].col == k && R[v].depth <= x.depth
    ensures s.New(p.root, v) && s.nodes[v].depth <= R[v].depth
    decreases R[v].depth
  {
    assert StableAt(p.g, R, v);
    var r, u :| Offers(p.g, R, r, u, v, R[v]);
    StableColumns(p.g, p.root, R, u);
    EarlierRoute(p, k, s0, x, s, cur, bad, R, u);
    if R[u].col < k || u == p.root {
      PriorAbove(p, k, s0, x, s, cur, bad, u);
    } else {
      RouteFound(p, k, s0, x, s, cur, bad, R, u);
      NewAbove(p, k, s0, x, s, cur, bad, u);
    }
    assert x.pass.Edge(u, v) && EdgeOk(x, s, u, v);
    EarlierRoute(p, k, s0, x, s, cur, bad, R, v);
  }

  /** A new node has a route of this class in every stable routing. */
  lemma {:induction false} NewRouted(p: Problem, k: nat, s0: State, x: Run, s: State, cur: Asn, bad: Asn, R: Routing, v: Asn)
    requires Overflow(p, k, s0, x, s, cur, bad) && Stable(p.g, p.root, R) && s.New(p.root, v)
    ensures v in R && R[v].col == k
    decreases s.nodes[v].depth, 0
  {
    assert NodeOk(x, s, v);
    var u := s.nodes[v].parent.value;
    assert NodeOk(x, s, u) && EdgeOk(x, s, u, v);
    OffersOnwards(p, k, s0, x, s, cur, bad, R, u, v);
    EarlierRoute(p, k, s0, x, s, cur, bad, R, v);
  }

  /** A node that has been opened or processed offers a route along its edges. */
  lemma {:induction false} OffersOnwards(p: Problem, k: nat, s0: State, x: Run, s: State, cur: Asn, bad: Asn, R: Routing, u: Asn, v: Asn)
    requires Overflow(p, k, s0, x, s, cur, bad) && Stable(p.g, p.root, R)
    requires s.Known(p.root, u) && (s.New(p.root, u) ==> !x.pass.limited)
    requires x.pass.Edge(u, v) && v != p.root
    ensures v in R && R[v].col <= k
    decreases s.nodes[u].depth, 1
  {
    assert NodeOk(x, s, u);
    EarlierRoute(p, k, s0, x, s, cur, bad, R, u);
    if s.New(p.root, u) { NewRouted(p, k, s0, x, s, cur, bad, R, u); }
    var o := Route(k, R[u].depth + 1);
    assert Offers(p.g, R, x.pass.r, u, v, o);
    assert StableAt(p.g, R, v) && Offered(p.g, R, v, o);
  }

  /** The node that does not fit has, in every stable routing, a route too long for the table. */
  lemma OverflowIsDeep(p: Problem, k: nat, s0: State, x: Run, s: State, cur: Asn, bad: Asn, R: Routing)
    requires Overflow(p, k, s0, x, s, cur, bad) && Stable(p.g, p.root, R)
    ensures bad in R && R[bad].depth >= |s.bucket|
  {
    assert NodeOk(x, s, cur) && NodeOk(x, s, bad);
    assert cur in x.queue;
    OffersOnwards(p, k, s0, x, s, cur, bad, R, cur, bad);
    EarlierRoute(p, k, s0, x, s, cur, bad, R, bad);
    if R[bad].depth <= x.depth {
      RouteFound(p, k, s0, x, s, cur, bad, R, bad);
    }
  }

  /** The stable routing has a route too long for a table of this many rows. */
  ghost predicate TooDeep(g: Graph, dst: Asn, rows: nat) {
    exists R: Routing, v :: Stable(g, dst, R) && v in R && R[v].depth >= rows
  }

  lemma TooDeepIn(g: Graph, dst: Asn, rows: nat, R: Routing)
    requires Stable(g, dst, R)
    ensures TooDeep(g, dst, rows) <==> exists v :: v in R && R[v].depth >= rows
  {
    if TooDeep(g, dst, rows) {
      var R': Routing, v :| Stable(g, dst, R') && v in R' && R'[v].depth >= rows;
      StableIsUnique(g, dst, R, R');
    }
  }

  /** The ASes a route was passed along, one for each depth. */
  lemma {:induction false} Line(g: Graph, dst: Asn, R: Routing, v: Asn) returns (line: set<Asn>)
    requires g.Valid() && dst in g.nodes && Stable(g, dst, R) && v in R
    ensures |line| == R[v].depth + 1 && v in line && line <= g.nodes
    ensures forall u | u in line :: u in R && R[u].depth <= R[v].depth
    decreases R[v].depth
  {
    if v == dst {
      return {v};
    }
    assert StableAt(g, R, v);
    var r, u :| Offers(g, R, r, u, v, R[v]);
    assert g.EdgeValid(r, u, v);
    line := Line(g, dst, R, u);
    line := line + {v};
  }

  /** As many rows as the graph has nodes are always enough. */
  lemma TooDeepNeedsNodes(g: Graph, dst: Asn, rows: nat)
    requires g.Valid() && dst in g.nodes && TooDeep(g, dst, rows)
    ensures |g.nodes| > rows
  {
    var R: Routing, v :| Stable(g, dst, R) && v in R && R[v].depth >= rows;
    var line := Line(g, dst, R, v);
    SubsetSize(line, g.nodes);
  }

  lemma OverflowTooDeep(p: Problem, k: nat, s0: State, x: Run, s: State, cur: Asn, bad: Asn)
    requires p.g.Valid() && Overflow(p, k, s0, x, s, cur, bad)
    ensures TooDeep(p.g, p.root, |s.bucket|)
  {
    var R := StableExists(p.g, p.root);
    OverflowIsDeep(p, k, s0, x, s, cur, bad, R);
  }

  /** A settled table holds routes that fit. */
  lemma SettledFits(p: Problem, s: State)
    requires Settled(p, 3, s)
    ensures !TooDeep(p.g, p.root, |s.bucket|)
    ensures forall v | v in RoutingOf(p.root, s) :: RoutingOf(p.root, s)[v].depth < |s.bucket|
  {
    SettledIsStable(p, s);
    TooDeepIn(p.g, p.root, |s.bucket|, RoutingOf(p.root, s));
    forall v | v in RoutingOf(p.root, s) ensures RoutingOf(p.root, s)[v].depth < |s.bucket| {
      assert SettledAt(p, 3, s, v);
    }
  }
}
