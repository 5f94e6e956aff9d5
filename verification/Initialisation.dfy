/** From the BFS to the sorted routing DAG of a destination (SimulatorLibrary.cs). */
module Initialisation {
  import opened Wrappers
  import opened Topology
  import opened GaoRexford
  import opened TieBreak
  import opened BfsState
  import opened BfsPasses
  import opened BfsOverflow
  import opened RoutingTree
  import opened MD = MiniDestination
  import opened Weights

  function DagOf(root: Asn, s: State): MiniDestination {
    MiniDestination(s.bucket, s.best, s.rel, s.l, root)
  }

  lemma DagNode(p: Problem, s: State, i: Asn)
    requires Settled(p, 3, s) && |s.bucket| <= 256
    ensures DagOf(p.root, s).NodeValid(i)
    ensures DagOf(p.root, s).Reached(i) <==> s.Known(p.root, i)
    ensures s.Known(p.root, i) ==> s.l[i] == s.nodes[i].depth
  {
    hide EdgeSettled, CellSettled, UpdatedPath;
    if i in s.nodes {
      assert SettledAt(p, 3, s, i);
      if i != p.root && s.best[i].Some? {
        forall u | u in s.best[i].value ensures s.best[u].Some? && s.l[u] + 1 == s.l[i] {
          assert Source(s, p.root, s.rel[i], u) && SettledAt(p, 3, s, u);
        }
      }
    }
  }

  /** The finished routing tree is a valid DAG, provided a depth fits into a byte. */
  lemma DagIsValid(p: Problem, s: State)
    requires Settled(p, 3, s) && |s.bucket| <= 256
    ensures DagOf(p.root, s).Valid()
  {
    var d := DagOf(p.root, s);
    DagNode(p, s, p.root);
    forall i: Asn ensures d.NodeValid(i) {
      DagNode(p, s, i);
    }
    forall row: nat, col: nat | row < |d.bucketTable| && col < 3 ensures d.CellValid(row, col) {
      assert CellSettled(p, 3, s, row, col);
      forall i: Asn ensures i in Listed(d.bucketTable[row][col]) <==> d.Reached(i) && d.l[i] == row && d.bestRelation[i] == col {
        DagNode(p, s, i);
      }
    }
  }

  /** Two neighbours offer the same AS its best route, and their keys are the same. */
  ghost predicate Collision(g: Graph, dst: Asn, rule: TieRule) {
    exists R: Routing, v: Asn, u: Asn, u': Asn :: Stable(g, dst, R) && v != dst && OffersBest(g, R, u, v) && OffersBest(g, R, u', v)
      && u != u' && rule.Key(v, u) == rule.Key(v, u')
  }

  lemma DagSolves(p: Problem, s: State)
    requires Settled(p, 3, s) && |s.bucket| <= 256
    ensures Solves(DagOf(p.root, s), p.g)
  {
    var d := DagOf(p.root, s);
    DagIsValid(p, s);
    SettledIsStable(p, s);
    var R := RoutingOf(p.root, s);
    assert Routes(d) == R by {
      forall i: Asn ensures i in Routes(d) <==> i in R
                    ensures i in R ==> Routes(d)[i] == R[i] {
        DagNode(p, s, i);
        RoutingIsKnown(p, 3, s, i);
      }
    }
    forall u: Asn, v: Asn | d.Reached(v) && v != d.destination ensures u in d.Parents(v) <==> OffersBest(p.g, R, u, v) {
      DagNode(p, s, v);
      RoutingIsKnown(p, 3, s, v);
      BestIsOffers(p, s, v, u);
    }
  }

  lemma ReorderedSolves(d: MiniDestination, d': MiniDestination, g: Graph)
    requires Solves(d, g) && d.SameUpToOrder(d')
    ensures Solves(d', g)
  {
    ReorderedIsValid(d, d');
    assert Routes(d') == Routes(d) by {
      forall i: Asn ensures d.Reached(i) <==> d'.Reached(i) {
        assert d'.Parents(i) == d'.Parents(i);
      }
    }
    forall u: Asn, v: Asn | d'.Reached(v) && v != d'.destination ensures u in d'.Parents(v) <==> OffersBest(g, Routes(d'), u, v) {
      assert d'.Parents(v) == d'.Parents(v);
      assert d.Reached(v);
    }
  }

  datatype Init = Ready(d: MiniDestination, W: seq<nat>) | DepthPastTable | HashCollision

  /** Sorts every Best list. */
  method SortBest(d: MiniDestination, rule: TieRule) returns (ok: bool, d': MiniDestination)
    requires forall i: Asn :: NoDup(d.Parents(i))
    ensures ok ==> d.SameUpToOrder(d') && d'.Sorted(rule)
    ensures !ok ==> exists i: Asn :: d.Reached(i) && !rule.Separates(i, d.Parents(i))
  {
    var best := d.best;
    for i := 0 to |best|
      invariant |best| == |d.best|
      invariant forall j: Asn | i <= j < |best| :: best[j] == d.best[j]
      invariant forall j: Asn | j < i :: best[j].Some? <==> d.best[j].Some?
      invariant forall j: Asn | j < i && best[j].Some? :: |best[j].value| == |d.Parents(j)| && rule.Sorts(j, best[j].value)
                  && forall p :: p in best[j].value <==> p in d.Parents(j)
    {
      if best[i].Some? {
        assert d.Parents(i) == best[i].value;
        var sorted;
        ok, sorted := rule.SortByHashValue(best[i].value, i);
        if !ok { return false, d; }
        best := best[i := Some(sorted)];
      }
    }
    d' := d.(best := best);
    ok := true;
    forall i: Asn ensures (d'.Reached(i) <==> d.Reached(i)) && |d'.Parents(i)| == |d.Parents(i)|
        && NoDup(d'.Parents(i)) && (forall p :: p in d'.Parents(i) <==> p in d.Parents(i)) && rule.Sorts(i, d'.Parents(i)) {
      if i < |best| && best[i].Some? {
        SortsNoDup(rule, i, best[i].value);
      }
    }
  }

  lemma SortsNoDup(rule: TieRule, i: Asn, list: seq<Asn>)
    requires rule.Sorts(i, list)
    ensures NoDup(list)
  {
  }

  /** `initMiniDestination` with the given number of bucket rows.  It yields the DAG of the stable
      routing, sorted, with the weights; it fails exactly when a route of the stable routing is too long for the
      bucket table, or two best parents of some AS have the same hash. */
  method InitMiniDestination(g: Graph, asNodes: map<Asn, AsNode>, ghost objects: set<AsNode>, dst: Asn, readOnly: bool, rule: TieRule,
                             lessHarsh: bool, numASNs: nat, rows: nat)
      returns (r: Init)
    requires g.Valid() && dst in g.nodes && (forall v | v in g.nodes :: v < numASNs) && 0 < rows <= 256
    requires asNodes.Keys == g.nodes && Numbered(asNodes, objects)
    modifies objects
    ensures r.Ready? ==> Solves(r.d, g) && r.d.Sorted(rule) && r.d.destination == dst && |r.d.best| == numASNs && |r.d.bucketTable| == rows
    ensures r.Ready? ==> |r.W| == numASNs && forall i: Asn | i < numASNs :: r.W[i] == WeightOf(r.d, i, lessHarsh)
    ensures r.DepthPastTable? <==> TooDeep(g, dst, rows)
    ensures r.HashCollision? ==> Collision(g, dst, rule)
    ensures r.Ready? ==> !Collision(g, dst, rule)
  {
    ReinitializeNodes(asNodes, objects);
    var tables;
    if readOnly {
      tables := new RoutingTables(g, rule, numASNs, rows);
    } else {
      tables := new RoutingTables.Over(g, rule, asNodes, objects, numASNs, rows);
    }
    ghost var p := Problem(g, dst, rule);
    BlankIsSettled(p, tables.View());
    var ok := tables.RoutingTreeAlg(p, dst);
    if !ok { return DepthPastTable; }
    var d := MiniDestination(tables.BucketTable[..], tables.Best[..], tables.BestRelation[..], tables.L[..], dst);
    assert d == DagOf(dst, tables.View());
    DagSolves(p, tables.View());
    r := SortAndWeigh(d, g, rule, lessHarsh);
  }

  /** The steps after the BFS. */
  method SortAndWeigh(d: MiniDestination, ghost g: Graph, rule: TieRule, lessHarsh: bool) returns (r: Init)
    requires Solves(d, g)
    ensures !r.DepthPastTable? && (r.HashCollision? <==> Collision(g, d.destination, rule))
    ensures r.Ready? ==> Solves(r.d, g) && r.d.Sorted(rule) && d.SameUpToOrder(r.d)
    ensures r.Ready? ==> |r.W| == |d.best| && forall i: Asn | i < |r.W| :: r.W[i] == WeightOf(r.d, i, lessHarsh)
  {
    ValidNoDup(d);
    var ok, d' := SortBest(d, rule);
    if !ok {
      UnsortedCollision(d, g, rule);
      return HashCollision;
    }
    ReorderedSolves(d, d', g);
    SortedNoCollision(d', g, rule);
    var w := FillWeights(d', lessHarsh);
    r := Ready(d', w[..]);
  }

  lemma SortedNoCollision(d: MiniDestination, g: Graph, rule: TieRule)
    requires Solves(d, g) && d.Sorted(rule)
    ensures !Collision(g, d.destination, rule)
  {
    forall R: Routing, v: Asn, u: Asn, u': Asn
      | Stable(g, d.destination, R) && v != d.destination && OffersBest(g, R, u, v) && OffersBest(g, R, u', v) && u != u'
      ensures rule.Key(v, u) != rule.Key(v, u') {
      StableIsUnique(g, d.destination, R, Routes(d));
      var i :| 0 <= i < |d.Parents(v)| && d.Parents(v)[i] == u;
      var j :| 0 <= j < |d.Parents(v)| && d.Parents(v)[j] == u';
      assert rule.Sorts(v, d.Parents(v));
    }
  }

  lemma UnsortedCollision(d: MiniDestination, g: Graph, rule: TieRule)
    requires Solves(d, g) && exists i: Asn :: d.Reached(i) && !rule.Separates(i, d.Parents(i))
    ensures Collision(g, d.destination, rule)
  {
    var v: Asn :| d.Reached(v) && !rule.Separates(v, d.Parents(v));
    assert d.NodeValid(v);
    var list := d.Parents(v);
    var i, j :| 0 <= i < j < |list| && rule.Key(v, list[i]) == rule.Key(v, list[j]);
    assert OffersBest(g, Routes(d), list[i], v) && OffersBest(g, Routes(d), list[j], v);
  }
}
