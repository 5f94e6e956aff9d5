/** From the graph to the next security state: the DAGs of all destinations and one round over them
    (SimulatorLibrary.cs). */
module Simulation {
  import opened Topology
  import opened GaoRexford
  import opened TieBreak
  import opened BfsOverflow
  import opened RoutingTree
  import opened MiniDestination
  import opened Initialisation
  import opened SecurePaths
  import opened Utilities
  import opened Transit
  import opened Workers
  import opened Simulators
  import opened Rounds

  /** No key is the number from which the tie-break starts. */
  ghost predicate KeysFit(g: Graph, rule: TieRule) {
    forall v, u | v in g.nodes && u in g.nodes :: rule.Key(v, u) < UINT32_MAX
  }

  /** A DAG as `initMiniDestination` yields it for a graph and a destination. */
  ghost predicate DagFor(d: MiniDestination, g: Graph, dst: Asn, rule: TieRule, N: nat) {
    Solves(d, g) && d.Sorted(rule) && d.destination == dst && |d.best| == N
  }

  lemma ParentsAreNodes(d: MiniDestination, g: Graph, i: Asn, p: Asn)
    requires Solves(d, g) && g.Valid() && d.destination in g.nodes && p in d.Parents(i)
    ensures i in g.nodes && p in g.nodes
  {
    assert d.NodeValid(i);
    if i != d.destination {
      assert OffersBest(g, Routes(d), p, i);
      var r :| Offers(g, Routes(d), r, p, i, Routes(d)[i]);
      assert g.EdgeValid(r, p, i);
    }
  }

  /** What `initMiniDestination` yields is what a round needs. */
  lemma ReadyIsPrepared(d: MiniDestination, g: Graph, dst: Asn, rule: TieRule, N: nat)
    requires g.Valid() && dst in g.nodes && DagFor(d, g, dst, rule, N) && N <= LOSSLESS && KeysFit(g, rule)
    ensures Prepared(d, rule)
  {
    SortedIsSeparated(d, rule);
    forall i: Asn, p | p in d.Parents(i) ensures rule.Key(i, p) < UINT32_MAX {
      ParentsAreNodes(d, g, i, p);
    }
  }

  ghost predicate Succeeds(g: Graph, dsts: seq<Asn>, rule: TieRule, rows: nat) {
    forall dst | dst in dsts :: !TooDeep(g, dst, rows) && !Collision(g, dst, rule)
  }

  ghost predicate DagsFor(ds: seq<MiniDestination>, g: Graph, dsts: seq<Asn>, rule: TieRule, N: nat) {
    |ds| == |dsts| && forall k | 0 <= k < |ds| :: DagFor(ds[k], g, dsts[k], rule, N)
  }

  /** The DAGs of all destinations, from nodes in any state. */
  method BuildDags(g: Graph, asNodes: map<Asn, AsNode>, ghost objects: set<AsNode>, dsts: seq<Asn>, readOnly: bool, rule: TieRule,
                   lessHarsh: bool, N: nat, rows: nat)
      returns (ok: bool, ds: seq<MiniDestination>)
    requires g.Valid() && (forall dst | dst in dsts :: dst in g.nodes) && (forall v | v in g.nodes :: v < N) && 0 < rows <= 256
    requires asNodes.Keys == g.nodes && Numbered(asNodes, objects)
    modifies objects
    ensures ok <==> Succeeds(g, dsts, rule, rows)
    ensures ok ==> DagsFor(ds, g, dsts, rule, N)
  {
    hide Solves, TooDeep, Collision;
    ds := [];
    for k := 0 to |dsts|
      invariant DagsFor(ds, g, dsts[..k], rule, N) && Succeeds(g, dsts[..k], rule, rows)
    {
      assert dsts[k] in dsts && dsts[..k + 1] == dsts[..k] + [dsts[k]];
      var r := InitMiniDestination(g, asNodes, objects, dsts[k], readOnly, rule, lessHarsh, N, rows);
      if !r.Ready? { return false, ds; }
      ds := ds + [r.d];
    }
    assert dsts[..|dsts|] == dsts;
    ok := true;
  }

  lemma DagsFit(ds: seq<MiniDestination>, g: Graph, dsts: seq<Asn>, setup: Setup, S: seq<bool>)
    requires g.Valid() && (forall dst | dst in dsts :: dst in g.nodes) && DagsFor(ds, g, dsts, setup.rule, |S|)
    requires |S| == |setup.W| <= LOSSLESS && KeysFit(g, setup.rule) && forall n | n in setup.nonStubs :: n < |S|
    ensures AllFit(setup, ds, S)
  {
    hide Solves, Prepared;
    forall d | d in ds ensures setup.Fits(d, S) {
      var k :| 0 <= k < |ds| && ds[k] == d;
      assert dsts[k] in dsts;
      ReadyIsPrepared(d, g, dsts[k], setup.rule, |S|);
    }
  }

  /** One round from the graph.  It fails exactly when some destination's tree is too deep for the table
      or has a hash collision; otherwise S becomes the next state, which `NextStateIsUnique` shows to
      depend on nothing but the graph, the destinations, the parameters and S. */
  method SimulateRound(lib: SimulatorLibrary, g: Graph, asNodes: map<Asn, AsNode>, ghost objects: set<AsNode>, dsts: seq<Asn>,
                       readOnly: bool, lessHarsh: bool, S: array<bool>, setup: Setup, t: Threshold, rows: nat)
      returns (ok: bool, ghost ds: seq<MiniDestination>)
    requires g.Valid() && (forall dst | dst in dsts :: dst in g.nodes) && (forall v | v in g.nodes :: v < S.Length) && 0 < rows <= 256
    requires asNodes.Keys == g.nodes && Numbered(asNodes, objects)
    requires S.Length == |setup.W| <= LOSSLESS && KeysFit(g, setup.rule) && forall n | n in setup.nonStubs :: n < S.Length
    modifies lib, S, objects
    ensures ok <==> Succeeds(g, dsts, setup.rule, rows)
    ensures ok ==> DagsFor(ds, g, dsts, setup.rule, S.Length) && AllFit(setup, ds, old(S[..]))
                   && S[..] == NextState(setup, ds, old(S[..]), t)
    ensures !ok ==> S[..] == old(S[..])
  {
    hide AllFit, NextState, DagsFor, Succeeds, KeysFit;
    var built;
    ok, built := BuildDags(g, asNodes, objects, dsts, readOnly, setup.rule, lessHarsh, S.Length, rows);
    ds := built;
    if ok {
      DagsFit(ds, g, dsts, setup, S[..]);
      assert forall d | d in ds :: setup.Fits(d, S[..]) by { FitsOfAll(setup, ds, S[..]); }
      lib.Round(built, S, setup, t);
    }
  }

  lemma FitsOfAll(setup: Setup, ds: seq<MiniDestination>, S: seq<bool>)
    requires AllFit(setup, ds, S)
    ensures forall d | d in ds :: setup.Fits(d, S)
  {
  }

  // ---- The next state depends on the graph alone

  /** The same DAG, but for the order within the cells of the bucket table. */
  ghost predicate SameDag(d: MiniDestination, d': MiniDestination) {
    && d.Valid() && d'.Valid()
    && d.best == d'.best && d.l == d'.l && d.bestRelation == d'.bestRelation && d.destination == d'.destination
  }

  /** A sorted list is determined by its elements. */
  lemma {:induction false} SortedIsUnique(rule: TieRule, i: Asn, a: seq<Asn>, b: seq<Asn>)
    requires rule.Sorts(i, a) && rule.Sorts(i, b) && forall p :: p in a <==> p in b
    ensures a == b
  {
    EmptyTogether(a, b);
    if a != [] {
      rule.FirstIsLeast(i, a);
      rule.FirstIsLeast(i, b);
      assert a[0] in b && b[0] in a;
      rule.LeastIsUnique(i, a, a[0], b[0]);
      forall p ensures p in a[1..] <==> p in b[1..] {
        Tail(rule, i, a, p);
        Tail(rule, i, b, p);
      }
      SortedIsUnique(rule, i, a[1..], b[1..]);
      assert a == [a[0]] + a[1..] && b == [b[0]] + b[1..];
    }
  }

  lemma EmptyTogether(a: seq<Asn>, b: seq<Asn>)
    requires forall p :: p in a <==> p in b
    ensures a == [] <==> b == []
  {
    if a != [] { assert a[0] in b; }
    if b != [] { assert b[0] in a; }
  }

  lemma Tail(rule: TieRule, i: Asn, a: seq<Asn>, p: Asn)
    requires rule.Sorts(i, a) && a != []
    ensures p in a[1..] <==> p in a && p != a[0]
  {
    assert a == [a[0]] + a[1..];
  }

  /** A graph, a destination and a tie-break have one sorted DAG. */
  lemma DagIsUnique(d: MiniDestination, d': MiniDestination, g: Graph, dst: Asn, rule: TieRule, N: nat)
    requires DagFor(d, g, dst, rule, N) && DagFor(d', g, dst, rule, N)
    ensures SameDag(d, d')
  {
    StableIsUnique(g, dst, Routes(d), Routes(d'));
    forall i: Asn | i < N ensures d.best[i] == d'.best[i] && d.l[i] == d'.l[i] && d.bestRelation[i] == d'.bestRelation[i] {
      assert d.NodeValid(i) && d'.NodeValid(i);
      assert i in Routes(d) <==> i in Routes(d');
      if d.Reached(i) && i != dst {
        assert Routes(d)[i] == Routes(d')[i];
        forall p ensures p in d.Parents(i) <==> p in d'.Parents(i) {
          assert p in d.Parents(i) <==> OffersBest(g, Routes(d), p, i);
          assert p in d'.Parents(i) <==> OffersBest(g, Routes(d'), p, i);
        }
        assert rule.Sorts(i, d.Parents(i)) && rule.Sorts(i, d'.Parents(i));
        SortedIsUnique(rule, i, d.Parents(i), d'.Parents(i));
      }
    }
  }

  lemma {:induction false} DagSecure(d: MiniDestination, d': MiniDestination, S: seq<bool>, i: Asn)
    requires SameDag(d, d') && Sized(d, S)
    ensures Secure(d, S, i) <==> Secure(d', S, i)
    decreases if i < |d.l| then d.l[i] else 0
  {
    assert d.Parents(i) == d'.Parents(i) && d.NodeValid(i);
    if d.Reached(i) && i != d.destination {
      forall p | p in d.Parents(i) ensures Secure(d, S, p) <==> Secure(d', S, p) {
        DagSecure(d, d', S, p);
      }
    }
  }

  lemma DagParent(d: MiniDestination, d': MiniDestination, rule: TieRule, S: seq<bool>, i: Asn)
    requires SameDag(d, d') && Sized(d, S) && d.Separated(rule) && d.Reached(i)
    ensures Parent(d, rule, S, i) == Parent(d', rule, S, i)
  {
    assert d.Parents(i) == d'.Parents(i);
    forall p ensures Candidate(d, S, i, p) <==> Candidate(d', S, i, p) {
      forall q ensures Secure(d, S, q) <==> Secure(d', S, q) {
        DagSecure(d, d', S, q);
      }
    }
    ChoiceIsUnique(d, rule, S, i, Parent(d, rule, S, i), Parent(d', rule, S, i));
  }

  lemma {:induction false} DagVia(d: MiniDestination, d': MiniDestination, rule: TieRule, S: seq<bool>, n: Asn, i: Asn)
    requires SameDag(d, d') && Sized(d, S) && d.Separated(rule) && d.Reached(i)
    ensures Via(d, rule, S, n, i) == Via(d', rule, S, n, i)
    decreases d.l[i]
  {
    if i != d.destination {
      DagParent(d, d', rule, S, i);
      DagVia(d, d', rule, S, n, Parent(d, rule, S, i));
    }
  }

  lemma {:induction false} DagLoad(d: MiniDestination, d': MiniDestination, rule: TieRule, S: seq<bool>, W: seq<nat>, count: nat, n: Asn, col: nat)
    requires SameDag(d, d') && Sized(d, S) && d.Separated(rule) && count <= |d.best| == |W|
    ensures LoadVia(d, rule, S, W, count, n, col) == LoadVia(d', rule, S, W, count, n, col)
  {
    hide Via, Secure;
    if count > 0 {
      DagLoad(d, d', rule, S, W, count - 1, n, col);
      if d.Reached(count - 1) { DagVia(d, d', rule, S, n, count - 1); }
    }
  }

  lemma DagUtility(d: MiniDestination, d': MiniDestination, rule: TieRule, S: seq<bool>, W: seq<nat>, u: Utility, n: Asn)
    requires SameDag(d, d') && Sized(d, S) && d.Separated(rule) && |W| == |d.best| && n < |W|
    ensures UtilityUnder(d, rule, S, W, u, n) == UtilityUnder(d', rule, S, W, u, n)
  {
    DagLoad(d, d', rule, S, Ones(|W|), |W|, n, PROVIDER_COLUMN);
    DagLoad(d, d', rule, S, W, |W|, n, PROVIDER_COLUMN);
    DagLoad(d, d', rule, S, W, |W|, n, PEER_COLUMN);
    DagLoad(d, d', rule, S, W, |W|, n, CUSTOMER_COLUMN);
  }

  lemma {:induction false} SumsAgree(setup: Setup, g: Graph, dsts: seq<Asn>, ds: seq<MiniDestination>, ds': seq<MiniDestination>, S: seq<bool>, n: Asn)
    requires AllFit(setup, ds, S) && AllFit(setup, ds', S) && n < |S|
    requires DagsFor(ds, g, dsts, setup.rule, |S|) && DagsFor(ds', g, dsts, setup.rule, |S|)
    ensures SumBefore(setup, ds, S, n) == SumBefore(setup, ds', S, n)
    ensures SumAfter(setup, ds, S, n) == SumAfter(setup, ds', S, n)
  {
    hide Solves, UtilityUnder, Prepared;
    if ds != [] {
      var k := |ds| - 1;
      SumsAgree(setup, g, dsts[..k], ds[..k], ds'[..k], S, n);
      assert ds[k] in ds && ds'[k] in ds';
      ResultsAgree(setup, g, dsts[k], ds[k], ds'[k], S, n);
    }
  }

  lemma ResultsAgree(setup: Setup, g: Graph, dst: Asn, d: MiniDestination, d': MiniDestination, S: seq<bool>, n: Asn)
    requires setup.Fits(d, S) && setup.Fits(d', S) && n < |S|
    requires DagFor(d, g, dst, setup.rule, |S|) && DagFor(d', g, dst, setup.rule, |S|)
    ensures setup.Before(d, S, n) == setup.Before(d', S, n) && setup.After(d, S, n) == setup.After(d', S, n)
  {
    hide UtilityUnder;
    DagIsUnique(d, d', g, dst, setup.rule, |S|);
    DagUtility(d, d', setup.rule, S, setup.W, setup.utility, n);
    DagUtility(d, d', setup.rule, Flip(S, n), setup.W, setup.utility, n);
  }

  /** Whichever DAGs of a graph a round works on, it reaches the same state. */
  lemma NextStateIsUnique(setup: Setup, g: Graph, dsts: seq<Asn>, ds: seq<MiniDestination>, ds': seq<MiniDestination>, S: seq<bool>, t: Threshold)
    requires AllFit(setup, ds, S) && AllFit(setup, ds', S)
    requires DagsFor(ds, g, dsts, setup.rule, |S|) && DagsFor(ds', g, dsts, setup.rule, |S|)
    ensures NextState(setup, ds, S, t) == NextState(setup, ds', S, t)
  {
    hide Threshold.Exceeded;
    forall n: Asn | n < |S| ensures Flips(setup, ds, S, t, n) <==> Flips(setup, ds', S, t, n) {
      SumsAgree(setup, g, dsts, ds, ds', S, n);
    }
  }
}
