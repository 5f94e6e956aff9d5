/** The routing problem the simulator solves: valley-free export and the preference
    customer < peer < provider, then length.  A routing is stable when every AS holds the
    best route its neighbours export to it. */
module GaoRexford {
  import opened Topology

  // The columns of the bucket table double as route classes, best first.
  const CUSTOMER_COLUMN := 0
  const PEER_COLUMN := 1
  const PROVIDER_COLUMN := 2

  datatype Route = Route(col: nat, depth: nat)

  type Routing = map<Asn, Route>

  predicate Better(a: Route, b: Route) {
    a.col < b.col || (a.col == b.col && a.depth < b.depth)
  }

  /** The class a route has at `v` when it is learnt from a neighbour that has the
      relationship `r` to `v`. */
  function ColumnOf(r: Relationship): nat {
    match r
    case CustomerOf => CUSTOMER_COLUMN
    case PeerOf => PEER_COLUMN
    case ProviderTo => PROVIDER_COLUMN
  }

  /** Export rule: everything to customers, only customer routes to peers and providers. */
  predicate Exports(r: Relationship, route: Route) {
    r == ProviderTo || route.col == CUSTOMER_COLUMN
  }

  /** `u` has relationship `r` to `v` and offers it the route `o`. */
  ghost predicate Offers(g: Graph, R: Routing, r: Relationship, u: Asn, v: Asn, o: Route) {
    u in R && v in g.Neighbors(r, u) && Exports(r, R[u]) && o == Route(ColumnOf(r), R[u].depth + 1)
  }

  ghost predicate Offered(g: Graph, R: Routing, v: Asn, o: Route) {
    exists r, u :: Offers(g, R, r, u, v, o)
  }

  /** `v` holds a route exactly when it is offered one, and then the best one offered. */
  ghost predicate StableAt(g: Graph, R: Routing, v: Asn) {
    && (v in R ==> Offered(g, R, v, R[v]))
    && (forall o :: Offered(g, R, v, o) ==> v in R && !Better(o, R[v]))
  }

  ghost predicate Stable(g: Graph, dst: Asn, R: Routing) {
    && dst in R && R[dst] == Route(CUSTOMER_COLUMN, 0)
    && (forall v | v != dst :: StableAt(g, R, v))
  }

  /** R and R' hold exactly the same routes of class `col` and depth `n`. */
  ghost predicate Match(R: Routing, R': Routing, col: nat, n: nat) {
    forall v :: v in R && R[v] == Route(col, n) <==> v in R' && R'[v] == Route(col, n)
  }

  ghost predicate MatchClass(R: Routing, R': Routing, col: nat) {
    forall n: nat :: Match(R, R', col, n)
  }

  ghost predicate MatchBelow(R: Routing, R': Routing, col: nat, n: nat) {
    && (forall m: nat | m < n :: Match(R, R', col, m))
    && (forall c: nat | c < col :: MatchClass(R, R', c))
  }

  lemma Matched(R: Routing, R': Routing, col: nat, n: nat, route: Route)
    requires MatchBelow(R, R', col, n) && Better(route, Route(col, n))
    ensures Match(R, R', route.col, route.depth)
  {
    assert route.col < col ==> MatchClass(R, R', route.col);
  }

  lemma StableColumns(g: Graph, dst: Asn, R: Routing, v: Asn)
    requires Stable(g, dst, R) && v in R
    ensures R[v].col <= PROVIDER_COLUMN
    ensures v != dst ==> R[v].depth > 0
  {
    if v != dst {
      assert StableAt(g, R, v);
    }
  }

  /** A route of R' is one of R when the two routings agree on everything better. */
  lemma CarriesNext(g: Graph, dst: Asn, R: Routing, R': Routing, col: nat, n: nat, v: Asn)
    requires Stable(g, dst, R) && Stable(g, dst, R') && MatchBelow(R, R', col, n)
    requires v in R && R[v] == Route(col, n)
    ensures v in R' && R'[v] == R[v]
  {
    if v != dst {
      assert StableAt(g, R, v);
      var r, u :| Offers(g, R, r, u, v, R[v]);
      StableColumns(g, dst, R, u);
      Matched(R, R', col, n, R[u]);
      assert Offers(g, R', r, u, v, R[v]);
      assert StableAt(g, R', v) && Offered(g, R', v, R[v]);
      if Better(R'[v], R[v]) {
        Matched(R, R', col, n, R'[v]);
      }
    }
  }

  lemma MatchSymmetric(R: Routing, R': Routing, col: nat, n: nat)
    requires MatchBelow(R, R', col, n)
    ensures MatchBelow(R', R, col, n)
  {
    assert forall m: nat | m < n :: Match(R, R', col, m) ==> Match(R', R, col, m);
    forall c: nat | c < col ensures MatchClass(R', R, c) {
      assert MatchClass(R, R', c);
      assert forall m: nat :: Match(R, R', c, m) ==> Match(R', R, c, m);
    }
  }

  lemma MatchNext(g: Graph, dst: Asn, R: Routing, R': Routing, col: nat, n: nat)
    requires Stable(g, dst, R) && Stable(g, dst, R') && MatchBelow(R, R', col, n)
    ensures Match(R, R', col, n)
  {
    MatchSymmetric(R, R', col, n);
    forall v ensures v in R && R[v] == Route(col, n) <==> v in R' && R'[v] == Route(col, n) {
      if v in R && R[v] == Route(col, n) { CarriesNext(g, dst, R, R', col, n, v); }
      if v in R' && R'[v] == Route(col, n) { CarriesNext(g, dst, R', R, col, n, v); }
    }
  }

  lemma {:induction false} MatchUpTo(g: Graph, dst: Asn, R: Routing, R': Routing, col: nat, n: nat)
    requires Stable(g, dst, R) && Stable(g, dst, R') && MatchBelow(R, R', col, 0)
    ensures MatchBelow(R, R', col, n)
  {
    if n > 0 {
      MatchUpTo(g, dst, R, R', col, n - 1);
      MatchNext(g, dst, R, R', col, n - 1);
    }
  }

  lemma {:induction false} MatchClasses(g: Graph, dst: Asn, R: Routing, R': Routing, col: nat)
    requires Stable(g, dst, R) && Stable(g, dst, R')
    ensures MatchBelow(R, R', col, 0)
  {
    if col > 0 {
      var c := col - 1;
      MatchClasses(g, dst, R, R', c);
      forall m: nat ensures Match(R, R', c, m) {
        MatchUpTo(g, dst, R, R', c, m);
        MatchNext(g, dst, R, R', c, m);
      }
      assert MatchClass(R, R', c);
    }
  }

  /** A graph and a destination have at most one stable routing. */
  lemma StableIsUnique(g: Graph, dst: Asn, R: Routing, R': Routing)
    requires Stable(g, dst, R) && Stable(g, dst, R')
    ensures R == R'
  {
    forall v ensures v in R <==> v in R'
             ensures v in R ==> R[v] == R'[v] {
      if v in R {
        MatchClasses(g, dst, R, R', R[v].col);
        MatchUpTo(g, dst, R, R', R[v].col, R[v].depth);
        CarriesNext(g, dst, R, R', R[v].col, R[v].depth, v);
      }
      if v in R' {
        MatchClasses(g, dst, R', R, R'[v].col);
        MatchUpTo(g, dst, R', R, R'[v].col, R'[v].depth);
        CarriesNext(g, dst, R', R, R'[v].col, R'[v].depth, v);
      }
    }
  }

  // ---- Existence

  /** A routing on its way to stability: what is held is the best offered, and nothing offered to an AS
      without a route beats a route already held. */
  ghost predicate Growing(g: Graph, dst: Asn, R: Routing) {
    && dst in R && R[dst] == Route(CUSTOMER_COLUMN, 0) && R.Keys <= g.nodes
    && (forall v | v in R && v != dst :: Offered(g, R, v, R[v]))
    && (forall v, o | Offered(g, R, v, o) && v in R && v != dst :: !Better(o, R[v]))
    && (forall v, o, w | Offered(g, R, v, o) && v !in R && w in R :: !Better(o, R[w]))
  }

  ghost predicate Waiting(g: Graph, R: Routing, v: Asn, o: Route) {
    v !in R && Offered(g, R, v, o)
  }

  /** Among the routes offered to ASes without one there is a best. */
  lemma BestWaiting(g: Graph, R: Routing, v0: Asn, o0: Route) returns (v: Asn, o: Route)
    requires Waiting(g, R, v0, o0)
    ensures Waiting(g, R, v, o) && forall v', o' | Waiting(g, R, v', o') :: !Better(o', o)
    decreases o0.col, o0.depth
  {
    v, o := v0, o0;
    if v', o' :| Waiting(g, R, v', o') && Better(o', o0) {
      v, o := BestWaiting(g, R, v', o');
    }
  }

  /** A route that the new holder passes on is worse than its own. */
  lemma OffersGrow(g: Graph, R: Routing, v: Asn, o: Route, w: Asn, o': Route)
    requires v !in R && o.col <= PROVIDER_COLUMN && Offered(g, R[v := o], w, o')
    ensures Offered(g, R, w, o') || Better(o, o')
  {
    var r, u :| Offers(g, R[v := o], r, u, w, o');
    if u != v { assert Offers(g, R, r, u, w, o'); }
  }

  lemma OffersStay(g: Graph, R: Routing, v: Asn, o: Route, w: Asn, o': Route)
    requires v !in R && Offered(g, R, w, o')
    ensures Offered(g, R[v := o], w, o')
  {
    var r, u :| Offers(g, R, r, u, w, o');
    assert Offers(g, R[v := o], r, u, w, o');
  }

  lemma WaitingIsNode(g: Graph, R: Routing, v: Asn, o: Route)
    requires g.Valid() && Waiting(g, R, v, o)
    ensures v in g.nodes && o.col <= PROVIDER_COLUMN
  {
    var r, u :| Offers(g, R, r, u, v, o);
    assert g.EdgeValid(r, u, v);
  }

  /** After the step no offer beats the route of its receiver, nor, if it has none, any route held. */
  lemma NoBetter(g: Graph, dst: Asn, R: Routing, v: Asn, o: Route, w: Asn, o': Route, x: Asn)
    requires Growing(g, dst, R) && Waiting(g, R, v, o) && o.col <= PROVIDER_COLUMN
    requires forall v', o' | Waiting(g, R, v', o') :: !Better(o', o)
    requires Offered(g, R[v := o], w, o') && w != dst && x in R[v := o] && (w in R[v := o] ==> x == w)
    ensures !Better(o', R[v := o][x])
  {
    hide Offered;
    OffersGrow(g, R, v, o, w, o');
    if Offered(g, R, w, o') {
      if w !in R {
        assert Waiting(g, R, w, o');
      }
    } else if x != v {
      assert !Better(o, R[x]);
    }
  }

  /** Giving the best route on offer to the AS it is offered to keeps a routing on its way. */
  lemma Grows(g: Graph, dst: Asn, R: Routing, v: Asn, o: Route)
    requires g.Valid() && Growing(g, dst, R) && Waiting(g, R, v, o)
    requires forall v', o' | Waiting(g, R, v', o') :: !Better(o', o)
    ensures Growing(g, dst, R[v := o]) && v in g.nodes
  {
    hide Offered;
    WaitingIsNode(g, R, v, o);
    var R' := R[v := o];
    forall w | w in R' && w != dst ensures Offered(g, R', w, R'[w]) {
      OffersStay(g, R, v, o, w, R'[w]);
    }
    forall w, o', x | Offered(g, R', w, o') && w != dst && x in R' && (w in R' ==> x == w) ensures !Better(o', R'[x]) {
      NoBetter(g, dst, R, v, o, w, o', x);
    }
  }

  /** Every graph and destination have a stable routing. */
  lemma StableExists(g: Graph, dst: Asn) returns (R: Routing)
    requires g.Valid() && dst in g.nodes
    ensures Stable(g, dst, R)
  {
    R := map[dst := Route(CUSTOMER_COLUMN, 0)];
    while exists v, o :: Waiting(g, R, v, o)
      invariant Growing(g, dst, R)
      decreases g.nodes - R.Keys
    {
      var v0, o0 :| Waiting(g, R, v0, o0);
      var v, o := BestWaiting(g, R, v0, o0);
      Grows(g, dst, R, v, o);
      assert v in g.nodes - R.Keys && g.nodes - R[v := o].Keys == g.nodes - R.Keys - {v};
      R := R[v := o];
    }
    forall v | v != dst ensures StableAt(g, R, v) {
      assert forall o | Offered(g, R, v, o) :: !Waiting(g, R, v, o);
    }
  }
}
