/** Valley-free walks, and what a stable routing says about them. */
module ValleyFree {
  import opened Topology
  import opened GaoRexford

  /** What may follow a hop learnt over column `a`: only a provider's routes carry on upwards. */
  predicate Legal(a: nat, b: nat) {
    a == PROVIDER_COLUMN || b == CUSTOMER_COLUMN
  }

  ghost predicate PairwiseLegal(cols: seq<nat>) {
    forall i :: 0 <= i < |cols| - 1 ==> Legal(cols[i], cols[i + 1])
  }

  /** `cols` is provider* peer? customer*, with `up` provider hops and `flat` peer hops. */
  ghost predicate HasShape(cols: seq<nat>, up: nat, flat: nat) {
    && flat <= 1 && up + flat <= |cols|
    && (forall i | 0 <= i < up :: cols[i] == PROVIDER_COLUMN)
    && (forall i | up <= i < up + flat :: cols[i] == PEER_COLUMN)
    && (forall i | up + flat <= i < |cols| :: cols[i] == CUSTOMER_COLUMN)
  }

  ghost predicate Shaped(cols: seq<nat>) {
    exists up: nat, flat: nat :: HasShape(cols, up, flat)
  }

  /** The pairwise export check is the global shape provider* peer? customer*. */
  lemma {:induction false} PairwiseIsShape(cols: seq<nat>)
    requires forall c | c in cols :: c <= PROVIDER_COLUMN
    ensures PairwiseLegal(cols) <==> Shaped(cols)
  {
    if Shaped(cols) {
      var up: nat, flat: nat :| HasShape(cols, up, flat);
      assert PairwiseLegal(cols);
    } else if |cols| > 0 && PairwiseLegal(cols) {
      var rest := cols[1..];
      assert cols == [cols[0]] + rest;
      assert PairwiseLegal(rest) by {
        forall i | 0 <= i < |rest| - 1 ensures Legal(rest[i], rest[i + 1]) {
          assert Legal(cols[i + 1], cols[i + 2]);
        }
      }
      assert forall c | c in rest :: c in cols;
      PairwiseIsShape(rest);
      var up: nat, flat: nat :| HasShape(rest, up, flat);
      if cols[0] == PROVIDER_COLUMN {
        assert HasShape(cols, up + 1, flat);
      } else {
        assert |rest| > 0 ==> rest[0] == CUSTOMER_COLUMN by {
          assert |rest| > 0 ==> Legal(cols[0], cols[1]);
        }
        assert up + flat == 0;
        assert cols[0] in cols;
        assert HasShape(cols, 0, cols[0]);
      }
    } else {
      assert cols == [] ==> HasShape(cols, 0, 0);
    }
  }

  /** Step i of the walk goes from p[i] to p[i + 1], which has the relationship rels[i] to p[i]. */
  datatype Walk = Walk(p: seq<Asn>, rels: seq<Relationship>)
  {
    ghost predicate From(g: Graph, v: Asn, dst: Asn) {
      && |p| == |rels| + 1 && p[0] == v && p[|rels|] == dst
      && (forall i | 0 <= i < |rels| :: p[i] in g.Neighbors(rels[i], p[i + 1]))
    }

    function Columns(): (cols: seq<nat>)
      ensures |cols| == |rels|
      ensures forall i | 0 <= i < |cols| :: cols[i] == ColumnOf(rels[i])
    {
      seq(|rels|, i requires 0 <= i < |rels| => ColumnOf(rels[i]))
    }

    ghost predicate ValleyFree(g: Graph, v: Asn, dst: Asn) {
      From(g, v, dst) && Shaped(Columns())
    }

    ghost predicate LegalFrom(g: Graph, v: Asn, dst: Asn) {
      From(g, v, dst) && PairwiseLegal(Columns())
    }
  }

  lemma LegalIsValleyFree(g: Graph, w: Walk, v: Asn, dst: Asn)
    ensures w.LegalFrom(g, v, dst) <==> w.ValleyFree(g, v, dst)
  {
    PairwiseIsShape(w.Columns());
  }

  /** Every route is realised by a valley-free walk of its length that starts in its class. */
  lemma {:induction false} RouteHasWalk(g: Graph, dst: Asn, R: Routing, v: Asn) returns (w: Walk)
    requires Stable(g, dst, R) && v in R
    ensures w.LegalFrom(g, v, dst) && |w.rels| == R[v].depth
    ensures v != dst ==> |w.rels| > 0 && w.Columns()[0] == R[v].col
    decreases R[v].depth
  {
    if v == dst {
      return Walk([dst], []);
    }
    assert StableAt(g, R, v);
    var r, u :| Offers(g, R, r, u, v, R[v]);
    var w' := RouteHasWalk(g, dst, R, u);
    w := Walk([v] + w'.p, [r] + w'.rels);
    assert forall i | 0 <= i < |w'.rels| :: w'.p[i] in g.Neighbors(w'.rels[i], w'.p[i + 1]);
    var cols, cols' := w.Columns(), w'.Columns();
    assert cols == [ColumnOf(r)] + cols';
    forall i | 0 <= i < |cols| - 1 ensures Legal(cols[i], cols[i + 1]) {
      if i > 0 { assert Legal(cols'[i - 1], cols'[i]); }
    }
  }

  /** A valley-free walk guarantees a route at least as good in class and, when the walk starts
      with a customer or a peer and the class is the same, no longer than the walk. */
  lemma {:induction false} WalkHasRoute(g: Graph, dst: Asn, R: Routing, v: Asn, w: Walk)
    requires Stable(g, dst, R) && w.LegalFrom(g, v, dst)
    ensures v in R
    ensures w.rels == [] ==> v == dst
    ensures w.rels != [] ==> R[v].col <= w.Columns()[0]
    ensures w.rels != [] && R[v].col == w.Columns()[0] != PROVIDER_COLUMN ==> R[v].depth <= |w.rels|
    decreases |w.rels|
  {
    if w.rels != [] && v != dst {
      var w' := Walk(w.p[1..], w.rels[1..]);
      var u := w'.p[0];
      var cols, cols' := w.Columns(), w'.Columns();
      assert cols == [cols[0]] + cols';
      assert w'.LegalFrom(g, u, dst) by {
        forall i | 0 <= i < |cols'| - 1 ensures Legal(cols'[i], cols'[i + 1]) {
          assert Legal(cols[i + 1], cols[i + 2]);
        }
      }
      WalkHasRoute(g, dst, R, u, w');
      assert w'.rels != [] ==> Legal(cols[0], cols[1]);
      var o := Route(cols[0], R[u].depth + 1);
      assert Offers(g, R, w.rels[0], u, v, o) by {
        assert v in g.Neighbors(w.rels[0], u);
      }
      assert StableAt(g, R, v) && Offered(g, R, v, o);
    }
  }

  /** An AS is reached exactly when a valley-free walk leads from it to the destination. */
  lemma ReachIsExact(g: Graph, dst: Asn, R: Routing, v: Asn)
    requires Stable(g, dst, R)
    ensures v in R <==> exists w: Walk :: w.ValleyFree(g, v, dst)
  {
    if v in R {
      var w := RouteHasWalk(g, dst, R, v);
      LegalIsValleyFree(g, w, v, dst);
    }
    if w: Walk :| w.ValleyFree(g, v, dst) {
      LegalIsValleyFree(g, w, v, dst);
      WalkHasRoute(g, dst, R, v, w);
    }
  }

  /** The destination reaches `v` going only from customers to providers, after one peer hop if `flat`. */
  ghost predicate Uphill(g: Graph, w: Walk, v: Asn, dst: Asn, flat: bool) {
    && w.From(g, v, dst) && (flat ==> w.rels != [])
    && forall i | 0 <= i < |w.rels| :: w.Columns()[i] == if i == 0 && flat then PEER_COLUMN else CUSTOMER_COLUMN
  }

  lemma UphillIsLegal(g: Graph, w: Walk, v: Asn, dst: Asn, flat: bool)
    requires Uphill(g, w, v, dst, flat)
    ensures w.LegalFrom(g, v, dst)
  {
  }

  lemma {:induction false} LegalIsUphill(g: Graph, w: Walk, v: Asn, dst: Asn)
    requires w.LegalFrom(g, v, dst) && (w.rels != [] ==> w.Columns()[0] < PROVIDER_COLUMN)
    ensures Uphill(g, w, v, dst, w.rels != [] && w.Columns()[0] == PEER_COLUMN)
  {
    var cols := w.Columns();
    var i := 1;
    while i < |cols|
      invariant 1 <= i && forall j | 1 <= j < i && j < |cols| :: cols[j] == CUSTOMER_COLUMN
    {
      assert Legal(cols[i - 1], cols[i]);
      i := i + 1;
    }
  }

  /** The customer routes are the shortest purely uphill walks, and the peer routes the shortest
      walks with one peer hop below them where there is none. */
  lemma UphillIsExact(g: Graph, dst: Asn, R: Routing, v: Asn)
    requires Stable(g, dst, R)
    ensures v in R && R[v].col == CUSTOMER_COLUMN <==> exists w :: Uphill(g, w, v, dst, false)
    ensures v in R && R[v].col == PEER_COLUMN <==>
              (!exists w :: Uphill(g, w, v, dst, false)) && exists w :: Uphill(g, w, v, dst, true)
    ensures v in R && R[v].col < PROVIDER_COLUMN ==>
              && (exists w :: Uphill(g, w, v, dst, R[v].col == PEER_COLUMN) && |w.rels| == R[v].depth)
              && forall w | Uphill(g, w, v, dst, R[v].col == PEER_COLUMN) :: R[v].depth <= |w.rels|
  {
    forall w, flat | Uphill(g, w, v, dst, flat)
      ensures v in R && R[v].col <= (if flat then PEER_COLUMN else CUSTOMER_COLUMN)
      ensures R[v].col == (if flat then PEER_COLUMN else CUSTOMER_COLUMN) ==> R[v].depth <= |w.rels|
    {
      UphillIsLegal(g, w, v, dst, flat);
      WalkHasRoute(g, dst, R, v, w);
    }
    if v in R && R[v].col < PROVIDER_COLUMN {
      var w := RouteHasWalk(g, dst, R, v);
      LegalIsUphill(g, w, v, dst);
      assert Uphill(g, w, v, dst, R[v].col == PEER_COLUMN);
    }
  }
}
