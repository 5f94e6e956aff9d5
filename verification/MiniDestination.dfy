/** The routing DAG of one destination, as the BFS leaves it (StateStructures.cs). */
module MiniDestination {
  import opened Wrappers
  import opened Topology
  import opened GaoRexford
  import opened TieBreak
  import opened BfsState

  datatype MiniDestination = MiniDestination(bucketTable: Bucket, best: seq<Option<seq<Asn>>>,
                                             bestRelation: seq<nat>, l: seq<nat>, destination: Asn)
  {
    predicate Reached(i: Asn) {
      i < |best| && best[i].Some?
    }

    function Parents(i: Asn): seq<Asn> {
      if Reached(i) then best[i].value else []
    }

    /** The destination is its own parent; every other AS has parents one row closer, and only a
        provider route is learnt from an AS that has no customer route. */
    ghost predicate NodeValid(i: Asn)
      requires |best| == |bestRelation| == |l|
    {
      i < |best| ==>
        if i == destination then best[i] == Some([i]) && l[i] == 0 && bestRelation[i] == CUSTOMER_COLUMN
        else if Reached(i) then
          && 1 <= l[i] < |bucketTable| && bestRelation[i] <= PROVIDER_COLUMN
          && Parents(i) != [] && NoDup(Parents(i))
          && forall p | p in Parents(i) :: Reached(p) && l[p] + 1 == l[i]
               && (bestRelation[i] == PROVIDER_COLUMN || bestRelation[p] == CUSTOMER_COLUMN)
        else l[i] == 0 && bestRelation[i] == CUSTOMER_COLUMN
    }

    ghost predicate CellValid(row: nat, col: nat)
      requires |best| == |bestRelation| == |l| && row < |bucketTable| && col < |bucketTable[row]|
    {
      var cell := bucketTable[row][col];
      && (cell.Some? ==> cell.value != []) && NoDup(Listed(cell))
      && (forall i: Asn :: i in Listed(cell) <==> Reached(i) && l[i] == row && bestRelation[i] == col)
    }

    ghost predicate Valid() {
      && |best| == |bestRelation| == |l| && destination < |best| && BucketShape(bucketTable)
      && (forall i: Asn {:trigger NodeValid(i)} :: NodeValid(i))
      && (forall row: nat, col: nat {:trigger CellValid(row, col)} | row < |bucketTable| && col < 3 :: CellValid(row, col))
    }

    /** Every Best list is sorted by the tie-break. */
    ghost predicate Sorted(rule: TieRule) {
      forall i: Asn {:trigger rule.Sorts(i, Parents(i))} :: rule.Sorts(i, Parents(i))
    }

    /** The tie-break never leaves a choice open. */
    ghost predicate Separated(rule: TieRule) {
      forall i: Asn {:trigger rule.Separates(i, Parents(i))} :: rule.Separates(i, Parents(i))
    }

    /** The same DAG, but for the order of the Best lists. */
    ghost predicate SameUpToOrder(d: MiniDestination) {
      && d == this.(best := d.best) && |d.best| == |best|
      && forall i: Asn {:trigger d.Parents(i)} :: (d.Reached(i) <==> Reached(i)) && |d.Parents(i)| == |Parents(i)|
           && NoDup(d.Parents(i)) && forall p :: p in d.Parents(i) <==> p in Parents(i)
    }
  }

  /** The routing a DAG stands for. */
  function Routes(d: MiniDestination): Routing
    requires |d.best| == |d.bestRelation| == |d.l|
  {
    map i: Asn | 0 <= i < |d.best| && d.Reached(i) :: Route(d.bestRelation[i], d.l[i])
  }

  /** `u` offers `v` the route that `v` holds. */
  ghost predicate OffersBest(g: Graph, R: Routing, u: Asn, v: Asn) {
    v in R && exists r :: Offers(g, R, r, u, v, R[v])
  }

  /** The DAG is that of the stable routing: class, depth and Best sets are all exact. */
  ghost predicate Solves(d: MiniDestination, g: Graph) {
    && d.Valid() && Stable(g, d.destination, Routes(d))
    && (forall u: Asn, v: Asn {:trigger OffersBest(g, Routes(d), u, v)} | d.Reached(v) && v != d.destination ::
          u in d.Parents(v) <==> OffersBest(g, Routes(d), u, v))
  }

  /** Reordering the Best lists keeps a DAG valid. */
  lemma ReorderedIsValid(d: MiniDestination, d': MiniDestination)
    requires d.Valid() && d.SameUpToOrder(d')
    ensures d'.Valid()
  {
    forall i: Asn ensures d'.NodeValid(i) {
      assert d.NodeValid(i);
      if d.Reached(i) {
        assert |d'.Parents(i)| == |d.Parents(i)| && d'.Reached(i);
        assert d'.Parents(i) == d'.best[i].value && d.Parents(i) == d.best[i].value;
        if i == d.destination {
          assert d'.best[i].value[0] in d.Parents(i);
          assert d'.best[i].value == [i];
        } else {
          forall p | p in d'.Parents(i) ensures d'.Reached(p) {
            assert p in d.Parents(i) && d.Reached(p);
            assert d'.Parents(p) == d'.Parents(p);
          }
        }
      } else {
        assert d'.Parents(i) == [];
      }
    }
    forall row: nat, col: nat | row < |d'.bucketTable| && col < 3 ensures d'.CellValid(row, col) {
      assert d.CellValid(row, col);
      forall i: Asn ensures d.Reached(i) <==> d'.Reached(i) {
        assert d'.Parents(i) == d'.Parents(i);
      }
    }
  }

  /** The first cell of the bucket table holds the destination alone. */
  lemma SourceCell(d: MiniDestination)
    requires d.Valid()
    ensures d.bucketTable[0][0].Some? && d.bucketTable[0][0].value != [] && d.bucketTable[0][0].value[0] == d.destination
  {
    assert d.CellValid(0, 0) && d.NodeValid(d.destination);
    assert d.destination in Listed(d.bucketTable[0][0]);
    var i := d.bucketTable[0][0].value[0];
    assert i in Listed(d.bucketTable[0][0]) && d.NodeValid(i);
  }

  lemma ValidNoDup(d: MiniDestination)
    requires d.Valid()
    ensures forall i: Asn :: NoDup(d.Parents(i))
  {
    forall i: Asn ensures NoDup(d.Parents(i)) {
      assert d.NodeValid(i);
    }
  }
}
