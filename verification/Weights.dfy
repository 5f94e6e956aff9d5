/** The weights a destination gives the ASes by their distance (SimulatorLibrary.cs). */
module Weights {
  import opened Topology
  import opened MD = MiniDestination

  /** `computeWeight`, with its integer divisions. */
  function ComputeWeight(row: nat, lessHarsh: bool): nat
    requires row > 0
  {
    if !lessHarsh then Tenth(row)
    else if row <= 2 then 10
    else Tenth(row - 2)
  }

  function Tenth(row: nat): nat
    requires row > 0
  {
    10 / row
  }

  lemma TenthFalls(a: nat, b: nat)
    requires 0 < a <= b
    ensures Tenth(b) <= Tenth(a) <= 10 && (Tenth(a) == 0 <==> a > 10)
  {
    var q := 10 / b;
    assert b * q <= 10;
    assert a * q <= b * q;
  }

  /** The weight of an AS: nothing for the destination and for ASes that do not reach it. */
  function WeightOf(d: MiniDestination, i: Asn, lessHarsh: bool): nat
    requires |d.l| == |d.best|
  {
    if d.Reached(i) && i != d.destination && d.l[i] > 0 then ComputeWeight(d.l[i], lessHarsh) else 0
  }

  /** The further away, the lower the weight; 10 at most, and 0 from eleven hops on (thirteen when less harsh). */
  lemma WeightFalls(d: MiniDestination, i: Asn, j: Asn, lessHarsh: bool)
    requires d.Valid() && d.Reached(i) && d.Reached(j) && i != d.destination && j != d.destination && d.l[i] <= d.l[j]
    ensures WeightOf(d, j, lessHarsh) <= WeightOf(d, i, lessHarsh) <= 10
    ensures WeightOf(d, i, lessHarsh) == 0 <==> d.l[i] > if lessHarsh then 12 else 10
  {
    hide ComputeWeight;
    assert d.NodeValid(i) && d.NodeValid(j);
    RowWeightFalls(d.l[i], d.l[j], lessHarsh);
  }

  lemma RowWeightFalls(a: nat, b: nat, lessHarsh: bool)
    requires 0 < a <= b
    ensures ComputeWeight(b, lessHarsh) <= ComputeWeight(a, lessHarsh) <= 10
    ensures ComputeWeight(a, lessHarsh) == 0 <==> a > if lessHarsh then 12 else 10
  {
    hide Tenth;
    if !lessHarsh {
      TenthFalls(a, b);
    } else if a > 2 {
      TenthFalls(a - 2, b - 2);
    } else if b > 2 {
      TenthFalls(b - 2, b - 2);
    }
  }

  /** The ASes in the rows from 1 on that come before cell (row, col). */
  predicate Weighed(d: MiniDestination, row: nat, col: nat, i: Asn)
    requires |d.l| == |d.best| == |d.bestRelation|
  {
    d.Reached(i) && d.l[i] > 0 && (d.l[i] < row || (d.l[i] == row && d.bestRelation[i] < col))
  }

  /** One cell of the bucket table. */
  method WeighCell(d: MiniDestination, w: array<nat>, row: nat, col: nat, lessHarsh: bool)
    requires d.Valid() && w.Length == |d.best| && 1 <= row < |d.bucketTable| && col < 3
    requires forall i: Asn | i < w.Length :: w[i] == if Weighed(d, row, col, i) then ComputeWeight(d.l[i], lessHarsh) else 0
    modifies w
    ensures forall i: Asn | i < w.Length :: w[i] == if Weighed(d, row, col + 1, i) then ComputeWeight(d.l[i], lessHarsh) else 0
  {
    assert d.CellValid(row, col);
    if d.bucketTable[row][col].Some? {
      var cell := d.bucketTable[row][col].value;
      for k := 0 to |cell|
        invariant forall i: Asn | i < w.Length ::
                    w[i] == if Weighed(d, row, col, i) || i in cell[..k] then ComputeWeight(d.l[i], lessHarsh) else 0
      {
        assert cell[k] in cell && cell[..k + 1] == cell[..k] + [cell[k]];
        w[cell[k]] := ComputeWeight(row, lessHarsh);
      }
      assert cell[..|cell|] == cell;
    }
  }

  /** The last step of `initMiniDestination`. */
  method FillWeights(d: MiniDestination, lessHarsh: bool) returns (w: array<nat>)
    requires d.Valid()
    ensures fresh(w) && w.Length == |d.best| && forall i: Asn | i < w.Length :: w[i] == WeightOf(d, i, lessHarsh)
  {
    w := new nat[|d.best|](_ => 0);
    SourceCell(d);
    w[d.bucketTable[0][0].value[0]] := 0;
    for row: nat := 1 to |d.bucketTable|
      invariant forall i: Asn | i < w.Length :: w[i] == if Weighed(d, row, 0, i) then ComputeWeight(d.l[i], lessHarsh) else 0
    {
      for col: nat := 0 to 3
        invariant forall i: Asn | i < w.Length :: w[i] == if Weighed(d, row, col, i) then ComputeWeight(d.l[i], lessHarsh) else 0
      {
        WeighCell(d, w, row, col, lessHarsh);
      }
      forall i: Asn | i < w.Length ensures Weighed(d, row, 3, i) <==> Weighed(d, row + 1, 0, i) {
        assert d.NodeValid(i);
      }
    }
    forall i: Asn | i < w.Length ensures w[i] == WeightOf(d, i, lessHarsh) {
      assert d.NodeValid(i);
    }
  }
}
