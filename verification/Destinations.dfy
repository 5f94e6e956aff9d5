/** `Destination`: the paths chosen under a security state, and the transit utility they give
    (Destination.cs). */
module Destinations {
  import opened Wrappers
  import opened Topology
  import opened TieBreak
  import opened BfsState
  import opened MiniDestination
  import opened SecurePaths
  import opened Utilities

  /** The tie-break settles every choice, and no key is the number `tieBreak` starts from. */
  ghost predicate Decides(rule: TieRule, d: MiniDestination) {
    d.Separated(rule) && forall i: Asn, p | p in d.Parents(i) :: rule.Key(i, p) < UINT32_MAX
  }

  class Destination {
    const d: MiniDestination
    const rule: TieRule
    const SecP: array<bool>
    const ChosenParent: array<Asn>
    const ChosenPath: array<Option<seq<nat>>>
    const U: array<nat>

    constructor (d: MiniDestination, rule: TieRule)
      requires d.Valid() && Decides(rule, d)
      ensures this.d == d && this.rule == rule && Valid()
      ensures fresh(SecP) && fresh(ChosenParent) && fresh(ChosenPath) && fresh(U)
    {
      assert d.NodeValid(d.destination);
      this.d, this.rule := d, rule;
      SecP := new bool[|d.best|](_ => false);
      var parents := new Asn[|d.best|](_ => 0);
      var paths := new Option<seq<nat>>[|d.best|](_ => None);
      U := new nat[|d.best|](_ => 0);
      parents[d.destination] := d.destination;
      paths[d.destination] := Some([d.destination]);
      ChosenParent, ChosenPath := parents, paths;
    }

    ghost predicate Valid()
      reads ChosenParent, ChosenPath
    {
      && d.Valid() && Decides(rule, d)
      && SecP.Length == ChosenParent.Length == ChosenPath.Length == U.Length == |d.best| && U != ChosenParent
      && ChosenParent[d.destination] == d.destination && ChosenPath[d.destination] == Some([d.destination])
      && (forall j | 0 <= j < |d.best| && !d.Reached(j) :: ChosenPath[j].None?)
    }

    /** The entries of `i` are those the state S determines. */
    ghost predicate UpToDate(S: seq<bool>, i: Asn)
      requires Sized(d, S) && SecP.Length == ChosenParent.Length == ChosenPath.Length == |d.best|
      reads SecP, ChosenParent, ChosenPath
    {
      d.Reached(i) ==>
        && (SecP[i] <==> Secure(d, S, i))
        && ChosenParent[i] == Parent(d, rule, S, i)
        && ChosenPath[i] == Some(PathOf(d, rule, S, i))
    }

    ghost predicate AllUpToDate(S: seq<bool>)
      requires Sized(d, S) && SecP.Length == ChosenParent.Length == ChosenPath.Length == |d.best|
      reads SecP, ChosenParent, ChosenPath
    {
      forall i: Asn {:trigger UpToDate(S, i)} :: UpToDate(S, i)
    }

    /** The parents `i` chooses among. */
    method TieBreakSet(S: array<bool>, i: Asn) returns (list: seq<Asn>)
      requires Valid() && S.Length == |d.best| && d.Reached(i) && i != d.destination
      requires forall p | p in d.Parents(i) :: UpToDate(S[..], p)
      ensures forall p :: p in list <==> Candidate(d, S[..], i, p)
    {
      var parents := d.Parents(i);
      assert d.NodeValid(i);
      if S[i] {
        list := [];
        for j := 0 to |parents|
          invariant forall p :: p in list <==> p in parents[..j] && Secure(d, S[..], p)
        {
          assert parents[..j + 1] == parents[..j] + [parents[j]];
          assert UpToDate(S[..], parents[j]);
          if SecP[parents[j]] {
            list := list + [parents[j]];
          }
        }
        assert parents[..|parents|] == parents;
        if |list| == 0 {
          assert forall p | p in parents :: p !in list;
          list := parents;
        } else {
          assert list[0] in list;
        }
      } else {
        list := parents;
      }
    }

    /** One AS of the bucket table, once its parents have been dealt with. */
    method UpdateNode(S: array<bool>, i: Asn, col: nat)
      requires Valid() && S.Length == |d.best| && S != SecP && d.Reached(i) && i != d.destination && col == d.bestRelation[i]
      requires forall p | p in d.Parents(i) :: UpToDate(S[..], p)
      modifies SecP, ChosenParent, ChosenPath
      ensures Valid() && UpToDate(S[..], i)
      ensures forall j | 0 <= j < |d.best| && j != i ::
                SecP[j] == old(SecP[j]) && ChosenParent[j] == old(ChosenParent[j]) && ChosenPath[j] == old(ChosenPath[j])
    {
      var list := TieBreakSet(S, i);
      assert d.NodeValid(i);
      var newParent := rule.Choose(i, list);
      ghost var q := Parent(d, rule, S[..], i);
      assert q in list && rule.Key(i, q) < UINT32_MAX;
      ChoiceIsUnique(d, rule, S[..], i, newParent, q);
      SecureByParent(d, rule, S[..], i);
      assert UpToDate(S[..], newParent);
      ChosenPath[i] := Some(UpdatedPath(i, ChosenPath[newParent], col));
      ChosenParent[i] := newParent;
      SecP[i] := SecP[newParent] && S[i];
    }

    /** The ASes that come before cell (row, col) of the bucket table. */
    ghost predicate Before(row: nat, col: nat, i: Asn)
      requires d.Valid()
    {
      d.Reached(i) && (d.l[i] < row || (d.l[i] == row && d.bestRelation[i] < col))
    }

    ghost predicate DoneBefore(S: seq<bool>, row: nat, col: nat)
      requires Sized(d, S) && SecP.Length == ChosenParent.Length == ChosenPath.Length == |d.best|
      reads SecP, ChosenParent, ChosenPath
    {
      forall i: Asn {:trigger UpToDate(S, i)} | Before(row, col, i) :: UpToDate(S, i)
    }

    /** The entries of ASes the destination does not reach are left alone. */
    twostate predicate OthersKept()
      requires Valid()
      reads SecP, ChosenParent, ChosenPath
    {
      forall j | 0 <= j < |d.best| && !d.Reached(j) ::
        SecP[j] == old(SecP[j]) && ChosenParent[j] == old(ChosenParent[j]) && ChosenPath[j] == old(ChosenPath[j])
    }

    method UpdateCell(S: array<bool>, row: nat, col: nat)
      requires Valid() && S.Length == |d.best| && S != SecP && 1 <= row < |d.bucketTable| && col < 3
      requires DoneBefore(S[..], row, col)
      modifies SecP, ChosenParent, ChosenPath
      ensures Valid() && DoneBefore(S[..], row, col + 1) && OthersKept()
    {
      assert d.CellValid(row, col) && d.NodeValid(d.destination);
      if d.bucketTable[row][col].Some? {
        var cell := d.bucketTable[row][col].value;
        for j := 0 to |cell|
          invariant Valid() && OthersKept()
          invariant forall i: Asn {:trigger UpToDate(S[..], i)} | Before(row, col, i) || i in cell[..j] :: UpToDate(S[..], i)
        {
          var i := cell[j];
          assert i in cell && d.NodeValid(i);
          assert cell[..j + 1] == cell[..j] + [i];
          forall p | p in d.Parents(i) ensures UpToDate(S[..], p) {
            assert Before(row, col, p);
          }
          label L:
          UpdateNode(S, i, col);
          forall x: Asn | Before(row, col, x) || x in cell[..j + 1] ensures UpToDate(S[..], x) {
            if x != i { assert old@L(UpToDate(S[..], x)); }
          }
        }
        assert cell[..|cell|] == cell;
      }
    }

    /** Row 0: the destination has a secure path to itself when it is in S. */
    method UpdateSource(S: array<bool>)
      requires Valid() && S.Length == |d.best| && S != SecP
      modifies SecP
      ensures DoneBefore(S[..], 1, 0)
      ensures forall j | 0 <= j < |d.best| && j != d.destination :: SecP[j] == old(SecP[j])
    {
      assert d.CellValid(0, 0) && d.NodeValid(d.destination);
      assert d.bucketTable[0][0].Some? by { assert d.destination in Listed(d.bucketTable[0][0]); }
      var cell := d.bucketTable[0][0].value;
      forall n: Asn | d.Reached(n) && d.l[n] == 0 ensures n == d.destination {
        assert d.NodeValid(n);
      }
      for i := 0 to |d.bucketTable[0]|
        invariant i > 0 ==> SecP[d.destination] == S[d.destination]
        invariant forall j | 0 <= j < |d.best| && j != d.destination :: SecP[j] == old(SecP[j])
      {
        for k := 0 to |cell|
          invariant d.destination in cell[..k] || i > 0 ==> SecP[d.destination] == S[d.destination]
          invariant forall j | 0 <= j < |d.best| && j != d.destination :: SecP[j] == old(SecP[j])
        {
          assert cell[k] in cell;
          if S[cell[k]] { SecP[cell[k]] := true; } else { SecP[cell[k]] := false; }
        }
        assert cell[..|cell|] == cell;
      }
    }

    method UpdateRow(S: array<bool>, row: nat)
      requires Valid() && S.Length == |d.best| && S != SecP && 1 <= row < |d.bucketTable|
      requires DoneBefore(S[..], row, 0)
      modifies SecP, ChosenParent, ChosenPath
      ensures Valid() && DoneBefore(S[..], row + 1, 0) && OthersKept()
    {
      for col: nat := 0 to |d.bucketTable[0]|
        invariant Valid() && DoneBefore(S[..], row, col) && OthersKept()
      {
        UpdateCell(S, row, col);
      }
      forall i: Asn | Before(row + 1, 0, i) ensures UpToDate(S[..], i) {
        assert d.NodeValid(i) && Before(row, 3, i);
      }
    }

    /** `UpdatePaths`: from any earlier state, every AS the destination reaches ends with the
        security bit, parent and path that S determines. */
    method UpdatePaths(S: array<bool>)
      requires Valid() && S.Length == |d.best| && S != SecP
      modifies SecP, ChosenParent, ChosenPath
      ensures Valid() && AllUpToDate(S[..]) && OthersKept()
    {
      assert d.NodeValid(d.destination);
      UpdateSource(S);
      for row: nat := 1 to |d.bucketTable|
        invariant Valid() && DoneBefore(S[..], row, 0) && OthersKept()
      {
        UpdateRow(S, row);
      }
      forall i: Asn ensures UpToDate(S[..], i) {
        if d.Reached(i) { assert d.NodeValid(i) && Before(|d.bucketTable|, 0, i); }
      }
    }

    /** `ComputeU`: the utility of every AS, counted from the whole paths. */
    method ComputeU(W: seq<nat>, utility: Utility)
      requires Valid() && |W| == |d.best|
      requires forall i | 0 <= i < |d.best| :: InRange(ChosenPath[i], |d.best|)
      modifies U
      ensures forall n: Asn | n < |d.best| :: U[n] == UtilityOf(utility, ChosenPath[..], W, d.destination, d.bestRelation, n)
    {
      hide Loads.Accounts;
      var N := |d.best|;
      var tempU := new Subtrees(N);
      ghost var paths := ChosenPath[..];
      AccountsStart(tempU.View(), paths, W, d.destination);
      for i := 0 to ChosenPath.Length
        invariant fresh(tempU.count) && fresh(tempU.weight) && fresh(tempU.peer) && fresh(tempU.provider)
        invariant tempU.Shape(N) && ChosenPath[..] == paths && Valid()
        invariant forall n: Asn | n < N :: tempU.View().Accounts(paths, W, d.destination, i, n)
      {
        ghost var before, next := tempU.View(), i + 1;
        if ChosenPath[i].Some? {
          tempU.AddPath(ChosenPath[i].value, W[i], d.destination);
        }
        forall n: Asn | n < N ensures tempU.View().Accounts(paths, W, d.destination, next, n) {
          AccountsNext(before, tempU.View(), paths, W, d.destination, i, n);
        }
      }
      FillU(tempU, W, utility);
    }

    method FillU(tempU: Subtrees, W: seq<nat>, utility: Utility)
      requires Valid() && |W| == |d.best| && tempU.Shape(|d.best|)
      requires U != tempU.count && U != tempU.weight && U != tempU.peer && U != tempU.provider
      requires forall n: Asn | n < |d.best| :: tempU.View().Accounts(ChosenPath[..], W, d.destination, |W|, n)
      modifies U
      ensures forall n: Asn | n < |d.best| :: U[n] == UtilityOf(utility, ChosenPath[..], W, d.destination, d.bestRelation, n)
    {
      for i := 0 to U.Length
        invariant forall n: Asn | n < |d.best| :: tempU.View().Accounts(ChosenPath[..], W, d.destination, |W|, n)
        invariant forall n: Asn | n < i :: U[n] == UtilityOf(utility, ChosenPath[..], W, d.destination, d.bestRelation, n)
      {
        assert tempU.View().Accounts(ChosenPath[..], W, d.destination, |W|, i);
        U[i] := utility.Value(tempU.count[i], tempU.weight[i], tempU.peer[i], tempU.provider[i], d.bestRelation[i], W[d.destination]);
      }
    }
  }
}
