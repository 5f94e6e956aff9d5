/** `Worker.ComputeUtility`: what the utility of `n` would be if it flipped its security bit,
    repairing only the rows below `n` (Worker.cs). */
module Workers {
  import opened Wrappers
  import opened Topology
  import opened GaoRexford
  import opened TieBreak
  import opened BfsState
  import opened MiniDestination
  import opened SecurePaths
  import opened Utilities
  import opened Transit

  function Flip(S: seq<bool>, n: Asn): seq<bool> {
    if n < |S| then S[n := !S[n]] else S
  }

  method Clone<T>(a: array<T>) returns (b: array<T>)
    ensures fresh(b) && b.Length == a.Length && forall i | 0 <= i < a.Length :: b[i] == a[i]
  {
    b := new T[a.Length](i requires 0 <= i < a.Length reads a => a[i]);
  }

  /** Flipping `n` touches no AS above it, and no other AS in its row. */
  ghost predicate Spared(d: MiniDestination, n: Asn, i: Asn)
    requires d.Valid()
  {
    d.Reached(i) && d.Reached(n) && i != n && d.l[i] <= d.l[n]
  }

  lemma {:induction false} SparedSecure(d: MiniDestination, S: seq<bool>, n: Asn, i: Asn)
    requires Sized(d, S) && Spared(d, n, i)
    ensures Secure(d, S, i) <==> Secure(d, Flip(S, n), i)
    decreases d.l[i]
  {
    assert d.NodeValid(i);
    if i != d.destination {
      forall p | p in d.Parents(i) ensures Secure(d, S, p) <==> Secure(d, Flip(S, n), p) {
        assert d.l[p] < d.l[i] && d.Reached(p);
        SparedSecure(d, S, n, p);
      }
    }
  }

  /** The parents of `i` are as secure under S' as under S. */
  ghost predicate SameParents(d: MiniDestination, S: seq<bool>, S': seq<bool>, i: Asn)
    requires Sized(d, S) && Sized(d, S')
  {
    forall p | p in d.Parents(i) :: Secure(d, S, p) <==> Secure(d, S', p)
  }

  lemma SameChoice(d: MiniDestination, rule: TieRule, S: seq<bool>, S': seq<bool>, i: Asn)
    requires Sized(d, S) && Sized(d, S') && d.Separated(rule) && d.Reached(i) && SameParents(d, S, S', i)
    requires S[i] == S'[i] || !HasSecureParent(d, S, i)
    ensures Parent(d, rule, S, i) == Parent(d, rule, S', i)
  {
    assert forall p :: Candidate(d, S, i, p) <==> Candidate(d, S', i, p);
    ChoiceIsUnique(d, rule, S, i, Parent(d, rule, S, i), Parent(d, rule, S', i));
  }

  lemma SparedParents(d: MiniDestination, S: seq<bool>, n: Asn, i: Asn)
    requires Sized(d, S) && d.Reached(i) && d.Reached(n) && d.l[i] <= d.l[n] && i != d.destination
    ensures SameParents(d, S, Flip(S, n), i)
  {
    assert d.NodeValid(i);
    forall p | p in d.Parents(i) ensures Secure(d, S, p) <==> Secure(d, Flip(S, n), p) {
      SparedSecure(d, S, n, p);
    }
  }

  lemma SparedChoice(d: MiniDestination, rule: TieRule, S: seq<bool>, n: Asn, i: Asn)
    requires Sized(d, S) && d.Separated(rule) && Spared(d, n, i)
    ensures Parent(d, rule, S, i) == Parent(d, rule, Flip(S, n), i)
  {
    if i != d.destination {
      SparedParents(d, S, n, i);
      SameChoice(d, rule, S, Flip(S, n), i);
    }
  }

  /** In a sorted list the first secure parent is the choice of a secure AS. */
  lemma FirstSecureIsChoice(d: MiniDestination, rule: TieRule, S: seq<bool>, i: Asn, k: nat)
    requires Sized(d, S) && d.Sorted(rule) && d.Reached(i) && S[i] && k < |d.Parents(i)|
    requires Secure(d, S, d.Parents(i)[k]) && forall j | 0 <= j < k :: !Secure(d, S, d.Parents(i)[j])
    ensures Parent(d, rule, S, i) == d.Parents(i)[k]
  {
    var list := d.Parents(i);
    assert rule.Sorts(i, list) && rule.Separates(i, list);
    assert list[k] in list;
    forall q | Candidate(d, S, i, q) ensures rule.Key(i, list[k]) <= rule.Key(i, q) {
      var j :| 0 <= j < |list| && list[j] == q;
      assert j == k || rule.Key(i, list[k]) < rule.Key(i, list[j]);
    }
    SortedIsSeparated(d, rule);
    ChoiceIsUnique(d, rule, S, i, list[k], Parent(d, rule, S, i));
  }

  /** Where security decides nothing the first parent is the choice. */
  lemma FirstIsChoice(d: MiniDestination, rule: TieRule, S: seq<bool>, i: Asn)
    requires Sized(d, S) && d.Sorted(rule) && d.Reached(i)
    requires !S[i] || !HasSecureParent(d, S, i) || |d.Parents(i)| == 1
    ensures d.Parents(i) != [] && Parent(d, rule, S, i) == d.Parents(i)[0]
  {
    assert d.NodeValid(i);
    var list := d.Parents(i);
    assert rule.Sorts(i, list) && list[0] in list;
    rule.FirstIsLeast(i, list);
    assert forall p | p in list :: |list| == 1 ==> p == list[0];
    SortedIsSeparated(d, rule);
    ChoiceIsUnique(d, rule, S, i, list[0], Parent(d, rule, S, i));
  }

  lemma SortedIsSeparated(d: MiniDestination, rule: TieRule)
    requires d.Sorted(rule)
    ensures d.Separated(rule)
  {
    forall i: Asn ensures rule.Separates(i, d.Parents(i)) {
      assert rule.Sorts(i, d.Parents(i));
    }
  }

  // ---- Summing over the ASes dealt with so far

  ghost function LoadOf(d: MiniDestination, rule: TieRule, S: seq<bool>, W: seq<nat>, done: set<Asn>, count: nat, n: Asn, col: nat): nat
    requires Sized(d, S) && count <= |d.best| == |W|
  {
    if count == 0 then 0
    else LoadOf(d, rule, S, W, done, count - 1, n, col) +
         (if count - 1 in done && d.Reached(count - 1) && Via(d, rule, S, n, count - 1) == Some(col) then W[count - 1] else 0)
  }

  lemma {:induction false} LoadOfOneMore(d: MiniDestination, rule: TieRule, S: seq<bool>, W: seq<nat>, done: set<Asn>, count: nat, n: Asn, col: nat, i: Asn)
    requires Sized(d, S) && count <= |d.best| == |W| && i !in done && i < |W| && d.Reached(i)
    ensures LoadOf(d, rule, S, W, done + {i}, count, n, col) == LoadOf(d, rule, S, W, done, count, n, col)
         + (if i < count && Via(d, rule, S, n, i) == Some(col) then W[i] else 0)
  {
    hide Via, Secure;
    if count > 0 { LoadOfOneMore(d, rule, S, W, done, count - 1, n, col, i); }
  }

  lemma {:induction false} LoadOfNone(d: MiniDestination, rule: TieRule, S: seq<bool>, W: seq<nat>, count: nat, n: Asn, col: nat)
    requires Sized(d, S) && count <= |d.best| == |W|
    ensures LoadOf(d, rule, S, W, {}, count, n, col) == 0
  {
    if count > 0 { LoadOfNone(d, rule, S, W, count - 1, n, col); }
  }

  /** Summing over the ASes below `n` is summing over all. */
  lemma {:induction false} LoadOfAll(d: MiniDestination, rule: TieRule, S: seq<bool>, W: seq<nat>, done: set<Asn>, count: nat, n: Asn, col: nat)
    requires Sized(d, S) && count <= |d.best| == |W| && d.Reached(n)
    requires forall i: Asn | d.Reached(i) && d.l[i] > d.l[n] :: i in done
    ensures LoadOf(d, rule, S, W, done, count, n, col) == LoadVia(d, rule, S, W, count, n, col)
  {
    hide Via, Secure;
    if count > 0 {
      var i := count - 1;
      LoadOfAll(d, rule, S, W, done, i, n, col);
      if d.Reached(i) && d.l[i] <= d.l[n] { ViaIsCloser(d, rule, S, n, i); }
    }
  }

  // The tags `throughN` keeps: how the path of an AS comes to `n`.
  const CUSTOMER_OF := 1
  const PEER_OF := 2
  const PROVIDER_TO := 3

  function TagOf(via: Option<nat>): nat {
    match via
    case None => 0
    case Some(col) => if col == PROVIDER_COLUMN then CUSTOMER_OF else if col == PEER_COLUMN then PEER_OF else PROVIDER_TO
  }

  datatype Tally = Tally(customers: nat, customerWeight: nat, peerWeight: nat, providerWeight: nat)
  {
    /** The four counters of `ComputeUtility` after an AS with this tag and weight. */
    function Plus(tag: nat, w: nat): Tally {
      if tag == CUSTOMER_OF then this.(customers := customers + 1, customerWeight := customerWeight + w)
      else if tag == PEER_OF then this.(peerWeight := peerWeight + w)
      else if tag == PROVIDER_TO then this.(providerWeight := providerWeight + w)
      else this
    }

    /** The counters are the loads of `n` over the ASes done. */
    ghost predicate Counts(d: MiniDestination, rule: TieRule, S: seq<bool>, W: seq<nat>, done: set<Asn>, n: Asn)
      requires Sized(d, S) && |W| == |d.best|
    {
      && customers == LoadOf(d, rule, S, Ones(|W|), done, |W|, n, PROVIDER_COLUMN)
      && customerWeight == LoadOf(d, rule, S, W, done, |W|, n, PROVIDER_COLUMN)
      && peerWeight == LoadOf(d, rule, S, W, done, |W|, n, PEER_COLUMN)
      && providerWeight == LoadOf(d, rule, S, W, done, |W|, n, CUSTOMER_COLUMN)
    }
  }

  lemma TallyPlus(t: Tally, d: MiniDestination, rule: TieRule, S: seq<bool>, W: seq<nat>, done: set<Asn>, n: Asn, i: Asn)
    requires Sized(d, S) && |W| == |d.best| && t.Counts(d, rule, S, W, done, n) && d.Reached(i) && i !in done
    ensures t.Plus(TagOf(Via(d, rule, S, n, i)), W[i]).Counts(d, rule, S, W, done + {i}, n)
  {
    LoadOfOneMore(d, rule, S, Ones(|W|), done, |W|, n, PROVIDER_COLUMN, i);
    LoadOfOneMore(d, rule, S, W, done, |W|, n, PROVIDER_COLUMN, i);
    LoadOfOneMore(d, rule, S, W, done, |W|, n, PEER_COLUMN, i);
    LoadOfOneMore(d, rule, S, W, done, |W|, n, CUSTOMER_COLUMN, i);
  }

  lemma TallyStart(d: MiniDestination, rule: TieRule, S: seq<bool>, W: seq<nat>, n: Asn)
    requires Sized(d, S) && |W| == |d.best|
    ensures Tally(0, 0, 0, 0).Counts(d, rule, S, W, {}, n)
  {
    LoadOfNone(d, rule, S, Ones(|W|), |W|, n, PROVIDER_COLUMN);
    LoadOfNone(d, rule, S, W, |W|, n, PROVIDER_COLUMN);
    LoadOfNone(d, rule, S, W, |W|, n, PEER_COLUMN);
    LoadOfNone(d, rule, S, W, |W|, n, CUSTOMER_COLUMN);
  }

  lemma TallyTotal(t: Tally, d: MiniDestination, rule: TieRule, S: seq<bool>, W: seq<nat>, done: set<Asn>, n: Asn, u: Utility)
    requires Sized(d, S) && |W| == |d.best| && t.Counts(d, rule, S, W, done, n) && d.Reached(n) && n != d.destination
    requires forall i: Asn | d.Reached(i) && d.l[i] > d.l[n] :: i in done
    ensures u.Value(t.customers, t.customerWeight, t.peerWeight, t.providerWeight, d.bestRelation[n], W[d.destination])
         == UtilityUnder(d, rule, S, W, u, n)
  {
    LoadOfAll(d, rule, S, Ones(|W|), done, |W|, n, PROVIDER_COLUMN);
    LoadOfAll(d, rule, S, W, done, |W|, n, PROVIDER_COLUMN);
    LoadOfAll(d, rule, S, W, done, |W|, n, PEER_COLUMN);
    LoadOfAll(d, rule, S, W, done, |W|, n, CUSTOMER_COLUMN);
  }

  /** The ASes of the rows below `n` that come before cell (row, col). */
  ghost function Below(d: MiniDestination, n: Asn, row: nat, col: nat): set<Asn>
    requires d.Valid() && d.Reached(n)
  {
    set i: Asn | 0 <= i < |d.best| && d.Reached(i) && d.l[i] > d.l[n] && (d.l[i] < row || (d.l[i] == row && d.bestRelation[i] < col))
  }

  /** A cell adds just its own ASes. */
  lemma BelowNextCell(d: MiniDestination, n: Asn, row: nat, col: nat)
    requires d.Valid() && d.Reached(n) && d.l[n] < row < |d.bucketTable| && col < 3
    ensures Below(d, n, row, col + 1) == Below(d, n, row, col) + Elements(Listed(d.bucketTable[row][col]))
    ensures forall i | i in Listed(d.bucketTable[row][col]) :: d.Reached(i) && d.l[i] == row && d.bestRelation[i] == col && i !in Below(d, n, row, col)
    ensures NoDup(Listed(d.bucketTable[row][col]))
  {
    assert d.CellValid(row, col);
  }

  lemma BelowNextRow(d: MiniDestination, n: Asn, row: nat)
    requires d.Valid() && d.Reached(n)
    ensures Below(d, n, row + 1, 0) == Below(d, n, row, 3)
  {
    forall i: Asn ensures i in Below(d, n, row + 1, 0) <==> i in Below(d, n, row, 3) {
      assert d.NodeValid(i);
    }
  }

  lemma BelowEnds(d: MiniDestination, n: Asn, i: Asn)
    requires d.Valid() && d.Reached(n) && d.Reached(i) && d.l[i] > d.l[n]
    ensures i in Below(d, n, |d.bucketTable|, 0)
  {
    assert d.NodeValid(i);
  }

  class Worker {
    var ChosenParent: array<Asn>
    var SecP: array<bool>

    constructor ()
      ensures fresh(ChosenParent) && fresh(SecP)
    {
      ChosenParent := new Asn[0];
      SecP := new bool[0];
    }

    ghost predicate Shape(d: MiniDestination)
      reads this
    {
      ChosenParent.Length == SecP.Length == |d.best|
    }

    /** The entries of `i` are those the state T determines. */
    ghost predicate Matches(d: MiniDestination, rule: TieRule, T: seq<bool>, i: Asn)
      requires Sized(d, T) && Shape(d)
      reads this, ChosenParent, SecP
    {
      d.Reached(i) ==> (SecP[i] <==> Secure(d, T, i)) && ChosenParent[i] == Parent(d, rule, T, i)
    }

    /** `updateParentWorker`: a secure AS takes its first secure parent, or else its first. */
    method UpdateParent(d: MiniDestination, ghost rule: TieRule, S: array<bool>, i: Asn)
      requires Sized(d, S[..]) && Shape(d) && d.Sorted(rule) && d.Reached(i) && i != d.destination && S != SecP
      requires forall p | p in d.Parents(i) :: p < SecP.Length && (SecP[p] <==> Secure(d, S[..], p))
      modifies ChosenParent
      ensures S[i] ==> ChosenParent[i] == Parent(d, rule, S[..], i)
      ensures !S[i] ==> ChosenParent[i] == old(ChosenParent[i])
      ensures forall j | 0 <= j < |d.best| && j != i :: ChosenParent[j] == old(ChosenParent[j])
    {
      if S[i] {
        var parents := d.Parents(i);
        assert d.NodeValid(i);
        for k := 0 to |parents|
          invariant ChosenParent[..] == old(ChosenParent[..])
          invariant forall j | 0 <= j < k :: !Secure(d, S[..], parents[j])
        {
          assert parents[k] in parents;
          if SecP[parents[k]] {
            FirstSecureIsChoice(d, rule, S[..], i, k);
            ChosenParent[i] := parents[k];
            return;
          }
        }
        FirstIsChoice(d, rule, S[..], i);
        ChosenParent[i] := parents[0];
      }
    }

    /** The first step: `n` itself, whose parents are untouched by the flip. */
    method RepairFlipped(d: MiniDestination, ghost rule: TieRule, S: array<bool>, n: Asn)
      requires Sized(d, S[..]) && Shape(d) && d.Sorted(rule) && d.Reached(n) && n != d.destination && S != SecP
      requires forall i: Asn | i != n && d.Reached(i) && d.l[i] <= d.l[n] :: Matches(d, rule, S[..], i)
      requires |d.Parents(n)| == 1 ==> ChosenParent[n] == d.Parents(n)[0]
      modifies ChosenParent, SecP
      ensures Matches(d, rule, S[..], n)
      ensures forall j | 0 <= j < |d.best| && j != n :: ChosenParent[j] == old(ChosenParent[j]) && SecP[j] == old(SecP[j])
    {
      assert d.NodeValid(n);
      forall p | p in d.Parents(n) ensures SecP[p] <==> Secure(d, S[..], p) {
        assert Matches(d, rule, S[..], p);
      }
      if |d.Parents(n)| > 1 {
        if S[n] {
          UpdateParent(d, rule, S, n);
        } else {
          FirstIsChoice(d, rule, S[..], n);
          ChosenParent[n] := d.Parents(n)[0];
        }
      } else {
        FirstIsChoice(d, rule, S[..], n);
      }
      SecureByParent(d, rule, S[..], n);
      SecP[n] := S[n] && SecP[ChosenParent[n]];
    }

    /** An AS below `n`, whose parents have been repaired. */
    method RepairNode(d: MiniDestination, ghost rule: TieRule, S: array<bool>, ghost S0: seq<bool>, i: Asn)
      requires Sized(d, S[..]) && Sized(d, S0) && Shape(d) && d.Sorted(rule) && d.Reached(i) && i != d.destination && S != SecP
      requires S[i] == S0[i] && Matches(d, rule, S0, i)
      requires forall p | p in d.Parents(i) :: Matches(d, rule, S[..], p)
      modifies ChosenParent, SecP
      ensures Matches(d, rule, S[..], i)
      ensures forall j | 0 <= j < |d.best| && j != i :: ChosenParent[j] == old(ChosenParent[j]) && SecP[j] == old(SecP[j])
    {
      assert d.NodeValid(i);
      forall p | p in d.Parents(i) ensures SecP[p] <==> Secure(d, S[..], p) {
        assert Matches(d, rule, S[..], p);
      }
      if !S[i] || |d.Parents(i)| == 1 {
        FirstIsChoice(d, rule, S0, i);
        FirstIsChoice(d, rule, S[..], i);
      }
      if |d.Parents(i)| > 1 {
        UpdateParent(d, rule, S, i);
      }
      SecureByParent(d, rule, S[..], i);
      if S[i] {
        SecP[i] := SecP[ChosenParent[i]];
      }
    }

    /** The ASes of `done` have been repaired; those above `n` needed no repair; the rest still
        answer to the state before the flip. */
    ghost predicate Repaired(d: MiniDestination, rule: TieRule, S0: seq<bool>, S1: seq<bool>, n: Asn, done: set<Asn>)
      requires Sized(d, S0) && Sized(d, S1) && Shape(d) && d.Reached(n)
      reads this, ChosenParent, SecP
    {
      && (forall i: Asn {:trigger Matches(d, rule, S1, i)} | d.Reached(i) && (i in done || d.l[i] <= d.l[n]) :: Matches(d, rule, S1, i))
      && (forall i: Asn {:trigger Matches(d, rule, S0, i)} | d.Reached(i) && i !in done && d.l[i] > d.l[n] :: Matches(d, rule, S0, i))
    }

    static ghost predicate Tagged(d: MiniDestination, rule: TieRule, S1: seq<bool>, n: Asn, done: set<Asn>, throughN: array<nat>)
      requires Sized(d, S1) && throughN.Length == |d.best| && d.Reached(n)
      reads throughN
    {
      && (forall i | i in done :: d.Reached(i) && d.l[i] > d.l[n] && throughN[i] == TagOf(Via(d, rule, S1, n, i)))
      && (forall i: Asn | i < |d.best| && i !in done :: throughN[i] == 0)
    }

    /** The tag of `i`: from its column when its parent is `n`, from its parent further down. */
    method TagNode(d: MiniDestination, ghost rule: TieRule, ghost S1: seq<bool>, n: Asn, L: nat, i: Asn, row: nat, col: nat, throughN: array<nat>)
      requires Sized(d, S1) && Shape(d) && throughN.Length == |d.best| && throughN != ChosenParent
      requires d.Reached(n) && L == d.l[n] && d.Reached(i) && row == d.l[i] > L && col == d.bestRelation[i]
      requires Matches(d, rule, S1, i) && throughN[i] == 0
      requires row > L + 1 ==> throughN[Parent(d, rule, S1, i)] == TagOf(Via(d, rule, S1, n, Parent(d, rule, S1, i)))
      modifies throughN
      ensures throughN[i] == TagOf(Via(d, rule, S1, n, i))
      ensures forall j | 0 <= j < |d.best| && j != i :: throughN[j] == old(throughN[j])
    {
      assert d.NodeValid(i) && d.NodeValid(d.destination);
      if row == L + 1 && ChosenParent[i] == n && col == PROVIDER_COLUMN {
        throughN[i] := CUSTOMER_OF;
      } else if row == L + 1 && ChosenParent[i] == n && col == PEER_COLUMN {
        throughN[i] := PEER_OF;
      } else if row == L + 1 && ChosenParent[i] == n && col == CUSTOMER_COLUMN {
        throughN[i] := PROVIDER_TO;
      } else if row > L + 1 {
        throughN[i] := throughN[ChosenParent[i]];
      } else {
        ViaIsCloser(d, rule, S1, n, ChosenParent[i]);
      }
    }

    /** Repairs one AS of the rows below `n`. */
    method RepairNext(d: MiniDestination, ghost rule: TieRule, S: array<bool>, ghost S0: seq<bool>, n: Asn, i: Asn, ghost done: set<Asn>)
      requires Sized(d, S[..]) && Sized(d, S0) && Shape(d) && d.Sorted(rule) && S != SecP
      requires d.Reached(n) && S[..] == Flip(S0, n) && d.Reached(i) && d.l[i] > d.l[n] && i !in done
      requires forall p: Asn | d.Reached(p) && d.l[n] < d.l[p] < d.l[i] :: p in done
      requires Repaired(d, rule, S0, S[..], n, done)
      modifies ChosenParent, SecP
      ensures Repaired(d, rule, S0, S[..], n, done + {i})
    {
      assert d.NodeValid(i) && d.NodeValid(d.destination);
      label Before:
      RepairNode(d, rule, S, S0, i);
      forall j: Asn | d.Reached(j) && (j in done + {i} || d.l[j] <= d.l[n]) ensures Matches(d, rule, S[..], j) {
        if j != i { assert old@Before(Matches(d, rule, S[..], j)); }
      }
      forall j: Asn | d.Reached(j) && j !in done + {i} && d.l[j] > d.l[n] ensures Matches(d, rule, S0, j) {
        assert old@Before(Matches(d, rule, S0, j));
      }
    }

    /** One AS of the rows below `n`. */
    method VisitNode(d: MiniDestination, ghost rule: TieRule, S: array<bool>, ghost S0: seq<bool>, W: seq<nat>, n: Asn, L: nat,
                     i: Asn, row: nat, col: nat, throughN: array<nat>, tally: Tally, ghost done: set<Asn>)
      returns (tally': Tally)
      requires Sized(d, S[..]) && Sized(d, S0) && Shape(d) && d.Sorted(rule) && S != SecP && throughN != ChosenParent && |W| == |d.best|
      requires throughN.Length == |d.best| && d.Reached(n) && L == d.l[n] && S[..] == Flip(S0, n)
      requires d.Reached(i) && row == d.l[i] > L && col == d.bestRelation[i] && i !in done
      requires forall p: Asn | d.Reached(p) && L < d.l[p] < row :: p in done
      requires Repaired(d, rule, S0, S[..], n, done) && Tagged(d, rule, S[..], n, done, throughN)
      requires tally.Counts(d, rule, S[..], W, done, n)
      modifies ChosenParent, SecP, throughN
      ensures Repaired(d, rule, S0, S[..], n, done + {i}) && Tagged(d, rule, S[..], n, done + {i}, throughN)
      ensures tally'.Counts(d, rule, S[..], W, done + {i}, n)
    {
      hide Secure, Via, LoadOf, Tally.Counts;
      ghost var p := Parent(d, rule, S[..], i);
      assert d.NodeValid(d.destination) && d.NodeValid(n);
      assert row > L + 1 ==> p in done;
      RepairNext(d, rule, S, S0, n, i, done);
      assert Matches(d, rule, S[..], i);
      TagNode(d, rule, S[..], n, L, i, row, col, throughN);
      tally' := tally.Plus(throughN[i], W[i]);
      TallyPlus(tally, d, rule, S[..], W, done, n, i);
    }

    method VisitCell(d: MiniDestination, ghost rule: TieRule, S: array<bool>, ghost S0: seq<bool>, W: seq<nat>, n: Asn, L: nat,
                     row: nat, col: nat, throughN: array<nat>, tally: Tally)
      returns (tally': Tally)
      requires Sized(d, S[..]) && Sized(d, S0) && Shape(d) && d.Sorted(rule) && S != SecP && throughN != ChosenParent && |W| == |d.best|
      requires throughN.Length == |d.best| && d.Reached(n) && L == d.l[n] && S[..] == Flip(S0, n)
      requires L < row < |d.bucketTable| && col < 3
      requires Repaired(d, rule, S0, S[..], n, Below(d, n, row, col)) && Tagged(d, rule, S[..], n, Below(d, n, row, col), throughN)
      requires tally.Counts(d, rule, S[..], W, Below(d, n, row, col), n)
      modifies ChosenParent, SecP, throughN
      ensures Repaired(d, rule, S0, S[..], n, Below(d, n, row, col + 1)) && Tagged(d, rule, S[..], n, Below(d, n, row, col + 1), throughN)
      ensures tally'.Counts(d, rule, S[..], W, Below(d, n, row, col + 1), n)
    {
      hide Secure, Via, Tally.Counts, Repaired, Tagged;
      tally' := tally;
      BelowNextCell(d, n, row, col);
      ghost var base := Below(d, n, row, col);
      if d.bucketTable[row][col].None? {
        assert Below(d, n, row, col + 1) == base;
        return;
      }
      var cell := d.bucketTable[row][col].value;
      ghost var done := base;
      for j := 0 to |cell|
        invariant done == base + Elements(cell[..j])
        invariant Repaired(d, rule, S0, S[..], n, done) && Tagged(d, rule, S[..], n, done, throughN)
        invariant tally'.Counts(d, rule, S[..], W, done, n)
      {
        ElementsNext(cell, j);
        assert cell[j] in Listed(d.bucketTable[row][col]);
        tally' := VisitNode(d, rule, S, S0, W, n, L, cell[j], row, col, throughN, tally', done);
        done := done + {cell[j]};
      }
      assert cell[..|cell|] == cell;
      assert done == Below(d, n, row, col + 1);
    }

    method VisitRows(d: MiniDestination, ghost rule: TieRule, S: array<bool>, ghost S0: seq<bool>, W: seq<nat>, n: Asn, L: nat, throughN: array<nat>)
      returns (tally: Tally)
      requires Sized(d, S[..]) && Sized(d, S0) && Shape(d) && d.Sorted(rule) && S != SecP && throughN != ChosenParent && |W| == |d.best|
      requires throughN.Length == |d.best| && d.Reached(n) && L == d.l[n] && S[..] == Flip(S0, n) && L < |d.bucketTable|
      requires Repaired(d, rule, S0, S[..], n, {}) && Tagged(d, rule, S[..], n, {}, throughN)
      modifies ChosenParent, SecP, throughN
      ensures Repaired(d, rule, S0, S[..], n, Below(d, n, |d.bucketTable|, 0))
      ensures tally.Counts(d, rule, S[..], W, Below(d, n, |d.bucketTable|, 0), n)
    {
      hide Secure, Via, Tally.Counts, Repaired, Tagged;
      tally := Tally(0, 0, 0, 0);
      TallyStart(d, rule, S[..], W, n);
      assert Below(d, n, L + 1, 0) == {};
      for row := L + 1 to |d.bucketTable|
        invariant Repaired(d, rule, S0, S[..], n, Below(d, n, row, 0)) && Tagged(d, rule, S[..], n, Below(d, n, row, 0), throughN)
        invariant tally.Counts(d, rule, S[..], W, Below(d, n, row, 0), n)
      {
        var columns := [CUSTOMER_COLUMN, PEER_COLUMN, PROVIDER_COLUMN];
        for c := 0 to 3
          invariant Repaired(d, rule, S0, S[..], n, Below(d, n, row, c)) && Tagged(d, rule, S[..], n, Below(d, n, row, c), throughN)
          invariant tally.Counts(d, rule, S[..], W, Below(d, n, row, c), n)
        {
          assert columns[c] == c;
          tally := VisitCell(d, rule, S, S0, W, n, L, row, columns[c], throughN, tally);
        }
        BelowNextRow(d, n, row);
      }
    }

    /** After the flip, `n` is repaired and every AS above or beside it needs no repair. */
    method StartRepair(d: MiniDestination, ghost rule: TieRule, S: array<bool>, ghost S0: seq<bool>, n: Asn)
      requires Sized(d, S[..]) && Sized(d, S0) && Shape(d) && d.Sorted(rule) && S != SecP
      requires d.Reached(n) && n != d.destination && S[..] == Flip(S0, n)
      requires forall i: Asn :: Matches(d, rule, S0, i)
      modifies ChosenParent, SecP
      ensures Repaired(d, rule, S0, S[..], n, {})
    {
      SortedIsSeparated(d, rule);
      forall i: Asn | i != n && d.Reached(i) && d.l[i] <= d.l[n] ensures Matches(d, rule, S[..], i) {
        assert Matches(d, rule, S0, i);
        SparedSecure(d, S0, n, i);
        SparedChoice(d, rule, S0, n, i);
      }
      if |d.Parents(n)| == 1 {
        FirstIsChoice(d, rule, S0, n);
        assert Matches(d, rule, S0, n);
      }
      label Before:
      RepairFlipped(d, rule, S, n);
      forall i: Asn | d.Reached(i) && d.l[i] <= d.l[n] ensures Matches(d, rule, S[..], i) {
        if i != n { assert old@Before(Matches(d, rule, S[..], i)); }
      }
      forall i: Asn | d.Reached(i) && d.l[i] > d.l[n] ensures Matches(d, rule, S0, i) {
        assert old@Before(Matches(d, rule, S0, i));
      }
    }

    /** The worker works on copies. */
    method CloneInputs(d: MiniDestination, ghost rule: TieRule, paramChosenParent: array<Asn>, paramSecP: array<bool>, ghost S0: seq<bool>)
      requires Sized(d, S0) && paramChosenParent.Length == paramSecP.Length == |d.best|
      requires forall i: Asn | d.Reached(i) :: (paramSecP[i] <==> Secure(d, S0, i)) && paramChosenParent[i] == Parent(d, rule, S0, i)
      modifies this
      ensures Shape(d) && fresh(ChosenParent) && fresh(SecP) && forall i: Asn :: Matches(d, rule, S0, i)
    {
      hide Secure, Parent;
      ChosenParent := Clone(paramChosenParent);
      SecP := Clone(paramSecP);
    }

    /** The repair, and the counters it ends with. */
    method AfterFlip(d: MiniDestination, ghost rule: TieRule, S: array<bool>, ghost S0: seq<bool>, W: seq<nat>, n: Asn, L: nat, ghost u: Utility)
      returns (t: Tally)
      requires Sized(d, S[..]) && Sized(d, S0) && Shape(d) && d.Sorted(rule) && S != SecP && |W| == |d.best|
      requires d.Reached(n) && n != d.destination && S[..] == Flip(S0, n) && L == d.l[n]
      requires forall i: Asn :: Matches(d, rule, S0, i)
      modifies ChosenParent, SecP
      ensures forall i: Asn :: Matches(d, rule, S[..], i)
      ensures u.Value(t.customers, t.customerWeight, t.peerWeight, t.providerWeight, d.bestRelation[n], W[d.destination])
           == UtilityUnder(d, rule, S[..], W, u, n)
    {
      hide Secure, Via;
      assert d.NodeValid(n);
      var throughN := new nat[|d.best|](_ => 0);
      StartRepair(d, rule, S, S0, n);
      t := VisitRows(d, rule, S, S0, W, n, L, throughN);
      forall i: Asn ensures Matches(d, rule, S[..], i) {
        if d.Reached(i) && d.l[i] > d.l[n] { BelowEnds(d, n, i); }
      }
      forall i: Asn | d.Reached(i) && d.l[i] > d.l[n] ensures i in Below(d, n, |d.bucketTable|, 0) {
        BelowEnds(d, n, i);
      }
      TallyTotal(t, d, rule, S[..], W, Below(d, n, |d.bucketTable|, 0), n, u);
    }

    /** Flips `n`, repairs, and flips `n` back. */
    method WhatIf(d: MiniDestination, ghost rule: TieRule, S: array<bool>, W: seq<nat>, n: Asn, L: nat, ghost u: Utility) returns (t: Tally)
      requires Sized(d, S[..]) && Shape(d) && d.Sorted(rule) && S != SecP && |W| == |d.best|
      requires d.Reached(n) && n != d.destination && L == d.l[n]
      requires forall i: Asn :: Matches(d, rule, S[..], i)
      modifies ChosenParent, SecP, S
      ensures S[..] == old(S[..])
      ensures forall i: Asn :: Matches(d, rule, Flip(S[..], n), i)
      ensures u.Value(t.customers, t.customerWeight, t.peerWeight, t.providerWeight, d.bestRelation[n], W[d.destination])
           == UtilityUnder(d, rule, Flip(S[..], n), W, u, n)
    {
      hide Secure, Via;
      ghost var S0 := S[..];
      label Before:
      S[n] := !S[n];
      assert S[..] == Flip(S0, n);
      forall i: Asn ensures Matches(d, rule, S0, i) {
        assert old@Before(Matches(d, rule, S0, i));
      }
      t := AfterFlip(d, rule, S, S0, W, n, L, u);
      label After:
      S[n] := !S[n];
      assert S[..] == S0;
      forall i: Asn ensures Matches(d, rule, Flip(S0, n), i) {
        assert old@After(Matches(d, rule, Flip(S0, n), i));
      }
    }

    /** `ComputeUtility`: given what `UpdatePaths` computes for S, the utility of `n` after flipping
        its bit, and in the worker the parents and security bits after the flip.  S is restored. */
    method ComputeUtility(d: MiniDestination, ghost rule: TieRule, paramChosenParent: array<Asn>, paramSecP: array<bool>, S: array<bool>,
                          n: Asn, L: nat, bestRelation: nat, W: seq<nat>, utility: Utility)
      returns (UNTilda: nat)
      requires Sized(d, S[..]) && d.Sorted(rule) && |W| == |d.best| && S != paramSecP
      requires n < |d.best| && L == d.l[n] && bestRelation == d.bestRelation[n]
      requires paramChosenParent.Length == paramSecP.Length == |d.best|
      requires forall i: Asn | d.Reached(i) :: (paramSecP[i] <==> Secure(d, S[..], i)) && paramChosenParent[i] == Parent(d, rule, S[..], i)
      modifies this, S
      ensures S[..] == old(S[..])
      ensures UNTilda == UtilityUnder(d, rule, Flip(S[..], n), W, utility, n)
      ensures L > 0 ==> Shape(d) && fresh(ChosenParent) && fresh(SecP) && forall i: Asn :: Matches(d, rule, Flip(S[..], n), i)
    {
      hide Secure, Via, UtilityUnder, Matches, Ones;
      if L == 0 {
        NothingThrough(d, rule, Flip(S[..], n), W, n, utility);
        return 0;
      }
      assert d.NodeValid(n);
      CloneInputs(d, rule, paramChosenParent, paramSecP, S[..]);
      var tally := WhatIf(d, rule, S, W, n, L, utility);
      SourceCell(d);
      var dWeight := W[d.bucketTable[0][0].value[0]];
      UNTilda := utility.Value(tally.customers, tally.customerWeight, tally.peerWeight, tally.providerWeight, bestRelation, dWeight);
    }
  }

  /** The destination, and an AS that is not reached, transit nothing. */
  lemma NothingThrough(d: MiniDestination, rule: TieRule, S: seq<bool>, W: seq<nat>, n: Asn, u: Utility)
    requires Sized(d, S) && |W| == |d.best| && n < |W| && d.l[n] == 0
    ensures UtilityUnder(d, rule, S, W, u, n) == 0
  {
    assert d.NodeValid(n);
    if n != d.destination {
      LoadUnreached(d, rule, S, Ones(|W|), |W|, n, PROVIDER_COLUMN);
      LoadUnreached(d, rule, S, W, |W|, n, PROVIDER_COLUMN);
      LoadUnreached(d, rule, S, W, |W|, n, PEER_COLUMN);
      LoadUnreached(d, rule, S, W, |W|, n, CUSTOMER_COLUMN);
    }
  }

  lemma {:induction false} LoadUnreached(d: MiniDestination, rule: TieRule, S: seq<bool>, W: seq<nat>, count: nat, n: Asn, col: nat)
    requires Sized(d, S) && count <= |d.best| == |W| && !d.Reached(n)
    ensures LoadVia(d, rule, S, W, count, n, col) == 0
  {
    if count > 0 {
      LoadUnreached(d, rule, S, W, count - 1, n, col);
      if d.Reached(count - 1) { NotThroughUnreached(d, rule, S, n, count - 1); }
    }
  }

  lemma {:induction false} NotThroughUnreached(d: MiniDestination, rule: TieRule, S: seq<bool>, n: Asn, i: Asn)
    requires Sized(d, S) && d.Reached(i) && !d.Reached(n)
    ensures Via(d, rule, S, n, i).None?
    decreases d.l[i]
  {
    if i != d.destination { NotThroughUnreached(d, rule, S, n, Parent(d, rule, S, i)); }
  }
}
