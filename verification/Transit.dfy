/** Who transits whose traffic under a security state, and that the total never changes. */
module Transit {
  import opened Wrappers
  import opened Topology
  import opened GaoRexford
  import opened TieBreak
  import opened BfsState
  import opened MiniDestination
  import opened SecurePaths
  import opened Utilities

  const LOSSLESS := 0x2000_0000  // `join` loses nothing for numbers below 2^29

  /** The class of the hop over which the chosen path of `i` enters `n`, if it goes through `n`. */
  ghost function Via(d: MiniDestination, rule: TieRule, S: seq<bool>, n: Asn, i: Asn): (r: Option<nat>)
    requires Sized(d, S) && d.Reached(i)
    ensures r.Some? ==> r.value <= PROVIDER_COLUMN
    decreases d.l[i]
  {
    if i == d.destination then None
    else
      assert d.NodeValid(i);
      if Parent(d, rule, S, i) == n then Some(d.bestRelation[i]) else Via(d, rule, S, n, Parent(d, rule, S, i))
  }

  /** A path only goes through ASes closer to the destination. */
  lemma {:induction false} ViaIsCloser(d: MiniDestination, rule: TieRule, S: seq<bool>, n: Asn, i: Asn)
    requires Sized(d, S) && d.Reached(i) && d.Reached(n) && d.l[i] <= d.l[n]
    ensures Via(d, rule, S, n, i).None?
    decreases d.l[i]
  {
    if i != d.destination {
      ViaIsCloser(d, rule, S, n, Parent(d, rule, S, i));
    }
  }

  /** The weight of the first `count` ASes whose traffic `n` receives over class `col`. */
  ghost function LoadVia(d: MiniDestination, rule: TieRule, S: seq<bool>, W: seq<nat>, count: nat, n: Asn, col: nat): nat
    requires Sized(d, S) && count <= |d.best| == |W|
  {
    if count == 0 then 0
    else LoadVia(d, rule, S, W, count - 1, n, col) +
         (if d.Reached(count - 1) && Via(d, rule, S, n, count - 1) == Some(col) then W[count - 1] else 0)
  }

  /** The utility `n` has under S. */
  ghost function UtilityUnder(d: MiniDestination, rule: TieRule, S: seq<bool>, W: seq<nat>, u: Utility, n: Asn): nat
    requires Sized(d, S) && |d.best| == |W| && n < |W|
  {
    if n == d.destination then u.Value(0, 0, 0, 0, d.bestRelation[n], W[d.destination])
    else u.Value(LoadVia(d, rule, S, Ones(|W|), |W|, n, PROVIDER_COLUMN), LoadVia(d, rule, S, W, |W|, n, PROVIDER_COLUMN),
                 LoadVia(d, rule, S, W, |W|, n, PEER_COLUMN), LoadVia(d, rule, S, W, |W|, n, CUSTOMER_COLUMN),
                 d.bestRelation[n], W[d.destination])
  }

  lemma JoinUnjoin(asn: Asn, col: nat)
    requires asn < LOSSLESS && col <= PROVIDER_COLUMN
    ensures UnjoinAsn(Join(asn, col)) == asn && UnjoinCol(Join(asn, col)) == col
  {
  }

  /** Prepending an AS shifts every hit by one place. */
  lemma {:induction false} HitsShift(first: nat, second: nat, path: seq<nat>, upto: nat, n: Asn, col: nat)
    requires 1 <= upto <= |path|
    ensures Hits([first, second] + path[1..], upto + 1, n, col)
         == (if UnjoinAsn(second) == n && UnjoinCol(second) == col then 1 else 0) + Hits(path, upto, n, col)
  {
    var longer := [first, second] + path[1..];
    if upto == 1 {
      assert Hits(longer, 1, n, col) == 0;
    } else {
      HitsShift(first, second, path, upto - 1, n, col);
      assert longer[upto] == path[upto - 1];
    }
  }

  /** Counting on the encoded path finds `n` once if the path goes through it, over that class. */
  lemma {:induction false} HitsAreVia(d: MiniDestination, rule: TieRule, S: seq<bool>, n: Asn, col: nat, i: Asn)
    requires Sized(d, S) && d.Reached(i) && d.Reached(n) && |d.best| <= LOSSLESS
    ensures PathHits(Some(PathOf(d, rule, S, i)), n, col) == if Via(d, rule, S, n, i) == Some(col) then 1 else 0
    ensures InRange(Some(PathOf(d, rule, S, i)), |d.best|)
    decreases d.l[i]
  {
    if i != d.destination {
      var p := Parent(d, rule, S, i);
      assert d.NodeValid(i);
      var path := PathOf(d, rule, S, p);
      HitsAreVia(d, rule, S, n, col, p);
      JoinUnjoin(p, d.bestRelation[i]);
      HitsShift(i, Join(p, d.bestRelation[i]), path, |path|, n, col);
      if p == n { ViaIsCloser(d, rule, S, n, p); }
    }
  }

  /** No path goes through an AS that is not reached. */
  lemma {:induction false} UnreachedHasNoHits(d: MiniDestination, rule: TieRule, S: seq<bool>, n: Asn, col: nat, i: Asn)
    requires Sized(d, S) && d.Reached(i) && !d.Reached(n) && |d.best| <= LOSSLESS
    ensures PathHits(Some(PathOf(d, rule, S, i)), n, col) == 0 && Via(d, rule, S, n, i).None?
    decreases d.l[i]
  {
    if i != d.destination {
      var p := Parent(d, rule, S, i);
      assert d.NodeValid(i);
      var path := PathOf(d, rule, S, p);
      UnreachedHasNoHits(d, rule, S, n, col, p);
      JoinUnjoin(p, d.bestRelation[i]);
      HitsShift(i, Join(p, d.bestRelation[i]), path, |path|, n, col);
    }
  }

  ghost predicate PathsUpToDate(d: MiniDestination, rule: TieRule, S: seq<bool>, paths: seq<Option<seq<nat>>>)
    requires Sized(d, S)
  {
    && |paths| == |d.best|
    && forall i: Asn | i < |paths| :: paths[i] == if d.Reached(i) then Some(PathOf(d, rule, S, i)) else None
  }

  lemma OneLoad(d: MiniDestination, rule: TieRule, S: seq<bool>, path: Option<seq<nat>>, w: nat, n: Asn, col: nat, i: Asn)
    requires Sized(d, S) && |d.best| <= LOSSLESS && path == if d.Reached(i) then Some(PathOf(d, rule, S, i)) else None
    ensures w * PathHits(path, n, col) == if d.Reached(i) && Via(d, rule, S, n, i) == Some(col) then w else 0
  {
    if d.Reached(i) {
      if d.Reached(n) { HitsAreVia(d, rule, S, n, col, i); } else { UnreachedHasNoHits(d, rule, S, n, col, i); }
      MulBit(w, 0, PathHits(path, n, col));
    }
  }

  lemma MulBit(w: nat, t: nat, bit: nat)
    requires bit <= 1
    ensures w * (t + bit) == w * t + if bit == 1 then w else 0
  {
  }

  lemma {:induction false} LoadIsVia(d: MiniDestination, rule: TieRule, S: seq<bool>, paths: seq<Option<seq<nat>>>, W: seq<nat>, count: nat, n: Asn, col: nat)
    requires Sized(d, S) && PathsUpToDate(d, rule, S, paths) && count <= |d.best| == |W| && |d.best| <= LOSSLESS
    ensures Load(paths, W, count, n, col) == LoadVia(d, rule, S, W, count, n, col)
  {
    hide PathOf, Via, PathHits, Secure;
    if count > 0 {
      var i := count - 1;
      LoadIsVia(d, rule, S, paths, W, i, n, col);
      OneLoad(d, rule, S, paths[i], W[i], n, col, i);
    }
  }

  /** The utility counted on the chosen paths is the one the security state determines. */
  lemma UtilityOfPaths(d: MiniDestination, rule: TieRule, S: seq<bool>, paths: seq<Option<seq<nat>>>, W: seq<nat>, u: Utility, n: Asn)
    requires Sized(d, S) && PathsUpToDate(d, rule, S, paths) && |d.best| == |W| && n < |W| && |d.best| <= LOSSLESS
    ensures UtilityOf(u, paths, W, d.destination, d.bestRelation, n) == UtilityUnder(d, rule, S, W, u, n)
  {
    LoadIsVia(d, rule, S, paths, Ones(|W|), |W|, n, PROVIDER_COLUMN);
    LoadIsVia(d, rule, S, paths, W, |W|, n, PROVIDER_COLUMN);
    LoadIsVia(d, rule, S, paths, W, |W|, n, PEER_COLUMN);
    LoadIsVia(d, rule, S, paths, W, |W|, n, CUSTOMER_COLUMN);
  }

  // ---- The 32-bit counters

  const INT_LIMIT := 0x8000_0000  // the counters are signed 32-bit numbers

  function SumOf(W: seq<nat>, count: nat): nat
    requires count <= |W|
  {
    if count == 0 then 0 else SumOf(W, count - 1) + W[count - 1]
  }

  lemma {:induction false} SumOfOnes(N: nat, count: nat)
    requires count <= N
    ensures SumOf(Ones(N), count) == count
  {
    if count > 0 { SumOfOnes(N, count - 1); }
  }

  /** Each AS is counted at most once, under one class. */
  lemma {:induction false} LoadsFit(d: MiniDestination, rule: TieRule, S: seq<bool>, W: seq<nat>, count: nat, n: Asn)
    requires Sized(d, S) && count <= |d.best| == |W|
    ensures LoadVia(d, rule, S, W, count, n, CUSTOMER_COLUMN) + LoadVia(d, rule, S, W, count, n, PEER_COLUMN)
            + LoadVia(d, rule, S, W, count, n, PROVIDER_COLUMN) <= SumOf(W, count)
  {
    if count > 0 {
      LoadsFit(d, rule, S, W, count - 1, n);
      LoadsNext(d, rule, S, W, count - 1, n);
    }
  }

  lemma ProductGrows(a: nat, b: nat, c: nat)
    requires a <= b
    ensures a * c <= b * c
  {
  }

  /** Where all the weights together, and the weight of the destination counted for every AS, are below
      2^31, no counter and no utility reaches 2^31.  The counters only grow, so none of them wraps. */
  lemma CountersFit(d: MiniDestination, rule: TieRule, S: seq<bool>, W: seq<nat>, u: Utility, n: Asn)
    requires Sized(d, S) && |d.best| == |W| < INT_LIMIT && n < |W|
    requires SumOf(W, |W|) < INT_LIMIT && |W| * W[d.destination] < INT_LIMIT
    ensures LoadVia(d, rule, S, Ones(|W|), |W|, n, PROVIDER_COLUMN) < INT_LIMIT
    ensures LoadVia(d, rule, S, W, |W|, n, CUSTOMER_COLUMN) + LoadVia(d, rule, S, W, |W|, n, PEER_COLUMN)
            + LoadVia(d, rule, S, W, |W|, n, PROVIDER_COLUMN) < INT_LIMIT
    ensures UtilityUnder(d, rule, S, W, u, n) < INT_LIMIT
  {
    SumOfOnes(|W|, |W|);
    LoadsFit(d, rule, S, Ones(|W|), |W|, n);
    LoadsFit(d, rule, S, W, |W|, n);
    ProductGrows(LoadVia(d, rule, S, Ones(|W|), |W|, n, PROVIDER_COLUMN), |W|, W[d.destination]);
  }

  // ---- Conservation

  /** How many of the ASes below `upto`, other than the destination, the path of `i` goes through. */
  ghost function Transits(d: MiniDestination, rule: TieRule, S: seq<bool>, i: Asn, upto: nat): nat
    requires Sized(d, S) && d.Reached(i)
  {
    if upto == 0 then 0
    else Transits(d, rule, S, i, upto - 1) +
         (if upto - 1 != d.destination && Via(d, rule, S, upto - 1, i).Some? then 1 else 0)
  }

  lemma {:induction false} TransitsOfParent(d: MiniDestination, rule: TieRule, S: seq<bool>, i: Asn, upto: nat)
    requires Sized(d, S) && d.Reached(i) && i != d.destination
    ensures var p := Parent(d, rule, S, i);
            Transits(d, rule, S, i, upto) == Transits(d, rule, S, p, upto) + (if p < upto && p != d.destination then 1 else 0)
  {
    if upto > 0 {
      TransitsOfParent(d, rule, S, i, upto - 1);
      if upto - 1 == Parent(d, rule, S, i) { ViaIsCloser(d, rule, S, upto - 1, upto - 1); }
    }
  }

  lemma {:induction false} NothingBelowDestination(d: MiniDestination, rule: TieRule, S: seq<bool>, upto: nat)
    requires Sized(d, S) && d.Reached(d.destination)
    ensures Transits(d, rule, S, d.destination, upto) == 0
  {
    if upto > 0 { NothingBelowDestination(d, rule, S, upto - 1); }
  }

  /** A path of length L[i] + 1 goes through L[i] - 1 other ASes before the destination. */
  lemma {:induction false} TransitsAreDepth(d: MiniDestination, rule: TieRule, S: seq<bool>, i: Asn)
    requires Sized(d, S) && d.Reached(i)
    ensures if i == d.destination then Transits(d, rule, S, i, |d.best|) == 0
            else Transits(d, rule, S, i, |d.best|) + 1 == d.l[i]
    decreases d.l[i]
  {
    assert d.NodeValid(i);
    if i == d.destination {
      NothingBelowDestination(d, rule, S, |d.best|);
    } else {
      var p := Parent(d, rule, S, i);
      assert d.NodeValid(p);
      TransitsAreDepth(d, rule, S, p);
      TransitsOfParent(d, rule, S, i, |d.best|);
    }
  }

  /** All the weight the ASes below `upto`, other than the destination, carry for the first `count`. */
  ghost function Carried(d: MiniDestination, rule: TieRule, S: seq<bool>, W: seq<nat>, count: nat, upto: nat): nat
    requires Sized(d, S) && count <= |d.best| == |W|
  {
    if upto == 0 then 0
    else Carried(d, rule, S, W, count, upto - 1) +
         (if upto - 1 == d.destination then 0
          else LoadVia(d, rule, S, W, count, upto - 1, CUSTOMER_COLUMN) + LoadVia(d, rule, S, W, count, upto - 1, PEER_COLUMN)
               + LoadVia(d, rule, S, W, count, upto - 1, PROVIDER_COLUMN))
  }

  /** What the ASes send, each once for every AS its path goes through; S plays no part. */
  ghost function Sent(d: MiniDestination, W: seq<nat>, count: nat): nat
    requires d.Valid() && count <= |d.best| == |W|
  {
    if count == 0 then 0
    else
      assert d.NodeValid(count - 1);
      Sent(d, W, count - 1) + (if d.Reached(count - 1) && count - 1 != d.destination then W[count - 1] * (d.l[count - 1] - 1) else 0)
  }

  /** What one more AS adds to the weight that goes through `n`. */
  lemma LoadsNext(d: MiniDestination, rule: TieRule, S: seq<bool>, W: seq<nat>, count: nat, n: Asn)
    requires Sized(d, S) && count < |d.best| == |W|
    ensures LoadVia(d, rule, S, W, count + 1, n, CUSTOMER_COLUMN) + LoadVia(d, rule, S, W, count + 1, n, PEER_COLUMN)
            + LoadVia(d, rule, S, W, count + 1, n, PROVIDER_COLUMN)
         == LoadVia(d, rule, S, W, count, n, CUSTOMER_COLUMN) + LoadVia(d, rule, S, W, count, n, PEER_COLUMN)
            + LoadVia(d, rule, S, W, count, n, PROVIDER_COLUMN)
            + (if d.Reached(count) && Via(d, rule, S, n, count).Some? then W[count] else 0)
  {
    hide Via, Secure;
    if d.Reached(count) {
      var v := Via(d, rule, S, n, count);
      assert v.Some? ==> v.value == CUSTOMER_COLUMN || v.value == PEER_COLUMN || v.value == PROVIDER_COLUMN;
    }
  }

  lemma {:induction false} CarriedNext(d: MiniDestination, rule: TieRule, S: seq<bool>, W: seq<nat>, count: nat, upto: nat)
    requires Sized(d, S) && count < |d.best| == |W|
    ensures Carried(d, rule, S, W, count + 1, upto) == Carried(d, rule, S, W, count, upto)
         + (if d.Reached(count) then W[count] * Transits(d, rule, S, count, upto) else 0)
  {
    hide Via, Secure, LoadVia;
    if upto > 0 {
      CarriedNext(d, rule, S, W, count, upto - 1);
      var n := upto - 1;
      LoadsNext(d, rule, S, W, count, n);
      if d.Reached(count) && n != d.destination {
        var v := Via(d, rule, S, n, count);
        MulBit(W[count], Transits(d, rule, S, count, n), if v.Some? then 1 else 0);
      }
    }
  }

  lemma {:induction false} CarriedNothing(d: MiniDestination, rule: TieRule, S: seq<bool>, W: seq<nat>, upto: nat)
    requires Sized(d, S) && |d.best| == |W|
    ensures Carried(d, rule, S, W, 0, upto) == 0
  {
    if upto > 0 { CarriedNothing(d, rule, S, W, upto - 1); }
  }

  lemma {:induction false} CarriedIsSent(d: MiniDestination, rule: TieRule, S: seq<bool>, W: seq<nat>, count: nat)
    requires Sized(d, S) && count <= |d.best| == |W|
    ensures Carried(d, rule, S, W, count, |W|) == Sent(d, W, count)
  {
    if count == 0 {
      CarriedNothing(d, rule, S, W, |W|);
    } else {
      var i := count - 1;
      CarriedIsSent(d, rule, S, W, i);
      CarriedNext(d, rule, S, W, i, |W|);
      if d.Reached(i) { TransitsAreDepth(d, rule, S, i); }
    }
  }

  lemma {:induction false} CarriedOnIsCarried(d: MiniDestination, rule: TieRule, S: seq<bool>, paths: seq<Option<seq<nat>>>, W: seq<nat>, upto: nat)
    requires Sized(d, S) && PathsUpToDate(d, rule, S, paths) && |d.best| == |W| && |d.best| <= LOSSLESS
    ensures CarriedOn(paths, W, d.destination, upto) == Carried(d, rule, S, W, |W|, upto)
  {
    hide PathsUpToDate, Load, LoadVia;
    if upto > 0 {
      CarriedOnIsCarried(d, rule, S, paths, W, upto - 1);
      LoadIsVia(d, rule, S, paths, W, |W|, upto - 1, CUSTOMER_COLUMN);
      LoadIsVia(d, rule, S, paths, W, |W|, upto - 1, PEER_COLUMN);
      LoadIsVia(d, rule, S, paths, W, |W|, upto - 1, PROVIDER_COLUMN);
    }
  }

  /** On the paths stored for any security state the ASes carry what is sent, so changing the state only
      redistributes traffic. */
  lemma TrafficIsConserved(d: MiniDestination, rule: TieRule, S: seq<bool>, paths: seq<Option<seq<nat>>>, W: seq<nat>)
    requires Sized(d, S) && PathsUpToDate(d, rule, S, paths) && |d.best| == |W| && |d.best| <= LOSSLESS
    ensures CarriedOn(paths, W, d.destination, |W|) == Sent(d, W, |W|)
  {
    CarriedOnIsCarried(d, rule, S, paths, W, |W|);
    CarriedIsSent(d, rule, S, W, |W|);
  }
}
