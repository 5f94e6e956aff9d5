/** Flips that cannot change any route (SimulatorLibrary.cs). */
module Pruning {
  import opened Topology
  import opened GaoRexford
  import opened TieBreak
  import opened MiniDestination
  import opened SecurePaths
  import opened Utilities
  import opened Transit
  import opened Workers

  /** S and S' give every AS the same security and the same parent. */
  ghost predicate SameRoutes(d: MiniDestination, rule: TieRule, S: seq<bool>, S': seq<bool>)
    requires Sized(d, S) && Sized(d, S')
  {
    forall i: Asn {:trigger SameRoute(d, rule, S, S', i)} :: SameRoute(d, rule, S, S', i)
  }

  ghost predicate SameRoute(d: MiniDestination, rule: TieRule, S: seq<bool>, S': seq<bool>, i: Asn)
    requires Sized(d, S) && Sized(d, S')
  {
    d.Reached(i) ==> (Secure(d, S, i) <==> Secure(d, S', i)) && Parent(d, rule, S, i) == Parent(d, rule, S', i)
  }

  lemma {:induction false} SameVia(d: MiniDestination, rule: TieRule, S: seq<bool>, S': seq<bool>, n: Asn, i: Asn)
    requires Sized(d, S) && Sized(d, S') && SameRoutes(d, rule, S, S') && d.Reached(i)
    ensures Via(d, rule, S, n, i) == Via(d, rule, S', n, i)
    decreases d.l[i]
  {
    assert SameRoute(d, rule, S, S', i);
    if i != d.destination { SameVia(d, rule, S, S', n, Parent(d, rule, S, i)); }
  }

  lemma {:induction false} SameLoad(d: MiniDestination, rule: TieRule, S: seq<bool>, S': seq<bool>, W: seq<nat>, count: nat, n: Asn, col: nat)
    requires Sized(d, S) && Sized(d, S') && SameRoutes(d, rule, S, S') && count <= |d.best| == |W|
    ensures LoadVia(d, rule, S, W, count, n, col) == LoadVia(d, rule, S', W, count, n, col)
  {
    hide Via, Secure;
    if count > 0 {
      SameLoad(d, rule, S, S', W, count - 1, n, col);
      if d.Reached(count - 1) { SameVia(d, rule, S, S', n, count - 1); }
    }
  }

  lemma SameUtility(d: MiniDestination, rule: TieRule, S: seq<bool>, S': seq<bool>, W: seq<nat>, u: Utility, n: Asn)
    requires Sized(d, S) && Sized(d, S') && SameRoutes(d, rule, S, S') && |W| == |d.best| && n < |W|
    ensures UtilityUnder(d, rule, S, W, u, n) == UtilityUnder(d, rule, S', W, u, n)
  {
    SameLoad(d, rule, S, S', Ones(|W|), |W|, n, PROVIDER_COLUMN);
    SameLoad(d, rule, S, S', W, |W|, n, PROVIDER_COLUMN);
    SameLoad(d, rule, S, S', W, |W|, n, PEER_COLUMN);
    SameLoad(d, rule, S, S', W, |W|, n, CUSTOMER_COLUMN);
  }

  /** Without a secure parent, the bit of `n` decides nothing anywhere. */
  lemma {:induction false} IdleFlipSecure(d: MiniDestination, S: seq<bool>, n: Asn, i: Asn)
    requires Sized(d, S) && n != d.destination && !HasSecureParent(d, S, n) && d.Reached(i)
    ensures Secure(d, S, i) <==> Secure(d, Flip(S, n), i)
    decreases d.l[i]
  {
    assert d.NodeValid(i);
    if i != d.destination {
      forall p | p in d.Parents(i) ensures Secure(d, S, p) <==> Secure(d, Flip(S, n), p) {
        assert d.l[p] < d.l[i] && d.Reached(p);
        IdleFlipSecure(d, S, n, p);
      }
    }
  }

  lemma IdleFlip(d: MiniDestination, rule: TieRule, S: seq<bool>, n: Asn)
    requires Sized(d, S) && d.Separated(rule) && n != d.destination && !HasSecureParent(d, S, n)
    ensures SameRoutes(d, rule, S, Flip(S, n))
  {
    forall i: Asn ensures SameRoute(d, rule, S, Flip(S, n), i) {
      if d.Reached(i) {
        IdleFlipSecure(d, S, n, i);
        assert d.NodeValid(i);
        forall p | p in d.Parents(i) ensures Secure(d, S, p) <==> Secure(d, Flip(S, n), p) {
          assert d.Reached(p);
          IdleFlipSecure(d, S, n, p);
        }
        SameChoice(d, rule, S, Flip(S, n), i);
      }
    }
  }

  /** Nothing is secure when the destination is off. */
  lemma {:induction false} OffMeansInsecure(d: MiniDestination, S: seq<bool>, i: Asn)
    requires Sized(d, S) && !S[d.destination]
    ensures !Secure(d, S, i)
    decreases if i < |d.l| then d.l[i] else 0
  {
    if d.Reached(i) && i != d.destination {
      assert d.NodeValid(i);
      forall p | p in d.Parents(i) ensures !Secure(d, S, p) {
        OffMeansInsecure(d, S, p);
      }
    }
  }

  /** Skipping a flip is sound when `n` has no secure parent, and when the destination is off:
      the utility of `n` is the same after the flip. */
  lemma PruningIsSound(d: MiniDestination, rule: TieRule, S: seq<bool>, W: seq<nat>, u: Utility, n: Asn)
    requires Sized(d, S) && d.Separated(rule) && |W| == |d.best| && n < |W|
    requires !HasSecureParent(d, S, n) || !S[d.destination]
    ensures UtilityUnder(d, rule, Flip(S, n), W, u, n) == UtilityUnder(d, rule, S, W, u, n)
  {
    if n != d.destination {
      if HasSecureParent(d, S, n) {
        var p :| p in d.Parents(n) && Secure(d, S, p);
        OffMeansInsecure(d, S, p);
      }
      IdleFlip(d, rule, S, n);
      SameUtility(d, rule, S, Flip(S, n), W, u, n);
    }
  }
}
