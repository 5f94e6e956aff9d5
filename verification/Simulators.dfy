/** One round of the deployment simulation (SimulatorLibrary.cs). */
module Simulators {
  import opened Wrappers
  import opened Topology
  import opened TieBreak
  import opened MiniDestination
  import opened SecurePaths
  import opened Utilities
  import opened Transit
  import opened Destinations
  import opened Workers
  import opened Pruning

  /** Utilities before any flip and, for each AS considered, after its own flip alone. */
  datatype Message = Message(UBefore: seq<nat>, UAfter: seq<nat>)

  /** What a destination is given: a sorted DAG whose ties are decided and whose numbers can be joined. */
  ghost predicate Prepared(d: MiniDestination, rule: TieRule) {
    d.Valid() && d.Sorted(rule) && Decides(rule, d) && |d.best| <= LOSSLESS
  }

  /** The round parameters that stay fixed. */
  datatype Setup = Setup(rule: TieRule, W: seq<nat>, nonStubs: seq<Asn>, justProgress: bool, utility: Utility)
  {
    ghost predicate Fits(d: MiniDestination, S: seq<bool>) {
      Prepared(d, rule) && |S| == |W| == |d.best| && forall n | n in nonStubs :: n < |W|
    }

    ghost function Before(d: MiniDestination, S: seq<bool>, n: Asn): nat
      requires Fits(d, S) && n < |W|
    {
      UtilityUnder(d, rule, S, W, utility, n)
    }

    /** An AS whose flip is not of interest keeps its utility; stubs are left at zero, except that
        nothing is recomputed at all for a destination that is off. */
    ghost function After(d: MiniDestination, S: seq<bool>, n: Asn): nat
      requires Fits(d, S) && n < |W|
    {
      if S[d.destination] && n !in nonStubs then 0
      else if n !in nonStubs || (justProgress && S[n]) then Before(d, S, n)
      else UtilityUnder(d, rule, Flip(S, n), W, utility, n)
    }

    ghost predicate Answers(d: MiniDestination, S: seq<bool>, m: Message) {
      Fits(d, S) && |m.UBefore| == |m.UAfter| == |W|
      && forall n: Asn | n < |W| :: m.UBefore[n] == Before(d, S, n) && m.UAfter[n] == After(d, S, n)
    }
  }

  /** `hasSecPThroughParent`. */
  method HasSecPThroughParent(dest: Destination, S: seq<bool>, node: Asn) returns (r: bool)
    requires dest.Valid() && Sized(dest.d, S) && dest.AllUpToDate(S)
    ensures r <==> HasSecureParent(dest.d, S, node)
  {
    if !dest.d.Reached(node) { return false; }
    var parents := dest.d.Parents(node);
    assert dest.d.NodeValid(node);
    for k := 0 to |parents|
      invariant forall p | p in parents[..k] :: !Secure(dest.d, S, p)
    {
      assert parents[..k + 1] == parents[..k] + [parents[k]];
      assert parents[k] in parents && dest.d.Reached(parents[k]) && dest.UpToDate(S, parents[k]);
      if dest.SecP[parents[k]] { return true; }
    }
    assert parents[..|parents|] == parents;
    return false;
  }

  /** `UpdatePaths` followed by `ComputeU` gives every AS the utility that S determines, and leaves paths
      on which the ASes together carry all that is sent. */
  method RouteAndCount(dest: Destination, copyOfS: array<bool>, W: seq<nat>, utility: Utility)
    requires dest.Valid() && copyOfS.Length == |W| == |dest.d.best| && copyOfS != dest.SecP && |W| <= LOSSLESS
    modifies dest.SecP, dest.ChosenParent, dest.ChosenPath, dest.U
    ensures dest.Valid() && dest.AllUpToDate(copyOfS[..])
    ensures forall n: Asn | n < |W| :: dest.U[n] == UtilityUnder(dest.d, dest.rule, copyOfS[..], W, utility, n)
    ensures CarriedOn(dest.ChosenPath[..], W, dest.d.destination, |W|) == Sent(dest.d, W, |W|)
  {
    dest.UpdatePaths(copyOfS);
    ghost var S, paths := copyOfS[..], dest.ChosenPath[..];
    forall i: Asn | i < |paths|
      ensures paths[i] == if dest.d.Reached(i) then Some(PathOf(dest.d, dest.rule, S, i)) else None
      ensures InRange(paths[i], |W|) {
      assert dest.UpToDate(S, i);
      if dest.d.Reached(i) { HitsAreVia(dest.d, dest.rule, S, i, 0, i); }
    }
    label Routed:
    dest.ComputeU(W, utility);
    forall i: Asn ensures dest.UpToDate(S, i) {
      assert old@Routed(dest.UpToDate(S, i));
    }
    forall n: Asn | n < |W| ensures dest.U[n] == UtilityUnder(dest.d, dest.rule, S, W, utility, n) {
      UtilityOfPaths(dest.d, dest.rule, S, paths, W, utility, n);
    }
    TrafficIsConserved(dest.d, dest.rule, S, paths, W);
  }

  /** The utility of one AS after its flip: recomputed when the flip can matter, copied otherwise. */
  method AfterFlipOf(dest: Destination, w: Worker, S: array<bool>, setup: Setup, n: Asn) returns (after: nat)
    requires setup.Fits(dest.d, S[..]) && dest.Valid() && setup.rule == dest.rule && dest.AllUpToDate(S[..]) && S != dest.SecP
    requires n in setup.nonStubs && n < |setup.W| && dest.U[n] == setup.Before(dest.d, S[..], n)
    modifies w, S
    ensures S[..] == old(S[..]) && after == setup.After(dest.d, S[..], n)
  {
    var d := dest.d;
    var secure := HasSecPThroughParent(dest, S[..], n);
    if secure && (!setup.justProgress || (setup.justProgress && !S[n])) {
      forall i: Asn | d.Reached(i) ensures (dest.SecP[i] <==> Secure(d, S[..], i)) && dest.ChosenParent[i] == Parent(d, setup.rule, S[..], i) {
        assert dest.UpToDate(S[..], i);
      }
      after := w.ComputeUtility(d, setup.rule, dest.ChosenParent, dest.SecP, S, n, d.l[n], d.bestRelation[n], setup.W, setup.utility);
    } else {
      after := dest.U[n];
      if !secure { PruningIsSound(d, setup.rule, S[..], setup.W, setup.utility, n); }
    }
  }

  /** `ComputeOnDestination`: exact utilities before any flip and after each flip of interest,
      although most flips are never recomputed. */
  method ComputeOnDestination(d: MiniDestination, S: array<bool>, setup: Setup) returns (result: Message)
    requires setup.Fits(d, S[..])
    ensures setup.Answers(d, S[..], result)
  {
    var dest := new Destination(d, setup.rule);
    var copyOfS := new bool[S.Length](i requires 0 <= i < S.Length reads S => S[i]);
    assert copyOfS[..] == S[..];
    RouteAndCount(dest, copyOfS, setup.W, setup.utility);
    var UBefore := dest.U[..];
    if !S[d.destination] {
      DestinationOff(d, S[..], setup);
      return Message(UBefore, UBefore);
    }
    var UAfter := AfterFlips(dest, copyOfS, setup);
    result := Message(UBefore, UAfter);
  }

  /** The utilities of the non-stubs after their flips, for a destination that is on. */
  method AfterFlips(dest: Destination, S: array<bool>, setup: Setup) returns (UAfter: seq<nat>)
    requires setup.Fits(dest.d, S[..]) && dest.Valid() && setup.rule == dest.rule && dest.AllUpToDate(S[..]) && S != dest.SecP
    requires S[dest.d.destination] && forall n: Asn | n < |setup.W| :: dest.U[n] == setup.Before(dest.d, S[..], n)
    modifies S
    ensures S[..] == old(S[..]) && |UAfter| == |setup.W|
    ensures forall n: Asn | n < |UAfter| :: UAfter[n] == setup.After(dest.d, S[..], n)
  {
    hide UtilityUnder;
    UAfter := seq(|setup.W|, _ => 0);
    var w := new Worker();
    for k := 0 to |setup.nonStubs|
      invariant S[..] == old(S[..]) && |UAfter| == |setup.W|
      invariant dest.Valid() && dest.AllUpToDate(S[..]) && dest.U[..] == old(dest.U[..])
      invariant forall n: Asn | n < |UAfter| :: UAfter[n] == if n in setup.nonStubs[..k] then setup.After(dest.d, S[..], n) else 0
    {
      var currASN := setup.nonStubs[k];
      assert setup.nonStubs[..k + 1] == setup.nonStubs[..k] + [currASN];
      assert currASN in setup.nonStubs;
      assert dest.U[currASN] == old(dest.U[..])[currASN];
      var u := AfterFlipOf(dest, w, S, setup, currASN);
      UAfter := UAfter[currASN := u];
    }
    assert setup.nonStubs[..|setup.nonStubs|] == setup.nonStubs;
  }

  /** For a destination that is off, every utility is that after any flip. */
  lemma DestinationOff(d: MiniDestination, S: seq<bool>, setup: Setup)
    requires setup.Fits(d, S) && !S[d.destination]
    ensures forall n: Asn | n < |S| :: setup.After(d, S, n) == setup.Before(d, S, n)
  {
    forall n: Asn | n < |S| ensures setup.After(d, S, n) == setup.Before(d, S, n) {
      PruningIsSound(d, setup.rule, S, setup.W, setup.utility, n);
    }
  }
}
