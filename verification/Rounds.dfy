/** Rounds of the simulation: `updateGlobalState` and where repeating it leads (SimulatorLibrary.cs). */
module Rounds {
  import opened Topology
  import opened MiniDestination
  import opened Simulators

  /** How far a utility has to rise, and how single-precision results are rounded. */
  datatype Threshold = Threshold(percent: real, round: real -> real)
  {
    /** What a utility has to exceed: a conversion, a sum and a product, each of them rounded. */
    function Target(before: nat): real {
      round(Times(round(before as real), round(1.0 + percent)))
    }

    predicate Exceeded(before: nat, after: nat) {
      round(after as real) > Target(before)
    }

    /** Rounding to nearest, or not at all, does this. */
    ghost predicate Sound() {
      && percent >= 0.0 && round(0.0) == 0.0 && round(1.0) == 1.0
      && (forall x {:trigger round(round(x))} :: round(round(x)) == round(x))
      && (forall x, y | x <= y :: round(x) <= round(y))
    }

    lemma RoundKeepsOrder(x: real, y: real)
      requires Sound() && x <= y
      ensures round(x) <= round(y) && round(round(x)) == round(x)
    {
    }

    lemma Units()
      requires Sound()
      ensures percent >= 0.0 && round(0.0) == 0.0 && round(1.0) == 1.0
    {
    }

    lemma TargetIsAbove(before: nat)
      requires Sound()
      ensures round(before as real) <= Target(before)
    {
      hide Sound, Times;
      Units();
      RoundKeepsOrder(0.0, before as real);
      RoundKeepsOrder(1.0, 1.0 + percent);
      var b, f := round(before as real), round(1.0 + percent);
      var product := Times(b, f);
      Scaled(b, f);
      RoundKeepsOrder(before as real, before as real);
      assert round(b) == b;
      RoundKeepsOrder(b, product);
    }

    /** Without a gain no threshold is exceeded. */
    lemma NoGainNoFlip(before: nat, after: nat)
      requires Sound() && after <= before
      ensures !Exceeded(before, after)
    {
      hide Target, Sound;
      RoundKeepsOrder(after as real, before as real);
      TargetIsAbove(before);
    }
  }

  function Times(x: real, y: real): real {
    x * y
  }

  lemma Scaled(b: real, f: real)
    requires 0.0 <= b && 1.0 <= f
    ensures b <= Times(b, f)
  {
    assert b * f == b + b * (f - 1.0);
    assert b * (f - 1.0) >= 0.0;
  }

  function TotalBefore(results: seq<Message>, n: Asn): nat
    requires forall m | m in results :: n < |m.UBefore|
  {
    if results == [] then 0 else TotalBefore(results[..|results| - 1], n) + results[|results| - 1].UBefore[n]
  }

  function TotalAfter(results: seq<Message>, n: Asn): nat
    requires forall m | m in results :: n < |m.UAfter|
  {
    if results == [] then 0 else TotalAfter(results[..|results| - 1], n) + results[|results| - 1].UAfter[n]
  }

  ghost predicate Rectangular(results: seq<Message>, N: nat) {
    forall m | m in results :: |m.UBefore| == |m.UAfter| == N
  }

  function CountOn(S: seq<bool>): nat {
    if S == [] then 0 else CountOn(S[..|S| - 1]) + (if S[|S| - 1] then 1 else 0)
  }

  /** In how many places two states differ. */
  function CountFlips(S: seq<bool>, S': seq<bool>): nat
    requires |S| == |S'|
  {
    if S == [] then 0 else CountFlips(S[..|S| - 1], S'[..|S| - 1]) + (if S[|S| - 1] != S'[|S| - 1] then 1 else 0)
  }

  method SumResults(results: seq<Message>, n: Asn) returns (before: nat, after: nat)
    requires forall m | m in results :: n < |m.UBefore| == |m.UAfter|
    ensures before == TotalBefore(results, n) && after == TotalAfter(results, n)
  {
    before, after := 0, 0;
    for d := 0 to |results|
      invariant before == TotalBefore(results[..d], n) && after == TotalAfter(results[..d], n)
    {
      assert results[..d + 1][..d] == results[..d];
      before := before + results[d].UBefore[n];
      after := after + results[d].UAfter[n];
    }
    assert results[..|results|] == results;
  }

  class SimulatorLibrary {
    var numberOn: int
    var numberFlipped: int

    /** `updateGlobalState`: flips every AS whose total utility rises by more than the threshold, and
        counts the flips and the ASes on.  Without results it counts nothing. */
    method UpdateGlobalState(S: array<bool>, results: seq<Message>, t: Threshold) returns (Before: seq<nat>, After: seq<nat>)
      requires Rectangular(results, S.Length)
      modifies this, S
      ensures results == [] ==> S[..] == old(S[..]) && numberOn == numberFlipped == 0
      ensures results != [] ==> |Before| == |After| == S.Length
      ensures results != [] ==> forall n: Asn | n < S.Length ::
                Before[n] == TotalBefore(results, n) && After[n] == TotalAfter(results, n)
                && (S[n] != old(S[n]) <==> t.Exceeded(Before[n], After[n]))
      ensures results != [] ==> numberOn == CountOn(S[..]) && numberFlipped == CountFlips(old(S[..]), S[..])
    {
      hide TotalBefore, TotalAfter, Threshold.Exceeded;
      numberFlipped, numberOn := 0, 0;
      Before, After := [], [];
      if |results| == 0 { return; }
      for currASN := 0 to S.Length
        invariant |Before| == |After| == currASN
        invariant forall n: Asn | n < currASN ::
                Before[n] == TotalBefore(results, n) && After[n] == TotalAfter(results, n)
                && (S[n] != old(S[n]) <==> t.Exceeded(Before[n], After[n]))
        invariant forall n | currASN <= n < S.Length :: S[n] == old(S[n])
        invariant numberOn == CountOn(S[..currASN]) && numberFlipped == CountFlips(old(S[..])[..currASN], S[..currASN])
      {
        var before, after := SumResults(results, currASN);
        Before, After := Before + [before], After + [after];
        ghost var prefix := S[..currASN];
        if t.Exceeded(before, after) {
          S[currASN] := !S[currASN];
          numberFlipped := numberFlipped + 1;
        }
        if S[currASN] {
          numberOn := numberOn + 1;
        }
        assert S[..currASN + 1][..currASN] == prefix;
        assert old(S[..])[..currASN + 1][..currASN] == old(S[..])[..currASN];
      }
      assert S[..S.Length] == S[..] && old(S[..])[..S.Length] == old(S[..]);
    }

    /** One round over a list of destinations. */
    method Round(ds: seq<MiniDestination>, S: array<bool>, setup: Setup, t: Threshold)
      requires forall d | d in ds :: setup.Fits(d, S[..])
      modifies this, S
      ensures S[..] == NextState(setup, ds, old(S[..]), t)
      ensures ds != [] ==> numberOn == CountOn(S[..]) && numberFlipped == CountFlips(old(S[..]), S[..])
    {
      var results := [];
      for k := 0 to |ds|
        invariant |results| == k && S[..] == old(S[..])
        invariant forall j | 0 <= j < k :: setup.Answers(ds[j], S[..], results[j])
      {
        assert ds[k] in ds;
        var m := ComputeOnDestination(ds[k], S, setup);
        results := results + [m];
      }
      ghost var S0 := S[..];
      assert Rectangular(results, S.Length);
      var _, _ := UpdateGlobalState(S, results, t);
      TotalsAreSpecified(setup, ds, S0, results, t);
      assert S[..] == NextState(setup, ds, S0, t);
    }
  }

  // ---- The round as a function of the state

  ghost predicate AllFit(setup: Setup, ds: seq<MiniDestination>, S: seq<bool>) {
    forall d | d in ds :: setup.Fits(d, S)
  }

  ghost function SumBefore(setup: Setup, ds: seq<MiniDestination>, S: seq<bool>, n: Asn): nat
    requires AllFit(setup, ds, S) && n < |S|
  {
    if ds == [] then 0 else SumBefore(setup, ds[..|ds| - 1], S, n) + setup.Before(ds[|ds| - 1], S, n)
  }

  ghost function SumAfter(setup: Setup, ds: seq<MiniDestination>, S: seq<bool>, n: Asn): nat
    requires AllFit(setup, ds, S) && n < |S|
  {
    if ds == [] then 0 else SumAfter(setup, ds[..|ds| - 1], S, n) + setup.After(ds[|ds| - 1], S, n)
  }

  ghost predicate Flips(setup: Setup, ds: seq<MiniDestination>, S: seq<bool>, t: Threshold, n: Asn)
    requires AllFit(setup, ds, S) && n < |S|
  {
    ds != [] && t.Exceeded(SumBefore(setup, ds, S, n), SumAfter(setup, ds, S, n))
  }

  ghost function NextState(setup: Setup, ds: seq<MiniDestination>, S: seq<bool>, t: Threshold): (S': seq<bool>)
    requires AllFit(setup, ds, S)
    ensures |S'| == |S| && forall n: Asn | n < |S| :: S'[n] != S[n] <==> Flips(setup, ds, S, t, n)
  {
    seq(|S|, n requires 0 <= n < |S| => if Flips(setup, ds, S, t, n) then !S[n] else S[n])
  }

  lemma {:induction false} TotalsAreSums(setup: Setup, ds: seq<MiniDestination>, S: seq<bool>, results: seq<Message>, n: Asn)
    requires AllFit(setup, ds, S) && |results| == |ds| && n < |S|
    requires forall j | 0 <= j < |ds| :: setup.Answers(ds[j], S, results[j])
    ensures forall m | m in results :: n < |m.UBefore| == |m.UAfter|
    ensures TotalBefore(results, n) == SumBefore(setup, ds, S, n) && TotalAfter(results, n) == SumAfter(setup, ds, S, n)
  {
    if ds != [] {
      TotalsAreSums(setup, ds[..|ds| - 1], S, results[..|ds| - 1], n);
      assert results == results[..|ds| - 1] + [results[|ds| - 1]];
      assert setup.Answers(ds[|ds| - 1], S, results[|ds| - 1]);
    }
  }

  lemma TotalsAreSpecified(setup: Setup, ds: seq<MiniDestination>, S: seq<bool>, results: seq<Message>, t: Threshold)
    requires AllFit(setup, ds, S) && |results| == |ds|
    requires forall j | 0 <= j < |ds| :: setup.Answers(ds[j], S, results[j])
    ensures Rectangular(results, |S|)
    ensures forall n: Asn | n < |S| :: Flips(setup, ds, S, t, n) <==> results != [] && t.Exceeded(TotalBefore(results, n), TotalAfter(results, n))
  {
    forall n: Asn | n < |S| ensures Flips(setup, ds, S, t, n) <==> results != [] && t.Exceeded(TotalBefore(results, n), TotalAfter(results, n)) {
      TotalsAreSums(setup, ds, S, results, n);
    }
  }

  // ---- Convergence

  /** With `justProgress`, an AS that is on, or that is a stub, has nothing to gain. */
  lemma {:induction false} NoGain(setup: Setup, ds: seq<MiniDestination>, S: seq<bool>, n: Asn)
    requires AllFit(setup, ds, S) && setup.justProgress && n < |S| && (S[n] || n !in setup.nonStubs)
    ensures SumAfter(setup, ds, S, n) <= SumBefore(setup, ds, S, n)
  {
    if ds != [] { NoGain(setup, ds[..|ds| - 1], S, n); }
  }

  /** Only non-stubs that are off are ever flipped. */
  lemma OnlyProgress(setup: Setup, ds: seq<MiniDestination>, S: seq<bool>, t: Threshold, n: Asn)
    requires AllFit(setup, ds, S) && setup.justProgress && t.Sound() && n < |S|
    requires Flips(setup, ds, S, t, n)
    ensures !S[n] && n in setup.nonStubs
  {
    if S[n] || n !in setup.nonStubs {
      NoGain(setup, ds, S, n);
      t.NoGainNoFlip(SumBefore(setup, ds, S, n), SumAfter(setup, ds, S, n));
    }
  }

  lemma {:induction false} FlipsOnlyAdd(S: seq<bool>, S': seq<bool>)
    requires |S| == |S'| && forall n | 0 <= n < |S| :: S[n] ==> S'[n]
    ensures CountOn(S') == CountOn(S) + CountFlips(S, S')
  {
    if S != [] { FlipsOnlyAdd(S[..|S| - 1], S'[..|S| - 1]); }
  }

  /** One round turns no AS off and flips no stub; the number on grows by the number flipped. */
  lemma RoundIsProgress(setup: Setup, ds: seq<MiniDestination>, S: seq<bool>, t: Threshold)
    requires AllFit(setup, ds, S) && setup.justProgress && t.Sound()
    ensures var S' := NextState(setup, ds, S, t);
            && (forall n: Asn | n < |S| :: S[n] ==> S'[n])
            && (forall n: Asn | n < |S| && n !in setup.nonStubs :: S'[n] == S[n])
            && CountOn(S') == CountOn(S) + CountFlips(S, S')
  {
    var S' := NextState(setup, ds, S, t);
    forall n: Asn | n < |S| ensures (S[n] ==> S'[n]) && (n !in setup.nonStubs ==> S'[n] == S[n]) {
      if Flips(setup, ds, S, t, n) { OnlyProgress(setup, ds, S, t, n); }
    }
    FlipsOnlyAdd(S, S');
  }

  /** The non-stubs that are still off. */
  ghost function Off(setup: Setup, S: seq<bool>): set<Asn> {
    set n | n in setup.nonStubs && n < |S| && !S[n]
  }

  ghost function StateAfter(setup: Setup, ds: seq<MiniDestination>, S: seq<bool>, t: Threshold, rounds: nat): (S': seq<bool>)
    requires AllFit(setup, ds, S)
    ensures |S'| == |S| && AllFit(setup, ds, S')
  {
    if rounds == 0 then S else NextState(setup, ds, StateAfter(setup, ds, S, t, rounds - 1), t)
  }

  ghost predicate ChangesAt(setup: Setup, ds: seq<MiniDestination>, S: seq<bool>, t: Threshold, round: nat)
    requires AllFit(setup, ds, S)
  {
    NextState(setup, ds, StateAfter(setup, ds, S, t, round), t) != StateAfter(setup, ds, S, t, round)
  }

  lemma NextFits(setup: Setup, ds: seq<MiniDestination>, S: seq<bool>, t: Threshold)
    requires AllFit(setup, ds, S)
    ensures AllFit(setup, ds, NextState(setup, ds, S, t))
  {
  }

  lemma {:induction false} StateAfterShift(setup: Setup, ds: seq<MiniDestination>, S: seq<bool>, t: Threshold, rounds: nat)
    requires AllFit(setup, ds, S)
    ensures StateAfter(setup, ds, S, t, rounds + 1) == StateAfter(setup, ds, NextState(setup, ds, S, t), t, rounds)
  {
    NextFits(setup, ds, S, t);
    hide NextState, AllFit, Flips;
    if rounds > 0 { StateAfterShift(setup, ds, S, t, rounds - 1); }
  }

  /** A round that flips anything leaves fewer non-stubs off. */
  lemma FlippingShrinks(setup: Setup, ds: seq<MiniDestination>, S: seq<bool>, t: Threshold)
    requires AllFit(setup, ds, S) && setup.justProgress && t.Sound()
    requires NextState(setup, ds, S, t) != S
    ensures Off(setup, NextState(setup, ds, S, t)) < Off(setup, S)
  {
    hide Threshold.Sound, Flips, AllFit;
    var S' := NextState(setup, ds, S, t);
    RoundIsProgress(setup, ds, S, t);
    hide NextState;
    var n: Asn :| n < |S| && S'[n] != S[n];
    OnlyProgress(setup, ds, S, t, n);
    assert n in Off(setup, S) && n !in Off(setup, S');
  }

  /** The simulation reaches a state that no longer changes, after at most as many rounds as there
      are non-stubs off at the start. */
  lemma {:induction false} Converges(setup: Setup, ds: seq<MiniDestination>, S: seq<bool>, t: Threshold) returns (rounds: nat)
    requires AllFit(setup, ds, S) && setup.justProgress && t.Sound()
    ensures rounds <= |Off(setup, S)|
    ensures !ChangesAt(setup, ds, S, t, rounds)
    ensures forall r: nat | r < rounds :: ChangesAt(setup, ds, S, t, r)
    decreases Off(setup, S)
  {
    hide NextState, Flips, Off;
    var S' := NextState(setup, ds, S, t);
    if S' == S {
      return 0;
    }
    FlippingShrinks(setup, ds, S, t);
    ProperSubsetSize(Off(setup, S'), Off(setup, S));
    var more := Converges(setup, ds, S', t);
    rounds := more + 1;
    StateAfterShift(setup, ds, S, t, more);
    forall r: nat | r < rounds ensures ChangesAt(setup, ds, S, t, r) {
      if r > 0 {
        assert ChangesAt(setup, ds, S', t, r - 1);
        StateAfterShift(setup, ds, S, t, r - 1);
      }
    }
  }

  lemma ProperSubsetSize(a: set<Asn>, b: set<Asn>)
    requires a < b
    ensures |a| < |b|
  {
    var x :| x in b && x !in a;
    SubsetSize(a, b - {x});
  }
}
