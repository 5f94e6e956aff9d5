/** Which parent each AS chooses when the ASes in S prefer secure paths, without saying how it is
    computed: the simulator's `UpdatePaths` and its incremental counterpart both answer to this. */
module SecurePaths {
  import opened Wrappers
  import opened Topology
  import opened TieBreak
  import opened BfsState
  import opened MiniDestination

  /** S gives every AS a security bit. */
  ghost predicate Sized(d: MiniDestination, S: seq<bool>) {
    d.Valid() && |S| == |d.best|
  }

  /** `i` has a best path all of whose ASes are secure. */
  ghost predicate Secure(d: MiniDestination, S: seq<bool>, i: Asn)
    requires Sized(d, S)
    decreases if i < |d.l| then d.l[i] else 0
  {
    assert d.NodeValid(i);
    d.Reached(i) && S[i] && (i == d.destination || exists p :: p in d.Parents(i) && Secure(d, S, p))
  }

  ghost predicate HasSecureParent(d: MiniDestination, S: seq<bool>, i: Asn)
    requires Sized(d, S)
  {
    exists p :: p in d.Parents(i) && Secure(d, S, p)
  }

  /** A secure AS with a secure parent considers only secure parents; any other AS considers all. */
  ghost predicate Candidate(d: MiniDestination, S: seq<bool>, i: Asn, p: Asn)
    requires Sized(d, S)
  {
    p in d.Parents(i) && (d.Reached(i) && S[i] && HasSecureParent(d, S, i) ==> Secure(d, S, p))
  }

  /** `p` wins the tie-break among the parents `i` considers. */
  ghost predicate IsChoice(d: MiniDestination, rule: TieRule, S: seq<bool>, i: Asn, p: Asn)
    requires Sized(d, S)
  {
    Candidate(d, S, i, p) && forall q | Candidate(d, S, i, q) :: rule.Key(i, p) <= rule.Key(i, q)
  }

  lemma {:induction false} LeastExists(rule: TieRule, i: Asn, list: seq<Asn>) returns (p: Asn)
    requires list != []
    ensures rule.IsLeast(i, list, p)
  {
    p := list[0];
    if |list| > 1 {
      var q := LeastExists(rule, i, list[1..]);
      p := if rule.Key(i, q) < rule.Key(i, p) then q else p;
    }
    assert list == [list[0]] + list[1..];
  }

  ghost function SecureOnes(d: MiniDestination, S: seq<bool>, list: seq<Asn>): (r: seq<Asn>)
    requires Sized(d, S)
    ensures forall p :: p in r <==> p in list && Secure(d, S, p)
  {
    if list == [] then [] else
    assert list == [list[0]] + list[1..];
    (if Secure(d, S, list[0]) then [list[0]] else []) + SecureOnes(d, S, list[1..])
  }

  lemma ChoiceExists(d: MiniDestination, rule: TieRule, S: seq<bool>, i: Asn)
    requires Sized(d, S) && d.Reached(i)
    ensures exists p :: IsChoice(d, rule, S, i, p)
  {
    assert d.NodeValid(i);
    var p;
    if S[i] && HasSecureParent(d, S, i) {
      var list := SecureOnes(d, S, d.Parents(i));
      p := LeastExists(rule, i, list);
    } else {
      p := LeastExists(rule, i, d.Parents(i));
    }
    assert IsChoice(d, rule, S, i, p);
  }

  lemma ChoiceIsUnique(d: MiniDestination, rule: TieRule, S: seq<bool>, i: Asn, p: Asn, q: Asn)
    requires Sized(d, S) && d.Separated(rule) && IsChoice(d, rule, S, i, p) && IsChoice(d, rule, S, i, q)
    ensures p == q
  {
    assert rule.Separates(i, d.Parents(i));
  }

  ghost function Parent(d: MiniDestination, rule: TieRule, S: seq<bool>, i: Asn): (p: Asn)
    requires Sized(d, S) && d.Reached(i)
    ensures IsChoice(d, rule, S, i, p)
    ensures i == d.destination ==> p == i
    ensures d.Reached(p) && (i != d.destination ==> d.l[p] + 1 == d.l[i])
  {
    assert d.NodeValid(i);
    ChoiceExists(d, rule, S, i);
    var p :| IsChoice(d, rule, S, i, p);
    p
  }

  /** An AS is secure exactly when it is in S and the parent it chooses is secure. */
  lemma SecureByParent(d: MiniDestination, rule: TieRule, S: seq<bool>, i: Asn)
    requires Sized(d, S) && d.Reached(i) && i != d.destination
    ensures Secure(d, S, i) <==> S[i] && Secure(d, S, Parent(d, rule, S, i))
  {
    var p := Parent(d, rule, S, i);
    assert Candidate(d, S, i, p);
  }

  /** The chain of parents from `i` to the destination. */
  ghost function Chain(d: MiniDestination, rule: TieRule, S: seq<bool>, i: Asn): (c: seq<Asn>)
    requires Sized(d, S) && d.Reached(i)
    ensures c != [] && c[0] == i
    decreases d.l[i]
  {
    if i == d.destination then [i] else [i] + Chain(d, rule, S, Parent(d, rule, S, i))
  }

  /** The encoded path, as `updatePath` builds it from the parent's. */
  ghost function PathOf(d: MiniDestination, rule: TieRule, S: seq<bool>, i: Asn): (path: seq<nat>)
    requires Sized(d, S) && d.Reached(i)
    ensures path != [] && path[0] == i
    decreases d.l[i]
  {
    if i == d.destination then [i]
    else UpdatedPath(i, Some(PathOf(d, rule, S, Parent(d, rule, S, i))), d.bestRelation[i])
  }

  /** A path is secure exactly when every AS on it, the first and the destination included, is in S. */
  lemma {:induction false} SecureIsWholePath(d: MiniDestination, rule: TieRule, S: seq<bool>, i: Asn)
    requires Sized(d, S) && d.Reached(i)
    ensures Secure(d, S, i) <==> forall a | a in Chain(d, rule, S, i) :: a < |S| && S[a]
    decreases d.l[i]
  {
    if i != d.destination {
      var p := Parent(d, rule, S, i);
      SecureByParent(d, rule, S, i);
      SecureIsWholePath(d, rule, S, p);
      hide Secure;
      var c := Chain(d, rule, S, p);
      assert Chain(d, rule, S, i) == [i] + c;
      assert forall a :: a in [i] + c <==> a == i || a in c;
    } else {
      assert Chain(d, rule, S, i) == [i];
    }
  }

  /** Entry j of an encoded path is its j-th AS with the class of the AS before it. */
  ghost predicate HopAt(d: MiniDestination, c: seq<Asn>, path: seq<nat>, j: nat) {
    1 <= j < |c| && j < |path| ==> c[j - 1] < |d.bestRelation| && path[j] == Join(c[j], d.bestRelation[c[j - 1]])
  }

  /** The chosen path has one more AS than the depth, ends at the destination, repeats no AS, and
      pairs every AS but the first with the class of the AS before it. */
  lemma {:induction false} PathIsChain(d: MiniDestination, rule: TieRule, S: seq<bool>, i: Asn)
    requires Sized(d, S) && d.Reached(i)
    ensures var c, path := Chain(d, rule, S, i), PathOf(d, rule, S, i);
            && |path| == |c| == d.l[i] + 1 && c[d.l[i]] == d.destination && NoDup(c)
            && (forall a | a in c :: d.Reached(a) && d.l[a] <= d.l[i])
            && (forall j: nat {:trigger HopAt(d, c, path, j)} :: HopAt(d, c, path, j))
    decreases d.l[i]
  {
    hide Secure, Candidate, IsChoice;
    if i == d.destination {
      assert d.NodeValid(i);
    } else {
      var p := Parent(d, rule, S, i);
      PathIsChain(d, rule, S, p);
      var c, path := Chain(d, rule, S, p), PathOf(d, rule, S, p);
      var c', path' := [i] + c, [i, Join(p, d.bestRelation[i])] + path[1..];
      assert Chain(d, rule, S, i) == c' && PathOf(d, rule, S, i) == path';
      NoDupCons(i, c);
      forall j: nat ensures HopAt(d, c', path', j) {
        if j > 1 { assert HopAt(d, c, path, j - 1); }
      }
    }
  }

  lemma NoDupCons<T>(x: T, s: seq<T>)
    requires NoDup(s) && x !in s
    ensures NoDup([x] + s)
  {
  }
}
