/** The BFS's own choice and the choice among the sorted Best lists are the same (BFS.cs, Destination.cs). */
module Agreement {
  import opened Wrappers
  import opened Topology
  import opened BfsState
  import opened BfsPasses
  import opened MiniDestination
  import opened Initialisation
  import opened SecurePaths

  function AllOff(n: nat): (S: seq<bool>)
    ensures |S| == n && forall i | 0 <= i < n :: !S[i]
  {
    seq(n, _ => false)
  }

  /** `d` is the DAG of the finished tree, with its Best lists in some order that leaves no tie. */
  ghost predicate SortedDagOf(p: Problem, s: State, d: MiniDestination) {
    && Settled(p, 3, s) && |s.bucket| <= 256
    && DagOf(p.root, s).SameUpToOrder(d) && d.Separated(p.rule) && d.Valid()
  }

  lemma BfsParentIsChoice(p: Problem, s: State, d: MiniDestination, i: Asn)
    requires SortedDagOf(p, s, d) && d.Reached(i) && i != p.root
    ensures i < |s.chosen| && s.chosen[i] == Parent(d, p.rule, AllOff(|d.best|), i)
    ensures s.Known(p.root, i) && s.path[i] == Some(UpdatedPath(i, s.path[s.chosen[i]], s.rel[i]))
  {
    var S := AllOff(|d.best|);
    DagNode(p, s, i);
    assert d.Parents(i) == d.Parents(i) && DagOf(p.root, s).Reached(i);
    assert SettledAt(p, 3, s, i);
    var best := s.best[i].value;
    assert forall q :: q in d.Parents(i) <==> q in best;
    assert IsChoice(d, p.rule, S, i, s.chosen[i]);
    ChoiceIsUnique(d, p.rule, S, i, s.chosen[i], Parent(d, p.rule, S, i));
  }

  /** With nobody secure, `UpdatePaths` chooses the parents and paths the BFS had chosen. */
  lemma {:induction false} BfsPathIsPath(p: Problem, s: State, d: MiniDestination, i: Asn)
    requires SortedDagOf(p, s, d) && d.Reached(i)
    ensures i < |s.path| && s.path[i] == Some(PathOf(d, p.rule, AllOff(|d.best|), i))
    decreases d.l[i]
  {
    var S := AllOff(|d.best|);
    if i == p.root {
      assert SettledAt(p, 3, s, i);
    } else {
      BfsParentIsChoice(p, s, d, i);
      BfsPathIsPath(p, s, d, Parent(d, p.rule, S, i));
    }
  }
}
