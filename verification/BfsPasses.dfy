/** From pass to pass: the state after `k` passes is settled, each pass starts from a settled
    state, and ends in one. */
module BfsPasses {
  import opened Wrappers
  import opened Topology
  import opened GaoRexford
  import opened TieBreak
  import opened BfsState
  import opened BfsInvariant
  import BfsSteps

  /** The three passes of `RoutingTreeAlg`. */
  datatype Problem = Problem(g: Graph, root: Asn, rule: TieRule)
  {
    function PassOf(k: nat): (c: Pass)
      requires k < 3
      ensures c.Col() == k && c.g == g && c.root == root && c.rule == rule
    {
      if k == 0 then Pass(g, root, rule, CustomerOf, false)
      else if k == 1 then Pass(g, root, rule, PeerOf, true)
      else Pass(g, root, rule, ProviderTo, false)
    }

    predicate Edge(col: nat, u: Asn, v: Asn) {
      col < 3 && PassOf(col).Edge(u, v)
    }
  }

  /** The nodes whose routes are offered along the edges of class `col`. */
  predicate Source(s: State, root: Asn, col: nat, u: Asn) {
    s.Known(root, u) && (col == PROVIDER_COLUMN || (u < |s.rel| && s.rel[u] == CUSTOMER_COLUMN))
  }

  /** The Best set of a routed node, exactly, and its place in every table. */
  ghost predicate RouteAt(p: Problem, s: State, v: Asn)
    requires s.Shape(p.PassOf(0)) && v in s.nodes
  {
    && s.best[v].Some? && NoDup(s.best[v].value)
    && (forall u: Asn :: u in s.best[v].value <==>
          Source(s, p.root, s.rel[v], u) && p.Edge(s.rel[v], u, v) && s.nodes[u].depth + 1 == s.nodes[v].depth)
    && s.nodes[v].parent.Some? && s.nodes[v].parent.value in s.best[v].value
    && (forall u | u in s.best[v].value :: p.rule.Key(v, s.nodes[v].parent.value) <= p.rule.Key(v, u))
    && 1 <= s.nodes[v].depth < |s.bucket|
    && s.l[v] == s.nodes[v].depth % 256
    && s.nodes[v].parent.value in s.nodes
    && s.chosen[v] == s.nodes[v].parent.value
    && s.path[v] == Some(UpdatedPath(v, s.path[s.chosen[v]], s.rel[v]))
  }

  ghost predicate SettledAt(p: Problem, k: nat, s: State, v: Asn)
    requires s.Shape(p.PassOf(0)) && v in s.nodes
  {
    && s.nodes[v].status == Unseen
    && (k > 0 || v != p.root ==> TreeAt(p.PassOf(0), s, v))
    && (k == 0 ==> s.nodes[v].parent.None? && s.nodes[v].children == [])
    && (if v == p.root then
          && s.rel[v] == 0 && s.l[v] == 0 && (s.nodes[v].prior <==> k > 0)
          && (k > 0 ==> s.best[v] == Some([v]) && s.path[v] == Some([v]))
        else
          && (s.nodes[v].prior <==> s.nodes[v].parent.Some?)
          && (if s.nodes[v].parent.Some? then s.rel[v] < k && RouteAt(p, s, v)
              else s.best[v].None? && s.l[v] == 0 && s.rel[v] == 0))
  }

  ghost predicate EdgeSettled(p: Problem, k: nat, s: State, col: nat, u: Asn, v: Asn)
    requires s.Shape(p.PassOf(0))
  {
    col < k && Source(s, p.root, col, u) && p.Edge(col, u, v) && v != p.root ==>
      s.Known(p.root, v) && (s.rel[v] < col || (s.rel[v] == col && s.nodes[v].depth <= s.nodes[u].depth + 1))
  }

  ghost predicate CellSettled(p: Problem, k: nat, s: State, row: nat, col: nat)
    requires s.Shape(p.PassOf(0)) && row < |s.bucket| && col < 3
  {
    var cell := s.bucket[row][col];
    && (cell.Some? ==> cell.value != []) && NoDup(Listed(cell))
    && (forall v: Asn :: v in Listed(cell) <==>
          col < k && s.Known(p.root, v) && s.rel[v] == col && s.nodes[v].depth == row)
  }

  ghost predicate Settled(p: Problem, k: nat, s: State) {
    && s.Shape(p.PassOf(0)) && s.Untouched()
    && (forall v {:trigger SettledAt(p, k, s, v)} | v in s.nodes :: SettledAt(p, k, s, v))
    && (forall col, u, v {:trigger EdgeSettled(p, k, s, col, u, v)} :: EdgeSettled(p, k, s, col, u, v))
    && (forall row: nat, col: nat {:trigger CellSettled(p, k, s, row, col)} | row < |s.bucket| && col < 3 :: CellSettled(p, k, s, row, col))
  }

  /** Empty tables over a graph without BFS state. */
  ghost predicate Blank(g: Graph, s: State) {
    && s.nodes.Keys == g.nodes && (forall v | v in s.nodes :: v < |s.best|)
    && |s.best| == |s.path| == |s.chosen| == |s.l| == |s.rel| && |s.bucket| > 0
    && (forall v | v in s.nodes :: s.nodes[v].status == Unseen && !s.nodes[v].prior && s.nodes[v].parent.None? && s.nodes[v].children == [])
    && (forall i | 0 <= i < |s.best| :: s.best[i].None? && s.l[i] == 0 && s.rel[i] == 0)
    && (forall row | 0 <= row < |s.bucket| :: s.bucket[row] == [None, None, None])
  }

  lemma BlankIsSettled(p: Problem, s: State)
    requires Blank(p.g, s) && p.root in p.g.nodes
    ensures Settled(p, 0, s)
  {
    forall v | v in s.nodes ensures SettledAt(p, 0, s, v) {
    }
    forall row: nat, col: nat | row < |s.bucket| && col < 3 ensures CellSettled(p, 0, s, row, col) {
      assert s.bucket[row] == [None, None, None];
    }
  }

  function FirstRun(p: Problem, k: nat, s: State): Run
    requires k < 3 && s.Shape(p.PassOf(0))
  {
    Run(p.PassOf(k), Start(p.PassOf(k), s), [p.root], 0, {}, {})
  }

  lemma StartNode(p: Problem, k: nat, s: State, v: Asn)
    requires k < 3 && Settled(p, k, s) && v in s.nodes
    ensures NodeOk(FirstRun(p, k, s), Start(p.PassOf(k), s), v)
  {
    assert SettledAt(p, k, s, v) && SettledAt(p, k, s, p.root);
    if s.nodes[v].parent.Some? && s.nodes[v].parent.value in s.nodes {
      assert SettledAt(p, k, s, s.nodes[v].parent.value);
    }
  }

  lemma StartCell(p: Problem, k: nat, s: State, row: nat)
    requires k < 3 && Settled(p, k, s) && row < |s.bucket|
    ensures BucketAt(p.PassOf(k), Start(p.PassOf(k), s), row)
  {
    assert CellSettled(p, k, s, row, k);
    forall v | v in s.nodes ensures !Start(p.PassOf(k), s).New(p.root, v) {
      assert SettledAt(p, k, s, v);
    }
  }

  lemma StartFrame(p: Problem, k: nat, s: State)
    requires k < 3 && Settled(p, k, s)
    ensures var x, s1 := FirstRun(p, k, s), Start(p.PassOf(k), s);
            && s1.Shape(x.pass) && s1.Untouched() && QueueOk(x, s1) && ColumnsKept(x, s1)
            && forall u, v {:trigger EdgeOk(x, s1, u, v)} :: EdgeOk(x, s1, u, v)
  {
    hide RouteAt, TreeAt, EdgeSettled, CellSettled;
    var s1 := Start(p.PassOf(k), s);
    assert SettledAt(p, k, s, p.root);
    forall u, v ensures EdgeOk(FirstRun(p, k, s), s1, u, v) {
      if u in s.nodes { assert SettledAt(p, k, s, u); }
    }
  }

  /** A pass starts with its invariant. */
  lemma StartKeeps(p: Problem, k: nat, s: State)
    requires k < 3 && Settled(p, k, s)
    ensures Inv(FirstRun(p, k, s), Start(p.PassOf(k), s))
  {
    hide NodeOk, BucketAt, SettledAt, CellSettled;
    var s1 := Start(p.PassOf(k), s);
    StartFrame(p, k, s);
    forall v | v in s1.nodes ensures NodeOk(FirstRun(p, k, s), s1, v) {
      StartNode(p, k, s, v);
    }
    forall row: nat | row < |s1.bucket| ensures BucketAt(p.PassOf(k), s1, row) {
      StartCell(p, k, s, row);
    }
  }

  lemma SettledShape(p: Problem, k: nat, s: State)
    requires Settled(p, k, s)
    ensures s.Shape(p.PassOf(0)) && forall j | 0 <= j < 3 :: s.Shape(p.PassOf(j))
  {
  }

  lemma StartIdle(p: Problem, k: nat, s: State)
    requires k < 3 && Settled(p, k, s)
    ensures BfsSteps.Idle(FirstRun(p, k, s), Start(p.PassOf(k), s))
  {
    StartKeeps(p, k, s);
  }

  /** A pass is over: nothing is queued or being processed. */
  ghost predicate Ended(p: Problem, k: nat, s0: State, x: Run, s: State) {
    && k < 3 && Settled(p, k, s0)
    && x.pass == p.PassOf(k) && x.start == Start(x.pass, s0) && x.queue == [] && x.open == {}
    && Inv(x, s)
  }

  /** Every node of the earlier trees has been revisited. */
  lemma {:induction false} PriorProcessed(p: Problem, k: nat, s0: State, x: Run, s: State, v: Asn)
    requires Ended(p, k, s0, x, s) && v in s.nodes && (s.nodes[v].prior || v == p.root)
    ensures s.nodes[v].status == Processed
    decreases s.nodes[v].depth
  {
    assert NodeOk(x, s, v);
    if v != p.root {
      var u := s.nodes[v].parent.value;
      assert NodeOk(x, s, u) && SettledAt(p, k, s0, v) && SettledAt(p, k, s0, u);
      PriorProcessed(p, k, s0, x, s, u);
    }
  }

  /** The nodes processed are exactly the sources of the pass. */
  lemma ProcessedIsSource(p: Problem, k: nat, s0: State, x: Run, s: State, v: Asn)
    requires Ended(p, k, s0, x, s) && v in s.nodes
    ensures s.nodes[v].status == Processed <==> Source(s, p.root, k, v)
    ensures s.nodes[v].status == Unseen <==> !s.Known(p.root, v)
    ensures s.Known(p.root, v) && !s.New(p.root, v) && v != p.root ==> s.rel[v] < k && SettledAt(p, k, s0, v) && s0.nodes[v].parent.Some?
    ensures s.rel[p.root] == 0 && s.l[p.root] == 0 && s.best[p.root] == Some([p.root]) && s.path[p.root] == Some([p.root])
  {
    assert NodeOk(x, s, v) && NodeOk(x, s, p.root);
    assert SettledAt(p, k, s0, v) && SettledAt(p, k, s0, p.root);
    if s.nodes[v].prior || v == p.root {
      PriorProcessed(p, k, s0, x, s, v);
    }
  }

  lemma StartUnprocessed(p: Problem, k: nat, s: State)
    requires k < 3 && Settled(p, k, s)
    ensures ProcessedIn(Start(p.PassOf(k), s).nodes) == map[]
  {
    forall v | v in s.nodes ensures s.nodes[v].status == Unseen {
      assert SettledAt(p, k, s, v);
    }
  }

  /** Whoever has been processed, other than the root, was queued from its parent, which has been
      processed as well. */
  lemma QueuedFromParent(p: Problem, k: nat, s0: State, x: Run, s: State, v: Asn)
    requires Ended(p, k, s0, x, s) && v in s.nodes && s.nodes[v].status == Processed && v != p.root
    ensures s.nodes[v].parent.Some?
    ensures var u := s.nodes[v].parent.value;
            (u, v) in x.scanned && u in s.nodes && s.nodes[u].status == Processed && s.nodes[u].depth < s.nodes[v].depth
  {
    hide QueueOk, BucketAt, TablesAt, FrameAt, Settled;
    assert NodeOk(x, s, v);
    var u := s.nodes[v].parent.value;
    assert EdgeOk(x, s, u, v);
  }

  ghost predicate AfterParent(s: State, order: seq<Asn>, i: nat) {
    i < |order| && order[i] in s.nodes && exists j :: 0 <= j < i && s.nodes[order[i]].parent == Some(order[j])
  }

  ghost predicate DepthsAt(s: State, order: seq<Asn>, i: nat, j: nat)
    requires i < j < |order|
  {
    order[i] in s.nodes && order[j] in s.nodes && s.nodes[order[i]].depth <= s.nodes[order[j]].depth
  }

  ghost predicate ByDepth(s: State, order: seq<Asn>) {
    forall i: nat, j: nat {:trigger DepthsAt(s, order, i, j)} | i < j < |order| :: DepthsAt(s, order, i, j)
  }

  /** `order` lists the sources of pass `k`: each once, by depth, and after its parent. */
  ghost predicate Enumerates(order: seq<Asn>, p: Problem, k: nat, s: State) {
    && NoDup(order) && (forall v :: v in order <==> Source(s, p.root, k, v))
    && ByDepth(s, order)
    && (forall i: nat {:trigger AfterParent(s, order, i)} | i < |order| && order[i] != p.root :: AfterParent(s, order, i))
  }

  lemma OrderAfterParent(p: Problem, k: nat, s0: State, x: Run, s: State, order: seq<Asn>, i: nat)
    requires Ended(p, k, s0, x, s) && BfsSteps.InOrder(order, ProcessedIn(s.nodes)) && i < |order| && order[i] != p.root
    ensures AfterParent(s, order, i)
  {
    var v, depths := order[i], ProcessedIn(s.nodes);
    assert v in Elements(order);
    QueuedFromParent(p, k, s0, x, s, v);
    var u := s.nodes[v].parent.value;
    assert u in Elements(order);
    var j :| 0 <= j < |order| && order[j] == u;
    assert depths[u] < depths[v];
  }

  /** The nodes a pass dequeues, in the order in which it does, and among them every node found earlier. */
  lemma OrderEnumerates(p: Problem, k: nat, s0: State, x: Run, s: State, order: seq<Asn>)
    requires Ended(p, k, s0, x, s) && BfsSteps.InOrder(order, ProcessedIn(s.nodes))
    ensures Enumerates(order, p, k, Lock(s))
    ensures forall v | s0.Known(p.root, v) :: v in order
  {
    hide Inv, Settled, Ended, AfterParent, ProcessedIn, Source;
    var s' := Lock(s);
    forall v ensures v in order <==> Source(s', p.root, k, v) {
      assert v in order <==> v in Elements(order);
      OrderedIsSource(p, k, s0, x, s, v);
    }
    forall i: nat | i < |order| && order[i] != p.root ensures AfterParent(s', order, i) {
      OrderAfterParent(p, k, s0, x, s, order, i);
      LockKeepsParents(s, order, i);
    }
    OrderByDepth(s, order);
    forall v | s0.Known(p.root, v) ensures v in order {
      KnownProcessed(p, k, s0, x, s, v);
      assert v in Elements(order);
    }
  }

  lemma OrderByDepth(s: State, order: seq<Asn>)
    requires BfsSteps.InOrder(order, ProcessedIn(s.nodes))
    ensures ByDepth(Lock(s), order) && NoDup(order)
  {
    forall i, j | 0 <= i < j < |order| ensures DepthsAt(Lock(s), order, i, j) {
      assert order[i] in ProcessedIn(s.nodes) && order[j] in ProcessedIn(s.nodes);
    }
  }

  lemma OrderedIsSource(p: Problem, k: nat, s0: State, x: Run, s: State, v: Asn)
    requires Ended(p, k, s0, x, s)
    ensures v in ProcessedIn(s.nodes) <==> Source(Lock(s), p.root, k, v)
  {
    hide Inv, Settled;
    if v in s.nodes { ProcessedIsSource(p, k, s0, x, s, v); }
  }

  lemma LockKeepsParents(s: State, order: seq<Asn>, i: nat)
    requires AfterParent(s, order, i)
    ensures AfterParent(Lock(s), order, i)
  {
    var j :| 0 <= j < i && s.nodes[order[i]].parent == Some(order[j]);
    assert Lock(s).nodes[order[i]].parent == Some(order[j]);
  }

  lemma KnownProcessed(p: Problem, k: nat, s0: State, x: Run, s: State, v: Asn)
    requires Ended(p, k, s0, x, s) && s0.Known(p.root, v)
    ensures v in ProcessedIn(s.nodes)
  {
    assert SettledAt(p, k, s0, v) && NodeOk(x, s, v);
    PriorProcessed(p, k, s0, x, s, v);
  }

  /** Sources of an earlier class are settled by earlier passes. */
  lemma EarlierSource(p: Problem, k: nat, s0: State, x: Run, s: State, col: nat, u: Asn)
    requires Ended(p, k, s0, x, s) && col < k
    ensures Source(Lock(s), p.root, col, u) <==> Source(s0, p.root, col, u)
    ensures Source(s0, p.root, col, u) ==> s.nodes[u].depth == x.start.nodes[u].depth
    ensures Source(s0, p.root, col, u) && u != p.root ==> s.nodes[u].depth == s0.nodes[u].depth
    ensures s0.nodes[p.root].depth == s.nodes[p.root].depth
  {
    hide QueueOk, EdgeOk, BucketAt, RouteAt, EdgeSettled, CellSettled;
    assert NodeOk(x, s, p.root) && SettledAt(p, k, s0, p.root);
    if u in s.nodes {
      assert NodeOk(x, s, u) && SettledAt(p, k, s0, u);
    }
  }

  lemma LockNewNode(p: Problem, k: nat, s0: State, x: Run, s: State, v: Asn)
    requires Ended(p, k, s0, x, s) && s.New(p.root, v)
    ensures SettledAt(p, k + 1, Lock(s), v)
  {
    assert NodeOk(x, s, v);
    var s' := Lock(s);
    ProcessedIsSource(p, k, s0, x, s, v);
    forall u: Asn ensures u in s'.best[v].value <==>
        Source(s', p.root, s'.rel[v], u) && p.Edge(s'.rel[v], u, v) && s'.nodes[u].depth + 1 == s'.nodes[v].depth {
      assert EdgeOk(x, s, u, v);
      if u in s.nodes { ProcessedIsSource(p, k, s0, x, s, u); }
    }
  }

  /** The Best set of a node found earlier keeps its meaning. */
  lemma LockOldBest(p: Problem, k: nat, s0: State, x: Run, s: State, v: Asn)
    requires Ended(p, k, s0, x, s) && v in s.nodes && !s.New(p.root, v) && v != p.root && s.nodes[v].parent.Some?
    ensures s.rel[v] == s0.rel[v] < k && s.best[v] == s0.best[v] && s.best[v].Some?
    ensures forall u: Asn :: u in s.best[v].value <==>
        Source(Lock(s), p.root, s.rel[v], u) && p.Edge(s.rel[v], u, v) && Lock(s).nodes[u].depth + 1 == Lock(s).nodes[v].depth
  {
    assert NodeOk(x, s, v) && SettledAt(p, k, s0, v);
    forall u: Asn ensures u in s.best[v].value <==>
        Source(Lock(s), p.root, s.rel[v], u) && p.Edge(s.rel[v], u, v) && Lock(s).nodes[u].depth + 1 == Lock(s).nodes[v].depth {
      EarlierSource(p, k, s0, x, s, s.rel[v], u);
    }
  }

  lemma LockTree(p: Problem, k: nat, s0: State, x: Run, s: State, v: Asn)
    requires Ended(p, k, s0, x, s) && v in s.nodes
    ensures Lock(s).Shape(p.PassOf(0)) && TreeAt(p.PassOf(0), Lock(s), v)
  {
    hide QueueOk, EdgeOk, BucketAt, BestAt, StatusAt, PriorAt, TablesAt, FrameAt, Settled;
    assert NodeOk(x, s, v);
  }

  /** A node found earlier has the table entries it had when the pass began. */
  lemma OldEntries(p: Problem, k: nat, s0: State, x: Run, s: State, v: Asn)
    requires Ended(p, k, s0, x, s) && v in s.nodes && !s.New(p.root, v) && v != p.root && s.nodes[v].parent.Some?
    ensures v in s0.nodes && s0.Shape(p.PassOf(0)) && |s.bucket| == |s0.bucket| && |s.best| == |s0.best|
    ensures s.nodes[v].parent == s0.nodes[v].parent && s.nodes[v].depth == s0.nodes[v].depth
    ensures s.best[v] == s0.best[v] && s.path[v] == s0.path[v] && s.chosen[v] == s0.chosen[v]
    ensures s.l[v] == s0.l[v] && s.rel[v] == s0.rel[v] < k && RouteAt(p, s0, v)
  {
    hide QueueOk, EdgeOk, BucketAt, BestAt, TablesAt, TreeAt, StatusAt, PriorAt, RouteAt;
    assert NodeOk(x, s, v) && SettledAt(p, k, s0, v);
  }

  lemma OldPath(p: Problem, k: nat, s0: State, x: Run, s: State, v: Asn)
    requires Ended(p, k, s0, x, s) && k > 0 && v in s.nodes && s.Known(p.root, v) && !s.New(p.root, v)
    ensures s.path[v] == s0.path[v]
  {
    hide QueueOk, EdgeOk, BucketAt, BestAt, TablesAt, TreeAt, StatusAt, PriorAt, RouteAt;
    if v == p.root {
      assert SettledAt(p, k, s0, v);
      ProcessedIsSource(p, k, s0, x, s, v);
    } else {
      OldEntries(p, k, s0, x, s, v);
    }
  }

  lemma OldParent(p: Problem, k: nat, s0: State, x: Run, s: State, v: Asn)
    requires Ended(p, k, s0, x, s) && v in s.nodes && !s.New(p.root, v) && v != p.root && s.nodes[v].parent.Some?
    ensures var parent := s.nodes[v].parent.value;
            parent in s.nodes && s.Known(p.root, parent) && !s.New(p.root, parent)
  {
    hide QueueOk, EdgeOk, BucketAt, BestAt, TablesAt, StatusAt, PriorAt, RouteAt;
    assert NodeOk(x, s, v) && SettledAt(p, k, s0, v);
    var parent := s.nodes[v].parent.value;
    assert NodeOk(x, s, parent) && SettledAt(p, k, s0, parent);
  }

  lemma LockOldRoute(p: Problem, k: nat, s0: State, x: Run, s: State, v: Asn)
    requires Ended(p, k, s0, x, s) && v in s.nodes && !s.New(p.root, v) && v != p.root && s.nodes[v].parent.Some?
    ensures s.rel[v] < k && Lock(s).Shape(p.PassOf(0)) && RouteAt(p, Lock(s), v)
  {
    LockTree(p, k, s0, x, s, v);
    OldEntries(p, k, s0, x, s, v);
    OldParent(p, k, s0, x, s, v);
    OldPath(p, k, s0, x, s, s.nodes[v].parent.value);
    LockOldBest(p, k, s0, x, s, v);
    hide Ended, TreeAt, Source;
  }

  lemma LockOldNode(p: Problem, k: nat, s0: State, x: Run, s: State, v: Asn)
    requires Ended(p, k, s0, x, s) && v in s.nodes && !s.New(p.root, v)
    ensures SettledAt(p, k + 1, Lock(s), v)
  {
    hide QueueOk, EdgeOk, BucketAt, EdgeSettled, CellSettled, TreeAt, RouteAt, BestAt, TablesAt;
    assert NodeOk(x, s, v) && SettledAt(p, k, s0, v);
    ProcessedIsSource(p, k, s0, x, s, v);
    LockTree(p, k, s0, x, s, v);
    if v != p.root && s.nodes[v].parent.Some? { LockOldRoute(p, k, s0, x, s, v); }
  }

  lemma LockEdge(p: Problem, k: nat, s0: State, x: Run, s: State, col: nat, u: Asn, v: Asn)
    requires Ended(p, k, s0, x, s)
    ensures EdgeSettled(p, k + 1, Lock(s), col, u, v)
  {
    hide QueueOk, BucketAt, TreeAt, BestAt, RouteAt, CellSettled;
    if col < k + 1 && Source(Lock(s), p.root, col, u) && p.Edge(col, u, v) && v != p.root {
      if col < k {
        EarlierSource(p, k, s0, x, s, col, u);
        assert EdgeSettled(p, k, s0, col, u, v);
        assert v in s.nodes && NodeOk(x, s, v) && SettledAt(p, k, s0, v);
      } else {
        ProcessedIsSource(p, k, s0, x, s, u);
        assert EdgeOk(x, s, u, v);
        assert NodeOk(x, s, v);
        ProcessedIsSource(p, k, s0, x, s, v);
      }
    }
  }

  lemma LockCell(p: Problem, k: nat, s0: State, x: Run, s: State, row: nat, col: nat)
    requires Ended(p, k, s0, x, s) && row < |s.bucket| && col < 3
    ensures CellSettled(p, k + 1, Lock(s), row, col)
  {
    hide QueueOk, EdgeOk, NodeOk, SettledAt, EdgeSettled;
    var s', cell := Lock(s), s.bucket[row][col];
    if col == k {
      assert BucketAt(x.pass, s, row);
    } else {
      assert cell == s0.bucket[row][col];
      assert CellSettled(p, k, s0, row, col);
    }
    forall v: Asn ensures v in Listed(cell) <==>
        col < k + 1 && s'.Known(p.root, v) && s'.rel[v] == col && s'.nodes[v].depth == row {
      if v in s.nodes { ColumnKnown(p, k, s0, x, s, v); }
    }
  }

  /** New nodes have the class of the pass; the others had theirs, and their depth, before. */
  lemma ColumnKnown(p: Problem, k: nat, s0: State, x: Run, s: State, v: Asn)
    requires Ended(p, k, s0, x, s) && v in s.nodes
    ensures v in s0.nodes && v < |s.rel| == |s0.rel|
    ensures s.New(p.root, v) ==> s.rel[v] == k && !s0.Known(p.root, v)
    ensures s.Known(p.root, v) && !s.New(p.root, v) && v != p.root ==>
              s.rel[v] == s0.rel[v] < k && s.nodes[v].depth == s0.nodes[v].depth && s0.Known(p.root, v)
    ensures v == p.root ==> s.rel[v] == s0.rel[v] == 0 && s.nodes[v].depth == 0 && (k > 0 ==> s0.nodes[v].depth == 0)
    ensures s.Known(p.root, v) <==> s0.Known(p.root, v) || s.New(p.root, v)
  {
    hide QueueOk, EdgeOk, BucketAt, RouteAt, EdgeSettled, CellSettled;
    assert NodeOk(x, s, v) && SettledAt(p, k, s0, v);
    ProcessedIsSource(p, k, s0, x, s, v);
  }

  lemma LockNode(p: Problem, k: nat, s0: State, x: Run, s: State, v: Asn)
    requires Ended(p, k, s0, x, s) && v in s.nodes
    ensures SettledAt(p, k + 1, Lock(s), v)
  {
    if s.New(p.root, v) { LockNewNode(p, k, s0, x, s, v); } else { LockOldNode(p, k, s0, x, s, v); }
  }

  /** A pass ends in a settled state, with one more class of routes. */
  lemma LockSettles(p: Problem, k: nat, s0: State, x: Run, s: State)
    requires Ended(p, k, s0, x, s)
    ensures Settled(p, k + 1, Lock(s))
  {
    hide NodeOk, EdgeOk, BucketAt, QueueOk, SettledAt, EdgeSettled, CellSettled;
    var n := k + 1;
    assert Lock(s).Shape(p.PassOf(0));
    forall v | v in s.nodes ensures SettledAt(p, n, Lock(s), v) {
      LockNode(p, k, s0, x, s, v);
    }
    forall col, u, v ensures EdgeSettled(p, n, Lock(s), col, u, v) {
      LockEdge(p, k, s0, x, s, col, u, v);
    }
    forall row: nat, col: nat | row < |s.bucket| && col < 3 ensures CellSettled(p, n, Lock(s), row, col) {
      LockCell(p, k, s0, x, s, row, col);
    }
  }

  /** What a pass leaves of what earlier passes found. */
  ghost predicate UndisturbedAt(root: Asn, s0: State, s: State, v: Asn) {
    s0.Known(root, v) && v < |s0.best| == |s0.path| == |s0.chosen| == |s0.l| == |s0.rel| ==>
      && v in s.nodes && v < |s.best| == |s.path| == |s.chosen| == |s.l| == |s.rel|
      && s.nodes[v].parent == s0.nodes[v].parent && s.nodes[v].depth == s0.nodes[v].depth
      && s.best[v] == s0.best[v] && s.path[v] == s0.path[v] && s.chosen[v] == s0.chosen[v]
      && s.l[v] == s0.l[v] && s.rel[v] == s0.rel[v]
  }

  ghost predicate Undisturbed(p: Problem, k: nat, s0: State, s: State) {
    && (forall v {:trigger UndisturbedAt(p.root, s0, s, v)} :: UndisturbedAt(p.root, s0, s, v))
    && |s.bucket| == |s0.bucket|
    && (forall row, col | 0 <= row < |s.bucket| && 0 <= col < |s.bucket[row]| && col < |s0.bucket[row]| && col != k ::
          s.bucket[row][col] == s0.bucket[row][col])
  }

  /** A re-run changes nothing an earlier pass found, and no other column of the bucket table. */
  lemma RerunUndisturbed(p: Problem, k: nat, s0: State, x: Run, s: State)
    requires Ended(p, k, s0, x, s) && k > 0
    ensures Undisturbed(p, k, s0, Lock(s))
  {
    forall v ensures UndisturbedAt(p.root, s0, Lock(s), v) {
      if s0.Known(p.root, v) {
        assert NodeOk(x, s, v) && SettledAt(p, k, s0, v) && SettledAt(p, k, s0, p.root);
      }
    }
  }

  /** The routing a state describes. */
  function RoutingOf(root: Asn, s: State): Routing {
    map v | v in s.nodes && s.Known(root, v) && v < |s.rel| && s.nodes[v].depth >= 0 :: Route(s.rel[v], s.nodes[v].depth)
  }

  lemma RoutingIsKnown(p: Problem, k: nat, s: State, v: Asn)
    requires k > 0 && Settled(p, k, s)
    ensures v in RoutingOf(p.root, s) <==> s.Known(p.root, v)
  {
    if v in s.nodes { assert SettledAt(p, k, s, v); }
  }

  /** Over the finished tree, `u` offers `v` a route of class `col` iff `u` is a source and the
      edge is there. */
  lemma OffersAreEdges(p: Problem, s: State, r: Relationship, u: Asn, v: Asn, o: Route)
    requires Settled(p, 3, s)
    ensures Offers(p.g, RoutingOf(p.root, s), r, u, v, o) <==>
            (Source(s, p.root, ColumnOf(r), u) && p.Edge(ColumnOf(r), u, v) && o.col == ColumnOf(r) && o.depth == s.nodes[u].depth + 1)
  {
    RoutingIsKnown(p, 3, s, u);
    if u in s.nodes { assert SettledAt(p, 3, s, u); }
  }

  lemma SettledIsStableAt(p: Problem, s: State, v: Asn)
    requires Settled(p, 3, s) && v != p.root
    ensures StableAt(p.g, RoutingOf(p.root, s), v)
  {
    var R := RoutingOf(p.root, s);
    RoutingIsKnown(p, 3, s, v);
    if v in R {
      assert SettledAt(p, 3, s, v);
      var r := if s.rel[v] == 0 then CustomerOf else if s.rel[v] == 1 then PeerOf else ProviderTo;
      OffersAreEdges(p, s, r, s.nodes[v].parent.value, v, R[v]);
    }
    forall o | Offered(p.g, R, v, o) ensures v in R && !Better(o, R[v]) {
      var r, u :| Offers(p.g, R, r, u, v, o);
      OffersAreEdges(p, s, r, u, v, o);
      assert EdgeSettled(p, 3, s, ColumnOf(r), u, v);
    }
  }

  /** The three passes compute a stable routing. */
  lemma SettledIsStable(p: Problem, s: State)
    requires Settled(p, 3, s)
    ensures Stable(p.g, p.root, RoutingOf(p.root, s))
  {
    assert SettledAt(p, 3, s, p.root);
    forall v | v != p.root ensures StableAt(p.g, RoutingOf(p.root, s), v) {
      SettledIsStableAt(p, s, v);
    }
  }

  /** Best[v] is exactly the set of neighbours that offer v the route it holds. */
  lemma BestIsOffers(p: Problem, s: State, v: Asn, u: Asn)
    requires Settled(p, 3, s) && v in RoutingOf(p.root, s) && v != p.root
    ensures s.best[v].Some? && NoDup(s.best[v].value)
    ensures u in s.best[v].value <==> exists r :: Offers(p.g, RoutingOf(p.root, s), r, u, v, RoutingOf(p.root, s)[v])
  {
    var R := RoutingOf(p.root, s);
    assert SettledAt(p, 3, s, v);
    var r := if s.rel[v] == 0 then CustomerOf else if s.rel[v] == 1 then PeerOf else ProviderTo;
    OffersAreEdges(p, s, r, u, v, R[v]);
    forall r' | Offers(p.g, R, r', u, v, R[v]) ensures r' == r {
    }
  }
}
