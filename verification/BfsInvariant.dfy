/** What holds while a pass runs. */
module BfsInvariant {
  import opened Wrappers
  import opened Topology
  import opened BfsState

  /** A pass in progress: `start` is the state it began with, `queue` the node being processed,
      if any, followed by the queue; `depth` the depth it works on; `open` the node being
      processed, if any; and `scanned` the edges scanned so far. */
  datatype Run = Run(pass: Pass, start: State, queue: seq<Asn>, depth: int, open: set<Asn>, scanned: set<(Asn, Asn)>)

  ghost predicate QueueOk(x: Run, s: State) {
    && NoDup(x.queue)
    && (forall v | v in x.queue :: v in s.nodes && s.nodes[v].status == Seen && x.depth <= s.nodes[v].depth <= x.depth + 1)
    && (forall i, j | 0 <= i < j < |x.queue| :: s.nodes[x.queue[i]].depth <= s.nodes[x.queue[j]].depth)
    && (x.pass.limited ==> forall v | v in x.queue :: !s.New(x.pass.root, v))
  }

  ghost predicate StatusAt(x: Run, s: State, v: Asn)
    requires v in s.nodes
  {
    match s.nodes[v].status
    case Unseen => v != x.pass.root && !s.New(x.pass.root, v)
    case Seen => s.Known(x.pass.root, v) && s.nodes[v].depth <= x.depth + 1
                 && (v in x.queue || (x.pass.limited && s.New(x.pass.root, v)))
    case Processed => s.Known(x.pass.root, v) && s.nodes[v].depth <= x.depth && (x.pass.limited ==> !s.New(x.pass.root, v))
  }

  /** Parent, depth and child lists agree. */
  ghost predicate TreeAt(c: Pass, s: State, v: Asn)
    requires v in s.nodes
  {
    && (v == c.root ==> s.nodes[v].parent.None? && s.nodes[v].depth == 0)
    && (s.Known(c.root, v) ==> s.nodes[v].depth >= 0)
    && (s.nodes[v].parent.Some? ==>
          var p := s.nodes[v].parent.value;
          s.Known(c.root, p) && v in s.nodes[p].children && s.nodes[v].depth == s.nodes[p].depth + 1)
    && NoDup(s.nodes[v].children)
    && (forall w | w in s.nodes[v].children :: w in s.nodes && s.nodes[w].parent == Some(v))
  }

  /** The Best set of a new node: the scanned neighbours one step closer. */
  ghost predicate BestAt(x: Run, s: State, v: Asn)
    requires s.Shape(x.pass) && v in s.nodes
  {
    && s.best[v].Some? && NoDup(s.best[v].value)
    && (forall u: Asn :: u in s.best[v].value <==>
          (u, v) in x.scanned && x.pass.Edge(u, v) && u in s.nodes && s.nodes[u].depth + 1 == s.nodes[v].depth)
    && s.nodes[v].parent.Some? && s.nodes[v].parent.value in s.best[v].value
    && (forall u | u in s.best[v].value ::
          x.pass.rule.Key(v, s.nodes[v].parent.value) <= x.pass.rule.Key(v, u))
  }

  /** The table entries of a new node. */
  ghost predicate TablesAt(c: Pass, s: State, v: Asn)
    requires s.Shape(c) && v in s.nodes
  {
    && 1 <= s.nodes[v].depth < |s.bucket|
    && s.l[v] == s.nodes[v].depth % 256
    && s.rel[v] == c.Col()
    && s.nodes[v].parent.Some? && s.nodes[v].parent.value in s.nodes
    && s.chosen[v] == s.nodes[v].parent.value
    && s.path[v] == Some(UpdatedPath(v, s.path[s.chosen[v]], c.Col()))
  }

  /** A node that is not new is as it was when the pass began. */
  ghost predicate FrameAt(c: Pass, s0: State, s: State, v: Asn)
    requires s.Shape(c) && s0.Shape(c) && |s.best| == |s0.best| && v in s.nodes
  {
    && s.nodes[v].parent == s0.nodes[v].parent && s.nodes[v].depth == s0.nodes[v].depth
    && s.best[v] == s0.best[v] && s.path[v] == s0.path[v] && s.chosen[v] == s0.chosen[v]
    && s.l[v] == s0.l[v] && s.rel[v] == s0.rel[v]
    && (!s.Known(c.root, v) ==> s.best[v].None?)
  }

  /** A node found by an earlier pass is seen once its tree edge has been scanned, and the tree
      edge is scanned by the time its parent has been processed. */
  ghost predicate PriorAt(x: Run, s: State, v: Asn)
    requires v in s.nodes
  {
    s.nodes[v].prior && v != x.pass.root ==>
      && s.nodes[v].parent.Some?
      && (s.nodes[v].status != Unseen <==> (s.nodes[v].parent.value, v) in x.scanned)
      && (s.nodes[v].parent.value in s.nodes && s.nodes[s.nodes[v].parent.value].status == Processed ==>
            (s.nodes[v].parent.value, v) in x.scanned)
  }

  ghost predicate NodeOk(x: Run, s: State, v: Asn)
    requires s.Shape(x.pass) && x.start.Shape(x.pass) && |s.best| == |x.start.best| && v in s.nodes
  {
    && s.nodes[v].prior == x.start.nodes[v].prior
    && StatusAt(x, s, v) && TreeAt(x.pass, s, v) && PriorAt(x, s, v)
    && (if s.New(x.pass.root, v) then BestAt(x, s, v) && TablesAt(x.pass, s, v) else FrameAt(x.pass, x.start, s, v))
  }

  ghost predicate EdgeOk(x: Run, s: State, u: Asn, v: Asn) {
    && ((u, v) in x.scanned ==>
          && u in s.nodes && v in s.nodes && (s.nodes[u].status == Processed || u in x.open)
          && (x.pass.Edge(u, v) && v != x.pass.root && !s.nodes[v].prior ==>
                s.Known(x.pass.root, v) && s.nodes[v].depth <= s.nodes[u].depth + 1))
    && (u in s.nodes && s.nodes[u].status == Processed && x.pass.Edge(u, v) ==> (u, v) in x.scanned)
  }

  ghost predicate BucketAt(c: Pass, s: State, row: nat)
    requires s.Shape(c) && row < |s.bucket|
  {
    var cell := s.bucket[row][c.Col()];
    && (cell.Some? ==> cell.value != []) && NoDup(Listed(cell))
    && (forall v :: v in Listed(cell) <==>
          (s.New(c.root, v) && s.nodes[v].depth == row) || (c.r == CustomerOf && row == 0 && v == c.root))
  }

  ghost predicate ColumnsKept(x: Run, s: State)
    requires s.Shape(x.pass) && x.start.Shape(x.pass) && |s.bucket| == |x.start.bucket|
  {
    forall row, k | 0 <= row < |s.bucket| && 0 <= k < 3 && k != x.pass.Col() :: s.bucket[row][k] == x.start.bucket[row][k]
  }

  ghost predicate Inv(x: Run, s: State) {
    && s.Shape(x.pass) && x.start.Shape(x.pass) && s.Untouched()
    && |s.best| == |x.start.best| && |s.bucket| == |x.start.bucket|
    && QueueOk(x, s)
    && (forall v {:trigger NodeOk(x, s, v)} | v in s.nodes :: NodeOk(x, s, v))
    && (forall u, v {:trigger EdgeOk(x, s, u, v)} :: EdgeOk(x, s, u, v))
    && (forall row: nat {:trigger BucketAt(x.pass, s, row)} | row < |s.bucket| :: BucketAt(x.pass, s, row))
    && ColumnsKept(x, s)
  }

  /** The node being processed is `cur`, and it has an edge to `opp` still to be scanned. */
  ghost predicate Scanning(x: Run, s: State, cur: Asn, opp: Asn) {
    && x.queue != [] && x.queue[0] == cur && x.open == {cur} && Inv(x, s)
    && cur in s.nodes && s.nodes[cur].depth == x.depth
    && opp in s.nodes && opp != cur && (cur, opp) !in x.scanned
    && (x.pass.Edge(cur, opp) || opp in s.nodes[cur].children)
  }
}
