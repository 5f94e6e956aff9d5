/** The state the restartable BFS works on, as a value, and one step of it for each branch of
    the loop in `ExecuteBfs`.  `RoutingTree.dfy` has the loop itself. */
module BfsState {
  import opened Wrappers
  import opened Topology
  import opened GaoRexford
  import opened TieBreak

  datatype Status = Unseen | Seen | Processed

  /** The fields of an `AsNode` that a BFS changes. */
  datatype NodeState = NodeState(status: Status, prior: bool, parent: Option<Asn>, depth: int, children: seq<Asn>)

  type Bucket = seq<seq<Option<seq<Asn>>>>

  const UINT32 := 0x1_0000_0000

  function Join(asn: Asn, col: nat): nat {
    (asn * 8 + col) % UINT32
  }

  /** `updatePath`: the path of `asn` when its parent's path is `parentPath`. */
  function UpdatedPath(asn: Asn, parentPath: Option<seq<nat>>, col: nat): seq<nat> {
    if parentPath.Some? && parentPath.value != [] && parentPath.value[0] != asn
    then [asn, Join(parentPath.value[0], col)] + parentPath.value[1..]
    else [asn]
  }

  function Listed<T>(o: Option<seq<T>>): seq<T> {
    if o.Some? then o.value else []
  }

  ghost predicate BucketShape(b: Bucket) {
    |b| > 0 && forall row | 0 <= row < |b| :: |b[row]| == 3
  }

  function AddToBucket(b: Bucket, row: nat, col: nat, asn: Asn): (b': Bucket)
    requires row < |b| && col < |b[row]|
  {
    b[row := b[row][col := Some(Listed(b[row][col]) + [asn])]]
  }

  datatype State = State(nodes: map<Asn, NodeState>, best: seq<Option<seq<Asn>>>, bucket: Bucket,
                         path: seq<Option<seq<nat>>>, chosen: seq<Asn>, l: seq<nat>, rel: seq<nat>)
  {
    ghost predicate Shape(c: Pass) {
      && nodes.Keys == c.g.nodes && c.root in nodes
      && (forall v | v in nodes :: v < |best|)
      && |best| == |path| == |chosen| == |l| == |rel|
      && BucketShape(bucket)
    }

    /** Numbers that are no node of the graph keep the initial table entries. */
    ghost predicate Untouched() {
      forall i | 0 <= i < |best| && i < |l| && i < |rel| && i !in nodes :: best[i].None? && l[i] == 0 && rel[i] == 0
    }

    /** Found by this pass or an earlier one. */
    predicate Known(root: Asn, v: Asn) {
      v in nodes && (v == root || nodes[v].parent.Some?)
    }

    /** Found by this pass. */
    predicate New(root: Asn, v: Asn) {
      v in nodes && v != root && nodes[v].parent.Some? && !nodes[v].prior
    }
  }

  /** One pass of the BFS: the edges it may follow, and whether it searches past new nodes. */
  datatype Pass = Pass(g: Graph, root: Asn, rule: TieRule, r: Relationship, limited: bool)
  {
    function Col(): (col: nat)
      ensures col < 3
    {
      ColumnOf(r)
    }
    predicate Edge(u: Asn, v: Asn) {
      v in g.Neighbors(r, u)
    }
  }

  /** "Visiting" the source node, before the loop. */
  function Start(c: Pass, s: State): State
    requires s.Shape(c)
  {
    s.(nodes := s.nodes[c.root := s.nodes[c.root].(status := Seen, depth := 0)],
       path := s.path[c.root := Some([c.root])],
       best := s.best[c.root := Some([c.root])],
       bucket := if c.r == CustomerOf then s.bucket[0 := s.bucket[0][CUSTOMER_COLUMN := Some([c.root])]] else s.bucket)
  }

  /** `opp` is seen, one deeper than its new parent `cur`. */
  function Linked(nodes: map<Asn, NodeState>, cur: Asn, opp: Asn): map<Asn, NodeState>
    requires cur in nodes && opp in nodes
  {
    var nodes' := nodes[opp := nodes[opp].(status := Seen, depth := nodes[cur].depth + 1, parent := Some(cur))];
    nodes'[cur := nodes'[cur].(children := nodes'[cur].children + [opp])]
  }

  /** Case 1: `opp` was not seen in this pass nor discovered by an earlier one. */
  function Discover(c: Pass, s: State, cur: Asn, opp: Asn): State
    requires s.Shape(c) && cur in s.nodes && opp in s.nodes
    requires 0 <= s.nodes[cur].depth + 1 < |s.bucket|
  {
    var d := s.nodes[cur].depth + 1;
    State(Linked(s.nodes, cur, opp),
          s.best[opp := Some(Listed(s.best[opp]) + [cur])],
          AddToBucket(s.bucket, d, c.Col(), opp),
          s.path[opp := Some(UpdatedPath(opp, s.path[cur], c.Col()))],
          s.chosen[opp := cur],
          s.l[opp := d % 256],
          s.rel[opp := c.Col()])
  }

  /** What discovering `opp` has changed by the time its depth turns out to be past the bucket table. */
  function Abandoned(s: State, cur: Asn, opp: Asn): State
    requires cur in s.nodes && opp in s.nodes && opp < |s.l| && 0 <= s.nodes[cur].depth + 1
  {
    s.(nodes := Linked(s.nodes, cur, opp), l := s.l[opp := (s.nodes[cur].depth + 1) % 256])
  }

  /** The processed nodes and their depths. */
  function ProcessedIn(nodes: map<Asn, NodeState>): map<Asn, int> {
    map v | v in nodes && nodes[v].status == Processed :: nodes[v].depth
  }

  /** Case 2: the tree edge to a node discovered by an earlier pass. */
  function Revisit(s: State, opp: Asn): State
    requires opp in s.nodes
  {
    s.(nodes := s.nodes[opp := s.nodes[opp].(status := Seen)])
  }

  predicate Wins(c: Pass, s: State, cur: Asn, opp: Asn)
    requires opp in s.nodes && s.nodes[opp].parent.Some?
  {
    c.rule.Key(opp, cur) < c.rule.Key(opp, s.nodes[opp].parent.value)
  }

  /** An alternative route of the same length: `cur` joins the Best set of `opp`, and becomes its
      parent when it wins the tie-break. */
  function Alternative(c: Pass, s: State, cur: Asn, opp: Asn): State
    requires s.Shape(c) && cur in s.nodes && opp in s.nodes
    requires s.nodes[opp].parent.Some? && s.nodes[opp].parent.value in s.nodes
  {
    var best := s.best[opp := Some(Listed(s.best[opp]) + [cur])];
    if Wins(c, s, cur, opp) then
      s.(nodes := Relinked(s.nodes, cur, opp),
         chosen := s.chosen[opp := cur],
         path := s.path[opp := Some(UpdatedPath(opp, s.path[cur], c.Col()))],
         best := best)
    else
      s.(best := best)
  }

  /** `opp` moves from its parent's child list to that of `cur`. */
  function Relinked(nodes: map<Asn, NodeState>, cur: Asn, opp: Asn): map<Asn, NodeState>
    requires cur in nodes && opp in nodes && nodes[opp].parent.Some? && nodes[opp].parent.value in nodes
  {
    var p := nodes[opp].parent.value;
    var nodes := nodes[p := nodes[p].(children := Remove(nodes[p].children, opp))];
    var nodes := nodes[opp := nodes[opp].(parent := Some(cur))];
    nodes[cur := nodes[cur].(children := nodes[cur].children + [opp])]
  }

  function Finish(s: State, cur: Asn): State
    requires cur in s.nodes
  {
    s.(nodes := s.nodes[cur := s.nodes[cur].(status := Processed)])
  }

  function Locked(n: NodeState): NodeState {
    n.(status := Unseen, prior := n.prior || n.status != Unseen)
  }

  /** Locking what was found into the tree, after the loop. */
  function Lock(s: State): State {
    s.(nodes := map v | v in s.nodes :: Locked(s.nodes[v]))
  }
}
