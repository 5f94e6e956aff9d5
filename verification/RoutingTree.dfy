/** `ExecuteBfs` and `RoutingTreeAlg` over mutable nodes and tables (BFS.cs, AsNode.cs). */
module RoutingTree {
  import opened Wrappers
  import opened Topology
  import opened GaoRexford
  import opened TieBreak
  import opened BfsState
  import opened BfsInvariant
  import opened BfsSteps
  import opened BfsPasses
  import opened BfsOverflow

  const INT32_MAX := 0x7FFF_FFFF

  /** The part of an `AsNode` that a BFS works on; its neighbour lists are those of the graph. */
  class AsNode {
    const NodeNum: Asn
    var InProcessBfsStatus: Status
    var PriorBfsStatus: bool
    var BfsParentNode: Option<Asn>
    var BfsDepth: int
    var BfsChildren: seq<Asn>

    function View(): NodeState
      reads this
    {
      NodeState(InProcessBfsStatus, PriorBfsStatus, BfsParentNode, BfsDepth, BfsChildren)
    }

    constructor (nodeNum: Asn)
      ensures NodeNum == nodeNum && View() == InitialNode()
    {
      NodeNum := nodeNum;
      InProcessBfsStatus, PriorBfsStatus, BfsParentNode, BfsDepth, BfsChildren := Unseen, false, None, INT32_MAX, [];
    }

    method ReinitializeBfsState()
      modifies this
      ensures View() == InitialNode()
    {
      InProcessBfsStatus, PriorBfsStatus, BfsParentNode, BfsDepth, BfsChildren := Unseen, false, None, INT32_MAX, [];
    }

    method SetStatus(status: Status)
      modifies this`InProcessBfsStatus
      ensures InProcessBfsStatus == status
    {
      InProcessBfsStatus := status;
    }

    method SetParent(p: Asn)
      modifies this`BfsParentNode
      ensures BfsParentNode == Some(p)
    {
      BfsParentNode := Some(p);
    }

    method SetFound(d: int, p: Asn)
      modifies this`InProcessBfsStatus, this`BfsDepth, this`BfsParentNode
      ensures InProcessBfsStatus == Seen && BfsDepth == d && BfsParentNode == Some(p)
    {
      InProcessBfsStatus, BfsDepth, BfsParentNode := Seen, d, Some(p);
    }

    /** The root of the search. */
    method SetSource()
      modifies this`InProcessBfsStatus, this`BfsDepth
      ensures InProcessBfsStatus == Seen && BfsDepth == 0
    {
      InProcessBfsStatus, BfsDepth := Seen, 0;
    }

    method Lock()
      modifies this`InProcessBfsStatus, this`PriorBfsStatus
      ensures View() == Locked(old(View()))
    {
      if InProcessBfsStatus != Unseen {
        PriorBfsStatus := true;
      }
      InProcessBfsStatus := Unseen;
    }

    method AddBfsChild(child: Asn)
      modifies this`BfsChildren
      ensures BfsChildren == old(BfsChildren) + [child]
    {
      BfsChildren := BfsChildren + [child];
    }

    /** False stands for the exception "Child not found". */
    method RemoveBfsChild(child: Asn) returns (found: bool)
      modifies this`BfsChildren
      ensures found <==> child in old(BfsChildren)
      ensures BfsChildren == Remove(old(BfsChildren), child)
    {
      found := child in BfsChildren;
      BfsChildren := Remove(BfsChildren, child);
    }
  }

  function InitialNode(): NodeState {
    NodeState(Unseen, false, None, INT32_MAX, [])
  }

  method NewTable<T>(n: nat, initial: T) returns (a: array<T>)
    ensures fresh(a) && a.Length == n && forall i | 0 <= i < n :: a[i] == initial
  {
    a := new T[n](_ => initial);
  }

  /** Fresh nodes, with no BFS state. */
  method BuildNodes(nums: set<Asn>) returns (nodes: map<Asn, AsNode>, ghost objects: set<AsNode>)
    ensures fresh(objects) && nodes.Keys == nums
    ensures forall a | a in nodes :: nodes[a] in objects && nodes[a].NodeNum == a && nodes[a].View() == InitialNode()
  {
    nodes, objects := map[], {};
    var todo := nums;
    while todo != {}
      invariant fresh(objects) && todo <= nums && nodes.Keys == nums - todo
      invariant forall a | a in nodes :: nodes[a] in objects && nodes[a].NodeNum == a && nodes[a].View() == InitialNode()
      decreases todo
    {
      var a :| a in todo;
      var node := new AsNode(a);
      nodes, objects, todo := nodes[a := node], objects + {node}, todo - {a};
    }
  }

  /** One object for each number, among `objects`. */
  ghost predicate Numbered(nodes: map<Asn, AsNode>, objects: set<AsNode>) {
    forall a | a in nodes :: nodes[a] in objects && nodes[a].NodeNum == a
  }

  /** `NetworkGraph.ReinitializeBfsState`: whatever an earlier destination left in the nodes is gone. */
  method ReinitializeNodes(nodes: map<Asn, AsNode>, ghost objects: set<AsNode>)
    requires Numbered(nodes, objects)
    modifies objects
    ensures forall a | a in nodes :: nodes[a].View() == InitialNode()
  {
    var todo := nodes.Keys;
    while todo != {}
      invariant todo <= nodes.Keys
      invariant forall a | a in nodes && a !in todo :: nodes[a].View() == InitialNode()
      decreases todo
    {
      var a :| a in todo;
      nodes[a].ReinitializeBfsState();
      todo := todo - {a};
    }
  }

  /** A graph whose nodes carry BFS state, and the tables the BFS fills.  `state` is what the
      nodes and tables hold, as a value. */
  class RoutingTables {
    const g: Graph
    const rule: TieRule
    const AsNodes: map<Asn, AsNode>
    ghost const NodeSet: set<AsNode>
    const Best: array<Option<seq<Asn>>>
    const BucketTable: array<seq<Option<seq<Asn>>>>
    const ChosenPath: array<Option<seq<nat>>>
    const ChosenParent: array<Asn>
    const L: array<nat>
    const BestRelation: array<nat>
    ghost var nodes: map<Asn, NodeState>

    /** Empty tables over a graph without BFS state, as `initMiniDestination` sets them up. */
    constructor (g: Graph, rule: TieRule, numASNs: nat, rows: nat)
      requires rows > 0 && forall v | v in g.nodes :: v < numASNs
      ensures Valid() && this.g == g && this.rule == rule && BucketTable.Length == rows && Best.Length == numASNs
      ensures fresh(NodeSet) && fresh(Best) && fresh(BucketTable) && fresh(ChosenPath) && fresh(ChosenParent) && fresh(L) && fresh(BestRelation)
      ensures Blank(g, View())
    {
      var built, objects := BuildNodes(g.nodes);
      var best := NewTable<Option<seq<Asn>>>(numASNs, None);
      var bucketTable := NewTable<seq<Option<seq<Asn>>>>(rows, [None, None, None]);
      var chosenPath := NewTable<Option<seq<nat>>>(numASNs, None);
      var chosenParent := NewTable<Asn>(numASNs, 0);
      var l := NewTable<nat>(numASNs, 0);
      var bestRelation := NewTable<nat>(numASNs, 0);
      this.g, this.rule, AsNodes, NodeSet := g, rule, built, objects;
      Best, BucketTable, ChosenPath, ChosenParent := best, bucketTable, chosenPath, chosenParent;
      L, BestRelation := l, bestRelation;
      nodes := map a | a in g.nodes :: InitialNode();
      new;
      hide Blank, BucketShape, InitialNode, NodesOk, TablesOk;
      NewIsBlank();
    }

    /** Empty tables over reinitialised nodes of an earlier destination. */
    constructor Over(g: Graph, rule: TieRule, asNodes: map<Asn, AsNode>, ghost objects: set<AsNode>, numASNs: nat, rows: nat)
      requires rows > 0 && (forall v | v in g.nodes :: v < numASNs)
      requires asNodes.Keys == g.nodes && Numbered(asNodes, objects) && forall a | a in asNodes :: asNodes[a].View() == InitialNode()
      ensures Valid() && this.g == g && this.rule == rule && BucketTable.Length == rows && Best.Length == numASNs
      ensures NodeSet == objects
      ensures fresh(Best) && fresh(BucketTable) && fresh(ChosenPath) && fresh(ChosenParent) && fresh(L) && fresh(BestRelation)
      ensures Blank(g, View())
    {
      var best := NewTable<Option<seq<Asn>>>(numASNs, None);
      var bucketTable := NewTable<seq<Option<seq<Asn>>>>(rows, [None, None, None]);
      var chosenPath := NewTable<Option<seq<nat>>>(numASNs, None);
      var chosenParent := NewTable<Asn>(numASNs, 0);
      var l := NewTable<nat>(numASNs, 0);
      var bestRelation := NewTable<nat>(numASNs, 0);
      this.g, this.rule, AsNodes, NodeSet := g, rule, asNodes, objects;
      Best, BucketTable, ChosenPath, ChosenParent := best, bucketTable, chosenPath, chosenParent;
      L, BestRelation := l, bestRelation;
      nodes := map a | a in g.nodes :: InitialNode();
      new;
      hide Blank, BucketShape, InitialNode, NodesOk, TablesOk;
      NewIsBlank();
    }

    /** Initial nodes and new tables are blank. */
    lemma NewIsBlank()
      requires Numbered(AsNodes, NodeSet) && AsNodes.Keys == g.nodes && nodes == map a | a in g.nodes :: InitialNode()
      requires (forall a | a in AsNodes :: AsNodes[a].View() == InitialNode()) && forall a | a in g.nodes :: a < Best.Length
      requires Best.Length == ChosenPath.Length == ChosenParent.Length == L.Length == BestRelation.Length && BucketTable.Length > 0
      requires Best != ChosenPath && ChosenParent != L && ChosenParent != BestRelation && L != BestRelation
      requires forall i | 0 <= i < Best.Length :: Best[i] == None && L[i] == 0 && BestRelation[i] == 0
      requires forall row | 0 <= row < BucketTable.Length :: BucketTable[row] == [None, None, None]
      ensures Valid() && Blank(g, View())
    {
    }

    /** `nodes` is what the nodes hold. */
    ghost predicate NodesOk()
      reads NodeSet, this`nodes
    {
      && AsNodes.Keys == g.nodes == nodes.Keys
      && (forall a | a in AsNodes :: AsNodes[a] in NodeSet && AsNodes[a].NodeNum == a && AsNodes[a].View() == nodes[a])
    }

    ghost predicate TablesOk()
      reads BucketTable
    {
      && Best.Length == ChosenPath.Length == ChosenParent.Length == L.Length == BestRelation.Length
      && Best != ChosenPath && ChosenParent != L && ChosenParent != BestRelation && L != BestRelation
      && (forall a | a in AsNodes :: a < Best.Length)
      && BucketShape(BucketTable[..])
    }

    ghost predicate Valid()
      reads this`nodes, NodeSet, BucketTable
    {
      NodesOk() && TablesOk()
    }

    ghost function View(): State
      reads this`nodes, Best, BucketTable, ChosenPath, ChosenParent, L, BestRelation
    {
      State(nodes, Best[..], BucketTable[..], ChosenPath[..], ChosenParent[..], L[..], BestRelation[..])
    }

    method Mark(v: Asn, status: Status)
      requires NodesOk() && v in AsNodes
      modifies this`nodes, NodeSet
      ensures NodesOk() && nodes == old(nodes)[v := old(nodes)[v].(status := status)]
    {
      AsNodes[v].SetStatus(status);
      nodes := nodes[v := nodes[v].(status := status)];
    }

    method AddChild(p: Asn, child: Asn)
      requires NodesOk() && p in AsNodes
      modifies this`nodes, NodeSet
      ensures NodesOk() && nodes == old(nodes)[p := old(nodes)[p].(children := old(nodes)[p].children + [child])]
    {
      AsNodes[p].AddBfsChild(child);
      nodes := nodes[p := nodes[p].(children := nodes[p].children + [child])];
    }

    /** False stands for the exception "Child not found". */
    method RemoveChild(p: Asn, child: Asn) returns (found: bool)
      requires NodesOk() && p in AsNodes
      modifies this`nodes, NodeSet
      ensures NodesOk() && nodes == old(nodes)[p := old(nodes)[p].(children := Remove(old(nodes)[p].children, child))]
      ensures found <==> child in old(nodes)[p].children
    {
      hide Remove;
      found := AsNodes[p].RemoveBfsChild(child);
      nodes := nodes[p := nodes[p].(children := Remove(nodes[p].children, child))];
    }

    method SetParent(v: Asn, p: Asn)
      requires NodesOk() && v in AsNodes
      modifies this`nodes, NodeSet
      ensures NodesOk() && nodes == old(nodes)[v := old(nodes)[v].(parent := Some(p))]
    {
      AsNodes[v].SetParent(p);
      nodes := nodes[v := nodes[v].(parent := Some(p))];
    }

    method MarkFound(opp: Asn, d: int, p: Asn)
      requires NodesOk() && opp in AsNodes
      modifies this`nodes, NodeSet
      ensures NodesOk() && nodes == old(nodes)[opp := old(nodes)[opp].(status := Seen, depth := d, parent := Some(p))]
    {
      AsNodes[opp].SetFound(d, p);
      nodes := nodes[opp := nodes[opp].(status := Seen, depth := d, parent := Some(p))];
    }

    /** Sets the fields of a newly discovered node and makes it a child of its parent. */
    method LinkNode(cur: Asn, opp: Asn) returns (d: int)
      requires NodesOk() && cur in AsNodes && opp in AsNodes && cur != opp
      modifies this`nodes, NodeSet
      ensures NodesOk() && nodes == Linked(old(nodes), cur, opp) && d == old(nodes)[cur].depth + 1
    {
      MarkFound(opp, AsNodes[cur].BfsDepth + 1, cur);
      AddChild(cur, opp);
      d := AsNodes[opp].BfsDepth;
    }

    method EnterTables(cur: Asn, opp: Asn, d: nat, col: nat)
      requires Valid() && d < BucketTable.Length && col < 3 && cur in AsNodes && opp in AsNodes
      modifies BucketTable, BestRelation, ChosenPath, Best, ChosenParent
      ensures Valid() && BucketTable[..] == AddToBucket(old(BucketTable[..]), d, col, opp)
      ensures BestRelation[..] == old(BestRelation[..])[opp := col]
      ensures ChosenPath[..] == old(ChosenPath[..])[opp := Some(UpdatedPath(opp, old(ChosenPath[..])[cur], col))]
      ensures Best[..] == old(Best[..])[opp := Some(Listed(old(Best[..])[opp]) + [cur])]
      ensures ChosenParent[..] == old(ChosenParent[..])[opp := cur]
    {
      BestRelation[opp] := col;
      BucketTable[d] := BucketTable[d][col := Some(Listed(BucketTable[d][col]) + [opp])];
      ChosenPath[opp] := Some(UpdatedPath(opp, ChosenPath[cur], col));
      Best[opp] := Some(Listed(Best[opp]) + [cur]);
      ChosenParent[opp] := cur;
    }

    method SetLevel(opp: Asn, d: nat)
      requires Valid() && opp in AsNodes
      modifies L
      ensures Valid() && L[..] == old(L[..])[opp := d % 256]
    {
      L[opp] := d % 256;
    }

    /** Case 1: `opp` is newly discovered from `cur`.  False stands for the exception of indexing past
        the bucket table, by which time the node, the child list and `L` have changed. */
    method DiscoverNode(c: Pass, cur: Asn, opp: Asn) returns (ok: bool)
      requires Valid() && View().Shape(c) && cur in AsNodes && opp in AsNodes && cur != opp && 0 <= nodes[cur].depth + 1
      modifies this`nodes, NodeSet, Best, BucketTable, ChosenPath, ChosenParent, L, BestRelation
      ensures Valid() && (ok <==> old(nodes)[cur].depth + 1 < BucketTable.Length)
      ensures View() == if ok then Discover(c, old(View()), cur, opp) else Abandoned(old(View()), cur, opp)
    {
      hide AddToBucket, UpdatedPath, BucketShape, Linked;
      var d := BeginDiscovery(cur, opp);
      ok := d < BucketTable.Length;
      if ok {
        EnterTables(cur, opp, d, c.Col());
      }
    }

    method BeginDiscovery(cur: Asn, opp: Asn) returns (d: nat)
      requires Valid() && cur in AsNodes && opp in AsNodes && cur != opp && 0 <= nodes[cur].depth + 1
      modifies this`nodes, NodeSet, L
      ensures Valid() && d == old(nodes)[cur].depth + 1
      ensures View() == Abandoned(old(View()), cur, opp)
    {
      hide Linked;
      d := LinkNode(cur, opp);
      SetLevel(opp, d);
    }

    /** Moves `opp` below `cur`.  False stands for the exception "Child not found". */
    method RelinkNode(cur: Asn, opp: Asn) returns (found: bool)
      requires NodesOk() && cur in AsNodes && opp in AsNodes
      requires nodes[opp].parent.Some? && nodes[opp].parent.value in AsNodes
      modifies this`nodes, NodeSet
      ensures NodesOk() && nodes == Relinked(old(nodes), cur, opp)
      ensures found <==> opp in old(nodes)[old(nodes)[opp].parent.value].children
    {
      found := RemoveChild(AsNodes[opp].BfsParentNode.value, opp);
      SetParent(opp, cur);
      AddChild(cur, opp);
    }

    method RechooseParent(cur: Asn, opp: Asn, col: nat)
      requires TablesOk() && cur in AsNodes && opp in AsNodes
      modifies ChosenPath, ChosenParent
      ensures ChosenPath[..] == old(ChosenPath[..])[opp := Some(UpdatedPath(opp, old(ChosenPath[..])[cur], col))]
      ensures ChosenParent[..] == old(ChosenParent[..])[opp := cur]
    {
      ChosenParent[opp] := cur;
      ChosenPath[opp] := Some(UpdatedPath(opp, ChosenPath[cur], col));
    }

    /** `cur` takes over as the parent of `opp`. */
    method SwitchParent(cur: Asn, opp: Asn, col: nat) returns (found: bool)
      requires Valid() && cur in AsNodes && opp in AsNodes
      requires nodes[opp].parent.Some? && nodes[opp].parent.value in AsNodes
      modifies this`nodes, NodeSet, ChosenPath, ChosenParent
      ensures NodesOk() && nodes == Relinked(old(nodes), cur, opp)
      ensures ChosenPath[..] == old(ChosenPath[..])[opp := Some(UpdatedPath(opp, old(ChosenPath[..])[cur], col))]
      ensures ChosenParent[..] == old(ChosenParent[..])[opp := cur]
      ensures found <==> opp in old(nodes)[old(nodes)[opp].parent.value].children
    {
      RechooseParent(cur, opp, col);
      found := RelinkNode(cur, opp);
    }

    method JoinBest(cur: Asn, opp: Asn)
      requires TablesOk() && opp in AsNodes
      modifies Best
      ensures Best[..] == old(Best[..])[opp := Some(Listed(old(Best[..])[opp]) + [cur])]
    {
      Best[opp] := Some(Listed(Best[opp]) + [cur]);
    }

    /** An alternative route to `opp` through `cur`. */
    method AddAlternative(c: Pass, cur: Asn, opp: Asn) returns (found: bool)
      requires Valid() && View().Shape(c) && cur in AsNodes && opp in AsNodes
      requires nodes[opp].parent.Some? && nodes[opp].parent.value in AsNodes
      modifies this`nodes, NodeSet, Best, ChosenPath, ChosenParent
      ensures Valid() && View() == Alternative(c, old(View()), cur, opp)
      ensures !found ==> opp !in old(nodes)[old(nodes)[opp].parent.value].children
    {
      JoinBest(cur, opp);
      var p := AsNodes[opp].BfsParentNode.value;
      if c.rule.Key(opp, cur) < c.rule.Key(opp, p) {
        found := SwitchParent(cur, opp, c.Col());
      } else {
        found := true;
      }
    }

    method VisitNew(c: Pass, cur: Asn, opp: Asn, ghost x: Run) returns (ok: bool)
      requires Valid() && x.pass == c && Scanning(x, View(), cur, opp)
      requires nodes[opp].status == Unseen && !nodes[opp].prior
      modifies this`nodes, NodeSet, Best, BucketTable, ChosenPath, ChosenParent, L, BestRelation
      ensures Valid()
      ensures ok ==> Visited(x, old(View()), View(), cur, opp, !c.limited)
      ensures ok ==> StepsTo(c, old(View()), View(), cur, opp, !c.limited)
      ensures !ok ==> Overflowing(x, old(View()), cur, opp) && View() == Abandoned(old(View()), cur, opp)
    {
      CurrentDepth(x, View(), cur, opp);
      if View().nodes[cur].depth + 1 < BucketTable.Length { DiscoverVisited(x, View(), cur, opp); }
      ok := DiscoverNode(c, cur, opp);
    }

    method VisitTree(c: Pass, cur: Asn, opp: Asn, ghost x: Run)
      requires Valid() && x.pass == c && Revisiting(x, View(), cur, opp)
      modifies this`nodes, NodeSet
      ensures Valid() && Visited(x, old(View()), View(), cur, opp, true) && StepsTo(c, old(View()), View(), cur, opp, true)
    {
      RevisitDepth(x, View(), cur, opp);
      RevisitVisited(x, View(), cur, opp);
      assert AsNodes[opp].BfsDepth == AsNodes[cur].BfsDepth + 1;  // no "Unexpected BFS depth"
      Mark(opp, Seen);
    }

    method VisitAlternative(c: Pass, cur: Asn, opp: Asn, ghost x: Run)
      requires Valid() && x.pass == c && Tied(x, View(), cur, opp)
      modifies this`nodes, NodeSet, Best, ChosenPath, ChosenParent
      ensures Valid() && Visited(x, old(View()), View(), cur, opp, false) && StepsTo(c, old(View()), View(), cur, opp, false)
    {
      AlternativeVisited(x, View(), cur, opp);
      TiedListed(x, View(), cur, opp);
      var found := AddAlternative(c, cur, opp);
      assert found;  // no "Child not found"
    }

    /** One neighbour of the node being processed.  `ok` is false when the depth of a new node is
        past the end of the bucket table, which the program answers with an exception. */
    method Visit(c: Pass, cur: Asn, opp: Asn, ghost x: Run) returns (ok: bool, enqueue: bool)
      requires Valid() && x.pass == c && Scanning(x, View(), cur, opp)
      modifies this`nodes, NodeSet, Best, BucketTable, ChosenPath, ChosenParent, L, BestRelation
      ensures Valid()
      ensures ok ==> Visited(x, old(View()), View(), cur, opp, enqueue) && StepsTo(c, old(View()), View(), cur, opp, enqueue)
      ensures !ok ==> Overflowing(x, old(View()), cur, opp) && View() == Abandoned(old(View()), cur, opp)
    {
      var node := AsNodes[opp];
      assert node.View() == View().nodes[opp] && AsNodes[cur].View() == View().nodes[cur];
      if node.InProcessBfsStatus == Unseen {
        if !node.PriorBfsStatus {
          ok := VisitNew(c, cur, opp, x);
          return ok, !c.limited;
        } else if node.BfsParentNode == Some(cur) {
          VisitTree(c, cur, opp, x);
          return true, true;
        }
      } else if node.InProcessBfsStatus == Seen && node.BfsDepth == AsNodes[cur].BfsDepth + 1 && !node.PriorBfsStatus {
        TiedHasParent(x, View(), cur, opp);
        VisitAlternative(c, cur, opp, x);
        return true, false;
      }
      SkipVisited(x, View(), cur, opp);
      return true, false;
    }

    ghost function ProcessedDepths(): map<Asn, int>
      reads this`nodes
    {
      ProcessedIn(nodes)
    }

    /** Visits `opp` and queues it if need be. */
    method VisitNext(c: Pass, cur: Asn, opp: Asn, queue: seq<Asn>, ghost x: Run, ghost done: set<Asn>)
      returns (ok: bool, queue': seq<Asn>, ghost x': Run)
      requires Valid() && x.pass == c && c.g == g && g.Valid() && Midway(x, View(), cur, queue, done)
      requires opp !in done && (c.Edge(cur, opp) || opp in nodes[cur].children)
      modifies this`nodes, NodeSet, Best, BucketTable, ChosenPath, ChosenParent, L, BestRelation
      ensures Valid() && x'.pass == c && x'.start == x.start && x'.depth == x.depth
      ensures ok ==> Midway(x', View(), cur, queue', done + {opp}) && ProcessedDepths() == old(ProcessedDepths())
      ensures ok ==> Elements(old(nodes)[cur].children) <= Elements(nodes[cur].children) <= Elements(old(nodes)[cur].children) + {opp}
      ensures !ok ==> RunsPast(x', BucketTable.Length, cur, opp)
    {
      queue', x' := queue, x;
      MidwayScans(x, View(), cur, queue, done, opp);
      var enqueue;
      ok, enqueue := Visit(c, cur, opp, x);
      if ok {
        MidwayAdvances(x, old(View()), View(), cur, queue, done, opp, enqueue);
        x' := if enqueue then ScannedAndQueued(x, cur, opp) else Scanned(x, cur, opp);
        queue' := if enqueue then queue + [opp] else queue;
      }
    }

    /** Visits the neighbours of `cur` that the pass may follow. */
    method VisitNeighbors(c: Pass, cur: Asn, queue: seq<Asn>, ghost x: Run)
      returns (ok: bool, queue': seq<Asn>, ghost x': Run, ghost bad: Asn)
      requires Valid() && x.pass == c && c.g == g && g.Valid() && Midway(x, View(), cur, queue, {})
      modifies this`nodes, NodeSet, Best, BucketTable, ChosenPath, ChosenParent, L, BestRelation
      ensures Valid() && x'.pass == c && x'.start == x.start && x'.depth == x.depth
      ensures ok ==> Midway(x', View(), cur, queue', Elements(g.Neighbors(c.r, cur)))
      ensures ok ==> ProcessedDepths() == old(ProcessedDepths())
      ensures !ok ==> RunsPast(x', BucketTable.Length, cur, bad)
    {
      hide Inv;
      ok, queue', x', bad := true, queue, x, 0;
      var neighbors := g.Neighbors(c.r, cur);
      assert g.ListValid(c.r, cur);
      assert Elements(neighbors[..0]) == {};
      for i := 0 to |neighbors|
        invariant Valid() && x'.pass == c && x'.start == x.start && x'.depth == x.depth
        invariant ok && Midway(x', View(), cur, queue', Elements(neighbors[..i]))
        invariant ProcessedDepths() == old(ProcessedDepths())
      {
        ElementsNext(neighbors, i);
        bad := neighbors[i];
        ok, queue', x' := VisitNext(c, cur, neighbors[i], queue', x', Elements(neighbors[..i]));
        if !ok { return; }
      }
      assert neighbors[..|neighbors|] == neighbors;
    }

    /** Visits a child of `cur`, unless it is also a neighbour and has been visited as such. */
    method VisitChild(c: Pass, cur: Asn, opp: Asn, queue: seq<Asn>, ghost x: Run, ghost done: set<Asn>)
      returns (ok: bool, queue': seq<Asn>, ghost x': Run)
      requires Valid() && x.pass == c && c.g == g && g.Valid() && Midway(x, View(), cur, queue, done)
      requires opp in Elements(nodes[cur].children) && (opp in done <==> c.Edge(cur, opp))
      modifies this`nodes, NodeSet, Best, BucketTable, ChosenPath, ChosenParent, L, BestRelation
      ensures Valid() && x'.pass == c && x'.start == x.start && x'.depth == x.depth
      ensures ok ==> Midway(x', View(), cur, queue', done + {opp}) && ProcessedDepths() == old(ProcessedDepths())
      ensures ok ==> Elements(nodes[cur].children) == Elements(old(nodes)[cur].children)
      ensures !ok ==> RunsPast(x', BucketTable.Length, cur, opp)
    {
      if opp in g.Neighbors(c.r, cur) {
        assert done + {opp} == done;
        return true, queue, x;
      }
      ok, queue', x' := VisitNext(c, cur, opp, queue, x, done);
    }

    /** Visits the children `cur` has in the tree, those already visited as neighbours excepted. */
    method VisitChildren(c: Pass, cur: Asn, queue: seq<Asn>, ghost x: Run)
      returns (ok: bool, queue': seq<Asn>, ghost x': Run, ghost done: set<Asn>, ghost bad: Asn)
      requires Valid() && x.pass == c && c.g == g && g.Valid()
      requires Midway(x, View(), cur, queue, Elements(g.Neighbors(c.r, cur)))
      modifies this`nodes, NodeSet, Best, BucketTable, ChosenPath, ChosenParent, L, BestRelation
      ensures Valid() && x'.pass == c && x'.start == x.start && x'.depth == x.depth
      ensures ok ==> Midway(x', View(), cur, queue', done)
      ensures ok ==> done == Elements(g.Neighbors(c.r, cur)) + Elements(nodes[cur].children)
      ensures ok ==> ProcessedDepths() == old(ProcessedDepths())
      ensures !ok ==> RunsPast(x', BucketTable.Length, cur, bad)
    {
      hide Inv;
      var children := AsNodes[cur].BfsChildren;
      done := Elements(g.Neighbors(c.r, cur));
      ok, queue', x', bad := true, queue, x, 0;
      ChildrenNoDup(x, View(), cur);
      for i := 0 to |children|
        invariant Valid() && x'.pass == c && x'.start == x.start && x'.depth == x.depth
        invariant ok && Midway(x', View(), cur, queue', done)
        invariant done == Elements(g.Neighbors(c.r, cur)) + Elements(children[..i])
        invariant Elements(nodes[cur].children) == Elements(children)
        invariant ProcessedDepths() == old(ProcessedDepths())
      {
        ElementsNext(children, i);
        bad := children[i];
        ok, queue', x' := VisitChild(c, cur, children[i], queue', x', done);
        if !ok { return; }
        done := done + {children[i]};
      }
      assert children[..|children|] == children;
    }

    /** Scans the edges of `cur`: those of the pass, then the tree edges of earlier passes. */
    method ScanEdges(c: Pass, cur: Asn, queue: seq<Asn>, ghost x: Run)
      returns (ok: bool, queue': seq<Asn>, ghost x': Run, ghost done: set<Asn>, ghost bad: Asn)
      requires Valid() && x.pass == c && c.g == g && g.Valid()
      requires Midway(x, View(), cur, queue, {})
      modifies this`nodes, NodeSet, Best, BucketTable, ChosenPath, ChosenParent, L, BestRelation
      ensures Valid() && x'.pass == c && x'.start == x.start && x'.depth == x.depth
      ensures ok ==> Midway(x', View(), cur, queue', done) && Elements(g.Neighbors(c.r, cur)) <= done
      ensures ok ==> cur in nodes && Elements(nodes[cur].children) <= done
      ensures ok ==> ProcessedDepths() == old(ProcessedDepths())
      ensures !ok ==> RunsPast(x', BucketTable.Length, cur, bad)
    {
      hide Inv, RunsPast;
      done := {};
      ok, queue', x', bad := VisitNeighbors(c, cur, queue, x);
      if !ok { return; }
      ok, queue', x', done, bad := VisitChildren(c, cur, queue', x');
    }

    /** Processes `cur`, the node dequeued: all its edges are scanned and it is marked. */
    method ProcessNode(c: Pass, cur: Asn, queue: seq<Asn>, ghost x: Run)
      returns (ok: bool, queue': seq<Asn>, ghost x': Run, ghost bad: Asn)
      requires Valid() && x.pass == c && c.g == g && g.Valid()
      requires Idle(x, View()) && x.queue == [cur] + queue
      modifies this`nodes, NodeSet, Best, BucketTable, ChosenPath, ChosenParent, L, BestRelation
      ensures Valid() && x'.pass == c && x'.start == x.start && x.depth <= x'.depth
      ensures ok ==> Idle(x', View()) && x'.queue == queue'
      ensures ok ==> cur !in old(ProcessedDepths()) && ProcessedDepths() == old(ProcessedDepths())[cur := x.depth]
      ensures ok ==> cur in g.nodes
      ensures !ok ==> RunsPast(x', BucketTable.Length, cur, bad)
    {
      hide Inv, RunsPast, ProcessedIn;
      MidwayStarts(x, View(), cur, queue);
      IdleHead(x, View(), cur, queue);
      ghost var done;
      ok, queue', x', done, bad := ScanEdges(c, cur, queue, Opened(x));
      if !ok { return; }
      MidwayEnds(x', View(), cur, queue', done);
      MidwayHead(x', View(), cur, queue', done);
      x' := Closed(x', View());
      ProcessedNext(nodes, cur);
      Mark(cur, Processed);
    }

    /** The loop of `ExecuteBfs`.  `order` is the sequence of nodes dequeued: each is dequeued once, and
        the depth never decreases. */
    method DrainQueue(c: Pass, ghost x: Run) returns (ok: bool, ghost x': Run, ghost order: seq<Asn>, ghost cur: Asn, ghost bad: Asn)
      requires Valid() && x.pass == c && c.g == g && g.Valid()
      requires Idle(x, View()) && x.queue == [c.root] && ProcessedDepths() == map[]
      modifies this`nodes, NodeSet, Best, BucketTable, ChosenPath, ChosenParent, L, BestRelation
      ensures Valid() && x'.pass == c && x'.start == x.start
      ensures ok ==> Inv(x', View()) && x'.queue == [] && x'.open == {} && InOrder(order, ProcessedDepths())
      ensures !ok ==> RunsPast(x', BucketTable.Length, cur, bad)
    {
      hide Inv, RunsPast, InOrder;
      var queue := [c.root];
      ok, x', order, cur, bad := true, x, [], 0, 0;
      assert InOrder(order, ProcessedDepths()) by { NothingInOrder(); }
      while queue != []
        invariant Valid() && x'.pass == c && x'.start == x.start
        invariant ok && Idle(x', View()) && x'.queue == queue
        invariant ProcessedDepths().Keys <= g.nodes && InOrder(order, ProcessedDepths())
        decreases g.nodes - ProcessedDepths().Keys
      {
        var node := queue[0];
        assert queue == [node] + queue[1..];
        cur := node;
        ghost var x0, s0 := x', View();
        ok, queue, x', bad := ProcessNode(c, node, queue[1..], x');
        if !ok { return; }
        OrderNext(x0, s0, order, node);
        assert ProcessedDepths().Keys == ProcessedIn(s0.nodes).Keys + {node};
        order := order + [node];
      }
    }

    method StartTables(c: Pass)
      requires TablesOk() && c.root in AsNodes
      modifies BucketTable, ChosenPath, Best
      ensures TablesOk()
      ensures ChosenPath[..] == old(ChosenPath[..])[c.root := Some([c.root])]
      ensures Best[..] == old(Best[..])[c.root := Some([c.root])]
      ensures BucketTable[..] == if c.r == CustomerOf then old(BucketTable[..])[0 := old(BucketTable[..])[0][CUSTOMER_COLUMN := Some([c.root])]]
                                 else old(BucketTable[..])
    {
      ChosenPath[c.root] := Some([c.root]);
      Best[c.root] := Some([c.root]);
      if c.r == CustomerOf {
        BucketTable[0] := BucketTable[0][CUSTOMER_COLUMN := Some([c.root])];
      }
    }

    method MarkSource(v: Asn)
      requires NodesOk() && v in AsNodes
      modifies this`nodes, NodeSet
      ensures NodesOk() && nodes == old(nodes)[v := old(nodes)[v].(status := Seen, depth := 0)]
    {
      AsNodes[v].SetSource();
      nodes := nodes[v := nodes[v].(status := Seen, depth := 0)];
    }

    method LockNode(v: Asn)
      requires NodesOk() && v in AsNodes
      modifies this`nodes, NodeSet
      ensures NodesOk() && nodes == old(nodes)[v := Locked(old(nodes)[v])]
    {
      AsNodes[v].Lock();
      nodes := nodes[v := Locked(nodes[v])];
    }

    method LockNodes()
      requires NodesOk()
      modifies this`nodes, NodeSet
      ensures NodesOk() && nodes == map v | v in old(nodes) :: Locked(old(nodes)[v])
    {
      var todo := g.nodes;
      while todo != {}
        invariant NodesOk() && todo <= g.nodes
        invariant forall v | v in nodes :: v in old(nodes) && nodes[v] == if v in todo then old(nodes)[v] else Locked(old(nodes)[v])
        decreases todo
      {
        var v :| v in todo;
        LockNode(v);
        todo := todo - {v};
      }
    }

    method StartPass(c: Pass)
      requires Valid() && View().Shape(c)
      modifies this`nodes, NodeSet, Best, BucketTable, ChosenPath
      ensures Valid() && View() == Start(c, old(View()))
    {
      StartTables(c);
      MarkSource(c.root);
    }

    method LockPass()
      requires Valid()
      modifies this`nodes, NodeSet
      ensures Valid() && View() == Lock(old(View()))
    {
      LockNodes();
    }

    /** One pass.  It adds the routes of its class to a settled state and disturbs nothing an
        earlier pass found, unless a route is too long for the bucket table.  `order` is the sequence
        of nodes dequeued: the exporters of the pass, among them every node of an earlier tree. */
    method ExecuteBfs(c: Pass, ghost p: Problem, ghost k: nat) returns (ok: bool, ghost order: seq<Asn>)
      requires Valid() && g.Valid() && p.g == g && k < 3 && c == p.PassOf(k) && Settled(p, k, View())
      modifies this`nodes, NodeSet, Best, BucketTable, ChosenPath, ChosenParent, L, BestRelation
      ensures Valid()
      ensures ok ==> Settled(p, k + 1, View()) && (k > 0 ==> Undisturbed(p, k, old(View()), View()))
      ensures ok ==> Enumerates(order, p, k, View()) && forall v | old(View()).Known(p.root, v) :: v in order
      ensures !ok ==> TooDeep(g, p.root, BucketTable.Length)
    {
      hide Inv;
      hide Settled;
      ghost var s0 := View();
      SettledShape(p, k, s0);
      StartIdle(p, k, s0);
      StartPass(c);
      StartUnprocessed(p, k, s0);
      ghost var x, cur, bad;
      ok, x, order, cur, bad := DrainQueue(c, FirstRun(p, k, s0));
      if ok {
        LockSettles(p, k, s0, x, View());
        OrderEnumerates(p, k, s0, x, View(), order);
        if k > 0 { RerunUndisturbed(p, k, s0, x, View()); }
        LockPass();
      } else {
        ghost var s: State :| |s.bucket| == BucketTable.Length && Overflowing(x, s, cur, bad);
        OverflowTooDeep(p, k, s0, x, s, cur, bad);
      }
    }

    /** The routing tree of destination `root`.  The three passes succeed exactly when the routes
        of the stable routing fit into the bucket table, and then they have computed it. */
    method RoutingTreeAlg(ghost p: Problem, root: Asn) returns (ok: bool)
      requires Valid() && g.Valid() && p == Problem(g, root, rule) && Settled(p, 0, View())
      modifies this`nodes, NodeSet, Best, BucketTable, ChosenPath, ChosenParent, L, BestRelation
      ensures Valid()
      ensures ok ==> Settled(p, 3, View()) && Stable(g, root, RoutingOf(root, View()))
      ensures ok <==> !TooDeep(g, root, BucketTable.Length)
    {
      hide Settled;
      ghost var order;
      ok, order := ExecuteBfs(Pass(g, root, rule, CustomerOf, false), p, 0);
      if ok {
        ok, order := ExecuteBfs(Pass(g, root, rule, PeerOf, true), p, 1);
        if ok {
          ok, order := ExecuteBfs(Pass(g, root, rule, ProviderTo, false), p, 2);
          if ok {
            SettledIsStable(p, View());
            SettledFits(p, View());
          }
        }
      }
    }
  }
}
