/** Every branch of the scan of an edge keeps the invariant of the pass. */
module BfsSteps {
  import opened Wrappers
  import opened Topology
  import opened BfsState
  import opened BfsInvariant

  function Scanned(x: Run, cur: Asn, opp: Asn): Run {
    x.(scanned := x.scanned + {(cur, opp)})
  }

  function ScannedAndQueued(x: Run, cur: Asn, opp: Asn): Run {
    x.(scanned := x.scanned + {(cur, opp)}, queue := x.queue + [opp])
  }

  function Found(x: Run, cur: Asn, opp: Asn): Run {
    if x.pass.limited then Scanned(x, cur, opp) else ScannedAndQueued(x, cur, opp)
  }

  /** The queue only depends on the records of the queued nodes. */
  lemma QueueCarries(x: Run, s: State, s': State)
    requires QueueOk(x, s)
    requires forall v | v in x.queue :: v in s'.nodes && s'.nodes[v].status == s.nodes[v].status
               && s'.nodes[v].depth == s.nodes[v].depth && (s'.New(x.pass.root, v) ==> s.New(x.pass.root, v))
    ensures QueueOk(x, s')
  {
    forall i, j | 0 <= i < j < |x.queue| ensures s'.nodes[x.queue[i]].depth <= s'.nodes[x.queue[j]].depth {
      assert x.queue[i] in x.queue && x.queue[j] in x.queue;
    }
  }

  lemma QueueGrows(x: Run, s: State, cur: Asn, opp: Asn)
    requires QueueOk(x, s) && opp !in x.queue && opp in s.nodes
    requires s.nodes[opp].status == Seen && s.nodes[opp].depth == x.depth + 1
    requires x.pass.limited ==> !s.New(x.pass.root, opp)
    ensures QueueOk(ScannedAndQueued(x, cur, opp), s)
  {
    NoDupAppend(x.queue, opp);
    var q := x.queue + [opp];
    forall i, j | 0 <= i < j < |q| ensures s.nodes[q[i]].depth <= s.nodes[q[j]].depth {
      assert q[i] in x.queue;
    }
  }

  ghost predicate Discovering(x: Run, s: State, cur: Asn, opp: Asn) {
    && Scanning(x, s, cur, opp)
    && s.nodes[opp].status == Unseen && !s.nodes[opp].prior
    && x.depth + 1 < |s.bucket|
  }

  /** A node to be discovered lies too deep for the bucket table. */
  ghost predicate Overflowing(x: Run, s: State, cur: Asn, opp: Asn) {
    && Scanning(x, s, cur, opp)
    && s.nodes[opp].status == Unseen && !s.nodes[opp].prior
    && x.depth + 1 >= |s.bucket|
  }

  /** A table of `rows` rows was too short for a node to be discovered along the edge from `cur` to `opp`. */
  ghost predicate RunsPast(x: Run, rows: nat, cur: Asn, opp: Asn) {
    exists s: State :: |s.bucket| == rows && Overflowing(x, s, cur, opp)
  }

  lemma CurrentDepth(x: Run, s: State, cur: Asn, opp: Asn)
    requires Scanning(x, s, cur, opp)
    ensures s.nodes[cur].depth >= 0
  {
    assert NodeOk(x, s, cur);
  }

  /** A node about to be discovered is on no list yet. */
  lemma Undiscovered(x: Run, s: State, cur: Asn, opp: Asn)
    requires Discovering(x, s, cur, opp)
    ensures opp != x.pass.root && s.nodes[opp].parent.None? && s.best[opp].None? && opp !in x.queue && x.pass.Edge(cur, opp)
    ensures opp !in s.nodes[cur].children && s.Known(x.pass.root, cur)
    ensures s.nodes[cur].status == Seen && cur in x.queue
  {
    assert NodeOk(x, s, opp) && NodeOk(x, s, cur);
  }

  /** How `Discover` changes the record of one node. */
  ghost predicate DiscoveredAt(s: State, s': State, cur: Asn, opp: Asn, v: Asn)
    requires v in s.nodes && v in s'.nodes && cur in s.nodes
  {
    && s'.nodes[v].prior == s.nodes[v].prior
    && (v != opp ==> s'.nodes[v].status == s.nodes[v].status && s'.nodes[v].depth == s.nodes[v].depth
                     && s'.nodes[v].parent == s.nodes[v].parent)
    && (v == opp ==> s'.nodes[v].status == Seen && s'.nodes[v].depth == s.nodes[cur].depth + 1
                     && s'.nodes[v].parent == Some(cur))
    && s'.nodes[v].children == if v == cur then s.nodes[v].children + [opp] else s.nodes[v].children
  }

  /** How `Discover` changes the state. */
  ghost predicate Discovered(x: Run, s: State, s': State, cur: Asn, opp: Asn) {
    && s.Shape(x.pass) && s'.Shape(x.pass) && |s'.best| == |s.best| && |s'.bucket| == |s.bucket|
    && opp in s.nodes && cur in s.nodes && 0 <= s.nodes[cur].depth + 1 < |s.bucket|
    && (forall v {:trigger DiscoveredAt(s, s', cur, opp, v)} | v in s.nodes :: DiscoveredAt(s, s', cur, opp, v))
    && s'.l == s.l[opp := (s.nodes[cur].depth + 1) % 256]
    && s'.rel == s.rel[opp := x.pass.Col()]
    && s'.best == s.best[opp := Some(Listed(s.best[opp]) + [cur])]
    && s'.chosen == s.chosen[opp := cur]
    && s'.path == s.path[opp := Some(UpdatedPath(opp, s.path[cur], x.pass.Col()))]
    && s'.bucket == AddToBucket(s.bucket, s.nodes[cur].depth + 1, x.pass.Col(), opp)
  }

  lemma DiscoverAt(c: Pass, s: State, cur: Asn, opp: Asn, v: Asn)
    requires s.Shape(c) && cur in s.nodes && opp in s.nodes && v in s.nodes && 0 <= s.nodes[cur].depth + 1 < |s.bucket|
    requires cur != opp
    ensures v in Discover(c, s, cur, opp).nodes && DiscoveredAt(s, Discover(c, s, cur, opp), cur, opp, v)
  {
  }

  lemma DiscoverDiscovered(x: Run, s: State, cur: Asn, opp: Asn)
    requires Discovering(x, s, cur, opp) && s.nodes[cur].depth >= 0
    ensures Discovered(x, s, Discover(x.pass, s, cur, opp), cur, opp)
  {
    hide DiscoveredAt, NodeOk, UpdatedPath, QueueOk;
    var s' := Discover(x.pass, s, cur, opp);
    forall v | v in s.nodes ensures DiscoveredAt(s, s', cur, opp, v) {
      DiscoverAt(x.pass, s, cur, opp, v);
    }
  }

  ghost predicate FindStep(x: Run, s: State, s': State, cur: Asn, opp: Asn) {
    Discovering(x, s, cur, opp) && s.nodes[cur].depth >= 0 && Discovered(x, s, s', cur, opp)
  }

  lemma FindQueue(x: Run, s: State, s': State, cur: Asn, opp: Asn)
    requires FindStep(x, s, s', cur, opp)
    ensures QueueOk(Found(x, cur, opp), s')
  {
    Undiscovered(x, s, cur, opp);
    assert DiscoveredAt(s, s', cur, opp, opp);
    forall v | v in x.queue ensures v in s'.nodes && s'.nodes[v].status == s.nodes[v].status
               && s'.nodes[v].depth == s.nodes[v].depth && (s'.New(x.pass.root, v) ==> s.New(x.pass.root, v)) {
      assert DiscoveredAt(s, s', cur, opp, v);
    }
    QueueCarries(x, s, s');
    if !x.pass.limited { QueueGrows(x, s', cur, opp); }
  }

  lemma FindStatus(x: Run, s: State, s': State, cur: Asn, opp: Asn, v: Asn)
    requires FindStep(x, s, s', cur, opp) && v in s.nodes
    ensures StatusAt(Found(x, cur, opp), s', v) && PriorAt(Found(x, cur, opp), s', v)
  {
    Undiscovered(x, s, cur, opp);
    assert NodeOk(x, s, v) && DiscoveredAt(s, s', cur, opp, v);
    if s.nodes[v].parent.Some? && s.nodes[v].parent.value in s.nodes {
      assert DiscoveredAt(s, s', cur, opp, s.nodes[v].parent.value);
    }
  }

  lemma FindTree(x: Run, s: State, s': State, cur: Asn, opp: Asn, v: Asn)
    requires FindStep(x, s, s', cur, opp) && v in s.nodes
    ensures TreeAt(x.pass, s', v)
  {
    hide QueueOk, BestAt, TablesAt, FrameAt, PriorAt, EdgeOk, BucketAt;
    Undiscovered(x, s, cur, opp);
    assert NodeOk(x, s, v) && DiscoveredAt(s, s', cur, opp, v) && DiscoveredAt(s, s', cur, opp, opp);
    assert NodeOk(x, s, cur) && DiscoveredAt(s, s', cur, opp, cur);
    if s.nodes[v].parent.Some? && s.nodes[v].parent.value in s.nodes {
      assert DiscoveredAt(s, s', cur, opp, s.nodes[v].parent.value);
    }
    forall w | w in s'.nodes[v].children ensures w in s'.nodes && s'.nodes[w].parent == Some(v) {
      if w != opp { assert w in s.nodes && DiscoveredAt(s, s', cur, opp, w); }
    }
  }

  lemma FindTables(x: Run, s: State, s': State, cur: Asn, opp: Asn, v: Asn)
    requires FindStep(x, s, s', cur, opp) && v in s.nodes
    ensures if s'.New(x.pass.root, v) then TablesAt(x.pass, s', v) else FrameAt(x.pass, x.start, s', v)
  {
    Undiscovered(x, s, cur, opp);
    assert NodeOk(x, s, v) && DiscoveredAt(s, s', cur, opp, v) && NodeOk(x, s, opp);
    if v != opp && s.New(x.pass.root, v) { NobodysParent(x, s, cur, opp, v); }
  }

  lemma NobodysParent(x: Run, s: State, cur: Asn, opp: Asn, v: Asn)
    requires Discovering(x, s, cur, opp) && v in s.nodes
    ensures s.nodes[v].parent != Some(opp)
  {
    assert NodeOk(x, s, v) && NodeOk(x, s, opp);
  }

  lemma FindBest(x: Run, s: State, s': State, cur: Asn, opp: Asn, v: Asn)
    requires FindStep(x, s, s', cur, opp) && s'.New(x.pass.root, v)
    ensures BestAt(Found(x, cur, opp), s', v)
  {
    Undiscovered(x, s, cur, opp);
    var x' := Found(x, cur, opp);
    assert NodeOk(x, s, v) && DiscoveredAt(s, s', cur, opp, v);
    forall u: Asn ensures u in s'.best[v].value <==>
        (u, v) in x'.scanned && x.pass.Edge(u, v) && u in s'.nodes && s'.nodes[u].depth + 1 == s'.nodes[v].depth {
      assert EdgeOk(x, s, u, v);
      assert u in s.nodes ==> DiscoveredAt(s, s', cur, opp, u);
    }
  }

  lemma FindEdge(x: Run, s: State, s': State, cur: Asn, opp: Asn, u: Asn, v: Asn)
    requires FindStep(x, s, s', cur, opp)
    ensures EdgeOk(Found(x, cur, opp), s', u, v)
  {
    Undiscovered(x, s, cur, opp);
    assert EdgeOk(x, s, u, v);
    assert u in s.nodes ==> DiscoveredAt(s, s', cur, opp, u);
    assert v in s.nodes ==> DiscoveredAt(s, s', cur, opp, v);
  }

  lemma FindBucket(x: Run, s: State, s': State, cur: Asn, opp: Asn, row: nat)
    requires FindStep(x, s, s', cur, opp) && row < |s.bucket|
    ensures BucketAt(x.pass, s', row)
  {
    Undiscovered(x, s, cur, opp);
    assert BucketAt(x.pass, s, row);
    var col := x.pass.Col();
    assert s'.bucket[row][col] == if row == s.nodes[cur].depth + 1 then Some(Listed(s.bucket[row][col]) + [opp]) else s.bucket[row][col];
    forall v: Asn ensures s'.New(x.pass.root, v) && s'.nodes[v].depth == row <==>
        (s.New(x.pass.root, v) && s.nodes[v].depth == row) || (v == opp && row == s.nodes[cur].depth + 1) {
      if v in s.nodes { assert DiscoveredAt(s, s', cur, opp, v); }
    }
    assert opp !in Listed(s.bucket[row][col]);
    NoDupAppend(Listed(s.bucket[row][col]), opp);
  }

  lemma FindNode(x: Run, s: State, s': State, cur: Asn, opp: Asn, v: Asn)
    requires FindStep(x, s, s', cur, opp) && v in s.nodes
    ensures NodeOk(Found(x, cur, opp), s', v)
  {
    assert NodeOk(x, s, v) && DiscoveredAt(s, s', cur, opp, v);
    FindStatus(x, s, s', cur, opp, v);
    FindTree(x, s, s', cur, opp, v);
    FindTables(x, s, s', cur, opp, v);
    if s'.New(x.pass.root, v) { FindBest(x, s, s', cur, opp, v); }
  }

  lemma FindShape(x: Run, s: State, s': State, cur: Asn, opp: Asn)
    requires FindStep(x, s, s', cur, opp)
    ensures s'.Shape(x.pass) && s'.Untouched() && s'.nodes.Keys == s.nodes.Keys && ColumnsKept(Found(x, cur, opp), s')
    ensures Found(x, cur, opp).pass == x.pass && Found(x, cur, opp).start == x.start
    ensures x.start.Shape(x.pass) && |s'.best| == |x.start.best| && |s'.bucket| == |x.start.bucket| == |s.bucket|
  {
  }

  lemma FindKeeps(x: Run, s: State, s': State, cur: Asn, opp: Asn)
    requires FindStep(x, s, s', cur, opp)
    ensures Inv(Found(x, cur, opp), s')
  {
    hide NodeOk, EdgeOk, BucketAt, QueueOk;
    var x' := Found(x, cur, opp);
    FindQueue(x, s, s', cur, opp);
    FindShape(x, s, s', cur, opp);
    forall v | v in s'.nodes ensures NodeOk(x', s', v) {
      FindNode(x, s, s', cur, opp, v);
    }
    forall u, v ensures EdgeOk(x', s', u, v) {
      FindEdge(x, s, s', cur, opp, u, v);
    }
    forall row: nat | row < |s'.bucket| ensures BucketAt(x.pass, s', row) {
      FindBucket(x, s, s', cur, opp, row);
    }
  }

  lemma DiscoverKeeps(x: Run, s: State, cur: Asn, opp: Asn)
    requires Discovering(x, s, cur, opp) && s.nodes[cur].depth >= 0
    ensures Inv(Found(x, cur, opp), Discover(x.pass, s, cur, opp))
  {
    DiscoverDiscovered(x, s, cur, opp);
    FindKeeps(x, s, Discover(x.pass, s, cur, opp), cur, opp);
  }

  ghost predicate Tied(x: Run, s: State, cur: Asn, opp: Asn) {
    && Scanning(x, s, cur, opp)
    && s.nodes[opp].status == Seen && s.nodes[opp].depth == s.nodes[cur].depth + 1 && !s.nodes[opp].prior
    && s.nodes[opp].parent.Some? && s.nodes[opp].parent.value in s.nodes
  }

  /** A node that looks like having an alternative route has a parent to compare with. */
  lemma TiedHasParent(x: Run, s: State, cur: Asn, opp: Asn)
    requires Scanning(x, s, cur, opp)
    requires s.nodes[opp].status == Seen && s.nodes[opp].depth == s.nodes[cur].depth + 1 && !s.nodes[opp].prior
    ensures Tied(x, s, cur, opp)
  {
    assert NodeOk(x, s, opp) && NodeOk(x, s, cur);
  }

  /** A node with an alternative route is new, has another parent, and is no parent of a new node. */
  lemma TiedFacts(x: Run, s: State, cur: Asn, opp: Asn)
    requires Tied(x, s, cur, opp)
    ensures s.New(x.pass.root, opp) && x.pass.Edge(cur, opp) && opp !in s.nodes[cur].children
    ensures s.nodes[opp].parent.value != cur && s.nodes[opp].parent.value in s.nodes && s.best[opp].Some?
    ensures cur !in s.best[opp].value && s.nodes[cur].depth >= 0
    ensures s.nodes[cur].status == Seen && s.Known(x.pass.root, cur)
  {
    assert NodeOk(x, s, opp) && NodeOk(x, s, cur);
  }

  lemma TiedListed(x: Run, s: State, cur: Asn, opp: Asn)
    requires Tied(x, s, cur, opp)
    ensures opp in s.nodes[s.nodes[opp].parent.value].children
  {
    TiedFacts(x, s, cur, opp);
    assert NodeOk(x, s, opp);
  }

  lemma TiedChildless(x: Run, s: State, cur: Asn, opp: Asn, v: Asn)
    requires Tied(x, s, cur, opp) && s.New(x.pass.root, v)
    ensures s.nodes[v].parent != Some(opp)
  {
    assert NodeOk(x, s, v) && EdgeOk(x, s, opp, v);
  }

  /** How `Alternative` changes the record of one node. */
  ghost predicate ReroutedAt(s: State, s': State, opp: Asn, v: Asn)
    requires v in s.nodes && v in s'.nodes && opp in s'.nodes
  {
    && s'.nodes[v].status == s.nodes[v].status && s'.nodes[v].prior == s.nodes[v].prior
    && s'.nodes[v].depth == s.nodes[v].depth
    && (v != opp ==> s'.nodes[v].parent == s.nodes[v].parent)
    && NoDup(s'.nodes[v].children)
    && (forall w | w != opp :: w in s'.nodes[v].children <==> w in s.nodes[v].children)
    && (opp in s'.nodes[v].children <==> s'.nodes[opp].parent == Some(v))
  }

  /** How `Alternative` changes the state. */
  ghost predicate Rerouted(x: Run, s: State, s': State, cur: Asn, opp: Asn) {
    && s.Shape(x.pass) && s'.Shape(x.pass) && |s'.best| == |s.best| && opp in s.nodes && cur in s.nodes
    && (forall v {:trigger ReroutedAt(s, s', opp, v)} | v in s.nodes :: ReroutedAt(s, s', opp, v))
    && s'.l == s.l && s'.rel == s.rel && s'.bucket == s.bucket
    && s'.best == s.best[opp := Some(Listed(s.best[opp]) + [cur])]
    && s.nodes[opp].parent.Some?
    && var p := s.nodes[opp].parent.value;
       if x.pass.rule.Key(opp, cur) < x.pass.rule.Key(opp, p) then
         && s'.nodes[opp].parent == Some(cur) && s'.chosen == s.chosen[opp := cur]
         && s'.path == s.path[opp := Some(UpdatedPath(opp, s.path[cur], x.pass.Col()))]
       else
         s'.nodes[opp].parent == Some(p) && s'.chosen == s.chosen && s'.path == s.path
  }

  lemma RelinkAt(x: Run, s: State, s': State, cur: Asn, opp: Asn, v: Asn)
    requires Tied(x, s, cur, opp) && s'.nodes == Relinked(s.nodes, cur, opp) && v in s.nodes
    ensures ReroutedAt(s, s', opp, v)
  {
    hide BestAt, TablesAt, FrameAt, PriorAt, StatusAt, EdgeOk, BucketAt, QueueOk;
    TiedFacts(x, s, cur, opp);
    assert NodeOk(x, s, v) && NodeOk(x, s, cur);
    NoDupAppend(s.nodes[cur].children, opp);
  }

  lemma KeepAt(x: Run, s: State, cur: Asn, opp: Asn, v: Asn)
    requires Tied(x, s, cur, opp) && v in s.nodes
    ensures ReroutedAt(s, s, opp, v)
  {
    hide BestAt, TablesAt, FrameAt, PriorAt, StatusAt, EdgeOk, BucketAt, QueueOk;
    TiedFacts(x, s, cur, opp);
    assert NodeOk(x, s, v) && NodeOk(x, s, opp);
  }

  lemma ReroutedOnNodes(s: State, s': State, t: State, opp: Asn, v: Asn)
    requires v in s.nodes && v in s'.nodes && opp in s'.nodes && t.nodes == s'.nodes && ReroutedAt(s, s', opp, v)
    ensures ReroutedAt(s, t, opp, v)
  {
  }

  lemma AlternativeRerouted(x: Run, s: State, cur: Asn, opp: Asn)
    requires Tied(x, s, cur, opp)
    ensures Rerouted(x, s, Alternative(x.pass, s, cur, opp), cur, opp)
  {
    hide ReroutedAt, NodeOk, EdgeOk, BucketAt, QueueOk, UpdatedPath;
    TiedFacts(x, s, cur, opp);
    var s' := Alternative(x.pass, s, cur, opp);
    forall v | v in s.nodes ensures ReroutedAt(s, s', opp, v) {
      if Wins(x.pass, s, cur, opp) {
        RelinkAt(x, s, s', cur, opp, v);
      } else {
        KeepAt(x, s, cur, opp, v);
        ReroutedOnNodes(s, s, s', opp, v);
      }
    }
  }

  lemma RerouteQueue(x: Run, s: State, s': State, cur: Asn, opp: Asn)
    requires Tied(x, s, cur, opp) && Rerouted(x, s, s', cur, opp)
    ensures QueueOk(Scanned(x, cur, opp), s')
  {
    TiedFacts(x, s, cur, opp);
    forall v | v in x.queue ensures v in s'.nodes && s'.nodes[v].status == s.nodes[v].status
               && s'.nodes[v].depth == s.nodes[v].depth && (s'.New(x.pass.root, v) ==> s.New(x.pass.root, v)) {
      assert ReroutedAt(s, s', opp, v);
    }
    QueueCarries(x, s, s');
  }

  lemma RerouteStatus(x: Run, s: State, s': State, cur: Asn, opp: Asn, v: Asn)
    requires Tied(x, s, cur, opp) && Rerouted(x, s, s', cur, opp) && v in s.nodes
    ensures StatusAt(Scanned(x, cur, opp), s', v)
    ensures PriorAt(Scanned(x, cur, opp), s', v)
  {
    TiedFacts(x, s, cur, opp);
    assert NodeOk(x, s, v) && ReroutedAt(s, s', opp, v) && ReroutedAt(s, s', opp, opp);
    if s.nodes[v].parent.Some? && s.nodes[v].parent.value in s.nodes {
      assert ReroutedAt(s, s', opp, s.nodes[v].parent.value);
    }
  }

  lemma RerouteTree(x: Run, s: State, s': State, cur: Asn, opp: Asn, v: Asn)
    requires Tied(x, s, cur, opp) && Rerouted(x, s, s', cur, opp) && v in s.nodes
    ensures TreeAt(x.pass, s', v)
  {
    TiedFacts(x, s, cur, opp);
    assert NodeOk(x, s, v) && ReroutedAt(s, s', opp, v) && ReroutedAt(s, s', opp, opp) && ReroutedAt(s, s', opp, cur);
    if s.nodes[v].parent.Some? && s.nodes[v].parent.value in s.nodes {
      assert ReroutedAt(s, s', opp, s.nodes[v].parent.value);
    }
    forall w | w in s'.nodes[v].children ensures w in s'.nodes && s'.nodes[w].parent == Some(v) {
      if w != opp { assert w in s.nodes && ReroutedAt(s, s', opp, w); }
    }
  }

  lemma RerouteTables(x: Run, s: State, s': State, cur: Asn, opp: Asn, v: Asn)
    requires Tied(x, s, cur, opp) && Rerouted(x, s, s', cur, opp) && v in s.nodes
    ensures if s'.New(x.pass.root, v) then TablesAt(x.pass, s', v) else FrameAt(x.pass, x.start, s', v)
  {
    TiedFacts(x, s, cur, opp);
    assert NodeOk(x, s, v) && ReroutedAt(s, s', opp, v) && ReroutedAt(s, s', opp, opp);
    if s.New(x.pass.root, v) { TiedChildless(x, s, cur, opp, v); }
  }

  lemma RerouteBest(x: Run, s: State, s': State, cur: Asn, opp: Asn, v: Asn)
    requires Tied(x, s, cur, opp) && Rerouted(x, s, s', cur, opp)
    requires v in s.nodes && s'.New(x.pass.root, v)
    ensures BestAt(Scanned(x, cur, opp), s', v)
  {
    TiedFacts(x, s, cur, opp);
    assert NodeOk(x, s, v) && ReroutedAt(s, s', opp, v);
    var x' := Scanned(x, cur, opp);
    forall u: Asn ensures u in s'.best[v].value <==>
        (u, v) in x'.scanned && x.pass.Edge(u, v) && u in s'.nodes && s'.nodes[u].depth + 1 == s'.nodes[v].depth {
      assert u in s.nodes ==> ReroutedAt(s, s', opp, u);
    }
    if v == opp {
      NoDupAppend(s.best[opp].value, cur);
    }
  }

  lemma RerouteEdge(x: Run, s: State, s': State, cur: Asn, opp: Asn, u: Asn, v: Asn)
    requires Tied(x, s, cur, opp) && Rerouted(x, s, s', cur, opp)
    ensures EdgeOk(Scanned(x, cur, opp), s', u, v)
  {
    TiedFacts(x, s, cur, opp);
    assert EdgeOk(x, s, u, v);
    assert u in s.nodes ==> ReroutedAt(s, s', opp, u);
    assert v in s.nodes ==> ReroutedAt(s, s', opp, v);
  }

  lemma RerouteBucket(x: Run, s: State, s': State, cur: Asn, opp: Asn, row: nat)
    requires Tied(x, s, cur, opp) && Rerouted(x, s, s', cur, opp) && row < |s.bucket|
    ensures BucketAt(x.pass, s', row)
  {
    TiedFacts(x, s, cur, opp);
    assert BucketAt(x.pass, s, row);
    assert forall v | v in s.nodes :: ReroutedAt(s, s', opp, v);
  }

  lemma RerouteNode(x: Run, s: State, s': State, cur: Asn, opp: Asn, v: Asn)
    requires Tied(x, s, cur, opp) && Rerouted(x, s, s', cur, opp) && v in s.nodes
    ensures NodeOk(Scanned(x, cur, opp), s', v)
  {
    assert NodeOk(x, s, v) && ReroutedAt(s, s', opp, v);
    RerouteStatus(x, s, s', cur, opp, v);
    RerouteTree(x, s, s', cur, opp, v);
    RerouteTables(x, s, s', cur, opp, v);
    if s'.New(x.pass.root, v) { RerouteBest(x, s, s', cur, opp, v); }
  }

  lemma RerouteKeeps(x: Run, s: State, s': State, cur: Asn, opp: Asn)
    requires Tied(x, s, cur, opp) && Rerouted(x, s, s', cur, opp)
    ensures Inv(Scanned(x, cur, opp), s')
  {
    hide NodeOk, EdgeOk, BucketAt, QueueOk;
    var x' := Scanned(x, cur, opp);
    RerouteQueue(x, s, s', cur, opp);
    forall v | v in s'.nodes ensures NodeOk(x', s', v) {
      RerouteNode(x, s, s', cur, opp, v);
    }
    forall u, v ensures EdgeOk(x', s', u, v) {
      RerouteEdge(x, s, s', cur, opp, u, v);
    }
    forall row: nat | row < |s'.bucket| ensures BucketAt(x.pass, s', row) {
      RerouteBucket(x, s, s', cur, opp, row);
    }
  }

  lemma AlternativeKeeps(x: Run, s: State, cur: Asn, opp: Asn)
    requires Tied(x, s, cur, opp)
    ensures Inv(Scanned(x, cur, opp), Alternative(x.pass, s, cur, opp))
  {
    AlternativeRerouted(x, s, cur, opp);
    RerouteKeeps(x, s, Alternative(x.pass, s, cur, opp), cur, opp);
  }

  ghost predicate Revisiting(x: Run, s: State, cur: Asn, opp: Asn) {
    && Scanning(x, s, cur, opp)
    && s.nodes[opp].status == Unseen && s.nodes[opp].prior && s.nodes[opp].parent == Some(cur)
  }

  lemma RevisitStatus(x: Run, s: State, cur: Asn, opp: Asn, v: Asn)
    requires Revisiting(x, s, cur, opp) && v in s.nodes
    ensures StatusAt(ScannedAndQueued(x, cur, opp), Revisit(s, opp), v)
    ensures PriorAt(ScannedAndQueued(x, cur, opp), Revisit(s, opp), v)
  {
    RevisitDepth(x, s, cur, opp);
    assert NodeOk(x, s, v) && NodeOk(x, s, opp);
  }

  lemma RevisitRest(x: Run, s: State, cur: Asn, opp: Asn, v: Asn)
    requires Revisiting(x, s, cur, opp) && v in s.nodes
    ensures TreeAt(x.pass, Revisit(s, opp), v)
    ensures if s.New(x.pass.root, v) then BestAt(ScannedAndQueued(x, cur, opp), Revisit(s, opp), v) && TablesAt(x.pass, Revisit(s, opp), v)
            else FrameAt(x.pass, x.start, Revisit(s, opp), v)
  {
    assert NodeOk(x, s, v);
  }

  lemma RevisitNode(x: Run, s: State, cur: Asn, opp: Asn, v: Asn)
    requires Revisiting(x, s, cur, opp) && v in s.nodes
    ensures NodeOk(ScannedAndQueued(x, cur, opp), Revisit(s, opp), v)
  {
    assert NodeOk(x, s, v);
    RevisitStatus(x, s, cur, opp, v);
    RevisitRest(x, s, cur, opp, v);
  }

  lemma RevisitEdge(x: Run, s: State, cur: Asn, opp: Asn, u: Asn, v: Asn)
    requires Revisiting(x, s, cur, opp)
    ensures EdgeOk(ScannedAndQueued(x, cur, opp), Revisit(s, opp), u, v)
  {
    assert EdgeOk(x, s, u, v);
  }

  lemma RevisitBucket(x: Run, s: State, cur: Asn, opp: Asn, row: nat)
    requires Revisiting(x, s, cur, opp) && row < |s.bucket|
    ensures BucketAt(x.pass, Revisit(s, opp), row)
  {
    assert BucketAt(x.pass, s, row);
  }

  /** The depth a re-run finds for an earlier node is the one it has. */
  lemma RevisitDepth(x: Run, s: State, cur: Asn, opp: Asn)
    requires Inv(x, s) && cur in s.nodes && opp in s.nodes && s.nodes[opp].parent == Some(cur)
    ensures s.nodes[opp].depth == s.nodes[cur].depth + 1
  {
    assert NodeOk(x, s, opp);
  }

  lemma RevisitQueue(x: Run, s: State, cur: Asn, opp: Asn)
    requires Revisiting(x, s, cur, opp)
    ensures QueueOk(ScannedAndQueued(x, cur, opp), Revisit(s, opp))
  {
    RevisitDepth(x, s, cur, opp);
    QueueCarries(x, s, Revisit(s, opp));
    QueueGrows(x, Revisit(s, opp), cur, opp);
  }

  lemma RevisitKeeps(x: Run, s: State, cur: Asn, opp: Asn)
    requires Revisiting(x, s, cur, opp)
    ensures Inv(ScannedAndQueued(x, cur, opp), Revisit(s, opp))
  {
    hide NodeOk, EdgeOk, BucketAt, QueueOk;
    var s', x' := Revisit(s, opp), ScannedAndQueued(x, cur, opp);
    RevisitQueue(x, s, cur, opp);
    forall v | v in s'.nodes ensures NodeOk(x', s', v) {
      RevisitNode(x, s, cur, opp, v);
    }
    forall u, v ensures EdgeOk(x', s', u, v) {
      RevisitEdge(x, s, cur, opp, u, v);
    }
    forall row: nat | row < |s'.bucket| ensures BucketAt(x.pass, s', row) {
      RevisitBucket(x, s, cur, opp, row);
    }
  }

  /** Case 3, and nodes seen before that have no alternative route: nothing to do. */
  ghost predicate Skipping(x: Run, s: State, cur: Asn, opp: Asn) {
    && Scanning(x, s, cur, opp)
    && (s.nodes[opp].status == Unseen ==> s.nodes[opp].prior && s.nodes[opp].parent != Some(cur))
    && !(s.nodes[opp].status == Seen && s.nodes[opp].depth == s.nodes[cur].depth + 1 && !s.nodes[opp].prior)
  }

  lemma SkipNode(x: Run, s: State, cur: Asn, opp: Asn, v: Asn)
    requires Skipping(x, s, cur, opp) && v in s.nodes
    ensures NodeOk(Scanned(x, cur, opp), s, v)
  {
    assert NodeOk(x, s, v);
  }

  lemma SkipEdge(x: Run, s: State, cur: Asn, opp: Asn, u: Asn, v: Asn)
    requires Skipping(x, s, cur, opp)
    ensures EdgeOk(Scanned(x, cur, opp), s, u, v)
  {
    assert EdgeOk(x, s, u, v) && NodeOk(x, s, opp);
  }

  lemma SkipKeeps(x: Run, s: State, cur: Asn, opp: Asn)
    requires Skipping(x, s, cur, opp)
    ensures Inv(Scanned(x, cur, opp), s)
  {
    hide NodeOk, EdgeOk, BucketAt;
    var x' := Scanned(x, cur, opp);
    forall v | v in s.nodes ensures NodeOk(x', s, v) {
      SkipNode(x, s, cur, opp, v);
    }
    forall u, v ensures EdgeOk(x', s, u, v) {
      SkipEdge(x, s, cur, opp, u, v);
    }
    forall row: nat | row < |s.bucket| ensures BucketAt(x.pass, s, row) {
    }
  }

  /** What the scan of one edge leaves behind. */
  ghost predicate Visited(x: Run, s: State, s': State, cur: Asn, opp: Asn, enqueue: bool) {
    && Inv(if enqueue then ScannedAndQueued(x, cur, opp) else Scanned(x, cur, opp), s')
    && cur in s.nodes && cur in s'.nodes && s'.nodes[cur].depth == s.nodes[cur].depth
    && (forall w :: w in s.nodes[cur].children ==> w in s'.nodes[cur].children)
    && (forall w | w in s'.nodes[cur].children :: w in s.nodes[cur].children || w == opp)
    && ProcessedIn(s'.nodes) == ProcessedIn(s.nodes)
  }

  /** The step of the value model that the scan of the edge from `cur` to `opp` takes, and whether
      `opp` joins the queue. */
  ghost predicate StepsTo(c: Pass, s: State, s': State, cur: Asn, opp: Asn, enqueue: bool) {
    && s.Shape(c) && cur in s.nodes && opp in s.nodes
    && var u, v := s.nodes[cur], s.nodes[opp];
       if v.status == Unseen && !v.prior then
         0 <= u.depth + 1 < |s.bucket| && s' == Discover(c, s, cur, opp) && enqueue == !c.limited
       else if v.status == Unseen && v.parent == Some(cur) then
         s' == Revisit(s, opp) && enqueue
       else if v.status == Seen && v.depth == u.depth + 1 && !v.prior then
         && v.parent.Some? && v.parent.value in s.nodes
         && s' == Alternative(c, s, cur, opp) && !enqueue
       else
         s' == s && !enqueue
  }

  lemma DiscoverVisited(x: Run, s: State, cur: Asn, opp: Asn)
    requires Discovering(x, s, cur, opp) && s.nodes[cur].depth >= 0
    ensures Visited(x, s, Discover(x.pass, s, cur, opp), cur, opp, !x.pass.limited)
  {
    DiscoverKeeps(x, s, cur, opp);
    DiscoverDiscovered(x, s, cur, opp);
    hide Inv, Discover;
    var s' := Discover(x.pass, s, cur, opp);
    assert DiscoveredAt(s, s', cur, opp, cur);
    DiscoveredProcessed(x, s, s', cur, opp);
  }

  lemma RevisitVisited(x: Run, s: State, cur: Asn, opp: Asn)
    requires Revisiting(x, s, cur, opp)
    ensures Visited(x, s, Revisit(s, opp), cur, opp, true)
  {
    RevisitKeeps(x, s, cur, opp);
  }

  lemma SkipVisited(x: Run, s: State, cur: Asn, opp: Asn)
    requires Skipping(x, s, cur, opp)
    ensures Visited(x, s, s, cur, opp, false)
  {
    SkipKeeps(x, s, cur, opp);
  }

  lemma AlternativeVisited(x: Run, s: State, cur: Asn, opp: Asn)
    requires Tied(x, s, cur, opp)
    ensures Visited(x, s, Alternative(x.pass, s, cur, opp), cur, opp, false)
  {
    AlternativeKeeps(x, s, cur, opp);
    AlternativeRerouted(x, s, cur, opp);
    TiedFacts(x, s, cur, opp);
    hide Inv, Alternative;
    var s' := Alternative(x.pass, s, cur, opp);
    assert ReroutedAt(s, s', opp, cur);
    ReroutedProcessed(x, s, s', cur, opp);
  }

  lemma ReroutedProcessed(x: Run, s: State, s': State, cur: Asn, opp: Asn)
    requires Rerouted(x, s, s', cur, opp)
    ensures ProcessedIn(s'.nodes) == ProcessedIn(s.nodes)
  {
    hide UpdatedPath;
    assert s'.nodes.Keys == s.nodes.Keys;
    forall v | v in s.nodes ensures s'.nodes[v].status == s.nodes[v].status && s'.nodes[v].depth == s.nodes[v].depth {
      assert ReroutedAt(s, s', opp, v);
    }
  }

  lemma DiscoveredProcessed(x: Run, s: State, s': State, cur: Asn, opp: Asn)
    requires Discovered(x, s, s', cur, opp) && s.nodes[opp].status == Unseen
    ensures ProcessedIn(s'.nodes) == ProcessedIn(s.nodes)
  {
    hide UpdatedPath;
    assert s'.nodes.Keys == s.nodes.Keys;
    forall v | v in s.nodes ensures s'.nodes[v].status == Processed <==> s.nodes[v].status == Processed
                            ensures s.nodes[v].status == Processed ==> s'.nodes[v].depth == s.nodes[v].depth {
      assert DiscoveredAt(s, s', cur, opp, v);
    }
  }

  /** The run once the node at the head of the queue has been processed. */
  function Closed(x: Run, s: State): Run
    requires x.queue != []
  {
    var rest := x.queue[1..];
    x.(queue := rest, open := {}, depth := if rest != [] && rest[0] in s.nodes then s.nodes[rest[0]].depth else x.depth)
  }

  function Opened(x: Run): Run
    requires x.queue != []
  {
    x.(open := {x.queue[0]})
  }

  /** Between two nodes the depth worked on is that of the head of the queue. */
  ghost predicate Idle(x: Run, s: State) {
    && Inv(x, s) && x.open == {} && (x.queue != [] ==> s.nodes[x.queue[0]].depth == x.depth)
  }

  /** `order` lists the processed nodes, each once and by depth. */
  ghost predicate InOrder(order: seq<Asn>, depths: map<Asn, int>) {
    && NoDup(order) && Elements(order) == depths.Keys
    && (forall i, j | 0 <= i < j < |order| :: order[i] in depths && order[j] in depths && depths[order[i]] <= depths[order[j]])
  }

  lemma ProcessedNext(nodes: map<Asn, NodeState>, cur: Asn)
    requires cur in nodes && nodes[cur].status == Seen
    ensures cur !in ProcessedIn(nodes)
    ensures ProcessedIn(nodes[cur := nodes[cur].(status := Processed)]) == ProcessedIn(nodes)[cur := nodes[cur].depth]
  {
  }

  lemma NothingInOrder()
    ensures InOrder([], map[])
  {
  }

  /** Nodes are processed no deeper than the depth worked on, so the next one goes to the end. */
  lemma OrderNext(x: Run, s: State, order: seq<Asn>, cur: Asn)
    requires Inv(x, s) && InOrder(order, ProcessedIn(s.nodes)) && cur !in ProcessedIn(s.nodes)
    ensures InOrder(order + [cur], ProcessedIn(s.nodes)[cur := x.depth])
  {
    var depths, longer := ProcessedIn(s.nodes), order + [cur];
    NoDupAppend(order, cur);
    ElementsNext(longer, |order|);
    assert longer[..|order|] == order && longer[..|order| + 1] == longer;
    forall i | 0 <= i < |order| ensures order[i] in depths && depths[order[i]] <= x.depth {
      assert order[i] in Elements(order) && NodeOk(x, s, order[i]);
    }
  }

  /** `cur` is being processed, its edges to `done` have been scanned, and `queue` waits. */
  ghost predicate Midway(x: Run, s: State, cur: Asn, queue: seq<Asn>, done: set<Asn>) {
    && x.queue == [cur] + queue && x.open == {cur} && Inv(x, s)
    && cur in s.nodes && s.nodes[cur].depth == x.depth
    && (forall v: Asn :: (cur, v) in x.scanned <==> v in done)
  }

  lemma MidwayStarts(x: Run, s: State, cur: Asn, queue: seq<Asn>)
    requires Idle(x, s) && x.queue == [cur] + queue
    ensures Midway(Opened(x), s, cur, queue, {})
  {
    OpenKeeps(x, s);
    assert x.queue[0] == cur && cur in x.queue;
    forall v: Asn ensures (cur, v) !in x.scanned {
      assert EdgeOk(x, s, cur, v);
    }
  }

  lemma IdleHead(x: Run, s: State, cur: Asn, queue: seq<Asn>)
    requires Idle(x, s) && x.queue == [cur] + queue
    ensures cur in s.nodes && s.nodes[cur].status == Seen
  {
    assert cur in x.queue;
  }

  lemma MidwayHead(x: Run, s: State, cur: Asn, queue: seq<Asn>, done: set<Asn>)
    requires Midway(x, s, cur, queue, done)
    ensures cur in s.nodes && s.nodes[cur].status == Seen && s.nodes.Keys == x.pass.g.nodes
    ensures Closed(x, s).depth >= x.depth
  {
    assert cur in x.queue;
    FinishQueue(x, s, cur);
  }

  lemma MidwayScans(x: Run, s: State, cur: Asn, queue: seq<Asn>, done: set<Asn>, opp: Asn)
    requires Midway(x, s, cur, queue, done) && opp !in done && x.pass.g.Valid()
    requires x.pass.Edge(cur, opp) || opp in s.nodes[cur].children
    ensures Scanning(x, s, cur, opp)
  {
    assert NodeOk(x, s, cur) && x.pass.g.EdgeValid(x.pass.r, cur, opp);
    if opp in s.nodes[cur].children { assert opp in s.nodes && NodeOk(x, s, opp); }
  }

  lemma ChildrenNoDup(x: Run, s: State, v: Asn)
    requires Inv(x, s) && v in s.nodes
    ensures NoDup(s.nodes[v].children)
  {
    assert NodeOk(x, s, v);
  }

  lemma MidwayAdvances(x: Run, s: State, s': State, cur: Asn, queue: seq<Asn>, done: set<Asn>, opp: Asn, enqueue: bool)
    requires Midway(x, s, cur, queue, done) && Visited(x, s, s', cur, opp, enqueue)
    ensures Midway(if enqueue then ScannedAndQueued(x, cur, opp) else Scanned(x, cur, opp), s', cur,
                   if enqueue then queue + [opp] else queue, done + {opp})
  {
    assert ([cur] + queue) + [opp] == [cur] + (queue + [opp]);
  }

  lemma MidwayEnds(x: Run, s: State, cur: Asn, queue: seq<Asn>, done: set<Asn>)
    requires Midway(x, s, cur, queue, done)
    requires forall v: Asn | x.pass.Edge(cur, v) || v in s.nodes[cur].children :: v in done
    ensures Idle(Closed(x, s), Finish(s, cur)) && Closed(x, s).queue == queue
  {
    FinishKeeps(x, s, cur);
  }

  ghost predicate Exhausted(x: Run, s: State, cur: Asn) {
    && Inv(x, s) && x.queue != [] && x.queue[0] == cur && x.open == {cur} && s.nodes[cur].depth == x.depth
    && (forall v: Asn | x.pass.Edge(cur, v) :: (cur, v) in x.scanned)
    && (forall v | v in s.nodes[cur].children :: (cur, v) in x.scanned)
  }

  lemma OpenKeeps(x: Run, s: State)
    requires Idle(x, s) && x.queue != []
    ensures Inv(Opened(x), s)
  {
    forall v | v in s.nodes ensures NodeOk(Opened(x), s, v) {
      assert NodeOk(x, s, v);
    }
    forall u, v ensures EdgeOk(Opened(x), s, u, v) {
      assert EdgeOk(x, s, u, v);
    }
    forall row: nat | row < |s.bucket| ensures BucketAt(x.pass, s, row) {
      assert BucketAt(x.pass, s, row);
    }
  }

  lemma Tail(q: seq<Asn>)
    requires q != [] && NoDup(q)
    ensures NoDup(q[1..]) && q[0] !in q[1..]
    ensures forall v :: v in q <==> v == q[0] || v in q[1..]
  {
    assert q == [q[0]] + q[1..];
  }

  lemma FinishQueue(x: Run, s: State, cur: Asn)
    requires QueueOk(x, s) && x.queue != [] && x.queue[0] == cur && s.nodes[cur].depth == x.depth
    ensures QueueOk(Closed(x, s), Finish(s, cur))
    ensures x.depth <= Closed(x, s).depth <= x.depth + 1
  {
    Tail(x.queue);
    var q, s' := x.queue[1..], Finish(s, cur);
    forall i, j | 0 <= i < j < |q| ensures s'.nodes[q[i]].depth <= s'.nodes[q[j]].depth {
      assert s.nodes[x.queue[i + 1]].depth <= s.nodes[x.queue[j + 1]].depth;
    }
    forall v | v in q ensures s.nodes[q[0]].depth <= s.nodes[v].depth {
      var i :| 0 <= i < |q| && q[i] == v;
      assert s.nodes[x.queue[1]].depth <= s.nodes[x.queue[i + 1]].depth;
    }
  }

  lemma FinishStatus(x: Run, s: State, cur: Asn, v: Asn)
    requires Exhausted(x, s, cur) && v in s.nodes
    ensures StatusAt(Closed(x, s), Finish(s, cur), v)
  {
    FinishQueue(x, s, cur);
    Tail(x.queue);
    assert NodeOk(x, s, v);
  }

  lemma FinishPrior(x: Run, s: State, cur: Asn, v: Asn)
    requires Exhausted(x, s, cur) && v in s.nodes
    ensures PriorAt(Closed(x, s), Finish(s, cur), v)
  {
    assert NodeOk(x, s, v);
  }

  lemma FinishRest(x: Run, s: State, cur: Asn, v: Asn)
    requires Exhausted(x, s, cur) && v in s.nodes
    ensures TreeAt(x.pass, Finish(s, cur), v)
    ensures if s.New(x.pass.root, v) then BestAt(Closed(x, s), Finish(s, cur), v) && TablesAt(x.pass, Finish(s, cur), v)
            else FrameAt(x.pass, x.start, Finish(s, cur), v)
  {
    assert NodeOk(x, s, v);
  }

  lemma FinishNode(x: Run, s: State, cur: Asn, v: Asn)
    requires Exhausted(x, s, cur) && v in s.nodes
    ensures NodeOk(Closed(x, s), Finish(s, cur), v)
  {
    FinishQueue(x, s, cur);
    Tail(x.queue);
    FinishStatus(x, s, cur, v);
    FinishPrior(x, s, cur, v);
    assert NodeOk(x, s, v);
    FinishRest(x, s, cur, v);
  }

  lemma FinishEdge(x: Run, s: State, cur: Asn, u: Asn, v: Asn)
    requires Exhausted(x, s, cur)
    ensures EdgeOk(Closed(x, s), Finish(s, cur), u, v)
  {
    assert EdgeOk(x, s, u, v);
  }

  lemma FinishBucket(x: Run, s: State, cur: Asn, row: nat)
    requires Exhausted(x, s, cur) && row < |s.bucket|
    ensures BucketAt(x.pass, Finish(s, cur), row)
  {
    assert BucketAt(x.pass, s, row);
  }

  lemma FinishShape(x: Run, s: State, cur: Asn)
    requires Exhausted(x, s, cur)
    ensures Finish(s, cur).Shape(x.pass) && Finish(s, cur).nodes.Keys == s.nodes.Keys
    ensures ColumnsKept(Closed(x, s), Finish(s, cur))
    ensures Closed(x, s).pass == x.pass && Closed(x, s).start == x.start
  {
  }

  lemma FinishInv(x: Run, s: State, cur: Asn)
    requires Exhausted(x, s, cur)
    ensures Inv(Closed(x, s), Finish(s, cur))
  {
    hide NodeOk, EdgeOk, BucketAt, QueueOk;
    FinishQueue(x, s, cur);
    FinishShape(x, s, cur);
    var x', s' := Closed(x, s), Finish(s, cur);
    forall v | v in s'.nodes ensures NodeOk(x', s', v) {
      FinishNode(x, s, cur, v);
    }
    forall u, v ensures EdgeOk(x', s', u, v) {
      FinishEdge(x, s, cur, u, v);
    }
    forall row: nat | row < |s'.bucket| ensures BucketAt(x.pass, s', row) {
      FinishBucket(x, s, cur, row);
    }
  }

  /** Once a node's edges are scanned it is processed and the next one in the queue is at the
      same depth or one deeper. */
  lemma FinishKeeps(x: Run, s: State, cur: Asn)
    requires Exhausted(x, s, cur)
    ensures Idle(Closed(x, s), Finish(s, cur))
    ensures x.depth <= Closed(x, s).depth <= x.depth + 1
  {
    FinishInv(x, s, cur);
    FinishQueue(x, s, cur);
    Tail(x.queue);
  }
}
