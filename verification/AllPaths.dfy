/** `GetAllPaths`: the search over the encoded neighbour lists (Destination.cs). */
module AllPaths {
  import opened Wrappers
  import opened Topology
  import opened GaoRexford
  import opened ValleyFree
  import opened BfsState
  import opened Utilities

  const NOREL := 3

  /** The encoded parent lists the search is given: any lists of 32-bit entries over the three
      classes that name existing ASes and name none twice. */
  ghost predicate Encoded(bestNew: seq<Option<seq<nat>>>) {
    forall n, i | 0 <= n < |bestNew| && bestNew[n].Some? && 0 <= i < |bestNew[n].value| ::
      var e := bestNew[n].value[i];
      && e < UINT32 && UnjoinAsn(e) < |bestNew| && UnjoinCol(e) <= PROVIDER_COLUMN
      && forall j | 0 <= j < i :: UnjoinAsn(bestNew[n].value[j]) != UnjoinAsn(e)
  }

  function Ases(path: seq<nat>): (r: seq<Asn>)
    ensures |r| == |path| && forall i | 0 <= i < |r| :: r[i] == UnjoinAsn(path[i])
  {
    seq(|path|, i requires 0 <= i < |path| => UnjoinAsn(path[i]))
  }

  /** The classes of the hops of a path; its first entry is the source and carries none. */
  function Hops(path: seq<nat>): (r: seq<nat>)
    ensures |r| == if path == [] then 0 else |path| - 1
    ensures forall i | 0 <= i < |r| :: r[i] == UnjoinCol(path[i + 1])
  {
    seq(if path == [] then 0 else |path| - 1, i requires 0 <= i < |path| - 1 => UnjoinCol(path[i + 1]))
  }

  /** Entry k + 1 of the path is on the list of the AS before it. */
  ghost predicate FollowsAt(bestNew: seq<Option<seq<nat>>>, path: seq<nat>, k: nat) {
    k + 1 < |path| ==>
      var n := UnjoinAsn(path[k]);
      n < |bestNew| && bestNew[n].Some? && path[k + 1] in bestNew[n].value
  }

  ghost predicate Follows(bestNew: seq<Option<seq<nat>>>, path: seq<nat>) {
    forall k: nat {:trigger FollowsAt(bestNew, path, k)} :: FollowsAt(bestNew, path, k)
  }

  /** A path from `src` that repeats no AS and keeps to the export rule. */
  ghost predicate Partial(src: Asn, path: seq<nat>) {
    && path != [] && UnjoinAsn(path[0]) == src && UnjoinCol(path[0]) == NOREL
    && NoDup(Ases(path)) && PairwiseLegal(Hops(path))
    && (forall c | c in Hops(path) :: c <= PROVIDER_COLUMN)
  }

  /** What the search promises of every path from `src` to `dst` it reports. */
  ghost predicate Reported(bestNew: seq<Option<seq<nat>>>, src: Asn, dst: Asn, path: seq<nat>) {
    && Follows(bestNew, path)
    && path != [] && UnjoinAsn(path[0]) == src && UnjoinAsn(path[|path| - 1]) == dst
    && NoDup(Ases(path)) && Shaped(Hops(path)) && |path| <= 8
  }

  /** The check between the class of a hop and that of the hop before it. */
  predicate Blocked(rel: nat, prevRel: nat) {
    || (rel == PEER_COLUMN && prevRel == CUSTOMER_COLUMN)
    || (prevRel == PEER_COLUMN && rel == PROVIDER_COLUMN)
    || (prevRel == PEER_COLUMN && rel == PEER_COLUMN)
    || (prevRel == CUSTOMER_COLUMN && (rel == PEER_COLUMN || rel == PROVIDER_COLUMN))
  }

  /** The check rejects exactly the pairs of hops the export rule forbids. */
  lemma BlockedIsIllegal(rel: nat, prevRel: nat)
    requires rel <= PROVIDER_COLUMN && prevRel <= PROVIDER_COLUMN
    ensures Blocked(rel, prevRel) <==> !Legal(prevRel, rel)
  {
  }

  /** No hop of a path is rejected exactly when its classes are provider* peer? customer*. */
  lemma UnblockedIsShaped(cols: seq<nat>)
    requires forall c | c in cols :: c <= PROVIDER_COLUMN
    ensures (forall i | 0 < i < |cols| :: !Blocked(cols[i], cols[i - 1])) <==> Shaped(cols)
  {
    PairwiseIsShape(cols);
    forall i | 0 < i < |cols| ensures Blocked(cols[i], cols[i - 1]) <==> !Legal(cols[i - 1], cols[i]) {
      assert cols[i] in cols && cols[i - 1] in cols;
      BlockedIsIllegal(cols[i], cols[i - 1]);
    }
    if forall i | 0 < i < |cols| :: !Blocked(cols[i], cols[i - 1]) {
      forall i | 0 <= i < |cols| - 1 ensures Legal(cols[i], cols[i + 1]) {
        var j := i + 1;
        assert !Blocked(cols[j], cols[j - 1]);
      }
    }
  }

  lemma FollowsOn(bestNew: seq<Option<seq<nat>>>, path: seq<nat>, entry: nat)
    requires Follows(bestNew, path) && path != []
    requires var n := UnjoinAsn(path[|path| - 1]); n < |bestNew| && bestNew[n].Some? && entry in bestNew[n].value
    ensures Follows(bestNew, path + [entry])
  {
    forall k: nat ensures FollowsAt(bestNew, path + [entry], k) {
      assert FollowsAt(bestNew, path, k);
    }
  }

  /** A hop that is not blocked and leads to a new AS extends a path. */
  lemma Extend(src: Asn, path: seq<nat>, entry: nat)
    requires Partial(src, path) && UnjoinCol(entry) <= PROVIDER_COLUMN
    requires !Blocked(UnjoinCol(entry), UnjoinCol(path[|path| - 1])) && UnjoinAsn(entry) !in Ases(path)
    ensures Partial(src, path + [entry])
  {
    var path' := path + [entry];
    var cols, cols' := Hops(path), Hops(path');
    assert Ases(path') == Ases(path) + [UnjoinAsn(entry)];
    NoDupAppend(Ases(path), UnjoinAsn(entry));
    assert cols' == cols + [UnjoinCol(entry)];
    forall i | 0 <= i < |cols'| - 1 ensures Legal(cols'[i], cols'[i + 1]) {
      if i == |cols| - 1 {
        assert cols[i] in cols && cols'[i] == UnjoinCol(path[|path| - 1]);
      } else {
        assert Legal(cols[i], cols[i + 1]);
      }
    }
  }

  lemma ReportedWhole(bestNew: seq<Option<seq<nat>>>, src: Asn, dst: Asn, path: seq<nat>)
    requires Partial(src, path) && Follows(bestNew, path) && UnjoinAsn(path[|path| - 1]) == dst && |path| <= 8
    ensures Reported(bestNew, src, dst, path)
  {
    PairwiseIsShape(Hops(path));
  }

  /** Every entry of a path carries one of the four classes. */
  lemma EntryIsEncoding(src: Asn, path: seq<nat>, i: nat)
    requires Partial(src, path) && i < |path| && UnjoinAsn(path[i]) < UINT32 / 8
    ensures UnjoinCol(path[i]) <= NOREL && path[i] == Join(UnjoinAsn(path[i]), UnjoinCol(path[i]))
  {
    if i > 0 { assert Hops(path)[i - 1] in Hops(path); }
  }

  /** Looking for the four encodings is looking for the AS. */
  lemma EncodingsFindAs(src: Asn, path: seq<nat>, asn: Asn)
    requires Partial(src, path) && asn < UINT32 / 8
    requires Join(asn, PROVIDER_COLUMN) !in path && Join(asn, CUSTOMER_COLUMN) !in path
          && Join(asn, PEER_COLUMN) !in path && Join(asn, NOREL) !in path
    ensures asn !in Ases(path)
  {
    hide Partial, Join;
    forall i | 0 <= i < |path| ensures UnjoinAsn(path[i]) != asn {
      if UnjoinAsn(path[i]) < UINT32 / 8 { EntryIsEncoding(src, path, i); }
    }
  }

  /** The search from `n` with the partial path `recvpath`, for a source other than the
      destination.  Every path it adds is as promised, and it counts them. */
  method GetAllPaths(bestNew: seq<Option<seq<nat>>>, destination: Asn, n: Asn, dst: Asn, allPaths: seq<seq<nat>>, recvpath: seq<nat>, count: nat, ghost src: Asn)
    returns (ok: bool, allPaths': seq<seq<nat>>, count': nat)
    requires Encoded(bestNew) && n < |bestNew|
    requires Follows(bestNew, recvpath) && recvpath != [] && UnjoinAsn(recvpath[|recvpath| - 1]) == n
    requires Partial(src, recvpath) && dst !in Ases(recvpath) && |recvpath| <= 7
    ensures ok <==> dst == destination
    ensures allPaths <= allPaths' && count' == count + |allPaths'| - |allPaths|
    ensures forall k | |allPaths| <= k < |allPaths'| :: Reported(bestNew, src, dst, allPaths'[k])
    decreases 8 - |recvpath|
  {
    ok, allPaths', count' := true, allPaths, count;
    if dst != destination { return false, allPaths', count'; }
    var path, showStopper := recvpath, false;
    if bestNew[n].Some? {
      var list := bestNew[n].value;
      for i := 0 to |list|
        invariant ok && allPaths <= allPaths' && count' == count + |allPaths'| - |allPaths|
        invariant forall k | |allPaths| <= k < |allPaths'| :: Reported(bestNew, src, dst, allPaths'[k])
        invariant !showStopper ==> path == recvpath
        invariant showStopper ==> |path| > 0 && exists j | 0 <= j < i :: UnjoinAsn(list[j]) == dst
      {
        var asnode := list[i];
        var rel, prevRel := UnjoinCol(asnode), UnjoinCol(path[|path| - 1]);
        if UnjoinAsn(asnode) == dst {
          assert !showStopper && Ases(path)[|path| - 1] in Ases(path);
          if UnjoinAsn(path[|path| - 1]) != dst {
            if Blocked(rel, prevRel) { return; }
            Extend(src, path, asnode);
            FollowsOn(bestNew, path, asnode);
            path := path + [asnode];
          }
          ReportedWhole(bestNew, src, dst, path);
          count' := count' + 1;
          allPaths' := allPaths' + [path];
          showStopper := true;
        } else {
          var asn := UnjoinAsn(asnode);
          if !(Join(asn, PROVIDER_COLUMN) in path || Join(asn, CUSTOMER_COLUMN) in path
               || Join(asn, PEER_COLUMN) in path || Join(asn, NOREL) in path) && |path| < 7 {
            if !showStopper {
              if !Blocked(rel, prevRel) {
                EncodingsFindAs(src, path, asn);
                Extend(src, path, asnode);
                FollowsOn(bestNew, path, asnode);
                assert Ases(path + [asnode]) == Ases(path) + [asn];
                var _, more, c := GetAllPaths(bestNew, destination, asn, dst, allPaths', path + [asnode], count', src);
                allPaths', count' := more, c;
              }
            }
          }
        }
      }
    }
  }
}
