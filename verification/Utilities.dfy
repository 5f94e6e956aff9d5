/** Transit load and the utilities computed from it (UtilityComputations.cs, Destination.cs). */
module Utilities {
  import opened Wrappers
  import opened Topology
  import opened GaoRexford

  datatype Utility = Basic | Incoming | Outgoing | SourceOnly
  {
    /** The four utility computations, from the number and weight of the ASes in the customer
        subtree, the weights in the peer and provider subtrees, the class of the AS's own route
        and the weight of the destination. */
    function Value(customers: nat, customerWeight: nat, peerWeight: nat, providerWeight: nat,
                   bestRelation: nat, destinationWeight: nat): nat
    {
      match this
      case Basic => customers
      case Incoming => customers * destinationWeight
      case Outgoing => if bestRelation != CUSTOMER_COLUMN then 0 else customerWeight + peerWeight + providerWeight
      case SourceOnly => customerWeight
    }
  }

  function UnjoinAsn(joined: nat): Asn { joined / 8 }
  function UnjoinCol(joined: nat): nat { joined % 8 }

  /** How often the entries 1 to `upto` - 1 of a path are `n`, entered over class `col`. */
  function Hits(path: seq<nat>, upto: nat, n: Asn, col: nat): nat
    requires upto <= |path|
  {
    if upto <= 1 then 0
    else Hits(path, upto - 1, n, col) + (if UnjoinAsn(path[upto - 1]) == n && UnjoinCol(path[upto - 1]) == col then 1 else 0)
  }

  function PathHits(path: Option<seq<nat>>, n: Asn, col: nat): nat {
    if path.Some? then Hits(path.value, |path.value|, n, col) else 0
  }

  /** The weight of the first `count` ASes whose paths go through `n`, entering over `col`. */
  function Load(paths: seq<Option<seq<nat>>>, W: seq<nat>, count: nat, n: Asn, col: nat): nat
    requires count <= |paths| == |W|
  {
    if count == 0 then 0 else Load(paths, W, count - 1, n, col) + W[count - 1] * PathHits(paths[count - 1], n, col)
  }

  /** All the weight the ASes below `upto`, other than the destination, carry on the stored paths. */
  function CarriedOn(paths: seq<Option<seq<nat>>>, W: seq<nat>, dst: Asn, upto: nat): nat
    requires |paths| == |W|
  {
    if upto == 0 then 0
    else CarriedOn(paths, W, dst, upto - 1) +
         (if upto - 1 == dst then 0
          else Load(paths, W, |W|, upto - 1, CUSTOMER_COLUMN) + Load(paths, W, |W|, upto - 1, PEER_COLUMN)
               + Load(paths, W, |W|, upto - 1, PROVIDER_COLUMN))
  }

  function Ones(n: nat): (r: seq<nat>)
    ensures |r| == n && forall i | 0 <= i < n :: r[i] == 1
  {
    seq(n, _ => 1)
  }

  /** The utility of `n`; the destination transits nothing to itself. */
  function UtilityOf(u: Utility, paths: seq<Option<seq<nat>>>, W: seq<nat>, dst: Asn, bestRelation: seq<nat>, n: Asn): nat
    requires |paths| == |W| == |bestRelation| && dst < |W| && n < |W|
  {
    if n == dst then u.Value(0, 0, 0, 0, bestRelation[n], W[dst])
    else u.Value(Load(paths, Ones(|W|), |W|, n, PROVIDER_COLUMN), Load(paths, W, |W|, n, PROVIDER_COLUMN),
                 Load(paths, W, |W|, n, PEER_COLUMN), Load(paths, W, |W|, n, CUSTOMER_COLUMN), bestRelation[n], W[dst])
  }

  /** Every entry of a path after the first names an AS. */
  predicate InRange(path: Option<seq<nat>>, N: nat) {
    path.Some? ==> forall j | 1 <= j < |path.value| :: UnjoinAsn(path.value[j]) < N
  }

  datatype Loads = Loads(count: seq<nat>, weight: seq<nat>, peer: seq<nat>, provider: seq<nat>)
  {
    predicate Shape(n: nat) {
      |count| == |weight| == |peer| == |provider| == n
    }

    /** What the entries 1 to `upto` - 1 of a path of weight `w` add to the loads of `n`. */
    ghost predicate Added(was: Loads, path: seq<nat>, upto: nat, w: nat, dst: Asn, n: Asn)
      requires upto <= |path| && n < |count| && Shape(|count|) && was.Shape(|count|)
    {
      if n == dst then
        count[n] == was.count[n] && weight[n] == was.weight[n] && peer[n] == was.peer[n] && provider[n] == was.provider[n]
      else
        && count[n] == was.count[n] + Hits(path, upto, n, PROVIDER_COLUMN)
        && weight[n] == was.weight[n] + w * Hits(path, upto, n, PROVIDER_COLUMN)
        && peer[n] == was.peer[n] + w * Hits(path, upto, n, PEER_COLUMN)
        && provider[n] == was.provider[n] + w * Hits(path, upto, n, CUSTOMER_COLUMN)
    }

    /** The loads of the first `i` paths. */
    ghost predicate Accounts(paths: seq<Option<seq<nat>>>, W: seq<nat>, dst: Asn, i: nat, n: Asn)
      requires i <= |paths| == |W| && n < |W| && Shape(|W|)
    {
      if n == dst then count[n] == weight[n] == peer[n] == provider[n] == 0
      else
        && count[n] == Load(paths, Ones(|W|), i, n, PROVIDER_COLUMN)
        && weight[n] == Load(paths, W, i, n, PROVIDER_COLUMN)
        && peer[n] == Load(paths, W, i, n, PEER_COLUMN)
        && provider[n] == Load(paths, W, i, n, CUSTOMER_COLUMN)
    }
  }

  lemma AccountsStart(a: Loads, paths: seq<Option<seq<nat>>>, W: seq<nat>, dst: Asn)
    requires |paths| == |W| && a.Shape(|W|)
    requires forall n | 0 <= n < |W| :: a.count[n] == a.weight[n] == a.peer[n] == a.provider[n] == 0
    ensures forall n: Asn | n < |W| :: a.Accounts(paths, W, dst, 0, n)
  {
  }

  lemma AccountsNext(a: Loads, b: Loads, paths: seq<Option<seq<nat>>>, W: seq<nat>, dst: Asn, i: nat, n: Asn)
    requires i < |paths| == |W| && n < |W| && a.Shape(|W|) && b.Shape(|W|) && a.Accounts(paths, W, dst, i, n)
    requires if paths[i].Some? then b.Added(a, paths[i].value, |paths[i].value|, W[i], dst, n) else a == b
    ensures b.Accounts(paths, W, dst, i + 1, n)
  {
    assert Load(paths, W, i + 1, n, PROVIDER_COLUMN) == Load(paths, W, i, n, PROVIDER_COLUMN) + W[i] * PathHits(paths[i], n, PROVIDER_COLUMN);
    assert Load(paths, Ones(|W|), i + 1, n, PROVIDER_COLUMN) == Load(paths, Ones(|W|), i, n, PROVIDER_COLUMN) + PathHits(paths[i], n, PROVIDER_COLUMN);
  }

  /** The subtrees hanging below each AS, by the class of the last hop. */
  class Subtrees {
    const count: array<nat>
    const weight: array<nat>
    const peer: array<nat>
    const provider: array<nat>

    constructor (n: nat)
      ensures fresh(count) && fresh(weight) && fresh(peer) && fresh(provider) && Shape(n)
      ensures forall i | 0 <= i < n :: count[i] == weight[i] == peer[i] == provider[i] == 0
    {
      count, weight := new nat[n](_ => 0), new nat[n](_ => 0);
      peer, provider := new nat[n](_ => 0), new nat[n](_ => 0);
    }

    ghost predicate Shape(n: nat) {
      && count.Length == weight.Length == peer.Length == provider.Length == n
      && count != weight && count != peer && count != provider && weight != peer && weight != provider && peer != provider
    }

    ghost function View(): Loads
      reads count, weight, peer, provider
    {
      Loads(count[..], weight[..], peer[..], provider[..])
    }

    method AddEntry(entry: nat, w: nat, dst: Asn)
      requires Shape(count.Length) && UnjoinAsn(entry) < count.Length
      modifies count, weight, peer, provider
      ensures forall n | 0 <= n < count.Length ::
                if n != UnjoinAsn(entry) || n == dst then
                  count[n] == old(count[n]) && weight[n] == old(weight[n]) && peer[n] == old(peer[n]) && provider[n] == old(provider[n])
                else
                  && count[n] == old(count[n]) + (if UnjoinCol(entry) == PROVIDER_COLUMN then 1 else 0)
                  && weight[n] == old(weight[n]) + (if UnjoinCol(entry) == PROVIDER_COLUMN then w else 0)
                  && peer[n] == old(peer[n]) + (if UnjoinCol(entry) == PEER_COLUMN then w else 0)
                  && provider[n] == old(provider[n]) + (if UnjoinCol(entry) == CUSTOMER_COLUMN then w else 0)
    {
      var asn, col := UnjoinAsn(entry), UnjoinCol(entry);
      if asn != dst {
        if col == PROVIDER_COLUMN {
          count[asn] := count[asn] + 1;
          weight[asn] := weight[asn] + w;
        } else if col == PEER_COLUMN {
          peer[asn] := peer[asn] + w;
        } else if col == CUSTOMER_COLUMN {
          provider[asn] := provider[asn] + w;
        }
      }
    }

    /** Adds one path of weight `w`; its first entry is the AS itself and is skipped. */
    method AddPath(path: seq<nat>, w: nat, dst: Asn)
      requires Shape(count.Length) && InRange(Some(path), count.Length)
      modifies count, weight, peer, provider
      ensures forall n: Asn | n < count.Length :: View().Added(old(View()), path, |path|, w, dst, n)
    {
      if |path| <= 1 { return; }
      for j := 1 to |path|
        invariant forall n: Asn | n < count.Length :: View().Added(old(View()), path, j, w, dst, n)
      {
        ghost var before := View();
        AddEntry(path[j], w, dst);
        ghost var next := j + 1;
        forall n: Asn | n < count.Length ensures View().Added(old(View()), path, next, w, dst, n) {
          assert before.Added(old(View()), path, j, w, dst, n);
          HitsNext(path, j, w, n, PROVIDER_COLUMN);
          HitsNext(path, j, w, n, PEER_COLUMN);
          HitsNext(path, j, w, n, CUSTOMER_COLUMN);
        }
      }
    }
  }

  lemma HitsNext(path: seq<nat>, j: nat, w: nat, n: Asn, col: nat)
    requires 1 <= j < |path|
    ensures var hit := UnjoinAsn(path[j]) == n && UnjoinCol(path[j]) == col;
            && Hits(path, j + 1, n, col) == Hits(path, j, n, col) + (if hit then 1 else 0)
            && w * Hits(path, j + 1, n, col) == w * Hits(path, j, n, col) + (if hit then w else 0)
  {
  }
}
