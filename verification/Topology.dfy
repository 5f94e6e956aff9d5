/** The AS graph: nodes and their neighbours, segregated by relationship type
    (AsNode.cs, NetworkGraph.cs). */
module Topology {
  type Asn = nat

  /** The relationship a node has TO a neighbour: `CustomerOf` leads to its providers. */
  datatype Relationship = CustomerOf | PeerOf | ProviderTo

  datatype Graph = Graph(nodes: set<Asn>, customerOf: map<Asn, seq<Asn>>,
                         peerOf: map<Asn, seq<Asn>>, providerTo: map<Asn, seq<Asn>>)
  {
    function Lists(r: Relationship): map<Asn, seq<Asn>> {
      match r
      case CustomerOf => customerOf
      case PeerOf => peerOf
      case ProviderTo => providerTo
    }

    /** The neighbours `u` has the relationship `r` to. */
    function Neighbors(r: Relationship, u: Asn): seq<Asn> {
      if u in Lists(r) then Lists(r)[u] else []
    }

    /** Every edge is present in both directions, there is no self edge, and no neighbour
        occurs twice, within one relationship or across two. */
    ghost predicate EdgeValid(r: Relationship, u: Asn, v: Asn) {
      v in Neighbors(r, u) ==>
        && u in nodes && v in nodes && u != v
        && u in Neighbors(Opposite(r), v)
        && (forall r' | v in Neighbors(r', u) :: r' == r)
    }

    ghost predicate ListValid(r: Relationship, u: Asn) {
      NoDup(Neighbors(r, u))
    }

    ghost predicate Valid() {
      && (forall r, u, v {:trigger EdgeValid(r, u, v)} :: EdgeValid(r, u, v))
      && (forall r, u {:trigger ListValid(r, u)} :: ListValid(r, u))
    }
  }

  function Opposite(r: Relationship): Relationship {
    match r
    case CustomerOf => ProviderTo
    case PeerOf => PeerOf
    case ProviderTo => CustomerOf
  }

  ghost predicate NoDup<T>(s: seq<T>) {
    forall i, j :: 0 <= i < j < |s| ==> s[i] != s[j]
  }

  lemma NoDupAppend<T>(s: seq<T>, x: T)
    requires NoDup(s) && x !in s
    ensures NoDup(s + [x])
  {
  }

  ghost function Elements<T>(s: seq<T>): set<T> {
    set x | x in s
  }

  /** The first i + 1 elements are the first i and one that is new when there are no duplicates. */
  lemma ElementsNext<T>(s: seq<T>, i: nat)
    requires i < |s|
    ensures Elements(s[..i + 1]) == Elements(s[..i]) + {s[i]}
    ensures NoDup(s) ==> s[i] !in Elements(s[..i])
  {
    assert s[..i + 1] == s[..i] + [s[i]];
  }

  lemma SubsetSize<T>(a: set<T>, b: set<T>)
    requires a <= b
    ensures |a| <= |b|
  {
    assert b == a + (b - a);
  }

  /** Removing the first occurrence of `x`, as `List.Remove` does. */
  function Remove<T(==,!new)>(s: seq<T>, x: T): (r: seq<T>)
    ensures x !in s ==> r == s
    ensures forall y :: y != x ==> (y in r <==> y in s)
    ensures NoDup(s) ==> NoDup(r) && x !in r
  {
    if s == [] then []
    else if s[0] == x then
      assert s == [s[0]] + s[1..];
      s[1..]
    else
      assert s == [s[0]] + s[1..];
      var r := Remove(s[1..], x);
      assert NoDup(s) ==> s[0] !in r by {
        if NoDup(s) { assert s[0] !in s[1..]; }
      }
      [s[0]] + r
  }
}
