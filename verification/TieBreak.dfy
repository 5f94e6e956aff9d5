/** The tie-break between equally good parents (BFS.cs, SimulatorLibrary.cs). */
module TieBreak {
  import opened Topology

  const UINT32_MAX := 0xFFFF_FFFF

  /** With `ModifiedBfs.Hash` set, candidates are compared by an uninterpreted hash of the
      deciding node and the candidate; otherwise by node number. */
  datatype TieRule = ByHash(hash: (Asn, Asn) -> nat) | ByNumber
  {
    function Key(node: Asn, parent: Asn): nat {
      match this
      case ByHash(h) => h(node, parent)
      case ByNumber => parent
    }

    /** No two entries of the list have the same key. */
    ghost predicate Separates(node: Asn, list: seq<Asn>) {
      forall i, j | 0 <= i < j < |list| :: Key(node, list[i]) != Key(node, list[j])
    }

    ghost predicate Sorts(node: Asn, list: seq<Asn>) {
      forall i, j | 0 <= i < j < |list| :: Key(node, list[i]) < Key(node, list[j])
    }

    /** `p` is the best entry of the list. */
    ghost predicate IsLeast(node: Asn, list: seq<Asn>, p: Asn) {
      p in list && forall q | q in list :: Key(node, p) <= Key(node, q)
    }

    /** `tieBreak`.  Its minimum starts at the largest 32-bit number, so a list none of whose keys
        is below that number yields that number itself. */
    method Choose(node: Asn, list: seq<Asn>) returns (parent: Asn)
      ensures (exists q :: q in list && Key(node, q) < UINT32_MAX) ==> IsLeast(node, list, parent)
      ensures (forall q | q in list :: Key(node, q) >= UINT32_MAX) ==> parent == UINT32_MAX
    {
      var min := UINT32_MAX;
      parent := UINT32_MAX;
      for i := 0 to |list|
        invariant forall q | q in list[..i] :: Key(node, q) >= min
        invariant if min == UINT32_MAX then parent == UINT32_MAX
                  else min < UINT32_MAX && parent in list[..i] && Key(node, parent) == min
      {
        assert list[..i + 1] == list[..i] + [list[i]];
        var key := Key(node, list[i]);
        if key < min {
          min := key;
          parent := list[i];
        }
      }
      assert list[..|list|] == list;
    }

    /** The least entry is unique when the keys are distinct, and comes first in a sorted list. */
    lemma LeastIsUnique(node: Asn, list: seq<Asn>, p: Asn, q: Asn)
      requires Separates(node, list) && IsLeast(node, list, p) && IsLeast(node, list, q)
      ensures p == q
    {
    }

    lemma FirstIsLeast(node: Asn, list: seq<Asn>)
      requires Sorts(node, list) && list != []
      ensures IsLeast(node, list, list[0]) && Separates(node, list)
    {
      forall q | q in list ensures Key(node, list[0]) <= Key(node, q) {
        var i :| 0 <= i < |list| && list[i] == q;
        assert i == 0 || Key(node, list[0]) < Key(node, list[i]);
      }
    }

    /** Back from the sorted hash values to the numbers. */
    method LookUp(node: Asn, ordered: seq<nat>, hashToVal: map<nat, Asn>) returns (r: seq<Asn>)
      requires forall h | h in ordered :: h in hashToVal && Key(node, hashToVal[h]) == h
      ensures |r| == |ordered|
      ensures forall k | 0 <= k < |r| :: ordered[k] in hashToVal && r[k] == hashToVal[ordered[k]] && Key(node, r[k]) == ordered[k]
    {
      r := [];
      for j := 0 to |ordered|
        invariant |r| == j
        invariant forall k | 0 <= k < j :: ordered[k] in hashToVal && r[k] == hashToVal[ordered[k]] && Key(node, r[k]) == ordered[k]
      {
        assert ordered[j] in ordered;
        r := r + [hashToVal[ordered[j]]];
      }
    }

    /** The table from hash values back to entries, and the hash values in list order. */
    ghost predicate Hashed(node: Asn, list: seq<Asn>, hashToVal: map<nat, Asn>, hashValues: seq<nat>) {
      && |hashValues| == |list|
      && (forall j | 0 <= j < |list| :: hashValues[j] == Key(node, list[j]) && hashValues[j] in hashToVal && hashToVal[hashValues[j]] == list[j])
      && (forall h | h in hashToVal :: h in hashValues)
    }

    /** Fills the hash table; adding a key twice fails. */
    method HashAll(list: seq<Asn>, node: Asn) returns (ok: bool, hashToVal: map<nat, Asn>, hashValues: seq<nat>)
      ensures ok <==> Separates(node, list)
      ensures ok ==> Hashed(node, list, hashToVal, hashValues)
    {
      hide Key;
      hashToVal, hashValues := map[], [];
      for i := 0 to |list|
        invariant Separates(node, list[..i]) && Hashed(node, list[..i], hashToVal, hashValues)
      {
        var hash := Key(node, list[i]);
        if hash in hashToVal {
          var j :| 0 <= j < |hashValues| && hashValues[j] == hash;
          return false, hashToVal, hashValues;
        }
        hashToVal, hashValues := hashToVal[hash := list[i]], hashValues + [hash];
      }
      assert list[..|list|] == list;
      ok := true;
    }

    lemma HashedNoDup(node: Asn, list: seq<Asn>, hashToVal: map<nat, Asn>, hashValues: seq<nat>)
      requires Hashed(node, list, hashToVal, hashValues) && Separates(node, list)
      ensures NoDup(hashValues)
      ensures forall h | h in hashValues :: h in hashToVal && Key(node, hashToVal[h]) == h
    {
      forall i, j | 0 <= i < j < |hashValues| ensures hashValues[i] != hashValues[j] {
        assert Key(node, list[i]) != Key(node, list[j]);
      }
    }

    /** Looking up the hash values in any order gives the entries of the list. */
    lemma LookedUp(node: Asn, list: seq<Asn>, hashToVal: map<nat, Asn>, hashValues: seq<nat>, ordered: seq<nat>, sorted: seq<Asn>)
      requires Hashed(node, list, hashToVal, hashValues) && (forall h :: h in ordered <==> h in hashValues)
      requires |sorted| == |ordered| && forall k | 0 <= k < |sorted| :: ordered[k] in hashToVal && sorted[k] == hashToVal[ordered[k]]
      ensures forall x :: x in sorted <==> x in list
    {
      forall x ensures x in sorted <==> x in list {
        if x in list {
          var i :| 0 <= i < |list| && list[i] == x;
          assert hashValues[i] in ordered;
        }
        if x in sorted {
          var k :| 0 <= k < |sorted| && sorted[k] == x;
          assert ordered[k] in hashValues;
        }
      }
    }

    /** `sortByHashValue`.  It fails, as adding a key to a hash table twice does, exactly when two
        entries have the same hash; otherwise it sorts the list by key. */
    method SortByHashValue(list: seq<Asn>, node: Asn) returns (ok: bool, sorted: seq<Asn>)
      requires NoDup(list)
      ensures ok <==> ByNumber? || Separates(node, list)
      ensures ok ==> |sorted| == |list| && Sorts(node, sorted) && forall x :: x in sorted <==> x in list
    {
      if ByNumber? {
        sorted := SortNumbers(list);
        SortedPermutation(list);
        return true, sorted;
      }
      hide Key;
      var hashToVal, hashValues;
      ok, hashToVal, hashValues := HashAll(list, node);
      if !ok { return false, []; }
      HashedNoDup(node, list, hashToVal, hashValues);
      SortedPermutation(hashValues);
      var ordered := SortNumbers(hashValues);
      sorted := LookUp(node, ordered, hashToVal);
      LookedUp(node, list, hashToVal, hashValues, ordered, sorted);
    }
  }

  /** `List.Sort` on numbers. */
  function SortNumbers(s: seq<nat>): seq<nat> {
    if s == [] then [] else InsertNumber(s[0], SortNumbers(s[1..]))
  }

  function InsertNumber(x: nat, s: seq<nat>): (r: seq<nat>)
    ensures multiset(r) == multiset(s) + multiset{x}
  {
    if s == [] || x <= s[0] then [x] + s
    else
      assert s == [s[0]] + s[1..];
      [s[0]] + InsertNumber(x, s[1..])
  }

  ghost predicate Ascending(s: seq<nat>) {
    forall i, j | 0 <= i < j < |s| :: s[i] <= s[j]
  }

  lemma AscendingCons(x: nat, s: seq<nat>)
    requires Ascending(s) && forall y | y in s :: x <= y
    ensures Ascending([x] + s)
  {
    var r := [x] + s;
    forall i, j | 0 <= i < j < |r| ensures r[i] <= r[j] {
      assert r[j] == s[j - 1] && r[j] in s;
    }
  }

  lemma {:induction false} InsertAscending(x: nat, s: seq<nat>)
    requires Ascending(s)
    ensures Ascending(InsertNumber(x, s))
  {
    if s == [] || x <= s[0] {
      AscendingCons(x, s);
    } else {
      InsertAscending(x, s[1..]);
      var r := InsertNumber(x, s[1..]);
      forall y | y in r ensures s[0] <= y {
        assert y in multiset(r);
        assert y == x || y in s[1..];
      }
      AscendingCons(s[0], r);
    }
  }

  lemma {:induction false} SortIsPermutation(s: seq<nat>)
    ensures Ascending(SortNumbers(s)) && multiset(SortNumbers(s)) == multiset(s)
  {
    hide InsertNumber;
    if s != [] {
      SortIsPermutation(s[1..]);
      hide Ascending;
      InsertAscending(s[0], SortNumbers(s[1..]));
      assert s == [s[0]] + s[1..];
    }
  }

  /** Sorting distinct numbers gives a strictly increasing list of the same numbers. */
  lemma SortedPermutation(s: seq<nat>)
    requires NoDup(s)
    ensures |SortNumbers(s)| == |s| && forall x :: x in SortNumbers(s) <==> x in s
    ensures forall i, j | 0 <= i < j < |s| :: SortNumbers(s)[i] < SortNumbers(s)[j]
  {
    SortIsPermutation(s);
    var r := SortNumbers(s);
    assert |multiset(r)| == |r| && |multiset(s)| == |s|;
    forall x ensures x in r <==> x in s {
      assert x in multiset(r) <==> x in multiset(s);
    }
    NoDupCounts(s);
    CountsNoDup(r);
  }

  lemma {:induction false} NoDupCounts(s: seq<nat>)
    requires NoDup(s)
    ensures forall x :: multiset(s)[x] <= 1
  {
    if s != [] {
      NoDupCounts(s[1..]);
      assert s == [s[0]] + s[1..];
      assert s[0] !in s[1..];
    }
  }

  lemma CountsNoDup(s: seq<nat>)
    requires forall x :: multiset(s)[x] <= 1
    ensures NoDup(s)
  {
    forall i, j | 0 <= i < j < |s| ensures s[i] != s[j] {
      var x := s[i];
      assert s == s[..j] + [s[j]] + s[j + 1..];
      assert multiset(s)[x] == multiset(s[..j])[x] + multiset([s[j]])[x] + multiset(s[j + 1..])[x];
      assert x in s[..j] && x in multiset(s[..j]);
    }
  }
}
