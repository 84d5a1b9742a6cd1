/**
 The choice of a protocol version out of two lists (ntc_ntb_version_matching,
 ntrdma_version_choose): the latest entry of the first list that the second one
 has too.
 */
module Version {

  datatype Choice = NoVersion | Version(v: int)

  /** The last element of v1 that occurs in v2. */
  function LastCommon(v1: seq<int>, v2: seq<int>): Choice {
    if v1 == [] then NoVersion
    else if v1[|v1| - 1] in v2 then Version(v1[|v1| - 1])
    else LastCommon(v1[..|v1| - 1], v2)
  }

  method Choose(v1: seq<int>, v2: seq<int>) returns (c: Choice)
    ensures c == LastCommon(v1, v2)
  {
    var j := |v1|;
    assert v1[..j] == v1;
    while j > 0
      invariant 0 <= j <= |v1| && LastCommon(v1, v2) == LastCommon(v1[..j], v2)
    {
      j := j - 1;
      assert v1[..j + 1][..j] == v1[..j] && v1[..j + 1][j] == v1[j];
      var i := |v2|;
      while i > 0
        invariant 0 <= i <= |v2| && forall k :: i <= k < |v2| ==> v2[k] != v1[j]
      {
        i := i - 1;
        if v1[j] == v2[i] {
          return Version(v1[j]);
        }
      }
    }
    return NoVersion;
  }

  ghost predicate Increasing(v: seq<int>) {
    forall i, j :: 0 <= i < j < |v| ==> v[i] < v[j]
  }

  /** What is chosen is in both lists, and out of an increasing list it is the greatest one that is. */
  lemma {:induction false} LastCommonIs(v1: seq<int>, v2: seq<int>)
    ensures LastCommon(v1, v2).NoVersion? <==> forall x :: x in v1 ==> x !in v2
    ensures LastCommon(v1, v2).Version? ==> LastCommon(v1, v2).v in v1 && LastCommon(v1, v2).v in v2
    ensures Increasing(v1) && LastCommon(v1, v2).Version? ==>
              forall x :: x in v1 && x in v2 ==> x <= LastCommon(v1, v2).v
  {
    if v1 != [] {
      var n := |v1| - 1;
      LastCommonIs(v1[..n], v2);
      assert v1 == v1[..n] + [v1[n]];
      assert forall x :: x in v1 <==> x in v1[..n] || x == v1[n];
    }
  }

  lemma {:induction false} LastCommonAt(v1: seq<int>, v2: seq<int>) returns (i: nat)
    requires LastCommon(v1, v2).Version?
    ensures i < |v1| && v1[i] == LastCommon(v1, v2).v && forall k :: i < k < |v1| ==> v1[k] !in v2
  {
    var n := |v1| - 1;
    if v1[n] in v2 {
      i := n;
    } else {
      i := LastCommonAt(v1[..n], v2);
    }
  }

  /** Versions i and j of v1 come in the other order in v2. */
  ghost predicate Swapped(v1: seq<int>, v2: seq<int>, i: nat, j: nat, k: nat, l: nat) {
    i < j < |v1| && k < l < |v2| && v1[i] == v2[l] && v1[j] == v2[k] && v1[i] != v1[j]
  }

  ghost predicate OrdersAgree(v1: seq<int>, v2: seq<int>) {
    forall i, j, k, l :: !Swapped(v1, v2, i, j, k, l)
  }

  /** Nodes whose lists agree on the order of the versions both have choose the same one. */
  lemma SameIfOrdersAgree(v1: seq<int>, v2: seq<int>)
    requires OrdersAgree(v1, v2)
    ensures LastCommon(v1, v2) == LastCommon(v2, v1)
  {
    LastCommonIs(v1, v2);
    LastCommonIs(v2, v1);
    if LastCommon(v1, v2).Version? {
      var j := LastCommonAt(v1, v2);
      var l := LastCommonAt(v2, v1);
      var i :| 0 <= i < |v1| && v1[i] == v2[l];
      var k :| 0 <= k < |v2| && v2[k] == v1[j];
      assert v1[i] in v2 && v2[k] in v1;
      assert !Swapped(v1, v2, i, j, k, l);
    }
  }

  /** Nodes that list their versions in increasing order choose the same one. */
  lemma BothChooseTheSame(v1: seq<int>, v2: seq<int>)
    requires Increasing(v1) && Increasing(v2)
    ensures LastCommon(v1, v2) == LastCommon(v2, v1)
  {
    LastCommonIs(v1, v2);
    LastCommonIs(v2, v1);
    if LastCommon(v1, v2).NoVersion? {
      assert forall x :: x in v2 ==> x !in v1;
    }
  }

  /** Without the order they may not, although both lists hold the same versions. */
  lemma OrderMatters()
    ensures LastCommon([1, 2], [2, 1]) == Version(2) && LastCommon([2, 1], [1, 2]) == Version(1)
  {
    assert [1, 2][1] == 2 && [2, 1][1] == 1;
  }
}
