/** Facts about parallel slices: sharing of references, an inverse index, and swap-and-pop. */
module Slices {
  import opened Types

  /** No element occurs twice, within one slice or across the two. */
  ghost predicate Unshared<T>(a: seq<T>, b: seq<T>) {
    && (forall i, j :: 0 <= i < j < |a| ==> a[i] != a[j])
    && (forall i, j :: 0 <= i < j < |b| ==> b[i] != b[j])
    && (forall i, j :: 0 <= i < |a| && 0 <= j < |b| ==> a[i] != b[j])
  }

  /** The index map and the slice of keys are mutually inverse. */
  ghost predicate Inverse(keys: seq<uint64>, index: map<uint64, nat>) {
    && (forall x :: x in index ==> index[x] < |keys| && keys[index[x]] == x)
    && (forall i :: 0 <= i < |keys| ==> keys[i] in index && index[keys[i]] == i)
  }

  /** The elements of both slices. */
  ghost function Elements<T>(a: seq<T>, b: seq<T>): set<T> {
    (set x | x in a) + (set x | x in b)
  }

  /** Moves the last element into place `k` and drops the last place. */
  function SwapPop<T>(s: seq<T>, k: nat): (r: seq<T>)
    requires k < |s|
    ensures |r| == |s| - 1
    ensures forall i :: 0 <= i < |r| ==> r[i] == s[if i == k then |s| - 1 else i]
  {
    s[k := s[|s| - 1]][..|s| - 1]
  }

  lemma UnsharedAppend<T>(a: seq<T>, b: seq<T>, x: T, y: T)
    requires Unshared(a, b) && x != y && x !in Elements(a, b) && y !in Elements(a, b)
    ensures Unshared(a + [x], b + [y])
    ensures Elements(a + [x], b + [y]) == Elements(a, b) + {x, y}
  {
  }

  lemma UnsharedSwapPop<T>(a: seq<T>, b: seq<T>, k: nat)
    requires Unshared(a, b) && k < |a| == |b|
    ensures Unshared(SwapPop(a, k), SwapPop(b, k))
    ensures Elements(SwapPop(a, k), SwapPop(b, k)) == Elements(a, b) - {a[k], b[k]}
  {
    var a', b' := SwapPop(a, k), SwapPop(b, k);
    forall x | x in a && x != a[k] ensures x in a' {
      var i :| 0 <= i < |a| && a[i] == x;
      assert a'[if i == |a| - 1 then k else i] == x;
    }
    forall x | x in b && x != b[k] ensures x in b' {
      var i :| 0 <= i < |b| && b[i] == x;
      assert b'[if i == |b| - 1 then k else i] == x;
    }
  }

  lemma InverseAppend(keys: seq<uint64>, index: map<uint64, nat>, x: uint64)
    requires Inverse(keys, index) && x !in index
    ensures Inverse(keys + [x], index[x := |keys|])
  {
  }

  lemma InverseSwapPop(keys: seq<uint64>, index: map<uint64, nat>, k: nat)
    requires Inverse(keys, index) && k < |keys|
    ensures Inverse(SwapPop(keys, k), (if k == |keys| - 1 then index else index[keys[|keys| - 1] := k]) - {keys[k]})
  {
  }

  /** The positions below `n` that are chosen, each once, in ascending order. */
  ghost predicate Positions(at: seq<nat>, n: nat, chosen: set<nat>) {
    && (forall j, k :: 0 <= j < k < |at| ==> at[j] < at[k])
    && (forall k :: 0 <= k < |at| ==> at[k] < n && at[k] in chosen)
    && (forall i: nat :: i < n && i in chosen ==> i in at)
  }

  lemma PositionsNext(at: seq<nat>, n: nat, before: set<nat>, chosen: set<nat>)
    requires Positions(at, n, before) && forall i: nat :: i < n ==> (i in before <==> i in chosen)
    ensures Positions(at + if n in chosen then [n] else [], n + 1, chosen)
  {
    var all := at + if n in chosen then [n] else [];
    forall i: nat | i < n + 1 && i in chosen ensures i in all
    {
      assert i < n ==> i in at;
    }
  }
}
