/** Sums over index sequences. Every sum the formulation writes, `sum(t[j] for j in idx)`,
    is a `SumAt` over an index sequence: `range(len(m))` is `Iota(|m|)`, a partition group
    `split[j]` is one of the groups. */
module Sums {

  /** The index sequence `0, 1, ..., n-1` (Python's `range(n)`). */
  function Iota(n: nat): seq<nat>
  {
    seq(n, i requires 0 <= i < n => i)
  }

  /** Every index of `idx` addresses an element of a sequence of length `n`. */
  predicate InRange(idx: seq<nat>, n: nat)
  {
    forall i :: 0 <= i < |idx| ==> idx[i] < n
  }

  /** `sum(t[j] for j in idx)`. */
  function SumAt(t: seq<real>, idx: seq<nat>): real
    requires InRange(idx, |t|)
  {
    if idx == [] then 0.0 else t[idx[0]] + SumAt(t, idx[1..])
  }

  /** `sum(t[j] for j in range(len(t)))`. */
  function Total(t: seq<real>): real
  {
    SumAt(t, Iota(|t|))
  }

  /** Concatenation of a sequence of groups, in group order. */
  function Flatten(g: seq<seq<nat>>): seq<nat>
  {
    if g == [] then [] else Flatten(g[..|g| - 1]) + g[|g| - 1]
  }

  predicate GroupsInRange(g: seq<seq<nat>>, n: nat)
  {
    forall j :: 0 <= j < |g| ==> InRange(g[j], n)
  }

  /** The groups `g` split the index set `0..n-1` exactly: each index occurs once in all of them together. */
  predicate IsPartition(g: seq<seq<nat>>, n: nat)
  {
    GroupsInRange(g, n) && multiset(Flatten(g)) == multiset(Iota(n))
  }

  /** The per-group sums `[sum(t[n] for n in g[j]) for j in range(len(g))]`. */
  function GroupSums(t: seq<real>, g: seq<seq<nat>>): seq<real>
    requires GroupsInRange(g, |t|)
  {
    seq(|g|, j requires 0 <= j < |g| => SumAt(t, g[j]))
  }

  lemma IotaSnoc(n: nat)
    requires n > 0
    ensures Iota(n) == Iota(n - 1) + [n - 1]
  {
  }

  lemma {:induction false} IotaCount(n: nat, x: nat)
    ensures multiset(Iota(n))[x] == if x < n then 1 else 0
  {
    if n > 0 {
      IotaSnoc(n);
      IotaCount(n - 1, x);
    }
  }

  lemma {:induction false} SumAtAppend(t: seq<real>, a: seq<nat>, b: seq<nat>)
    requires InRange(a, |t|) && InRange(b, |t|)
    ensures InRange(a + b, |t|)
    ensures SumAt(t, a + b) == SumAt(t, a) + SumAt(t, b)
  {
    if a == [] {
      assert a + b == b;
    } else {
      assert (a + b)[1..] == a[1..] + b;
      SumAtAppend(t, a[1..], b);
    }
  }

  /** Taking out the element at position `k` removes exactly its term from the sum. */
  lemma SumAtRemove(t: seq<real>, b: seq<nat>, k: nat)
    requires InRange(b, |t|) && k < |b|
    ensures InRange(b[..k] + b[k + 1..], |t|)
    ensures SumAt(t, b) == t[b[k]] + SumAt(t, b[..k] + b[k + 1..])
  {
    var rest := [b[k]] + b[k + 1..];
    assert b == b[..k] + rest;
    assert rest[1..] == b[k + 1..];
    SumAtAppend(t, b[..k], rest);
    SumAtAppend(t, b[..k], b[k + 1..]);
  }

  /** A sum over an index sequence depends only on the multiset of its indices. */
  lemma {:induction false} SumAtPerm(t: seq<real>, a: seq<nat>, b: seq<nat>)
    requires InRange(a, |t|) && InRange(b, |t|)
    requires multiset(a) == multiset(b)
    ensures SumAt(t, a) == SumAt(t, b)
    decreases |a|
  {
    if a == [] {
      assert |b| == |multiset(b)| == 0;
    } else {
      var x := a[0];
      assert x in multiset(b);
      var k :| 0 <= k < |b| && b[k] == x;
      var b' := b[..k] + b[k + 1..];
      SumAtRemove(t, b, k);
      MultisetRemove(b, k);
      assert a == [x] + a[1..];
      assert multiset(a[1..]) == multiset(a) - multiset{x};
      SumAtPerm(t, a[1..], b');
    }
  }

  /** Taking out the element at position `k` removes one occurrence of it from the multiset. */
  lemma MultisetRemove(b: seq<nat>, k: nat)
    requires k < |b|
    ensures multiset(b[..k] + b[k + 1..]) == multiset(b) - multiset{b[k]}
  {
    assert b == b[..k] + [b[k]] + b[k + 1..];
  }

  lemma {:induction false} SumAtMono(t1: seq<real>, t2: seq<real>, idx: seq<nat>)
    requires |t1| == |t2| && InRange(idx, |t1|)
    requires forall k :: 0 <= k < |t1| ==> t1[k] <= t2[k]
    ensures SumAt(t1, idx) <= SumAt(t2, idx)
  {
    if idx != [] {
      SumAtMono(t1, t2, idx[1..]);
    }
  }

  /** Two term sequences that agree on the indices summed give the same sum. */
  lemma {:induction false} SumAtAgree(t1: seq<real>, t2: seq<real>, idx: seq<nat>)
    requires InRange(idx, |t1|) && InRange(idx, |t2|)
    requires forall i :: 0 <= i < |idx| ==> t1[idx[i]] == t2[idx[i]]
    ensures SumAt(t1, idx) == SumAt(t2, idx)
  {
    if idx != [] {
      SumAtAgree(t1, t2, idx[1..]);
    }
  }

  /** Sums are additive in the terms. */
  lemma {:induction false} SumAtAdd(t: seq<real>, t1: seq<real>, t2: seq<real>, idx: seq<nat>)
    requires |t| == |t1| == |t2| && InRange(idx, |t|)
    requires forall k :: 0 <= k < |t| ==> t[k] == t1[k] + t2[k]
    ensures SumAt(t, idx) == SumAt(t1, idx) + SumAt(t2, idx)
  {
    if idx != [] {
      SumAtAdd(t, t1, t2, idx[1..]);
    }
  }

  lemma {:induction false} SumAtZero(t: seq<real>, idx: seq<nat>)
    requires InRange(idx, |t|)
    requires forall i :: 0 <= i < |idx| ==> t[idx[i]] == 0.0
    ensures SumAt(t, idx) == 0.0
  {
    if idx != [] {
      SumAtZero(t, idx[1..]);
    }
  }

  /** Summing the group sums is summing over the concatenated groups. */
  lemma {:induction false} SumGroupsFlatten(t: seq<real>, g: seq<seq<nat>>)
    requires GroupsInRange(g, |t|)
    ensures InRange(Flatten(g), |t|)
    ensures Total(GroupSums(t, g)) == SumAt(t, Flatten(g))
  {
    if g != [] {
      var n := |g|;
      var g' := g[..n - 1];
      assert GroupsInRange(g', |t|);
      SumGroupsFlatten(t, g');
      var gs := GroupSums(t, g);
      assert gs[..n - 1] == GroupSums(t, g');
      TotalSnoc(gs);
      assert Flatten(g) == Flatten(g') + g[n - 1];
      SumAtAppend(t, Flatten(g'), g[n - 1]);
    }
  }

  /** The total of a nonempty sequence is the total of all but its last element plus that element. */
  lemma TotalSnoc(s: seq<real>)
    requires |s| > 0
    ensures Total(s) == Total(s[..|s| - 1]) + s[|s| - 1]
  {
    var n := |s|;
    IotaSnoc(n);
    SumAtAppend(s, Iota(n - 1), [n - 1]);
    SumAtAgree(s, s[..n - 1], Iota(n - 1));
  }

  /** The central fact behind the partitioned formulation: the group sums of a partition add up
      to the sum over every index. */
  lemma PartitionSum(t: seq<real>, g: seq<seq<nat>>)
    requires IsPartition(g, |t|)
    ensures Total(GroupSums(t, g)) == Total(t)
  {
    SumGroupsFlatten(t, g);
    SumAtPerm(t, Flatten(g), Iota(|t|));
  }

  lemma {:induction false} FlattenHasGroup(g: seq<seq<nat>>, i: nat)
    requires i < |g|
    ensures multiset(g[i]) <= multiset(Flatten(g))
  {
    if i < |g| - 1 {
      FlattenHasGroup(g[..|g| - 1], i);
    }
  }

  lemma {:induction false} FlattenHasTwoGroups(g: seq<seq<nat>>, i: nat, j: nat)
    requires i < j < |g|
    ensures multiset(g[i]) + multiset(g[j]) <= multiset(Flatten(g))
  {
    var g' := g[..|g| - 1];
    if j < |g| - 1 {
      FlattenHasTwoGroups(g', i, j);
    } else {
      FlattenHasGroup(g', i);
    }
  }

  lemma {:induction false} FlattenMember(g: seq<seq<nat>>, x: nat)
    requires x in Flatten(g)
    ensures exists j :: 0 <= j < |g| && x in g[j]
  {
    var g' := g[..|g| - 1];
    if x !in g[|g| - 1] {
      FlattenMember(g', x);
      var j :| 0 <= j < |g'| && x in g'[j];
      assert g[j] == g'[j];
    }
  }

  /** Index `x` lies in some group of `g`. */
  predicate Covered(g: seq<seq<nat>>, x: nat)
  {
    exists j :: 0 <= j < |g| && x in g[j]
  }

  /** A partition is what its name says: distinct groups share no index, and every index
      `0..n-1` lies in some group (and no other index does). */
  lemma PartitionDisjointCover(g: seq<seq<nat>>, n: nat)
    requires IsPartition(g, n)
    ensures forall i, j, x :: 0 <= i < |g| && 0 <= j < |g| && i != j && x in g[i] ==> x !in g[j]
    ensures forall x: nat :: x < n ==> Covered(g, x)
    ensures forall j, x :: 0 <= j < |g| && x in g[j] ==> x < n
  {
    forall i, j, x | 0 <= i < |g| && 0 <= j < |g| && i != j && x in g[i]
      ensures x !in g[j]
    {
      if x in g[j] {
        if i < j { FlattenHasTwoGroups(g, i, j); } else { FlattenHasTwoGroups(g, j, i); }
        assert multiset(Flatten(g))[x] >= 2;
        IotaCount(n, x);
        assert false;
      }
    }
    forall x: nat | x < n
      ensures Covered(g, x)
    {
      IotaCount(n, x);
      assert x in multiset(Flatten(g));
      FlattenMember(g, x);
    }
    forall j, x | 0 <= j < |g| && x in g[j]
      ensures x < n
    {
      var a :| 0 <= a < |g[j]| && g[j][a] == x;
    }
  }
}
