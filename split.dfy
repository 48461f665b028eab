/** Weight partitioning, `getSplit` (src/run_osif.py lines 26-27): the incoming indices of a
    neuron are sorted by weight (`np.argsort`) and cut into `nSplits` contiguous near-equal
    chunks (`np.array_split`). */
module Split {
  import opened Sums

  datatype Option<T> = None | Some(value: T)

  /** The weights are nondecreasing along the index sequence `p`. */
  predicate SortedBy(m: seq<real>, p: seq<nat>)
    requires InRange(p, |m|)
  {
    forall a, b :: 0 <= a < b < |p| ==> m[p[a]] <= m[p[b]]
  }

  /** What `np.argsort(m)` promises: a permutation of the indices of `m` along which the
      weights are nondecreasing. The order among equal weights is left open. */
  predicate IsArgSort(m: seq<real>, p: seq<nat>)
  {
    |p| == |m| && InRange(p, |m|) && multiset(p) == multiset(Iota(|m|)) && SortedBy(m, p)
  }

  /** Inserts index `i` into `s` just before the first index of strictly larger weight. */
  function Insert(m: seq<real>, s: seq<nat>, i: nat): (r: seq<nat>)
    requires InRange(s, |m|) && i < |m|
    ensures |r| == |s| + 1 && InRange(r, |m|)
  {
    if s == [] then [i]
    else if m[i] < m[s[0]] then [i] + s
    else [s[0]] + Insert(m, s[1..], i)
  }

  /** Insertion adds exactly the one index. */
  lemma {:induction false} InsertPerm(m: seq<real>, s: seq<nat>, i: nat)
    requires InRange(s, |m|) && i < |m|
    ensures multiset(Insert(m, s, i)) == multiset(s) + multiset{i}
  {
    if s != [] && m[s[0]] <= m[i] {
      InsertPerm(m, s[1..], i);
      assert s == [s[0]] + s[1..];
    }
  }

  /** Insertion adds only the one index. */
  lemma {:induction false} InsertMembers(m: seq<real>, s: seq<nat>, i: nat)
    requires InRange(s, |m|) && i < |m|
    ensures forall y :: y in Insert(m, s, i) ==> y == i || y in s
  {
    if s != [] && m[s[0]] <= m[i] {
      InsertMembers(m, s[1..], i);
    }
  }

  /** Insertion keeps the weights nondecreasing. */
  lemma {:induction false} InsertSorted(m: seq<real>, s: seq<nat>, i: nat)
    requires InRange(s, |m|) && i < |m| && SortedBy(m, s)
    ensures SortedBy(m, Insert(m, s, i))
  {
    if s != [] && m[s[0]] <= m[i] {
      var r' := Insert(m, s[1..], i);
      InsertSorted(m, s[1..], i);
      InsertMembers(m, s[1..], i);
      forall b | 0 <= b < |r'|
        ensures m[s[0]] <= m[r'[b]]
      {
        assert r'[b] in r';
        if r'[b] != i {
          var a :| 0 <= a < |s[1..]| && s[1..][a] == r'[b];
          assert s[a + 1] == r'[b];
        }
      }
      assert Insert(m, s, i) == [s[0]] + r';
    }
  }

  /** Argsort of the first `n` indices, by insertion. */
  function ArgSortPrefix(m: seq<real>, n: nat): (p: seq<nat>)
    requires n <= |m|
    ensures |p| == n && InRange(p, |m|)
  {
    if n == 0 then [] else Insert(m, ArgSortPrefix(m, n - 1), n - 1)
  }

  lemma {:induction false} ArgSortPrefixPerm(m: seq<real>, n: nat)
    requires n <= |m|
    ensures multiset(ArgSortPrefix(m, n)) == multiset(Iota(n))
  {
    if n > 0 {
      var p := ArgSortPrefix(m, n - 1);
      ArgSortPrefixPerm(m, n - 1);
      InsertPerm(m, p, n - 1);
      IotaSnoc(n);
      assert multiset(Iota(n)) == multiset(Iota(n - 1)) + multiset([n - 1]);
    }
  }

  lemma {:induction false} ArgSortPrefixSorted(m: seq<real>, n: nat)
    requires n <= |m|
    ensures SortedBy(m, ArgSortPrefix(m, n))
  {
    if n > 0 {
      ArgSortPrefixSorted(m, n - 1);
      InsertSorted(m, ArgSortPrefix(m, n - 1), n - 1);
    }
  }

  /** An argsort routine: a function from weights to index sequences. */
  type Sorter = seq<real> -> seq<nat>

  /** `np.argsort` promises an argsort of every input and nothing about the order among equal
      weights, so the model takes it as any routine meeting this predicate. */
  ghost predicate ValidSorter(sort: Sorter)
  {
    forall m :: SortsAt(sort, m)
  }

  predicate SortsAt(sort: Sorter, m: seq<real>)
  {
    IsArgSort(m, sort(m))
  }

  /** One argsort routine, breaking ties by index order; it shows that `ValidSorter` can be met. */
  function ArgSort(m: seq<real>): seq<nat>
  {
    ArgSortPrefix(m, |m|)
  }

  /** The argsort is a permutation of the indices of `m` that sorts the weights. */
  lemma ArgSortSpec(m: seq<real>)
    ensures IsArgSort(m, ArgSort(m))
  {
    ArgSortPrefixPerm(m, |m|);
    ArgSortPrefixSorted(m, |m|);
  }

  lemma ArgSortValid()
    ensures ValidSorter(ArgSort)
  {
    forall m
      ensures SortsAt(ArgSort, m)
    {
      ArgSortSpec(m);
    }
  }

  function Min(a: nat, b: nat): nat
  {
    if a < b then a else b
  }

  /** Where chunk `i` of `np.array_split` begins: the running sum of the chunk sizes, the first
      `rem` chunks holding `q + 1` elements and the others `q` (`q, rem = divmod(n, k)`). */
  function SectionStart(q: nat, rem: nat, i: nat): nat
  {
    if i == 0 then 0 else SectionStart(q, rem, i - 1) + q + (if i - 1 < rem then 1 else 0)
  }

  lemma {:induction false} SectionStartClosed(q: nat, rem: nat, i: nat)
    ensures SectionStart(q, rem, i) == i * q + Min(i, rem)
  {
    if i > 0 {
      SectionStartClosed(q, rem, i - 1);
      assert i * q == (i - 1) * q + q;
    }
  }

  /** The last of `k` chunks ends at `n`. */
  lemma SectionEnd(n: nat, k: nat)
    requires k >= 1
    ensures SectionStart(n / k, n % k, k) == n
  {
    SectionStartClosed(n / k, n % k, k);
    assert Min(k, n % k) == n % k;
    assert k * (n / k) + n % k == n;
  }

  /** Chunks never begin before an earlier one. */
  lemma {:induction false} SectionMono(q: nat, rem: nat, i: nat, j: nat)
    requires i <= j
    ensures SectionStart(q, rem, i) <= SectionStart(q, rem, j)
    decreases j - i
  {
    if i < j {
      SectionMono(q, rem, i, j - 1);
    }
  }

  /** `k` consecutive slices of `s`, the `i`-th being `s[start(i) .. start(i + 1)]`. */
  function Chunks(s: seq<nat>, q: nat, rem: nat, k: nat): (r: seq<seq<nat>>)
    requires SectionStart(q, rem, k) <= |s|
    ensures |r| == k
  {
    seq(k, i requires 0 <= i < k =>
      SectionMono(q, rem, i + 1, k);
      s[SectionStart(q, rem, i)..SectionStart(q, rem, i + 1)])
  }

  lemma {:induction false} ChunksFlattenPrefix(s: seq<nat>, q: nat, rem: nat, k: nat, j: nat)
    requires SectionStart(q, rem, k) <= |s| && j <= k
    ensures SectionStart(q, rem, j) <= |s|
    ensures Flatten(Chunks(s, q, rem, k)[..j]) == s[..SectionStart(q, rem, j)]
  {
    SectionMono(q, rem, j, k);
    if j > 0 {
      var r := Chunks(s, q, rem, k);
      ChunksFlattenPrefix(s, q, rem, k, j - 1);
      SectionMono(q, rem, j - 1, j);
      FlattenExtend(s, r, j, SectionStart(q, rem, j - 1), SectionStart(q, rem, j));
    }
  }

  /** A prefix of chunks that spells `s[..a]`, followed by the chunk `s[a..c]`, spells `s[..c]`. */
  lemma FlattenExtend(s: seq<nat>, r: seq<seq<nat>>, j: nat, a: nat, c: nat)
    requires 0 < j <= |r| && a <= c <= |s|
    requires Flatten(r[..j - 1]) == s[..a] && r[j - 1] == s[a..c]
    ensures Flatten(r[..j]) == s[..c]
  {
    assert r[..j][..j - 1] == r[..j - 1];
    assert s[..c] == s[..a] + s[a..c];
  }

  /** The chunks of `np.array_split(s, k)`. */
  function Sections(s: seq<nat>, k: nat): (r: seq<seq<nat>>)
    requires k >= 1
    ensures |r| == k
  {
    SectionEnd(|s|, k);
    Chunks(s, |s| / k, |s| % k, k)
  }

  /** `np.array_split(s, k)`; numpy refuses `k <= 0`. */
  function ArraySplit(s: seq<nat>, k: int): (r: Option<seq<seq<nat>>>)
    ensures r.Some? <==> k >= 1
    ensures r.Some? ==> |r.value| == k
  {
    if k < 1 then None else Some(Sections(s, k))
  }

  /** `np.array_split(s, k)` gives `k` contiguous chunks that together are `s`, the first `|s| % k`
      of them one element longer than the rest. */
  lemma ArraySplitSpec(s: seq<nat>, k: int)
    requires k >= 1
    ensures Flatten(ArraySplit(s, k).value) == s
    ensures forall i :: 0 <= i < k ==>
      |ArraySplit(s, k).value[i]| == |s| / k + (if i < |s| % k then 1 else 0)
  {
    var q, rem := |s| / k, |s| % k;
    SectionEnd(|s|, k);
    var r := Chunks(s, q, rem, k);
    assert Sections(s, k) == r;
    ChunksFlattenPrefix(s, q, rem, k, k);
    assert r[..k] == r;
    forall i | 0 <= i < k
      ensures |r[i]| == q + (if i < rem then 1 else 0)
    {
      SectionMono(q, rem, i + 1, k);
    }
  }

  /** A permutation of `0..n-1` cut into consecutive chunks is a partition of `0..n-1`. */
  lemma ChunksOfPermutation(g: seq<seq<nat>>, n: nat)
    requires InRange(Flatten(g), n) && multiset(Flatten(g)) == multiset(Iota(n))
    ensures IsPartition(g, n)
  {
    forall j, a | 0 <= j < |g| && 0 <= a < |g[j]|
      ensures g[j][a] < n
    {
      FlattenHasGroup(g, j);
      assert g[j][a] in multiset(Flatten(g));
      IotaCount(n, g[j][a]);
    }
  }

  /** `getSplit(m, nSplits)` with `sort` as `np.argsort`: `nSplits` groups of indices of `m`;
      `None` where numpy raises (`nSplits <= 0`). */
  function GetSplit(sort: Sorter, m: seq<real>, nSplits: int): (r: Option<seq<seq<nat>>>)
    requires ValidSorter(sort)
    ensures r.Some? <==> nSplits >= 1
    ensures r.Some? ==> |r.value| == nSplits && GroupsInRange(r.value, |m|)
  {
    if nSplits < 1 then None
    else
      assert SortsAt(sort, m);
      ArraySplitSpec(sort(m), nSplits);
      ChunksOfPermutation(ArraySplit(sort(m), nSplits).value, |m|);
      ArraySplit(sort(m), nSplits)
  }

  /** `getSplit` returns `nSplits` chunks whose concatenation is an argsort of `m`, so that they
      partition the indices of `m` and sort them by weight, the first `len(m) % nSplits` of them
      one index longer than the others. */
  lemma GetSplitSpec(sort: Sorter, m: seq<real>, nSplits: int)
    requires ValidSorter(sort) && nSplits >= 1
    ensures var g := GetSplit(sort, m, nSplits).value;
      && IsArgSort(m, Flatten(g)) && IsPartition(g, |m|)
      && forall i :: 0 <= i < nSplits ==> |g[i]| == |m| / nSplits + (if i < |m| % nSplits then 1 else 0)
  {
    assert SortsAt(sort, m);
    ArraySplitSpec(sort(m), nSplits);
    ChunksOfPermutation(ArraySplit(sort(m), nSplits).value, |m|);
  }

  /** The chunks of `getSplit` are pairwise disjoint, cover every index of `m` and hold no other
      index. */
  lemma GetSplitPartition(sort: Sorter, m: seq<real>, nSplits: int)
    requires ValidSorter(sort) && nSplits >= 1
    ensures var g := GetSplit(sort, m, nSplits).value;
      && (forall i, j, x :: 0 <= i < |g| && 0 <= j < |g| && i != j && x in g[i] ==> x !in g[j])
      && (forall x: nat :: x < |m| ==> Covered(g, x))
      && (forall j, x :: 0 <= j < |g| && x in g[j] ==> x < |m|)
  {
    GetSplitSpec(sort, m, nSplits);
    PartitionDisjointCover(GetSplit(sort, m, nSplits).value, |m|);
  }

  /** Chunk sizes differ by at most one. */
  lemma GetSplitBalanced(sort: Sorter, m: seq<real>, nSplits: int, i: nat, j: nat)
    requires ValidSorter(sort) && nSplits >= 1 && i < nSplits && j < nSplits
    ensures var g := GetSplit(sort, m, nSplits).value;
      |g[i]| <= |g[j]| + 1 && (i <= j ==> |g[j]| <= |g[i]|)
  {
    GetSplitSpec(sort, m, nSplits);
  }
}
