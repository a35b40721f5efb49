/** Cluster chains in the FAT: what a well-formed set of chains is, how chains
    are opened, extended and closed, and how many clusters are free. */
module FsChains {
  import opened Bytes
  import opened FsLayout

  // ---------- counting ----------

  /** Free clusters among the first n entries. */
  function FreeCount(fat: seq<int>, n: nat): (c: nat)
    requires n <= |fat|
    ensures c <= n
  {
    if n == 0 then 0 else FreeCount(fat, n - 1) + if fat[n - 1] == FREE_CLUSTER then 1 else 0
  }

  lemma {:induction false} FreeCountUpdate(fat: seq<int>, n: nat, i: nat, v: int)
    requires i < |fat| && n <= |fat|
    ensures FreeCount(fat[i := v], n) == FreeCount(fat, n)
      + if i >= n then 0 else (if v == FREE_CLUSTER then 1 else 0) - (if fat[i] == FREE_CLUSTER then 1 else 0)
  {
    if n > 0 {
      FreeCountUpdate(fat, n - 1, i, v);
    }
  }

  lemma {:induction false} FreeCountMonotone(fat: seq<int>, m: nat, n: nat)
    requires m <= n <= |fat|
    ensures FreeCount(fat, m) <= FreeCount(fat, n)
  {
    if m < n {
      FreeCountMonotone(fat, m, n - 1);
    }
  }

  lemma {:induction false} FreeCountZero(fat: seq<int>, n: nat)
    requires n <= |fat| && forall i :: 0 <= i < n ==> fat[i] != FREE_CLUSTER
    ensures FreeCount(fat, n) == 0
  {
    if n > 0 {
      FreeCountZero(fat, n - 1);
    }
  }

  lemma {:induction false} FreeCountGap(fat: seq<int>, m: nat, n: nat)
    requires m <= n <= |fat| && forall i :: m <= i < n ==> fat[i] != FREE_CLUSTER
    ensures FreeCount(fat, n) == FreeCount(fat, m)
    decreases n
  {
    if m < n {
      FreeCountGap(fat, m, n - 1);
    }
  }

  lemma CountsApart(fat: seq<int>, a: nat, b: nat)
    requires a < b <= |fat| && fat[a] == FREE_CLUSTER
    ensures FreeCount(fat, a) < FreeCount(fat, b)
  {
    FreeCountMonotone(fat, a + 1, b);
  }

  /** Of the first n clusters the free one below which k others are free, or -1. */
  function NthFree(fat: seq<int>, k: int, n: nat): int
    requires n <= |fat|
  {
    if n == 0 then -1
    else if fat[n - 1] == FREE_CLUSTER && FreeCount(fat, n - 1) == k then n - 1
    else NthFree(fat, k, n - 1)
  }

  lemma {:induction false} NthFreeIs(fat: seq<int>, x: nat, n: nat)
    requires x < n <= |fat| && fat[x] == FREE_CLUSTER
    ensures NthFree(fat, FreeCount(fat, x), n) == x
    decreases n
  {
    if x < n - 1 {
      FreeCountMonotone(fat, x + 1, n - 1);
      NthFreeIs(fat, x, n - 1);
    }
  }

  /** Behind its first cluster, p consists of the free clusters in their order, from the least one on. */
  ghost predicate FirstFit(fat: seq<int>, p: seq<int>) {
    forall k :: 1 <= k < |p| ==> 0 <= p[k] < |fat| && fat[p[k]] == FREE_CLUSTER && FreeCount(fat, p[k]) == k - 1
  }

  /** The clusters xs are free as well. */
  function Freed(fat: seq<int>, xs: seq<int>): (r: seq<int>)
    ensures |r| == |fat| && forall x :: 0 <= x < |fat| ==> r[x] == if x in xs then FREE_CLUSTER else fat[x]
  {
    seq(|fat|, x requires 0 <= x < |fat| => if x in xs then FREE_CLUSTER else fat[x])
  }

  lemma {:induction false} FreeCountAll(fat: seq<int>, n: nat)
    requires n <= |fat| && forall i :: 0 <= i < n ==> fat[i] == FREE_CLUSTER
    ensures FreeCount(fat, n) == n
  {
    if n > 0 {
      FreeCountAll(fat, n - 1);
    }
  }

  // ---------- chains ----------

  // Index 0xFFE reads as "free" when it is stored as a link, so no chain may hold it.
  const CHAIN_LIMIT: int := FREE_CLUSTER

  /** p is linked up to its last cluster, whose own entry is not "free". */
  ghost predicate OpenChain(fat: seq<int>, p: seq<int>) {
    && |fat| == CLUSTER_COUNT && |p| >= 1
    && (forall i :: 0 <= i < |p| ==> 0 <= p[i] < CHAIN_LIMIT)
    && (forall i, j :: 0 <= i < j < |p| ==> p[i] != p[j])
    && (forall i :: 0 <= i < |p| - 1 ==> fat[p[i]] == p[i + 1])
    && fat[p[|p| - 1]] != FREE_CLUSTER
  }

  /** A chain of at least one data cluster, closed by its own EOF cluster. */
  ghost predicate IsChain(fat: seq<int>, c: seq<int>) {
    OpenChain(fat, c) && |c| >= 2 && fat[c[|c| - 1]] == EOF_CLUSTER
  }

  ghost predicate Apart(a: seq<int>, b: seq<int>) {
    forall x :: x in a ==> x !in b
  }

  /** Every chain but number j is closed, chain j is open with the clusters p,
      no two of them share a cluster, and cluster 0xFFE is unused. */
  ghost predicate FatOpen(fat: seq<int>, cs: seq<seq<int>>, j: nat, p: seq<int>) {
    && |fat| == CLUSTER_COUNT && fat[CHAIN_LIMIT] == FREE_CLUSTER
    && (forall i :: 0 <= i < |cs| && i != j ==> IsChain(fat, cs[i]))
    && (forall i, k :: 0 <= i < k < |cs| && i != j && k != j ==> Apart(cs[i], cs[k]))
    && OpenChain(fat, p)
    && (forall i :: 0 <= i < |cs| && i != j ==> Apart(cs[i], p))
  }

  ghost predicate FatWf(fat: seq<int>, cs: seq<seq<int>>) {
    && |fat| == CLUSTER_COUNT && fat[CHAIN_LIMIT] == FREE_CLUSTER
    && (forall i :: 0 <= i < |cs| ==> IsChain(fat, cs[i]))
    && (forall i, k :: 0 <= i < k < |cs| ==> Apart(cs[i], cs[k]))
  }

  lemma ApartSymmetric(a: seq<int>, b: seq<int>)
    ensures Apart(a, b) <==> Apart(b, a)
  {
  }

  /** An entry of a closed chain is never "free", nor is it a sentinel before the end. */
  lemma ChainNotFree(fat: seq<int>, p: seq<int>, x: int)
    requires OpenChain(fat, p) && x in p
    ensures 0 <= x < |fat| && fat[x] != FREE_CLUSTER
  {
    var i :| 0 <= i < |p| && p[i] == x;
    if i < |p| - 1 {
      assert fat[p[i]] == p[i + 1];
    }
  }

  /** Only the last cluster of a chain has an end-of-file entry. */
  lemma ChainEnd(fat: seq<int>, c: seq<int>, m: nat)
    requires IsChain(fat, c) && m < |c|
    ensures 0 <= c[m] < |fat| && (fat[c[m]] == EOF_CLUSTER <==> m == |c| - 1)
  {
    assert m < |c| - 1 ==> fat[c[m]] == c[m + 1];
  }

  lemma ChainFrame(fat: seq<int>, fat': seq<int>, p: seq<int>)
    requires |fat'| == |fat| && forall x :: x in p ==> 0 <= x < |fat| && fat'[x] == fat[x]
    ensures OpenChain(fat, p) ==> OpenChain(fat', p)
    ensures IsChain(fat, p) ==> IsChain(fat', p)
  {
    if OpenChain(fat, p) {
      assert forall i :: 0 <= i < |p| ==> p[i] in p;
    }
  }

  /** Walking the links from the first cluster can only visit the chain's clusters, in order:
      a chain is determined by where it starts. */
  lemma {:induction false} ChainDetermined(fat: seq<int>, c: seq<int>, d: seq<int>, i: nat)
    requires IsChain(fat, c) && IsChain(fat, d) && c[0] == d[0] && i < |c|
    ensures i < |d| && c[i] == d[i]
  {
    if i > 0 {
      ChainDetermined(fat, c, d, i - 1);
      assert fat[c[i - 1]] == c[i] < CHAIN_LIMIT;
      assert i - 1 < |d| - 1;
    }
  }

  /** The links alone rule out cycles: a linked list of clusters that ends in EOF visits none twice. */
  lemma {:induction false} LinkedIsAcyclic(fat: seq<int>, c: seq<int>, i: nat, j: nat)
    requires |c| >= 1 && forall k :: 0 <= k < |c| ==> 0 <= c[k] < CHAIN_LIMIT && c[k] < |fat|
    requires forall k :: 0 <= k < |c| - 1 ==> fat[c[k]] == c[k + 1]
    requires fat[c[|c| - 1]] == EOF_CLUSTER
    requires i < j < |c|
    ensures c[i] != c[j]
    decreases |c| - j
  {
    assert fat[c[i]] == c[i + 1];
    if j < |c| - 1 {
      assert fat[c[j]] == c[j + 1];
      LinkedIsAcyclic(fat, c, i + 1, j + 1);
    }
  }

  // ---------- steps on chains ----------

  /** Linking a free cluster behind an open chain. */
  lemma ExtendOpen(fat: seq<int>, cs: seq<seq<int>>, j: nat, p: seq<int>, x: int, v: int)
    requires FatOpen(fat, cs, j, p)
    requires 0 <= x < CHAIN_LIMIT && fat[x] == FREE_CLUSTER && v != FREE_CLUSTER
    ensures FatOpen(fat[x := v][p[|p| - 1] := x], cs, j, p + [x])
    ensures x !in p && forall i :: 0 <= i < |cs| && i != j ==> x !in cs[i]
  {
    var last := p[|p| - 1];
    assert last in p;
    var fat' := fat[x := v][last := x];
    if x in p { ChainNotFree(fat, p, x); }
    forall i | 0 <= i < |cs| && i != j
      ensures IsChain(fat', cs[i]) && Apart(cs[i], p + [x]) && x !in cs[i]
    {
      if x in cs[i] { ChainNotFree(fat, cs[i], x); }
      assert Apart(cs[i], p);
      assert last !in cs[i];
      forall y | y in cs[i] ensures 0 <= y < |fat| && fat'[y] == fat[y] { ChainNotFree(fat, cs[i], y); }
      ChainFrame(fat, fat', cs[i]);
    }
    var q := p + [x];
    forall i, k | 0 <= i < k < |q| ensures q[i] != q[k] {
      if k == |p| { assert q[i] in p; }
    }
    forall i | 0 <= i < |q| - 1 ensures fat'[q[i]] == q[i + 1] {
      if i < |p| - 1 { assert q[i] in p; }
    }
  }

  /** Marking the last cluster of an open chain as EOF closes it. */
  lemma CloseOpen(fat: seq<int>, cs: seq<seq<int>>, j: nat, p: seq<int>)
    requires FatOpen(fat, cs, j, p) && |p| >= 2 && j <= |cs|
    ensures FatWf(fat[p[|p| - 1] := EOF_CLUSTER], if j < |cs| then cs[j := p] else cs + [p])
  {
    var last := p[|p| - 1];
    assert last in p;
    var fat' := fat[last := EOF_CLUSTER];
    var ds := if j < |cs| then cs[j := p] else cs + [p];
    forall i | 0 <= i < |cs| && i != j ensures IsChain(fat', cs[i]) {
      assert Apart(cs[i], p);
      assert last !in cs[i];
      forall y | y in cs[i] ensures 0 <= y < |fat| && fat'[y] == fat[y] { ChainNotFree(fat, cs[i], y); }
      ChainFrame(fat, fat', cs[i]);
    }
    assert IsChain(fat', p);
    forall i, k | 0 <= i < k < |ds| ensures Apart(ds[i], ds[k]) {
      if i == j { ApartSymmetric(ds[k], p); }
    }
  }

  /** Keeping only the first m clusters of chain j and releasing everything behind them. */
  lemma CutChain(fat: seq<int>, fat': seq<int>, cs: seq<seq<int>>, j: nat, m: nat)
    requires FatWf(fat, cs) && j < |cs| && 1 <= m < |cs[j]| && |fat'| == |fat|
    requires forall x :: 0 <= x < |fat| && x !in cs[j][m..] ==> fat'[x] == fat[x]
    ensures FatOpen(fat', cs, j, cs[j][..m])
  {
    var c := cs[j];
    var p := c[..m];
    forall i | 0 <= i < |c| && c[i] in c[m..] ensures i >= m {
      var k :| 0 <= k < |c[m..]| && c[m..][k] == c[i];
      assert c[m + k] == c[i];
    }
    assert forall i :: 0 <= i < m ==> c[i] !in c[m..];
    assert p[m - 1] == c[m - 1] && fat[c[m - 1]] == c[m];
    assert forall x :: x in c[m..] ==> x in c;
    forall i | 0 <= i < |cs| && i != j ensures IsChain(fat', cs[i]) && Apart(cs[i], p) {
      assert Apart(cs[i], c) by {
        ApartSymmetric(cs[i], c);
        assert Apart(cs[if i < j then i else j], cs[if i < j then j else i]);
      }
      forall y | y in cs[i] ensures 0 <= y < |fat| && fat'[y] == fat[y] {
        ChainNotFree(fat, cs[i], y);
        assert y !in c;
      }
      ChainFrame(fat, fat', cs[i]);
    }
  }

  /** Removing a chain that is open at its first cluster only, by releasing that cluster. */
  lemma DropChain(fat: seq<int>, cs: seq<seq<int>>, j: nat, s: int)
    requires FatOpen(fat, cs, j, [s]) && j < |cs|
    ensures FatWf(fat[s := FREE_CLUSTER], cs[..j] + cs[j + 1..])
  {
    var fat' := fat[s := FREE_CLUSTER];
    var ds := cs[..j] + cs[j + 1..];
    forall i | 0 <= i < |cs| && i != j ensures IsChain(fat', cs[i]) {
      assert s in [s] && Apart(cs[i], [s]);
      forall y | y in cs[i] ensures 0 <= y < |fat| && fat'[y] == fat[y] { ChainNotFree(fat, cs[i], y); }
      ChainFrame(fat, fat', cs[i]);
    }
    forall i | 0 <= i < |ds| ensures ds[i] == cs[if i < j then i else i + 1] {}
  }

  // ---------- data ----------

  ghost predicate SameCluster(d: seq<byte>, d': seq<byte>, x: int) {
    && |d| == |d'| == DATA_SIZE && 0 <= x < CLUSTER_COUNT
    && d[CLUSTER_SIZE * x..CLUSTER_SIZE * x + CLUSTER_SIZE] == d'[CLUSTER_SIZE * x..CLUSTER_SIZE * x + CLUSTER_SIZE]
  }

  ghost predicate InRange(c: seq<int>) {
    forall i :: 0 <= i < |c| ==> 0 <= c[i] < CLUSTER_COUNT
  }

  /** The first `size` bytes stored in the data clusters of chain c. */
  ghost function Contents(data: seq<byte>, c: seq<int>, size: nat): (b: seq<byte>)
    requires |data| == DATA_SIZE && InRange(c) && size <= CLUSTER_SIZE * (|c| - 1)
    ensures |b| == size
    ensures forall k :: 0 <= k < size ==> b[k] == data[CLUSTER_SIZE * c[k / CLUSTER_SIZE] + k % CLUSTER_SIZE]
  {
    seq(size, k requires 0 <= k < size => data[CLUSTER_SIZE * c[k / CLUSTER_SIZE] + k % CLUSTER_SIZE])
  }

  lemma SameClusterAt(d: seq<byte>, d': seq<byte>, x: int, m: nat)
    requires SameCluster(d, d', x) && m < CLUSTER_SIZE
    ensures d[CLUSTER_SIZE * x + m] == d'[CLUSTER_SIZE * x + m]
  {
    assert d[CLUSTER_SIZE * x..CLUSTER_SIZE * x + CLUSTER_SIZE][m]
      == d'[CLUSTER_SIZE * x..CLUSTER_SIZE * x + CLUSTER_SIZE][m];
  }

  lemma ContentsFrame(d: seq<byte>, d': seq<byte>, c: seq<int>, size: nat)
    requires InRange(c) && size <= CLUSTER_SIZE * (|c| - 1)
    requires |d| == |d'| == DATA_SIZE
    requires forall k :: 0 <= k < |c| - 1 ==> SameCluster(d, d', c[k])
    ensures Contents(d, c, size) == Contents(d', c, size)
  {
    forall k | 0 <= k < size
      ensures Contents(d, c, size)[k] == Contents(d', c, size)[k]
    {
      SameClusterAt(d, d', c[k / CLUSTER_SIZE], k % CLUSTER_SIZE);
    }
  }

  /** Writing src at `at` leaves alone every cluster it does not reach into. */
  lemma SpliceSameCluster(d: seq<byte>, at: nat, src: seq<byte>, x: int)
    requires |d| == DATA_SIZE && at + |src| <= |d| && 0 <= x < CLUSTER_COUNT
    requires at + |src| <= CLUSTER_SIZE * x || CLUSTER_SIZE * x + CLUSTER_SIZE <= at
    ensures SameCluster(d, Spliced(d, at, src), x)
  {
    var lo, hi := CLUSTER_SIZE * x, CLUSTER_SIZE * x + CLUSTER_SIZE;
    var u, v := d[lo..hi], Spliced(d, at, src)[lo..hi];
    forall k | 0 <= k < CLUSTER_SIZE ensures u[k] == v[k] {}
  }
}
