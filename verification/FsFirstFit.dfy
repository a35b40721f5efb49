/** First fit: which clusters are taken, told from the FAT before, and what that means for where
    everything lies. */
module FsFirstFit {
  import opened Bytes
  import opened FsLayout
  import opened FsChains
  import opened FsState

  // ---------- clusters taken one after the other ----------

  /** The clusters p behind the first were taken by first fit from f0, wherever the first one lies. */
  ghost predicate Taken(f0: seq<int>, fat: seq<int>, p: seq<int>) {
    && |f0| == |fat| == CLUSTER_COUNT && p != [] && FirstFit(f0, p)
    && forall x :: 0 <= x < |fat| ==> (fat[x] == FREE_CLUSTER <==> f0[x] == FREE_CLUSTER && x !in p[1..])
  }

  lemma TakenStart(f0: seq<int>, x: int)
    requires |f0| == CLUSTER_COUNT
    ensures Taken(f0, f0, [x])
  {
  }

  /** A free cluster that is not in p lies behind all of p. */
  lemma BehindTaken(f0: seq<int>, fat: seq<int>, p: seq<int>, x: nat)
    requires Taken(f0, fat, p) && x < |fat| && fat[x] == FREE_CLUSTER
    ensures forall k :: 1 <= k < |p| ==> p[k] < x
  {
    if k :| 1 <= k < |p| && p[k] >= x {
      assert p[1..][k - 1] == p[k];
      var j := FreeCount(f0, x);
      CountsApart(f0, x, p[k]);
      assert p[1..][j] == p[j + 1];
      var y := p[j + 1];
      if x < y { CountsApart(f0, x, y); } else if y < x { CountsApart(f0, y, x); }
    }
  }

  /** Cluster x was taken, the least one that was free. */
  predicate OneTaken(fat: seq<int>, fat': seq<int>, x: int) {
    && |fat| == |fat'| && 0 <= x < |fat| && fat[x] == FREE_CLUSTER
    && (forall y :: 0 <= y < x ==> fat[y] != FREE_CLUSTER)
    && forall y :: 0 <= y < |fat| ==> (fat'[y] == FREE_CLUSTER <==> fat[y] == FREE_CLUSTER && y != x)
  }

  lemma TakenNext(f0: seq<int>, fat: seq<int>, fat': seq<int>, p: seq<int>, x: int)
    requires Taken(f0, fat, p) && OneTaken(fat, fat', x)
    ensures Taken(f0, fat', p + [x])
  {
    assert (p + [x])[1..] == p[1..] + [x];
    if |p| == 1 {
      FreeCountZero(f0, x);
    } else {
      var last := p[|p| - 1];
      BehindTaken(f0, fat, p, x);
      forall y | last < y < x ensures f0[y] != FREE_CLUSTER {
        if y in p[1..] {
          InOrderOfCount(f0, p, y);
        }
      }
      FreeCountGap(f0, last + 1, x);
    }
  }

  lemma InOrderOfCount(f0: seq<int>, p: seq<int>, y: int)
    requires p != [] && FirstFit(f0, p) && y in p[1..]
    ensures y <= p[|p| - 1]
  {
    var k :| 0 <= k < |p| - 1 && p[1..][k] == y;
    var last := p[|p| - 1];
    assert p[k + 1] == y;
    if last < y { CountsApart(f0, last, y); }
  }

  /** The cluster that is number q to be filled. */
  function NthFilled(f0: seq<int>, start: int, q: nat): int { if q == 0 then start else NthFree(f0, q - 1, |f0|) }

  lemma FilledIs(f0: seq<int>, fat: seq<int>, p: seq<int>, q: nat)
    requires Taken(f0, fat, p) && q < |p|
    ensures p[q] == NthFilled(f0, p[0], q)
  {
    if q > 0 {
      NthFreeIs(f0, p[q], |f0|);
    }
  }

  /** A chain of m clusters that is filled from `start` on by first fit, while more than one of `free` clusters is
      left, meets what the directory's last copy has reached. */
  ghost predicate FillsSpill(f0: seq<int>, start: int, m: nat, free: nat, last: int, n: nat) {
    exists q: nat :: q < m && q < free && InSpill(last, n, NthFilled(f0, start, q))
  }

  lemma FillsBare(f: seq<int>, start: int, m: nat, free: nat, last: int, n: nat)
    ensures FillsSpill(Bare(f), start, m, free, last, n) <==> FillsSpill(f, start, m, free, last, n)
  {
    hide InSpill;
    forall q: nat ensures NthFilled(Bare(f), start, q) == NthFilled(f, start, q) {
      BareNth(f, q - 1, |f|);
    }
  }

  lemma FittedTaken(f0: seq<int>, fat: seq<int>, q: seq<int>)
    requires Fitted(f0, fat, q) && q != [] && q[0] == 0
    ensures Taken(f0, fat, q)
  {
    forall x | 0 <= x < |fat| && f0[x] == FREE_CLUSTER ensures x in q <==> x in q[1..] {
      assert q == [q[0]] + q[1..];
    }
  }

  /** It does not matter how a taken cluster is marked. */
  lemma TakenMarked(f0: seq<int>, f: seq<int>, p: seq<int>, x: nat, v: int)
    requires Taken(f0, f, p) && x < |f| && f[x] != FREE_CLUSTER && v != FREE_CLUSTER
    ensures Taken(f0, f[x := v], p)
  {
  }

  // ---------- all of them together ----------

  /** A FAT that says nothing but which clusters are free. */
  function Bare(fat: seq<int>): (r: seq<int>)
    ensures |r| == |fat|
    ensures forall x :: 0 <= x < |fat| ==> r[x] == if fat[x] == FREE_CLUSTER then FREE_CLUSTER else TAKEN_CLUSTER
  {
    seq(|fat|, x requires 0 <= x < |fat| => if fat[x] == FREE_CLUSTER then FREE_CLUSTER else TAKEN_CLUSTER)
  }

  /** The first m of the free clusters, in order. */
  function FirstFrees(f: seq<int>, m: nat): (p: seq<int>)
    ensures |p| == m
  {
    seq(m, q => NthFree(f, q, |f|))
  }

  /** These are taken. */
  function TakeFirst(f: seq<int>, m: nat): (r: seq<int>)
    ensures |r| == |f|
  {
    seq(|f|, x requires 0 <= x < |f| => if f[x] == FREE_CLUSTER && FreeCount(f, x) < m then TAKEN_CLUSTER else f[x])
  }

  lemma {:induction false} BareCount(f: seq<int>, n: nat)
    requires n <= |f|
    ensures FreeCount(Bare(f), n) == FreeCount(f, n)
  {
    if n > 0 { BareCount(f, n - 1); }
  }

  lemma {:induction false} BareNth(f: seq<int>, k: int, n: nat)
    requires n <= |f|
    ensures NthFree(Bare(f), k, n) == NthFree(f, k, n)
  {
    if n > 0 {
      BareCount(f, n - 1);
      BareNth(f, k, n - 1);
    }
  }

  lemma BareFreed(f: seq<int>, xs: seq<int>)
    ensures Bare(Freed(f, xs)) == Freed(Bare(f), xs)
  {
  }

  /** What a cut releases. */
  lemma BareCut(f: seq<int>, fat: seq<int>, c: seq<int>, sc: nat)
    requires IsChain(f, c) && sc + 1 < |c| && CutUpTo(f, fat, c, sc, |c| - 1)
    ensures Bare(fat) == Freed(Bare(f), if sc + 2 < |c| then c[sc + 2..|c| - 1] else [])
  {
    if sc + 2 < |c| {
      ChainNotFree(f, c, c[sc + 1]);
      assert c[sc + 1..|c| - 1] == [c[sc + 1]] + c[sc + 2..|c| - 1];
    }
  }

  /** Clusters that were taken by first fit are the first of those that were free, and no others are taken. */
  lemma TakenAll(f0: seq<int>, fat: seq<int>, p: seq<int>)
    requires Taken(f0, fat, p)
    ensures Bare(fat) == TakeFirst(Bare(f0), |p| - 1) && p[1..] == FirstFrees(Bare(f0), |p| - 1)
  {
    var m := |p| - 1;
    forall q | 0 <= q < m ensures p[1..][q] == NthFree(Bare(f0), q, |f0|) {
      FilledIs(f0, fat, p, q + 1);
      BareNth(f0, q, |f0|);
    }
    forall x | 0 <= x < |f0| ensures Bare(fat)[x] == TakeFirst(Bare(f0), m)[x] {
      BareCount(f0, x);
      if f0[x] == FREE_CLUSTER { TakenBelow(f0, fat, p, x); }
    }
  }

  lemma TakenBelow(f0: seq<int>, fat: seq<int>, p: seq<int>, x: nat)
    requires Taken(f0, fat, p) && x < |f0| && f0[x] == FREE_CLUSTER
    ensures x in p[1..] <==> FreeCount(f0, x) < |p| - 1
  {
    var j := FreeCount(f0, x);
    if j < |p| - 1 {
      var y := p[1..][j];
      assert y == p[j + 1];
      if x < y { CountsApart(f0, x, y); } else if y < x { CountsApart(f0, y, x); }
    }
    if x in p[1..] {
      var q :| 0 <= q < |p| - 1 && p[1..][q] == x;
      assert p[q + 1] == x;
    }
  }

  /** Two clusters taken one after the other, and linked. */
  lemma TwoTaken(f: seq<int>, f1: seq<int>, g: seq<int>, a: nat, b: nat)
    requires |f| == |f1| == |g| == CLUSTER_COUNT && a < |f| && b < |f| && b < CHAIN_LIMIT
    requires f[a] == FREE_CLUSTER && (forall x :: 0 <= x < a ==> f[x] != FREE_CLUSTER) && f1 == f[a := TAKEN_CLUSTER]
    requires f1[b] == FREE_CLUSTER && forall x :: 0 <= x < b ==> f1[x] != FREE_CLUSTER
    requires g[a] == b && g[b] == TAKEN_CLUSTER && forall x :: 0 <= x < |f| && x != a && x != b ==> g[x] == f1[x]
    ensures [a, b] == FirstFrees(Bare(f), 2) && Bare(g[b := EOF_CLUSTER]) == TakeFirst(Bare(f), 2)
  {
    hide TakeFirst, FirstFrees, FirstFit;
    var none: seq<int> := [-1];
    TakenStart(f, -1);
    TakenNext(f, f, f1, none, a);
    TakenNext(f, f1, g, none + [a], b);
    TakenAll(f, g, none + [a] + [b]);
    assert (none + [a] + [b])[1..] == [a, b];
    assert Bare(g[b := EOF_CLUSTER]) == Bare(g);
  }

  // ---------- where everything lies ----------

  /** Which clusters are free, by a bare FAT, and the chains; the directory's is the last. */
  datatype Layout = Layout(fat: seq<int>, cs: seq<seq<int>>)

  /** A directory of n records is saved over cluster 0 and the first free clusters. */
  function SavedOver(f: seq<int>, cs: seq<seq<int>>, n: nat): (r: Layout)
    requires cs != []
    ensures |r.cs| == |cs| && |RootOf(r.cs)| == RootClusters(n) + 1 >= 2
    ensures forall i :: 0 <= i < |cs| - 1 ==> r.cs[i] == cs[i]
  {
    Layout(TakeFirst(f, RootClusters(n)), cs[|cs| - 1 := [0] + FirstFrees(f, RootClusters(n))])
  }

  /** The same when the clusters it had are released before. */
  function SavedLayout(a: Layout, n: nat): (r: Layout)
    requires a.cs != [] && RootOf(a.cs) != []
    ensures |r.cs| == |a.cs| && |RootOf(r.cs)| == RootClusters(n) + 1 >= 2
    ensures forall i :: 0 <= i < |a.cs| - 1 ==> r.cs[i] == a.cs[i]
  {
    SavedOver(Freed(a.fat, RootOf(a.cs)[1..]), a.cs, n)
  }

  lemma LastIs(f: seq<int>, cs: seq<seq<int>>, n: nat)
    requires cs != []
    ensures LastData(RootOf(SavedOver(Bare(f), cs, n).cs)) == LastOfRoot(f, n)
  {
    if RootClusters(n) > 1 { BareNth(f, RootClusters(n) - 2, |f|); }
  }

  /** An empty file: its cluster and the one that ends it. */
  function WithNewFile(a: Layout): (r: Layout)
    requires a.cs != []
    ensures |r.cs| == |a.cs| + 1 && RootOf(r.cs) == RootOf(a.cs) && |r.cs[|a.cs| - 1]| == 2
    ensures forall i :: 0 <= i < |a.cs| - 1 ==> r.cs[i] == a.cs[i]
  {
    Layout(TakeFirst(a.fat, 2), a.cs[..|a.cs| - 1] + [FirstFrees(a.fat, 2), RootOf(a.cs)])
  }

  function WithoutChain(a: Layout, i: nat): (r: Layout)
    requires i + 1 < |a.cs|
    ensures |r.cs| == |a.cs| - 1 && RootOf(r.cs) == RootOf(a.cs)
    ensures forall k :: 0 <= k < |r.cs| - 1 ==> r.cs[k] == a.cs[if k < i then k else k + 1]
  {
    Layout(Freed(a.fat, a.cs[i]), a.cs[..i] + a.cs[i + 1..])
  }

  /** File i goes on for `added` clusters: its end is released first, and may be the first that is taken. */
  function AppendedLayout(a: Layout, i: nat, added: nat): (r: Layout)
    requires i + 1 < |a.cs| && a.cs[i] != []
    ensures |r.cs| == |a.cs| && RootOf(r.cs) == RootOf(a.cs) && |r.cs[i]| == |a.cs[i]| + added
    ensures forall k :: 0 <= k < |a.cs| && k != i ==> r.cs[k] == a.cs[k]
  {
    var c := a.cs[i];
    var f := Freed(a.fat, [c[|c| - 1]]);
    if added == 0 then a else Layout(TakeFirst(f, added + 1), a.cs[i := DataClusters(c) + FirstFrees(f, added + 1)])
  }

  /** File i is cut behind data cluster sc: the next cluster ends it, the data clusters behind that one are free. */
  function CutLayout(a: Layout, i: nat, sc: nat): (r: Layout)
    requires i + 1 < |a.cs| && sc + 1 < |a.cs[i]|
    ensures |r.cs| == |a.cs| && RootOf(r.cs) == RootOf(a.cs) && |r.cs[i]| == sc + 2
    ensures forall k :: 0 <= k < |a.cs| && k != i ==> r.cs[k] == a.cs[k]
  {
    var c := a.cs[i];
    var behind := if sc + 2 < |c| then c[sc + 2..|c| - 1] else [];
    Layout(Freed(a.fat, behind), a.cs[i := c[..sc + 2]])
  }

  lemma AppendedLayoutIs(f: seq<int>, fat: seq<int>, cs: seq<seq<int>>, i: nat, added: nat, r: seq<int>)
    requires i + 1 < |cs| && cs[i] != [] && added > 0 && |r| == added + 2
    requires Taken(Freed(f, [cs[i][|cs[i]| - 1]]), fat, r)
    ensures Layout(Bare(fat), cs[i := DataClusters(cs[i]) + r[1..]]) == AppendedLayout(Layout(Bare(f), cs), i, added)
  {
    hide Taken, TakeFirst, FirstFrees, Freed, Bare;
    BareFreed(f, [cs[i][|cs[i]| - 1]]);
    TakenAll(Freed(f, [cs[i][|cs[i]| - 1]]), fat, r);
  }

  lemma CopiedLayoutIs(f: seq<int>, fat: seq<int>, cs: seq<seq<int>>, k: nat, p: seq<int>)
    requires k + 1 < |cs| && |cs[k]| >= 2 && p != [] && p[0] == cs[k][0] && Taken(Freed(f, [cs[k][1]]), fat, p)
    ensures Layout(Bare(fat), cs[k := p]) == CopiedLayout(Layout(Bare(f), cs), k, |p| - 1)
  {
    hide Taken, TakeFirst, FirstFrees, Freed, Bare;
    BareFreed(f, [cs[k][1]]);
    TakenAll(Freed(f, [cs[k][1]]), fat, p);
    assert p == [p[0]] + p[1..];
  }

  lemma CutLayoutIs(f: seq<int>, fat: seq<int>, cs: seq<seq<int>>, i: nat, sc: nat)
    requires i + 1 < |cs| && IsChain(f, cs[i]) && sc + 1 < |cs[i]| && CutUpTo(f, fat, cs[i], sc, |cs[i]| - 1)
    ensures Layout(Bare(fat), cs[i := cs[i][..sc + 2]]) == CutLayout(Layout(Bare(f), cs), i, sc)
  {
    BareCut(f, fat, cs[i], sc);
  }

  /** File k is overwritten by m clusters: its first one is kept, its second one is released. */
  function CopiedLayout(a: Layout, k: nat, m: nat): (r: Layout)
    requires k + 1 < |a.cs| && |a.cs[k]| >= 2
    ensures |r.cs| == |a.cs| && RootOf(r.cs) == RootOf(a.cs) && |r.cs[k]| == m + 1
    ensures forall i :: 0 <= i < |a.cs| && i != k ==> r.cs[i] == a.cs[i]
  {
    var c := a.cs[k];
    var f := Freed(a.fat, [c[1]]);
    Layout(TakeFirst(f, m), a.cs[k := [c[0]] + FirstFrees(f, m)])
  }

  /** The last data cluster of a chain. */
  function LastData(c: seq<int>): int
    requires |c| >= 2
  {
    c[|c| - 2]
  }

  // ---------- a disk that was filled from below ----------

  function Interval(lo: nat, hi: nat): (p: seq<int>)
    requires lo <= hi
    ensures |p| == hi - lo && forall k :: 0 <= k < |p| ==> p[k] == lo + k
  {
    seq(hi - lo, k => lo + k)
  }

  /** The clusters below n are taken, but for those in `gaps`. */
  function Low(n: nat, gaps: seq<int>): (f: seq<int>)
    ensures |f| == CLUSTER_COUNT
    ensures forall x :: 0 <= x < |f| ==> f[x] == if x < n && x !in gaps then TAKEN_CLUSTER else FREE_CLUSTER
  {
    seq(CLUSTER_COUNT, x => if x < n && x !in gaps then TAKEN_CLUSTER else FREE_CLUSTER)
  }

  ghost predicate Climbs(gaps: seq<int>, n: nat) {
    && (forall i, k :: 0 <= i < k < |gaps| ==> gaps[i] < gaps[k])
    && (forall i :: 0 <= i < |gaps| ==> 0 <= gaps[i] < n)
  }

  /** The same when i clusters more were taken: the gaps first, and then those from n on. */
  function LowAfter(n: nat, gaps: seq<int>, i: nat): seq<int> {
    if i < |gaps| then Low(n, gaps[i..]) else Low(n + i - |gaps|, [])
  }

  lemma LowNext(n: nat, gaps: seq<int>, i: nat)
    requires Climbs(gaps, n) && n <= CLUSTER_COUNT && n + i - |gaps| < CLUSTER_COUNT
    ensures OneTaken(LowAfter(n, gaps, i), LowAfter(n, gaps, i + 1), if i < |gaps| then gaps[i] else n + i - |gaps|)
  {
    if i < |gaps| {
      assert gaps[i..] == [gaps[i]] + gaps[i + 1..];
      assert i + 1 == |gaps| ==> gaps[i + 1..] == [];
    }
  }

  /** First fit fills the gaps, and goes on behind them. */
  lemma TakeLow(n: nat, gaps: seq<int>, m: nat)
    requires Climbs(gaps, n) && |gaps| <= m && n + m - |gaps| <= CLUSTER_COUNT
    ensures FirstFrees(Low(n, gaps), m) == gaps + Interval(n, n + m - |gaps|)
    ensures TakeFirst(Low(n, gaps), m) == Low(n + m - |gaps|, [])
  {
    hide TakeFirst, FirstFrees, Taken, OneTaken, LowAfter, Low, Climbs;
    var f, all, p := Low(n, gaps), gaps + Interval(n, n + m - |gaps|), [-1];
    TakenStart(f, -1);
    LowStart(n, gaps, m);
    for i := 0 to m
      invariant |p| == i + 1 && p == [-1] + all[..i] && Taken(f, LowAfter(n, gaps, i), p)
    {
      LowNext(n, gaps, i);
      TakenNext(f, LowAfter(n, gaps, i), LowAfter(n, gaps, i + 1), p, all[i]);
      assert all[..i + 1] == all[..i] + [all[i]];
      p := p + [all[i]];
    }
    assert all[..m] == all && p[1..] == all;
    TakenAll(f, LowAfter(n, gaps, m), p);
  }

  lemma LowStart(n: nat, gaps: seq<int>, m: nat)
    requires |gaps| <= m
    ensures LowAfter(n, gaps, 0) == Low(n, gaps) && LowAfter(n, gaps, m) == Low(n + m - |gaps|, [])
    ensures Bare(Low(n, gaps)) == Low(n, gaps) && Bare(Low(n + m - |gaps|, [])) == Low(n + m - |gaps|, [])
  {
    assert gaps[0..] == gaps;
  }

  /** The empty directory on a formatted disk. */
  lemma EmptyLow(fat: seq<int>)
    requires |fat| == CLUSTER_COUNT && fat[0] != FREE_CLUSTER && forall x :: 1 <= x < |fat| ==> fat[x] == FREE_CLUSTER
    ensures SavedOver(Bare(fat), [[0]], 0) == Layout(Low(2, []), [[0, 1]])
  {
    TakeLow(1, [], 1);
    assert Bare(fat) == Low(1, []) && RootClusters(0) == 1;
    assert [0] + ([] + Interval(1, 2)) == [0, 1];
  }

  /** A file that is created above everything else. */
  lemma NewLow(n: nat, cs: seq<seq<int>>)
    requires cs != [] && n + 2 <= CLUSTER_COUNT
    ensures WithNewFile(Layout(Low(n, []), cs)) == Layout(Low(n + 2, []), cs[..|cs| - 1] + [[n, n + 1], RootOf(cs)])
  {
    TakeLow(n, [], 2);
    assert [] + Interval(n, n + 2) == [n, n + 1];
  }

  lemma FreedLow(n: nat, gaps: seq<int>)
    ensures Freed(Low(n, []), gaps) == Low(n, gaps)
  {
  }

  /** The directory is saved over the clusters it had, and further ones if it has grown. */
  lemma SaveLow(n: nat, cs: seq<seq<int>>, k: nat)
    requires cs != [] && RootOf(cs) != [] && RootOf(cs)[0] == 0 && Climbs(RootOf(cs)[1..], n)
    requires |RootOf(cs)| - 1 <= RootClusters(k) && n + RootClusters(k) - (|RootOf(cs)| - 1) <= CLUSTER_COUNT
    ensures var m := n + RootClusters(k) - (|RootOf(cs)| - 1);
      SavedLayout(Layout(Low(n, []), cs), k) == Layout(Low(m, []), cs[|cs| - 1 := RootOf(cs) + Interval(n, m)])
  {
    hide TakeFirst, FirstFrees, Low, Freed;
    var gaps := RootOf(cs)[1..];
    FreedLow(n, gaps);
    TakeLow(n, gaps, RootClusters(k));
    assert [0] + (gaps + Interval(n, n + RootClusters(k) - |gaps|))
      == RootOf(cs) + Interval(n, n + RootClusters(k) - |gaps|);
  }

  /** A file goes on where it ended, and above everything else. */
  lemma AppendLow(n: nat, cs: seq<seq<int>>, i: nat, added: nat)
    requires i + 1 < |cs| && cs[i] != [] && 0 <= cs[i][|cs[i]| - 1] < n && n + added <= CLUSTER_COUNT
    ensures AppendedLayout(Layout(Low(n, []), cs), i, added)
      == Layout(Low(n + added, []), cs[i := cs[i] + Interval(n, n + added)])
  {
    hide TakeFirst, FirstFrees, Low, Freed;
    var c := cs[i];
    var eof := c[|c| - 1];
    FreedLow(n, [eof]);
    TakeLow(n, [eof], added + 1);
    assert DataClusters(c) + ([eof] + Interval(n, n + added)) == c + Interval(n, n + added);
    if added == 0 {
      assert c + Interval(n, n) == c && cs[i := c] == cs;
    }
  }
}
