/** What the FAT, the cluster memory and the directory mean together, and the
    steps by which the operations change them. */
module FsState {
  import opened Bytes
  import opened FsLayout
  import opened FsChains
  import opened FsSpec
  import opened FsLike

  // ---------- what the stored state means ----------

  /** The directory `recs` describes the chains cs, one each but for the last (the directory's own), under distinct
      names. */
  ghost predicate DirOk(recs: seq<FileRec>, cs: seq<seq<int>>) {
    && |cs| == |recs| + 1
    && (forall i :: 0 <= i < |recs| ==> ValidRec(recs[i]))
    && (forall i :: 0 <= i < |recs| ==> |cs[i]| >= 2 && cs[i][0] == recs[i].start)
    && (forall i, j :: 0 <= i < j < |recs| ==> recs[i].name != recs[j].name)
  }

  /** No file has more clusters than its size calls for, give or take the one with room. */
  ghost predicate Shaped(recs: seq<FileRec>, cs: seq<seq<int>>) {
    DirOk(recs, cs) && forall i :: 0 <= i < |recs| ==> |cs[i]| - 1 <= recs[i].size / CLUSTER_SIZE + 1
  }

  /** The last copy of a directory of n records, to cluster `last`, reaches a data cluster of the chain c. */
  ghost predicate HitBy(c: seq<int>, last: int, n: nat) {
    exists k :: 0 <= k < |c| - 1 && InSpill(last, n, c[k])
  }

  /** The files whose data it reaches. */
  ghost function Reached(names: seq<Name>, cs: seq<seq<int>>, last: int): set<Name>
    requires |names| <= |cs|
  {
    set i | 0 <= i < |names| && HitBy(cs[i], last, |names|) :: names[i]
  }

  function NamesOf(recs: seq<FileRec>): (names: seq<Name>)
    ensures |names| == |recs|
  {
    seq(|recs|, i requires 0 <= i < |recs| => recs[i].name)
  }

  lemma NoneReached(names: seq<Name>, cs: seq<seq<int>>, last: int)
    requires |names| <= |cs|
    ensures Fits(|names|) ==> Reached(names, cs, last) == {}
  {
    FitsExactly(|names|);
  }

  lemma ReachedSame(names: seq<Name>, cs: seq<seq<int>>, cs': seq<seq<int>>, last: int)
    requires |cs| == |names| + 1 && SameFiles(cs, cs')
    ensures Reached(names, cs', last) == Reached(names, cs, last)
  {
    assert forall i :: 0 <= i < |names| ==> cs'[i] == cs[i];
  }

  /** The last data cluster of a directory of n records that is saved behind cluster 0 with this FAT:
      the free clusters are taken in order. */
  function LastOfRoot(fat: seq<int>, n: nat): int {
    if RootClusters(n) <= 1 then 0 else NthFree(fat, RootClusters(n) - 2, |fat|)
  }

  ghost function AbsFile(data: seq<byte>, r: FileRec, c: seq<int>): (f: File)
    requires |data| == DATA_SIZE && InRange(c) && |c| >= 2 && ValidRec(r)
  {
    File(r.name, r.size, |c| - 1, if r.size <= CLUSTER_SIZE * (|c| - 1) then Contents(data, c, r.size) else [],
         r.open, r.system)
  }

  ghost predicate AllInRange(cs: seq<seq<int>>) {
    forall i :: 0 <= i < |cs| ==> InRange(cs[i])
  }

  ghost function AbsFiles(data: seq<byte>, recs: seq<FileRec>, cs: seq<seq<int>>): (fs: seq<File>)
    requires |data| == DATA_SIZE && DirOk(recs, cs) && AllInRange(cs)
    ensures |fs| == |recs|
    ensures forall i :: 0 <= i < |recs| ==> fs[i] == AbsFile(data, recs[i], cs[i])
  {
    seq(|recs|, i requires 0 <= i < |recs| => AbsFile(data, recs[i], cs[i]))
  }

  lemma WfInRange(fat: seq<int>, cs: seq<seq<int>>)
    requires FatWf(fat, cs)
    ensures AllInRange(cs)
  {
    forall i | 0 <= i < |cs| ensures InRange(cs[i]) { assert IsChain(fat, cs[i]); }
  }

  /** FAT, cluster memory and bookkeeping agree, and the directory is in place. */
  ghost predicate Placed(fat: seq<int>, data: seq<byte>, cs: seq<seq<int>>, recs: seq<FileRec>) {
    && FatWf(fat, cs) && DirOk(recs, cs)
    && RootOf(cs)[0] == 0
    && |RootOf(cs)| == RootClusters(|recs|) + 1
    && RootImage(data, DataClusters(RootOf(cs)), recs)
  }

  /** The directory's own chain comes last. */
  function RootOf(cs: seq<seq<int>>): seq<int>
    requires cs != []
  {
    cs[|cs| - 1]
  }

  ghost predicate SameFiles(cs: seq<seq<int>>, cs': seq<seq<int>>) {
    |cs'| == |cs| > 0 && forall i :: 0 <= i < |cs| - 1 ==> cs'[i] == cs[i]
  }

  function DataClusters(c: seq<int>): seq<int> {
    if c == [] then [] else c[..|c| - 1]
  }

  /** The clusters p were taken in increasing order and no free cluster lies below the last one. */
  ghost predicate Climbing(fat: seq<int>, p: seq<int>) {
    && p != [] && p[0] == 0 && p[|p| - 1] < |fat|
    && (forall a, b :: 0 <= a < b < |p| ==> p[a] < p[b])
    && (forall x :: 0 <= x <= p[|p| - 1] ==> fat[x] != FREE_CLUSTER)
  }

  /** save_root_folder at work: the first m records are in the clusters p, the last write
      reached `reach` bytes, and the rest of the memory is as it was in d0. */
  ghost predicate SavingData(d0: seq<byte>, d: seq<byte>, p: seq<int>, files: seq<FileRec>, m: nat, reach: int) {
    && |d0| == |d| == DATA_SIZE && p != []
    && m <= |files| < 11000
    && d[0..4] == LE32(|files|)
    && RecsStored(d, p, files, m)
    && (forall y :: 0 <= y < |d| && !Covered(p, reach, y) ==> d[y] == d0[y])
  }

  /** Saving a directory of n records in the clusters p wrote nothing else. */
  ghost predicate OnlyDirectory(d0: seq<byte>, d: seq<byte>, p: seq<int>, n: nat)
    requires p != []
  {
    |d| == |d0| && forall y :: 0 <= y < |d| && !Covered(p, LastBytes(n), y) ==> d[y] == d0[y]
  }

  lemma SavingDataNext(d0: seq<byte>, d: seq<byte>, p: seq<int>, curr: int, src: seq<byte>, files: seq<FileRec>,
                       lo: nat, hi: nat)
    requires SavingData(d0, d, p, files, lo, 0) && lo == 2 * |p| <= hi <= |files|
    requires 0 <= curr < CHAIN_LIMIT && forall a :: 0 <= a < |p| ==> 0 <= p[a] < curr
    requires Encodes(src, files[lo..hi])
    ensures SavingData(d0, Spliced(d, CLUSTER_SIZE * curr, src), p + [curr], files, hi,
                       RECORD_SIZE * (hi - lo))
  {
    var q := p + [curr];
    var d' := Spliced(d, CLUSTER_SIZE * curr, src);
    assert q[..|q| - 1] == p;
    StoreInCluster(d, q, src, files, lo, hi);
    assert p[0] < curr;
    assert d'[0..4] == d[0..4];
    assert forall x :: x in p ==> x in q;
    forall y | 0 <= y < |d| && !Covered(q, RECORD_SIZE * (hi - lo), y) ensures d'[y] == d0[y] {
      assert !Covered(p, 0, y);
    }
  }

  /** Closing the directory's chain p with the EOF cluster e. */
  lemma RootClosed(f: seq<int>, d0: seq<byte>, d: seq<byte>, cs: seq<seq<int>>, p: seq<int>, e: int,
                   files: seq<FileRec>)
    requires DirOk(files, cs) && FatOpen(f, cs, |files|, p + [e])
    requires |p| == RootClusters(|files|) >= 1 && p[0] == 0
    requires SavingData(d0, d, p, files, |files|, LastBytes(|files|))
    ensures Placed(f[e := EOF_CLUSTER], d, cs[|files| := p + [e]], files)
    ensures OnlyDirectory(d0, d, p, |files|)
  {
    var q := p + [e];
    var cs' := cs[|files| := q];
    assert q[|q| - 1] == e && DataClusters(q) == p && RootOf(cs') == q;
    CloseOpen(f, cs, |files|, q);
    forall i | 0 <= i < |files| ensures |cs'[i]| >= 2 && cs'[i][0] == files[i].start {
      assert files[i].start == cs[i][0];
    }
    assert RootImage(d, p, files);
  }

  /** A cluster outside the directory that its last copy does not reach. */
  lemma ClusterSpared(d0: seq<byte>, d: seq<byte>, p: seq<int>, n: nat, x: int)
    requires p != [] && OnlyDirectory(d0, d, p, n) && |d| == DATA_SIZE && 0 <= x < CLUSTER_COUNT
    requires x !in p && !InSpill(p[|p| - 1], n, x)
    ensures SameCluster(d0, d, x)
  {
    var a, b := CLUSTER_SIZE * x, CLUSTER_SIZE * x + CLUSTER_SIZE;
    assert p[|p| - 1] in p;
    forall y | a <= y < b ensures d[y] == d0[y] {
      assert y / CLUSTER_SIZE == x && !Covered(p, LastBytes(n), y);
    }
    assert d[a..b] == d0[a..b];
  }

  /** Saving the directory damages the files it reaches, and no others. */
  lemma SpilledFiles(fat: seq<int>, d0: seq<byte>, d: seq<byte>, cs: seq<seq<int>>, recs: seq<FileRec>)
    requires FatWf(fat, cs) && DirOk(recs, cs) && AllInRange(cs) && |d0| == |d| == DATA_SIZE && |RootOf(cs)| >= 2
    requires OnlyDirectory(d0, d, DataClusters(RootOf(cs)), |recs|)
    ensures AlikeFiles(AbsFiles(d, recs, cs), AbsFiles(d0, recs, cs),
      Reached(NamesOf(recs), cs, RootOf(cs)[|RootOf(cs)| - 2]))
  {
    var p, last := DataClusters(RootOf(cs)), RootOf(cs)[|RootOf(cs)| - 2];
    forall i | 0 <= i < |recs|
      ensures Alike(AbsFile(d, recs[i], cs[i]), AbsFile(d0, recs[i], cs[i]),
        recs[i].name in Reached(NamesOf(recs), cs, last))
    {
      if !HitBy(cs[i], last, |recs|) {
        UnhitFile(fat, d0, d, cs, recs, i);
      }
    }
  }

  lemma UnhitFile(fat: seq<int>, d0: seq<byte>, d: seq<byte>, cs: seq<seq<int>>, recs: seq<FileRec>, i: nat)
    requires FatWf(fat, cs) && DirOk(recs, cs) && AllInRange(cs) && |d0| == |d| == DATA_SIZE && |RootOf(cs)| >= 2
    requires OnlyDirectory(d0, d, DataClusters(RootOf(cs)), |recs|) && i < |recs|
    requires !HitBy(cs[i], RootOf(cs)[|RootOf(cs)| - 2], |recs|)
    ensures |cs[i]| >= 2 && AbsFile(d, recs[i], cs[i]) == AbsFile(d0, recs[i], cs[i])
  {
    var p, c := DataClusters(RootOf(cs)), cs[i];
    assert recs[i].start == c[0] && Apart(cs[i], cs[|cs| - 1]);
    forall k | 0 <= k < |c| - 1 ensures SameCluster(d0, d, c[k]) {
      assert c[k] in c && forall x :: x in p ==> x in RootOf(cs);
      ClusterSpared(d0, d, p, |recs|, c[k]);
    }
    if recs[i].size <= CLUSTER_SIZE * (|c| - 1) {
      ContentsFrame(d0, d, c, recs[i].size);
    }
  }

  /** The files after the directory was saved, against those before. */
  lemma SavedAlike(fat: seq<int>, d0: seq<byte>, d: seq<byte>, cs0: seq<seq<int>>, cs: seq<seq<int>>,
                   recs: seq<FileRec>)
    requires FatWf(fat, cs) && DirOk(recs, cs0) && AllInRange(cs0) && |d0| == |d| == DATA_SIZE
    requires SameFiles(cs0, cs) && |RootOf(cs)| >= 2 && OnlyDirectory(d0, d, DataClusters(RootOf(cs)), |recs|)
    ensures DirOk(recs, cs) && AllInRange(cs)
    ensures AlikeFiles(AbsFiles(d, recs, cs), AbsFiles(d0, recs, cs0),
      Reached(NamesOf(recs), cs, RootOf(cs)[|RootOf(cs)| - 2]))
    ensures forall last :: Reached(NamesOf(recs), cs, last) == Reached(NamesOf(recs), cs0, last)
  {
    WfInRange(fat, cs);
    ResavedShape(recs, cs0, cs);
    SpilledFiles(fat, d0, d, cs, recs);
    SameFilesAbs(d0, recs, cs0, cs);
    forall last ensures Reached(NamesOf(recs), cs, last) == Reached(NamesOf(recs), cs0, last) {
      ReachedSame(NamesOf(recs), cs0, cs, last);
    }
  }

  lemma BehindFirst(y: nat)
    requires !Covered([0], 0, y)
    ensures y >= CLUSTER_SIZE
  {
    assert [0][0] == 0 && y / CLUSTER_SIZE != 0;
  }

  lemma PrevInRange(f: seq<int>, cs: seq<seq<int>>, j: nat, p: seq<int>)
    requires FatOpen(f, cs, j, p)
    ensures p != [] && 0 <= p[|p| - 1] < |f| == CLUSTER_COUNT
  {
  }

  lemma SavingFits(d0: seq<byte>, d: seq<byte>, p: seq<int>, files: seq<FileRec>, m: nat)
    requires SavingData(d0, d, p, files, m, 0)
    ensures m <= |files| < 11000
  {
  }

  lemma FirstFitPrefix(f0: seq<int>, p: seq<int>, e: int)
    requires FirstFit(f0, p + [e])
    ensures FirstFit(f0, p)
  {
    var q := p + [e];
    forall k | 1 <= k < |p| ensures 0 <= p[k] < |f0| && f0[p[k]] == FREE_CLUSTER && FreeCount(f0, p[k]) == k - 1 {
      assert q[k] == p[k];
    }
  }

  /** Only the directory's chain changed: it has the clusters for n records, in increasing order. */
  ghost predicate RootTaken(cs: seq<seq<int>>, cs': seq<seq<int>>, n: nat) {
    && SameFiles(cs, cs')
    && |RootOf(cs')| == RootClusters(n) + 1 >= 2
    && forall i, k :: 0 <= i < k < |RootOf(cs')| ==> RootOf(cs')[i] < RootOf(cs')[k]
  }

  lemma RootTakenBy(cs: seq<seq<int>>, cs': seq<seq<int>>, p: seq<int>, e: int, n: nat)
    requires |cs| == n + 1 && cs' == cs[n := p + [e]] && p != [] && p[|p| - 1] < e && |p| == RootClusters(n)
    requires forall a, b :: 0 <= a < b < |p| ==> p[a] < p[b]
    ensures RootTaken(cs, cs', n) && RootOf(cs') == p + [e] && RootOf(cs')[|RootOf(cs')| - 2] == p[|p| - 1]
    ensures DataClusters(RootOf(cs')) == p
  {
    assert forall i :: 0 <= i < n ==> cs'[i] == cs[i];
  }

  /** The directory's clusters p were taken by first fit from f0: the free ones are those of f0 without them. */
  ghost predicate Fitted(f0: seq<int>, fat: seq<int>, p: seq<int>) {
    && |f0| == |fat| == CLUSTER_COUNT && f0[0] != FREE_CLUSTER && FirstFit(f0, p)
    && forall x :: 0 <= x < |fat| ==> (fat[x] == FREE_CLUSTER <==> f0[x] == FREE_CLUSTER && x !in p)
  }

  lemma FittedStart(f0: seq<int>)
    requires |f0| == CLUSTER_COUNT && f0[0] != FREE_CLUSTER
    ensures Fitted(f0, f0, [0])
  {
  }

  /** The least free cluster is the next in order. */
  lemma FittedNext(f0: seq<int>, fat: seq<int>, fat': seq<int>, p: seq<int>, x: nat)
    requires Fitted(f0, fat, p) && Climbing(fat, p) && x < |fat| == |fat'| && fat[x] == FREE_CLUSTER
    requires forall y :: 0 <= y < x ==> fat[y] != FREE_CLUSTER
    requires fat'[x] != FREE_CLUSTER && 0 <= p[|p| - 1] && fat'[p[|p| - 1]] != FREE_CLUSTER
    requires forall y :: 0 <= y < |fat| && y != x && y != p[|p| - 1] ==> fat'[y] == fat[y]
    ensures Fitted(f0, fat', p + [x])
  {
    var last := p[|p| - 1];
    assert last in p;
    forall y | last < y < x ensures f0[y] != FREE_CLUSTER {
      assert y !in p;
    }
    if |p| == 1 {
      FreeCountZero(f0, x);
    } else {
      assert FreeCount(f0, last + 1) == |p| - 1;
      FreeCountGap(f0, last + 1, x);
    }
  }

  /** The directory's last data cluster, told from the FAT before it was saved. */
  lemma LastIsNth(f0: seq<int>, p: seq<int>, n: nat)
    requires FirstFit(f0, p) && |p| == RootClusters(n) >= 1 && p[0] == 0
    ensures p[|p| - 1] == LastOfRoot(f0, n)
  {
    if |p| > 1 {
      NthFreeIs(f0, p[|p| - 1], |f0|);
    }
  }

  /** The free cluster that a search from below finds is not the last one if two are free. */
  lemma LeastFreeBelowLimit(fat: seq<int>, x: nat)
    requires |fat| == CLUSTER_COUNT && FreeCount(fat, CLUSTER_COUNT) >= 2 && x < CLUSTER_COUNT
    requires forall y :: 0 <= y < x ==> fat[y] != FREE_CLUSTER
    ensures x < CHAIN_LIMIT
  {
    if x == CHAIN_LIMIT {
      FreeCountZero(fat, x);
    }
  }

  /** Records read back from where they were stored. */
  lemma FetchedRecords(d: seq<byte>, at: nat, recs: seq<FileRec>, lo: nat, rs: seq<FileRec>)
    requires lo + |rs| <= |recs| && at + RECORD_SIZE * |rs| <= |d|
    requires forall i :: 0 <= i < |rs| ==> RecStored(d, at + RECORD_SIZE * i, recs[lo + i])
    requires forall i :: 0 <= i < |rs| ==>
      rs[i] == DecodeRec(d[at + RECORD_SIZE * i..at + RECORD_SIZE * i + RECORD_SIZE])
    ensures recs[..lo] + rs == recs[..lo + |rs|]
  {
    forall i | 0 <= i < |rs| ensures rs[i] == recs[lo + i] {
      assert RecStored(d, at + RECORD_SIZE * i, recs[lo + i]);
    }
  }

  lemma FirstRecords(data: seq<byte>, cs: seq<seq<int>>, recs: seq<FileRec>)
    requires cs != [] && |RootOf(cs)| >= 2 && RootOf(cs)[0] == 0 && RootImage(data, DataClusters(RootOf(cs)), recs)
    ensures forall k :: 0 <= k < 2 && k < |recs| ==> RecStored(data, 4 + RECORD_SIZE * k, recs[0 + k])
  {
    var p := DataClusters(RootOf(cs));
    forall k | 0 <= k < 2 && k < |recs| ensures RecStored(data, 4 + RECORD_SIZE * k, recs[0 + k]) {
      assert RecStored(data, RecAddr(p, k), recs[k]);
    }
  }

  lemma PlacedFirst(fat: seq<int>, data: seq<byte>, cs: seq<seq<int>>, recs: seq<FileRec>)
    requires Placed(fat, data, cs, recs)
    ensures forall k :: 0 <= k < 2 && k < |recs| ==> RecStored(data, 4 + RECORD_SIZE * k, recs[0 + k])
  {
    PlacedRoot(fat, data, cs, recs);
    FirstRecords(data, cs, recs);
  }

  /** Where the records of data cluster i of the directory are, up to record `hi`. */
  lemma ClusterRecords(data: seq<byte>, p: seq<int>, recs: seq<FileRec>, i: nat, hi: nat)
    requires RootImage(data, p, recs) && 1 <= i < |p| && 2 * i < hi <= |recs|
    requires hi <= 2 * i + 2 || i == |p| - 1
    ensures CLUSTER_SIZE * p[i] + RECORD_SIZE * (hi - 2 * i) <= |data|
    ensures forall k :: 0 <= k < hi - 2 * i ==> RecStored(data, CLUSTER_SIZE * p[i] + RECORD_SIZE * k, recs[2 * i + k])
  {
    var n := hi - 2 * i;
    forall k | 0 <= k < n ensures RecStored(data, CLUSTER_SIZE * p[i] + RECORD_SIZE * k, recs[2 * i + k]) {
      ClusterRecord(data, p, recs, i, k);
    }
    ClusterRecord(data, p, recs, i, n - 1);
  }

  /** The same, stated for the directory in place. */
  lemma PlacedRecords(fat: seq<int>, data: seq<byte>, cs: seq<seq<int>>, recs: seq<FileRec>, i: nat, hi: nat)
    requires Placed(fat, data, cs, recs) && 1 <= i < |RootOf(cs)| - 1 && 2 * i < hi <= |recs|
    requires hi <= 2 * i + 2 || i == |RootOf(cs)| - 2
    ensures 0 <= RootOf(cs)[i] && CLUSTER_SIZE * RootOf(cs)[i] + RECORD_SIZE * (hi - 2 * i) <= |data|
    ensures forall k :: 0 <= k < hi - 2 * i ==>
      RecStored(data, CLUSTER_SIZE * RootOf(cs)[i] + RECORD_SIZE * k, recs[2 * i + k])
  {
    hide RecStored, RootImage;
    assert IsChain(fat, RootOf(cs));
    ClusterRecords(data, DataClusters(RootOf(cs)), recs, i, hi);
  }

  lemma ClusterRecord(data: seq<byte>, p: seq<int>, recs: seq<FileRec>, i: nat, k: nat)
    requires RootImage(data, p, recs) && 1 <= i < |p| && 2 * i + k < |recs|
    requires k < 2 || i == |p| - 1
    ensures RecStored(data, CLUSTER_SIZE * p[i] + RECORD_SIZE * k, recs[2 * i + k])
  {
    assert RecStored(data, RecAddr(p, 2 * i + k), recs[2 * i + k]);
  }

  lemma FindAgrees(data: seq<byte>, recs: seq<FileRec>, cs: seq<seq<int>>, name: Name, i: nat)
    requires |data| == DATA_SIZE && DirOk(recs, cs) && AllInRange(cs)
    requires i <= |recs| && (i < |recs| ==> recs[i].name == name) && forall k :: 0 <= k < i ==> recs[k].name != name
    ensures Find(AbsFiles(data, recs, cs), name) == i
  {
    var fs := AbsFiles(data, recs, cs);
    var f := Find(fs, name);
    assert f < |recs| ==> fs[f].name == recs[f].name;
    assert i < |recs| ==> fs[i].name == recs[i].name;
  }

  lemma FreeAtLeastOne(fat: seq<int>)
    requires |fat| == CLUSTER_COUNT && fat[CHAIN_LIMIT] == FREE_CLUSTER
    ensures FreeCount(fat, CLUSTER_COUNT) >= 1
  {
  }

  lemma StoredDiskOk(fat: seq<int>, data: seq<byte>, cs: seq<seq<int>>, recs: seq<FileRec>)
    requires Placed(fat, data, cs, recs) && Shaped(recs, cs) && |data| == DATA_SIZE && AllInRange(cs)
    ensures DiskOk(Disk(AbsFiles(data, recs, cs), FreeCount(fat, CLUSTER_COUNT)))
  {
    FreeAtLeastOne(fat);
    var fs := AbsFiles(data, recs, cs);
    forall i | 0 <= i < |fs| ensures FileOk(fs[i]) {
      assert fs[i] == AbsFile(data, recs[i], cs[i]);
    }
    forall i, j | 0 <= i < j < |fs| ensures fs[i].name != fs[j].name {
      assert fs[i].name == recs[i].name && fs[j].name == recs[j].name;
    }
  }

  /** A free cluster starts a new chain. */
  lemma OpenNew(fat: seq<int>, cs: seq<seq<int>>, s: int)
    requires FatWf(fat, cs) && 0 <= s < CHAIN_LIMIT && fat[s] == FREE_CLUSTER
    ensures FatOpen(fat[s := TAKEN_CLUSTER], cs, |cs|, [s])
  {
    var fat' := fat[s := TAKEN_CLUSTER];
    forall i | 0 <= i < |cs| ensures IsChain(fat', cs[i]) && Apart(cs[i], [s]) {
      if s in cs[i] { ChainNotFree(fat, cs[i], s); }
      forall y | y in cs[i] ensures 0 <= y < |fat| && fat'[y] == fat[y] { ChainNotFree(fat, cs[i], y); }
      ChainFrame(fat, fat', cs[i]);
    }
  }

  // ---------- what operations keep ----------

  /** The file called `name` has the chain c. */
  ghost predicate HasChain(recs: seq<FileRec>, cs: seq<seq<int>>, name: Name, c: seq<int>)
    requires |cs| == |recs| + 1
  {
    exists i :: 0 <= i < |recs| && recs[i].name == name && cs[i] == c
  }

  /** Every file but the one called `except` (no file has the empty name's place) keeps its chain. */
  ghost predicate KeepsChains(recs: seq<FileRec>, cs: seq<seq<int>>, recs': seq<FileRec>, cs': seq<seq<int>>,
                              except: seq<Name>) {
    && |cs| == |recs| + 1 && |cs'| == |recs'| + 1
    && forall i :: 0 <= i < |recs| && recs[i].name !in except ==> HasChain(recs', cs', recs[i].name, cs[i])
  }

  lemma KeepsChainsSame(recs: seq<FileRec>, cs: seq<seq<int>>)
    requires |cs| == |recs| + 1
    ensures KeepsChains(recs, cs, recs, cs, [])
  {
    forall i | 0 <= i < |recs| ensures HasChain(recs, cs, recs[i].name, cs[i]) {}
  }

  lemma ResavedShape(recs: seq<FileRec>, cs: seq<seq<int>>, cs': seq<seq<int>>)
    requires DirOk(recs, cs) && SameFiles(cs, cs')
    ensures DirOk(recs, cs') && (Shaped(recs, cs) ==> Shaped(recs, cs'))
  {
    forall i | 0 <= i < |recs| ensures cs'[i] == cs[i] && recs[i].start == cs[i][0] {
    }
  }

  lemma ResavedChains(recs0: seq<FileRec>, cs0: seq<seq<int>>, recs: seq<FileRec>, cs: seq<seq<int>>,
                      cs': seq<seq<int>>, except: seq<Name>)
    requires |cs0| == |recs0| + 1 && |cs| == |recs| + 1 && SameFiles(cs, cs')
    requires KeepsChains(recs0, cs0, recs, cs, except)
    ensures KeepsChains(recs0, cs0, recs, cs', except)
  {
    forall i | 0 <= i < |recs0| && recs0[i].name !in except ensures HasChain(recs, cs', recs0[i].name, cs0[i]) {
      var k :| 0 <= k < |recs| && recs[k].name == recs0[i].name && cs[k] == cs0[i];
    }
  }

  // ---------- creating a file ----------

  /** A new chain may be listed before the directory's. */
  lemma FatWfInsert(fat: seq<int>, cs: seq<seq<int>>, c: seq<int>)
    requires cs != [] && FatWf(fat, cs + [c])
    ensures FatWf(fat, cs[..|cs| - 1] + [c, RootOf(cs)])
  {
    hide IsChain, Apart;
    var a, b := cs + [c], cs[..|cs| - 1] + [c, RootOf(cs)];
    var n := |cs|;
    forall i, k | 0 <= i < k < |b| ensures Apart(b[i], b[k]) {
      if i == n - 1 {
        assert Apart(a[n - 1], a[n]);
        ApartSymmetric(a[n - 1], a[n]);
      } else {
        assert b[i] == a[i] && b[k] == if k == n - 1 then a[n] else if k == n then a[n - 1] else a[k];
        assert Apart(a[i], b[k]);
      }
    }
    forall i | 0 <= i < |b| ensures IsChain(fat, b[i]) {
      assert IsChain(fat, a[if i == n - 1 then n else if i == n then n - 1 else i]);
    }
  }


  /** A file called `name` with the chain c was added at the end of the directory. */
  ghost predicate Created(recs: seq<FileRec>, cs: seq<seq<int>>, recs': seq<FileRec>, cs': seq<seq<int>>, name: Name,
                          c: seq<int>) {
    && |c| == 2 && cs != [] && cs' == cs[..|cs| - 1] + [c, RootOf(cs)]
    && recs' == recs + [FileRec(name, c[0], 0, false, false)]
  }

  lemma CreatedOk(fat': seq<int>, data: seq<byte>, recs: seq<FileRec>, cs: seq<seq<int>>, recs': seq<FileRec>,
                  cs': seq<seq<int>>,
                  name: Name, c: seq<int>)
    requires Created(recs, cs, recs', cs', name, c) && FatWf(fat', cs') && DirOk(recs, cs) && Shaped(recs, cs)
    requires AllInRange(cs) && |data| == DATA_SIZE
    requires |name| < FILE_NAME_LEN && 0 !in name && forall k :: 0 <= k < |recs| ==> recs[k].name != name
    ensures DirOk(recs', cs') && Shaped(recs', cs') && AllInRange(cs') && RootOf(cs') == RootOf(cs)
    ensures |recs'| == |recs| + 1
    ensures AbsFiles(data, recs', cs') == AbsFiles(data, recs, cs) + [File(name, 0, 1, [], false, false)]
    ensures KeepsChains(recs, cs, recs', cs', [])
  {
    var n := |recs|;
    WfInRange(fat', cs');
    assert cs'[n] == c && IsChain(fat', cs'[n]);
    assert forall i :: 0 <= i < n ==> recs'[i] == recs[i] && cs'[i] == cs[i];
    assert AbsFile(data, recs'[n], c).bytes == [];
    forall i | 0 <= i < n ensures HasChain(recs', cs', recs[i].name, cs[i]) {
      assert recs'[i].name == recs[i].name && cs'[i] == cs[i];
    }
  }

  // ---------- deleting a file ----------

  ghost predicate Deleted(recs: seq<FileRec>, cs: seq<seq<int>>, recs': seq<FileRec>, cs': seq<seq<int>>, i: nat) {
    && i < |recs| && |cs| == |recs| + 1
    && cs' == cs[..i] + cs[i + 1..] && recs' == recs[..i] + recs[i + 1..]
  }

  lemma DeletedOk(fat': seq<int>, data: seq<byte>, recs: seq<FileRec>, cs: seq<seq<int>>, recs': seq<FileRec>,
                  cs': seq<seq<int>>, i: nat)
    requires Deleted(recs, cs, recs', cs', i) && FatWf(fat', cs') && DirOk(recs, cs) && Shaped(recs, cs)
    requires AllInRange(cs) && |data| == DATA_SIZE
    ensures DirOk(recs', cs') && Shaped(recs', cs') && AllInRange(cs') && RootOf(cs') == RootOf(cs)
    ensures var fs := AbsFiles(data, recs, cs); AbsFiles(data, recs', cs') == fs[..i] + fs[i + 1..]
    ensures KeepsChains(recs, cs, recs', cs', [recs[i].name])
  {
    hide Contents, ClustersNeeded, RootClusters, ValidRec;
    WfInRange(fat', cs');
    forall k | 0 <= k < |recs'|
      ensures recs'[k] == recs[if k < i then k else k + 1] && cs'[k] == cs[if k < i then k else k + 1]
    {}
    forall k | 0 <= k < |recs| && recs[k].name !in [recs[i].name] ensures HasChain(recs', cs', recs[k].name, cs[k]) {
      var m := if k < i then k else k - 1;
      assert recs'[m].name == recs[k].name && cs'[m] == cs[k];
    }
  }

  // ---------- changing a record ----------

  /** Record i was replaced by one with the same name and start cluster. */
  lemma FlagsOk(data: seq<byte>, recs: seq<FileRec>, cs: seq<seq<int>>, i: nat, r: FileRec)
    requires DirOk(recs, cs) && Shaped(recs, cs) && AllInRange(cs) && |data| == DATA_SIZE
    requires i < |recs| && r == recs[i].(open := r.open, system := r.system)
    ensures DirOk(recs[i := r], cs) && Shaped(recs[i := r], cs)
    ensures var fs := AbsFiles(data, recs, cs);
      AbsFiles(data, recs[i := r], cs) == fs[i := fs[i].(open := r.open, system := r.system)]
  {
    var recs' := recs[i := r];
    forall k | 0 <= k < |recs| ensures recs'[k].name == recs[k].name && recs'[k].start == recs[k].start
    {}
  }

  /** Byte k of the memory that the clusters p make up. */
  ghost function FileByte(d: seq<byte>, p: seq<int>, k: nat): byte
    requires |d| == DATA_SIZE && InRange(p) && k < CLUSTER_SIZE * |p|
  {
    d[CLUSTER_SIZE * p[k / CLUSTER_SIZE] + k % CLUSTER_SIZE]
  }

  // ---------- appending to a file ----------

  /** append_data at work on a file with the chain c and m data clusters: from byte `base` on, the
      first w bytes of buf are stored along the clusters p, which continue c's data clusters;
      nothing before `base` and no other cluster has changed since d0. */
  ghost predicate Appending(d0: seq<byte>, d: seq<byte>, c: seq<int>, m: nat, p: seq<int>, buf: seq<byte>, base: nat,
                            w: nat) {
    && |d0| == |d| == DATA_SIZE && InRange(p) && InRange(c)
    && 1 <= m < |c| && m <= |p| && p[..m] == c[..m]
    && CLUSTER_SIZE * (m - 1) <= base < CLUSTER_SIZE * m
    && w <= |buf| && base + w <= CLUSTER_SIZE * |p|
    && (forall k :: 0 <= k < base ==>
          FileByte(d, p, k) == FileByte(d0, p, k))
    && (forall t :: 0 <= t < w ==>
          FileByte(d, p, base + t) == buf[t])
    && (forall x :: 0 <= x < CLUSTER_COUNT && x !in p[m - 1..] ==> SameCluster(d0, d, x))
  }

  lemma AppendHead(d0: seq<byte>, c: seq<int>, m: nat, buf: seq<byte>, off: nat, head: nat)
    requires |d0| == DATA_SIZE && InRange(c) && 1 <= m < |c|
    requires forall i, j :: 0 <= i < j < |c| ==> c[i] != c[j]
    requires off < CLUSTER_SIZE && head <= |buf| && off + head <= CLUSTER_SIZE
    ensures Appending(d0, Spliced(d0, CLUSTER_SIZE * c[m - 1] + off, buf[..head]), c, m, c[..m], buf,
                      CLUSTER_SIZE * (m - 1) + off, head)
  {
    hide FileByte, SameCluster, Spliced;
    var d := Spliced(d0, CLUSTER_SIZE * c[m - 1] + off, buf[..head]);
    var base := CLUSTER_SIZE * (m - 1) + off;
    var p := c[..m];
    forall k | 0 <= k < base ensures FileByte(d, p, k) == FileByte(d0, p, k) {
      HeadByteKept(d0, c, m, buf[..head], off, k);
    }
    forall t | 0 <= t < head ensures FileByte(d, p, base + t) == buf[t] {
      HeadByteNew(d0, c, m, buf[..head], off, t);
    }
    HeadElsewhere(d0, c[m - 1], off, buf[..head]);
    assert p[m - 1..] == [c[m - 1]];
  }

  lemma HeadByteKept(d0: seq<byte>, c: seq<int>, m: nat, src: seq<byte>, off: nat, k: nat)
    requires |d0| == DATA_SIZE && InRange(c) && 1 <= m < |c| && off + |src| <= CLUSTER_SIZE
    requires forall i, j :: 0 <= i < j < |c| ==> c[i] != c[j]
    requires k < CLUSTER_SIZE * (m - 1) + off
    ensures FileByte(Spliced(d0, CLUSTER_SIZE * c[m - 1] + off, src), c[..m], k) == FileByte(d0, c[..m], k)
  {
    var q := k / CLUSTER_SIZE;
    if q < m - 1 { assert c[q] != c[m - 1]; }
  }

  lemma HeadByteNew(d0: seq<byte>, c: seq<int>, m: nat, src: seq<byte>, off: nat, t: nat)
    requires |d0| == DATA_SIZE && InRange(c) && 1 <= m < |c| && off + |src| <= CLUSTER_SIZE && t < |src|
    ensures FileByte(Spliced(d0, CLUSTER_SIZE * c[m - 1] + off, src), c[..m], CLUSTER_SIZE * (m - 1) + off + t)
      == src[t]
  {
    var k := CLUSTER_SIZE * (m - 1) + off + t;
    assert k / CLUSTER_SIZE == m - 1 && k % CLUSTER_SIZE == off + t;
  }

  lemma HeadElsewhere(d0: seq<byte>, x: int, off: nat, src: seq<byte>)
    requires |d0| == DATA_SIZE && 0 <= x < CLUSTER_COUNT && off + |src| <= CLUSTER_SIZE
    ensures forall y :: 0 <= y < CLUSTER_COUNT && y !in [x] ==>
      SameCluster(d0, Spliced(d0, CLUSTER_SIZE * x + off, src), y)
  {
    forall y | 0 <= y < CLUSTER_COUNT && y !in [x]
      ensures SameCluster(d0, Spliced(d0, CLUSTER_SIZE * x + off, src), y)
    {
      assert x in [x];
      SpliceSameCluster(d0, CLUSTER_SIZE * x + off, src, y);
    }
  }

  /** A new cluster behind p, and a write to it, leave the bytes of p alone. */
  lemma FileByteKept(d: seq<byte>, p: seq<int>, x: int, src: seq<byte>, k: nat)
    requires |d| == DATA_SIZE && InRange(p) && k < CLUSTER_SIZE * |p|
    requires 0 <= x < CLUSTER_COUNT && x !in p && |src| <= CLUSTER_SIZE
    ensures FileByte(Spliced(d, CLUSTER_SIZE * x, src), p + [x], k) == FileByte(d, p, k)
  {
    assert p[k / CLUSTER_SIZE] in p;
  }

  lemma AppendCluster(d0: seq<byte>, d: seq<byte>, c: seq<int>, m: nat, p: seq<int>, buf: seq<byte>, base: nat, w: nat,
                      x: int, n: nat)
    requires Appending(d0, d, c, m, p, buf, base, w) && base + w == CLUSTER_SIZE * |p|
    requires 0 <= x < CLUSTER_COUNT && x !in p && n <= CLUSTER_SIZE && w + n <= |buf|
    ensures Appending(d0, Spliced(d, CLUSTER_SIZE * x, buf[w..w + n]), c, m, p + [x], buf, base, w + n)
  {
    var src := buf[w..w + n];
    var d' := Spliced(d, CLUSTER_SIZE * x, src);
    var q := p + [x];
    assert q[..m] == p[..m];
    forall k | 0 <= k < base ensures FileByte(d', q, k) == FileByte(d0, q, k) {
      FileByteKept(d, p, x, src, k);
      assert FileByte(d, p, k) == FileByte(d0, p, k) == FileByte(d0, q, k);
    }
    forall t | 0 <= t < w + n ensures FileByte(d', q, base + t) == buf[t] {
      if t < w {
        FileByteKept(d, p, x, src, base + t);
      } else {
        assert (base + t) / CLUSTER_SIZE == |p| && (base + t) % CLUSTER_SIZE == t - w;
      }
    }
    AppendElsewhere(d0, d, p[m - 1..], x, src);
    assert q[m - 1..] == p[m - 1..] + [x];
  }

  lemma AppendElsewhere(d0: seq<byte>, d: seq<byte>, p: seq<int>, x: int, src: seq<byte>)
    requires |d0| == |d| == DATA_SIZE && 0 <= x < CLUSTER_COUNT && |src| <= CLUSTER_SIZE
    requires forall y :: 0 <= y < CLUSTER_COUNT && y !in p ==> SameCluster(d0, d, y)
    ensures forall y :: 0 <= y < CLUSTER_COUNT && y !in p + [x] ==>
      SameCluster(d0, Spliced(d, CLUSTER_SIZE * x, src), y)
  {
    forall y | 0 <= y < CLUSTER_COUNT && y !in p + [x] ensures SameCluster(d0, Spliced(d, CLUSTER_SIZE * x, src), y) {
      assert y !in p && y != x;
      SpliceSameCluster(d, CLUSTER_SIZE * x, src, y);
    }
  }

  /** The finished append, for a file whose last data cluster had room. */
  lemma AppendedContents(d0: seq<byte>, d: seq<byte>, c: seq<int>, m: nat, p: seq<int>, buf: seq<byte>, size: nat,
                         c': seq<int>)
    requires Appending(d0, d, c, m, p, buf, size, |buf|)
    requires |c'| == |p| + 1 && c'[..|p|] == p && InRange(c') && size <= CLUSTER_SIZE * (|c| - 1)
    ensures size + |buf| <= CLUSTER_SIZE * (|c'| - 1)
    ensures Contents(d, c', size + |buf|) == Contents(d0, c, size) + buf
  {
    var u, v := Contents(d, c', size + |buf|), Contents(d0, c, size) + buf;
    assert forall q :: 0 <= q < |p| ==> c'[q] == c'[..|p|][q] == p[q];
    forall k | 0 <= k < size + |buf| ensures u[k] == v[k] {
      if k < size {
        PlacedBefore(d0, d, c, m, p, buf, size, k);
      } else {
        assert FileByte(d, p, size + (k - size)) == buf[k - size];
      }
    }
  }

  lemma PlacedBefore(d0: seq<byte>, d: seq<byte>, c: seq<int>, m: nat, p: seq<int>, buf: seq<byte>, size: nat, k: nat)
    requires Appending(d0, d, c, m, p, buf, size, |buf|) && k < size
    ensures FileByte(d, p, k) == FileByte(d0, c, k)
  {
    var q := k / CLUSTER_SIZE;
    assert FileByte(d, p, k) == FileByte(d0, p, k);
    assert c[q] == c[..m][q] == p[..m][q];
  }

  /** Only bytes of cluster x from `off` on differ between d0 and d. */
  ghost predicate OnlyFrom(x: int, off: nat, d0: seq<byte>, d: seq<byte>) {
    |d| == |d0| && forall y :: 0 <= y < |d| && !InTail(x, off, y) ==> d[y] == d0[y]
  }

  predicate InTail(x: int, off: nat, y: int) { CLUSTER_SIZE * x + off <= y < CLUSTER_SIZE * x + CLUSTER_SIZE }

  /** Where append_data starts writing, as a position in the file. */
  function AppendBase(c: seq<int>, size: nat): int { CLUSTER_SIZE * (|c| - 2) + size % CLUSTER_SIZE }

  /** All other files read as before. */
  lemma OthersKept(d0: seq<byte>, d: seq<byte>, fat: seq<int>, cs: seq<seq<int>>, i: nat, c': seq<int>, from: nat,
                   k: nat, r: FileRec)
    requires |d0| == |d| == DATA_SIZE && AllInRange(cs) && i < |cs| && 0 <= k < |cs| && k != i && |cs[k]| >= 2
    requires FatWf(fat, cs[i := c']) && from < |c'| && ValidRec(r)
    requires forall x :: 0 <= x < CLUSTER_COUNT && x !in DataClusters(c')[from..] ==> SameCluster(d0, d, x)
    ensures AbsFile(d, r, cs[k]) == AbsFile(d0, r, cs[k])
  {
    var cs' := cs[i := c'];
    assert Apart(cs'[if i < k then i else k], cs'[if i < k then k else i]);
    forall m | 0 <= m < |cs[k]| - 1 ensures SameCluster(d0, d, cs[k][m]) {
      assert cs[k][m] in cs'[k];
      assert forall x :: x in DataClusters(c')[from..] ==> x in c';
    }
    if r.size <= CLUSTER_SIZE * (|cs[k]| - 1) {
      ContentsFrame(d0, d, cs[k], r.size);
    }
  }

  /** Record and chain i are replaced; only data clusters of the new chain were written. */
  lemma ReplacedFile(fat': seq<int>, d0: seq<byte>, d: seq<byte>, recs: seq<FileRec>, cs: seq<seq<int>>, i: nat,
                     r: FileRec, c: seq<int>, from: nat)
    requires |d0| == |d| == DATA_SIZE && DirOk(recs, cs) && AllInRange(cs) && i < |recs|
    requires FatWf(fat', cs[i := c]) && from < |c| && |c| >= 2 && InRange(c)
    requires ValidRec(r) && r.name == recs[i].name && r.start == c[0]
    requires forall x :: 0 <= x < CLUSTER_COUNT && x !in DataClusters(c)[from..] ==> SameCluster(d0, d, x)
    ensures DirOk(recs[i := r], cs[i := c]) && AllInRange(cs[i := c])
    ensures Shaped(recs, cs) && |c| - 1 <= r.size / CLUSTER_SIZE + 1 ==> Shaped(recs[i := r], cs[i := c])
    ensures AbsFiles(d, recs[i := r], cs[i := c]) == AbsFiles(d0, recs, cs)[i := AbsFile(d, r, c)]
  {
    var recs', cs' := recs[i := r], cs[i := c];
    WfInRange(fat', cs');
    ReplacedDir(recs, cs, i, r, c);
    var fs, fs' := AbsFiles(d0, recs, cs), AbsFiles(d, recs', cs');
    forall k | 0 <= k < |recs| && k != i ensures fs'[k] == fs[k] {
      assert recs[k].start == cs[k][0];
      OthersKept(d0, d, fat', cs, i, c, from, k, recs[k]);
    }
  }

  lemma ReplacedDir(recs: seq<FileRec>, cs: seq<seq<int>>, i: nat, r: FileRec, c: seq<int>)
    requires DirOk(recs, cs) && i < |recs| && |c| >= 2 && ValidRec(r) && r.name == recs[i].name && r.start == c[0]
    ensures DirOk(recs[i := r], cs[i := c])
    ensures Shaped(recs, cs) && |c| - 1 <= r.size / CLUSTER_SIZE + 1 ==> Shaped(recs[i := r], cs[i := c])
  {
    var recs', cs' := recs[i := r], cs[i := c];
    forall k | 0 <= k < |recs'| ensures recs'[k].name == recs[k].name {}
    forall k | 0 <= k < |recs'| ensures |cs'[k]| >= 2 && cs'[k][0] == recs'[k].start {
      assert recs[k].start == cs[k][0];
    }
    assert forall k :: 0 <= k < |recs'| ==> ValidRec(recs'[k]);
    assert forall a, b :: 0 <= a < b < |recs'| ==> recs'[a].name != recs'[b].name;
    assert DirOk(recs', cs');
    if Shaped(recs, cs) && |c| - 1 <= r.size / CLUSTER_SIZE + 1 {
      forall k | 0 <= k < |recs'| ensures |cs'[k]| - 1 <= recs'[k].size / CLUSTER_SIZE + 1 {
        assert |cs[k]| - 1 <= recs[k].size / CLUSTER_SIZE + 1;
      }
    }
  }

  lemma AppendedFile(d0: seq<byte>, d: seq<byte>, r: FileRec, c: seq<int>, p: seq<int>, buf: seq<byte>, e: int)
    requires |d0| == DATA_SIZE && InRange(c) && |c| >= 2 && ValidRec(r) && r.size + |buf| < 0x1_0000_0000
    requires Appending(d0, d, c, |c| - 1, p, buf, AppendBase(c, r.size), |buf|) && (buf == [] ==> d == d0)
    requires |p| == |c| - 1 + NewClusters(r.size, |buf|) && 0 <= e < CLUSTER_COUNT
    requires FileOk(AbsFile(d0, r, c)) && (buf == [] ==> p + [e] == c)
    ensures AbsFile(d, r.(size := r.size + |buf|), p + [e]) == Appended(AbsFile(d0, r, c), buf)
    ensures |p| <= (r.size + |buf|) / CLUSTER_SIZE + 1
  {
    hide Contents, HeadBytes;
    var f := AbsFile(d0, r, c);
    var c' := p + [e];
    FileOkAfterAppend(f, buf);
    if buf == [] {
      assert NewClusters(r.size, 0) == 0;
    } else if Roomy(f) {
      assert c'[..|p|] == p;
      AppendedContents(d0, d, c, |c| - 1, p, buf, r.size, c');
    }
  }

  /** The directory and the files after an append. */
  lemma AppendedOk(fat': seq<int>, d0: seq<byte>, d: seq<byte>, recs: seq<FileRec>, cs: seq<seq<int>>, i: nat,
                   p: seq<int>, buf: seq<byte>, e: int)
    requires |d0| == DATA_SIZE && DirOk(recs, cs) && Shaped(recs, cs) && AllInRange(cs) && i < |recs|
    requires FatWf(fat', cs[i := p + [e]]) && recs[i].size + |buf| < 0x1_0000_0000
    requires Appending(d0, d, cs[i], |cs[i]| - 1, p, buf, AppendBase(cs[i], recs[i].size), |buf|)
    requires buf == [] ==> d == d0 && p + [e] == cs[i]
    requires |p| == |cs[i]| - 1 + NewClusters(recs[i].size, |buf|)
    ensures var recs', cs' := recs[i := recs[i].(size := recs[i].size + |buf|)], cs[i := p + [e]];
      && DirOk(recs', cs') && Shaped(recs', cs') && AllInRange(cs') && RootOf(cs') == RootOf(cs)
      && var fs := AbsFiles(d0, recs, cs);
      FileOk(fs[i]) && AbsFiles(d, recs', cs') == fs[i := Appended(fs[i], buf)]
  {
    var c, c' := cs[i], p + [e];
    assert DataClusters(c') == p;
    assert p[0] == p[..|c| - 1][0] == c[..|c| - 1][0];
    assert recs[i].start == c[0];
    AppendInRange(fat', cs, i, p, e);
    assert InRange(c');
    AppendedFile(d0, d, recs[i], c, p, buf, e);
    ReplacedFile(fat', d0, d, recs, cs, i, recs[i].(size := recs[i].size + |buf|), c', |c| - 2);
  }

  /** append_data() after its first write: `head` bytes of the buffer are in cluster `last`. */
  ghost predicate HeadStored(fat: seq<int>, d0: seq<byte>, d: seq<byte>, cs: seq<seq<int>>, files: seq<FileRec>, i: nat,
                             buffer: seq<byte>, last: int, head: nat, fs: seq<File>)
  {
    && |cs| == |files| + 1 && i < |files| == |fs|
    && Placed(fat, d0, cs, files) && Shaped(files, cs) && AllInRange(cs)
    && |d0| == DATA_SIZE && fs == AbsFiles(d0, files, cs)
    && |cs[i]| >= 2 && last == cs[i][|cs[i]| - 2] && head == HeadBytes(files[i].size, |buffer|)
    && Appending(d0, d, cs[i], |cs[i]| - 1, DataClusters(cs[i]), buffer, AppendBase(cs[i], files[i].size), head)
    && OnlyFrom(last, files[i].size % CLUSTER_SIZE, d0, d)
    && (buffer == [] ==> d == d0)
  }

  /** What saving the directory needs after an append inside the last cluster. */
  lemma AppendedWithin(fat: seq<int>, d0: seq<byte>, d: seq<byte>, cs: seq<seq<int>>, files: seq<FileRec>, i: nat,
                       buffer: seq<byte>, last: int, fs: seq<File>)
    requires HeadStored(fat, d0, d, cs, files, i, buffer, last, |buffer|, fs) && |d| == DATA_SIZE
    requires files[i].size + |buffer| < 0x1_0000_0000
    ensures i < |files| == |fs| && FatWf(fat, cs) && AllInRange(cs) && files[i].size >= 0
    ensures var files' := files[i := files[i].(size := files[i].size + |buffer|)];
      Shaped(files', cs) && AbsFiles(d, files', cs) == fs[i := Appended(fs[i], buffer)]
    ensures cs != [] && RootOf(cs)[0] == 0 && |RootOf(cs)| == RootClusters(|files|) + 1
  {
    var c := cs[i];
    assert DataClusters(c) + [c[|c| - 1]] == c && cs[i := c] == cs;
    assert NewClusters(files[i].size, |buffer|) == 0;
    hide Appending, HeadBytes, ClustersNeeded, NewClusters, Appended, AppendBase, RootImage;
    AppendedOk(fat, d0, d, files, cs, i, DataClusters(c), buffer, c[|c| - 1]);
  }

  lemma HeadWritten(d0: seq<byte>, c: seq<int>, off: nat, head: nat, buffer: seq<byte>)
    requires |d0| == DATA_SIZE && |c| >= 2 && InRange(c) && forall i, j :: 0 <= i < j < |c| ==> c[i] != c[j]
    requires off + head <= CLUSTER_SIZE && off < CLUSTER_SIZE && head <= |buffer|
    ensures 0 <= c[|c| - 2] < CLUSTER_COUNT
    ensures Appending(d0, Spliced(d0, CLUSTER_SIZE * c[|c| - 2] + off, buffer[..head]), c, |c| - 1, DataClusters(c),
      buffer,
                      CLUSTER_SIZE * (|c| - 2) + off, head)
  {
    hide Appending, Spliced, InRange;
    assert c[..|c| - 1] == DataClusters(c);
    AppendHead(d0, c, |c| - 1, buffer, off, head);
    LastInRange(c);
  }

  lemma LastInRange(c: seq<int>)
    requires InRange(c) && |c| >= 2
    ensures 0 <= c[|c| - 2] < CLUSTER_COUNT
  {
  }

  lemma SplicedOnly(d0: seq<byte>, x: nat, off: nat, src: seq<byte>)
    requires |d0| == DATA_SIZE && off + |src| <= CLUSTER_SIZE && x < CLUSTER_COUNT
    ensures OnlyFrom(x, off, d0, Spliced(d0, CLUSTER_SIZE * x + off, src))
    ensures src == [] ==> Spliced(d0, CLUSTER_SIZE * x + off, src) == d0
  {
  }

  lemma HeadStoredBy(fat: seq<int>, d0: seq<byte>, cs: seq<seq<int>>, files: seq<FileRec>, i: nat, buffer: seq<byte>,
                     fs: seq<File>)
    requires Placed(fat, d0, cs, files) && Shaped(files, cs) && AllInRange(cs) && |d0| == DATA_SIZE
    requires i < |files| && fs == AbsFiles(d0, files, cs)
    ensures var last, head, off := cs[i][|cs[i]| - 2], HeadBytes(files[i].size, |buffer|), files[i].size % CLUSTER_SIZE;
      && 0 <= last && CLUSTER_SIZE * last + off + head <= DATA_SIZE
      && HeadStored(fat, d0, Spliced(d0, CLUSTER_SIZE * last + off, buffer[..head]), cs, files, i, buffer,
                    last, head, fs)
  {
    hide Placed, Shaped, Appending, AllInRange, OnlyFrom, AbsFiles, DirOk, Spliced, HeadBytes, AppendBase, DataClusters;
    FileFacts(fat, d0, cs, files, i);
    var last, head, off := cs[i][|cs[i]| - 2], HeadBytes(files[i].size, |buffer|), files[i].size % CLUSTER_SIZE;
    HeadWritten(d0, cs[i], off, head, buffer);
    SplicedOnly(d0, last, off, buffer[..head]);
    assert buffer == [] ==> buffer[..head] == [];
  }

  /** What a directory in place says about file i. */
  lemma FileFacts(fat: seq<int>, data: seq<byte>, cs: seq<seq<int>>, recs: seq<FileRec>, i: nat)
    requires Placed(fat, data, cs, recs) && i < |recs|
    ensures |cs| == |recs| + 1 && |cs[i]| >= 2 && InRange(cs[i]) && cs[i][0] == recs[i].start && 0 <= recs[i].size
    ensures forall a, b :: 0 <= a < b < |cs[i]| ==> cs[i][a] != cs[i][b]
    ensures AppendBase(cs[i], recs[i].size) == CLUSTER_SIZE * (|cs[i]| - 2) + recs[i].size % CLUSTER_SIZE
  {
    assert IsChain(fat, cs[i]) && recs[i].start == cs[i][0];
  }

  lemma AppendInRange(fat: seq<int>, cs: seq<seq<int>>, i: nat, p: seq<int>, e: int)
    requires i < |cs| && FatWf(fat, cs[i := p + [e]])
    ensures 0 <= e < CLUSTER_COUNT
  {
    var c := cs[i := p + [e]][i];
    assert IsChain(fat, c) && c[|p|] == e;
  }

  /** An append that found no room: the head of buf is in place, nothing else has changed. */
  lemma OverrunOk(fat: seq<int>, d0: seq<byte>, d: seq<byte>, recs: seq<FileRec>, cs: seq<seq<int>>, i: nat,
                  buf: seq<byte>)
    requires FatWf(fat, cs) && DirOk(recs, cs) && Shaped(recs, cs) && AllInRange(cs) && i < |recs| && |d0| == DATA_SIZE
    requires HeadBytes(recs[i].size, |buf|) < |buf|
    requires Appending(d0, d, cs[i], |cs[i]| - 1, DataClusters(cs[i]), buf,
                       AppendBase(cs[i], recs[i].size), HeadBytes(recs[i].size, |buf|))
    ensures var fs := AbsFiles(d0, recs, cs); FileOk(fs[i]) && AbsFiles(d, recs, cs) == fs[i := Overrun(fs[i], buf)]
  {
    var c := cs[i];
    assert recs[i].start == c[0] && cs[i := c] == cs && recs[i := recs[i]] == recs;
    OverrunFile(d0, d, recs[i], c, buf);
    ReplacedFile(fat, d0, d, recs, cs, i, recs[i], c, |c| - 2);
  }

  /** The directory survives a write to a file's last data cluster, if these bytes are not its own. */
  lemma OverrunImage(fat: seq<int>, d0: seq<byte>, d: seq<byte>, recs: seq<FileRec>, cs: seq<seq<int>>, i: nat,
                     off: nat)
    requires Placed(fat, d0, cs, recs) && i < |recs| && |d0| == |d| == DATA_SIZE && off < CLUSTER_SIZE
    requires OnlyFrom(cs[i][|cs[i]| - 2], off, d0, d)
    requires cs != [] && |RootOf(cs)| >= 2
    requires !OverDirectory(RootOf(cs)[|RootOf(cs)| - 2], |recs|, cs[i][|cs[i]| - 2], off)
    ensures Placed(fat, d, cs, recs)
  {
    hide RootImage, FatWf;
    var c, p := cs[i], DataClusters(RootOf(cs));
    var x := c[|c| - 2];
    LastApart(fat, cs, i);
    RootImageSpared(d0, d, p, recs, x, off);
  }

  /** The last data cluster of a file is none of the directory's. */
  lemma LastApart(fat: seq<int>, cs: seq<seq<int>>, i: nat)
    requires FatWf(fat, cs) && i < |cs| - 1 && |RootOf(cs)| >= 2
    ensures |cs[i]| >= 2 && 0 <= cs[i][|cs[i]| - 2] < CLUSTER_COUNT && cs[i][|cs[i]| - 2] !in DataClusters(RootOf(cs))
  {
    var c, p := cs[i], DataClusters(RootOf(cs));
    assert c[|c| - 2] in c && Apart(c, RootOf(cs)) && forall y :: y in p ==> y in RootOf(cs);
  }

  /** Saving a directory of n records with its last copy to cluster `last` wrote over bytes of cluster x from `off`
      on. */
  predicate OverDirectory(last: int, n: nat, x: int, off: nat) {
    last < x && CLUSTER_SIZE * x + off < CLUSTER_SIZE * last + LastBytes(n)
  }

  lemma OverDoesNotFit(last: int, n: nat, x: int, off: nat)
    requires OverDirectory(last, n, x, off)
    ensures !Fits(n)
  {
    FitsExactly(n);
  }

  lemma OverrunFile(d0: seq<byte>, d: seq<byte>, r: FileRec, c: seq<int>, buf: seq<byte>)
    requires |d0| == DATA_SIZE && InRange(c) && |c| >= 2 && ValidRec(r) && |c| - 1 <= r.size / CLUSTER_SIZE + 1
    requires HeadBytes(r.size, |buf|) < |buf|
    requires Appending(d0, d, c, |c| - 1, DataClusters(c), buf, AppendBase(c, r.size), HeadBytes(r.size, |buf|))
    ensures FileOk(AbsFile(d0, r, c)) && AbsFile(d, r, c) == Overrun(AbsFile(d0, r, c), buf)
  {
    hide HeadBytes;
    var f := AbsFile(d0, r, c);
    HeadFills(r.size, |buf|);
    if Sound(f) {
      OverrunBase(r.size, |c|);
      OverrunContents(d0, d, c, r.size, buf, AppendBase(c, r.size), HeadBytes(r.size, |buf|));
      OverrunBytes(f, buf, Contents(d, c, r.size));
    }
  }

  /** In terms of the file: a full last cluster is overwritten, and nothing else is. */
  lemma OverrunBytes(f: File, buf: seq<byte>, bytes: seq<byte>)
    requires FileOk(f) && Sound(f) && |buf| > CLUSTER_SIZE - f.size % CLUSTER_SIZE
    requires var base := CLUSTER_SIZE * (f.clusters - 1) + f.size % CLUSTER_SIZE;
      base <= f.size && f.size - base <= |buf| && bytes == f.bytes[..base] + buf[..f.size - base]
    ensures Overrun(f, buf) == f.(bytes := bytes)
  {
    if Roomy(f) {
      assert f.bytes[..f.size] + buf[..0] == f.bytes;
    }
  }

  lemma OverrunBase(size: nat, n: nat)
    requires 2 <= n && n - 1 <= size / CLUSTER_SIZE + 1 && size <= CLUSTER_SIZE * (n - 1)
    ensures var base := CLUSTER_SIZE * (n - 2) + size % CLUSTER_SIZE;
      && base <= size <= base + CLUSTER_SIZE - size % CLUSTER_SIZE
      && base == if n - 1 == size / CLUSTER_SIZE + 1 then size else size - CLUSTER_SIZE
  {
  }

  /** The contents after the head of buf went to position `base`. */
  lemma OverrunContents(d0: seq<byte>, d: seq<byte>, c: seq<int>, size: nat, buf: seq<byte>, base: nat, head: nat)
    requires |c| >= 2 && Appending(d0, d, c, |c| - 1, DataClusters(c), buf, base, head)
    requires size <= base + head && base <= size && size <= CLUSTER_SIZE * (|c| - 1) && head <= |buf|
    ensures Contents(d, c, size) == Contents(d0, c, size)[..base] + buf[..size - base]
  {
    var p := DataClusters(c);
    var u, v := Contents(d, c, size), Contents(d0, c, size)[..base] + buf[..size - base];
    forall k | 0 <= k < size ensures u[k] == v[k] {
      assert u[k] == FileByte(d, p, k);
      if k < base {
        assert FileByte(d, p, k) == FileByte(d0, p, k) == Contents(d0, c, size)[k];
      } else {
        assert FileByte(d, p, base + (k - base)) == buf[k - base];
      }
    }
  }

  // ---------- cutting a file ----------

  /** write() after cutting chain c behind data cluster sc, having visited the clusters before m:
      cluster sc + 1 ends the file now, the ones behind it are free. */
  ghost predicate CutUpTo(f: seq<int>, fat: seq<int>, c: seq<int>, sc: nat, m: nat) {
    && |fat| == |f| == CLUSTER_COUNT && sc + 1 <= m < |c|
    && forall x :: 0 <= x < |f| ==>
      fat[x] == if m > sc + 1 && x == c[sc + 1] then EOF_CLUSTER
                else if x in c[sc + 1..m] then FREE_CLUSTER
                else f[x]
  }

  lemma CutStart(f: seq<int>, c: seq<int>, sc: nat)
    requires |f| == CLUSTER_COUNT && sc + 1 < |c|
    ensures CutUpTo(f, f, c, sc, sc + 1)
  {
    assert c[sc + 1..sc + 1] == [];
  }

  lemma CutStep(f: seq<int>, fat: seq<int>, c: seq<int>, sc: nat, m: nat)
    requires IsChain(f, c) && CutUpTo(f, fat, c, sc, m) && m < |c| - 1
    ensures fat[c[m]] == f[c[m]] == c[m + 1] && fat[c[m + 1]] == f[c[m + 1]]
    ensures CutUpTo(f, fat[c[m] := if m == sc + 1 then EOF_CLUSTER else FREE_CLUSTER], c, sc, m + 1)
  {
    assert c[sc + 1..m + 1] == c[sc + 1..m] + [c[m]];
  }

  lemma CutAtEnd(f: seq<int>, fat: seq<int>, c: seq<int>, sc: nat, m: nat)
    requires IsChain(f, c) && CutUpTo(f, fat, c, sc, m)
    ensures 0 <= c[m] < |fat| && (fat[c[m]] == EOF_CLUSTER <==> m == |c| - 1)
  {
    assert m < |c| - 1 ==> f[c[m]] == c[m + 1];
  }

  /** The cut chain is well-formed; an EOF cluster that lies further behind stays allocated, in no chain. */
  lemma CutDone(f: seq<int>, fat: seq<int>, cs: seq<seq<int>>, i: nat, sc: nat)
    requires FatWf(f, cs) && i < |cs| && |cs[i]| >= 2 && sc + 1 < |cs[i]| && CutUpTo(f, fat, cs[i], sc, |cs[i]| - 1)
    ensures FatWf(fat, cs[i := cs[i][..sc + 2]])
  {
    var c := cs[i];
    assert IsChain(f, c);
    if |c| == sc + 2 {
      assert fat == f && c[..sc + 2] == c;
      assert cs[i := c[..sc + 2]] == cs;
    } else {
      var x := c[sc + 1];
      var g := fat[x := f[x]];
      forall y | 0 <= y < |f| && y !in c[sc + 2..] ensures g[y] == f[y] {
        assert c[sc + 1..|c| - 1] == [x] + c[sc + 2..|c| - 1];
        assert c[sc + 2..] == c[sc + 2..|c| - 1] + [c[|c| - 1]];
      }
      CutChain(f, g, cs, i, sc + 2);
      CloseOpen(g, cs, i, c[..sc + 2]);
      assert g[x := EOF_CLUSTER] == fat;
    }
  }

  lemma CutContents(d: seq<byte>, r: FileRec, c: seq<int>, offset: nat)
    requires |d| == DATA_SIZE && InRange(c) && |c| >= 2 && ValidRec(r) && offset < r.size <= CLUSTER_SIZE * (|c| - 1)
    ensures var sc := offset / CLUSTER_SIZE;
      && sc + 1 < |c| && InRange(c[..sc + 2])
      && AbsFile(d, r.(size := offset), c[..sc + 2]) == CutFile(AbsFile(d, r, c), offset)
  {
    var sc := offset / CLUSTER_SIZE;
    var c' := c[..sc + 2];
    var u, v := Contents(d, c', offset), Contents(d, c, r.size)[..offset];
    forall k | 0 <= k < offset ensures u[k] == v[k] {
      assert c'[k / CLUSTER_SIZE] == c[k / CLUSTER_SIZE];
    }
  }

  /** Another record and another chain for file i, with the directory saved already. */
  lemma ReplacedPlaced(fat: seq<int>, d: seq<byte>, cs: seq<seq<int>>, recs: seq<FileRec>, i: nat, r: FileRec,
                       c: seq<int>)
    requires DirOk(recs, cs) && Shaped(recs, cs) && i < |recs| && |d| == DATA_SIZE && AllInRange(cs)
    requires FatWf(fat, cs[i := c]) && InRange(c) && 2 <= |c| <= r.size / CLUSTER_SIZE + 2
    requires ValidRec(r) && r.name == recs[i].name && r.start == c[0]
    requires |RootOf(cs)| == RootClusters(|recs|) + 1 && RootOf(cs)[0] == 0
    requires RootImage(d, DataClusters(RootOf(cs)), recs[i := r])
    ensures Placed(fat, d, cs[i := c], recs[i := r]) && Shaped(recs[i := r], cs[i := c]) && AllInRange(cs[i := c])
    ensures AbsFiles(d, recs[i := r], cs[i := c]) == AbsFiles(d, recs, cs)[i := AbsFile(d, r, c)]
  {
    hide FatWf, RootImage, RootClusters, AbsFiles, AbsFile, InRange, Shaped;
    CutFrame(d, c);
    ReplacedFile(fat, d, d, recs, cs, i, r, c, 0);
    assert RootOf(cs[i := c]) == RootOf(cs);
  }

  /** The directory and the files after the cut; `recs` still has the old size of file i. */
  lemma CutPlaced(fat: seq<int>, d: seq<byte>, cs: seq<seq<int>>, recs: seq<FileRec>, i: nat, offset: nat)
    requires DirOk(recs, cs) && Shaped(recs, cs) && i < |recs| && |d| == DATA_SIZE && AllInRange(cs)
    requires offset < recs[i].size <= CLUSTER_SIZE * (|cs[i]| - 1)
    requires |RootOf(cs)| == RootClusters(|recs|) + 1 && RootOf(cs)[0] == 0
    requires var sc := offset / CLUSTER_SIZE; sc + 1 < |cs[i]| && FatWf(fat, cs[i := cs[i][..sc + 2]])
    requires RootImage(d, DataClusters(RootOf(cs)), recs[i := recs[i].(size := offset)])
    ensures var recs', cs' := recs[i := recs[i].(size := offset)], cs[i := cs[i][..offset / CLUSTER_SIZE + 2]];
      && Placed(fat, d, cs', recs') && Shaped(recs', cs') && AllInRange(cs')
      && AbsFiles(d, recs', cs') == AbsFiles(d, recs, cs)[i := CutFile(AbsFile(d, recs[i], cs[i]), offset)]
  {
    hide FatWf, RootImage, Contents, RootClusters, AbsFiles, InRange, Shaped, Placed;
    var c := cs[i][..offset / CLUSTER_SIZE + 2];
    var r := recs[i].(size := offset);
    CutContents(d, recs[i], cs[i], offset);
    assert recs[i].start == cs[i][0];
    assert c[0] == cs[i][0];
    ReplacedPlaced(fat, d, cs, recs, i, r, c);
  }

  lemma CutFrame(d: seq<byte>, c: seq<int>)
    requires |d| == DATA_SIZE && c != []
    ensures forall x :: 0 <= x < CLUSTER_COUNT && x !in DataClusters(c)[0..] ==> SameCluster(d, d, x)
  {
  }

  // ---------- inserting into a file ----------

  /** The bytes from position `from` on of the memory that the clusters p make up. */
  ghost predicate TailRead(d: seq<byte>, p: seq<int>, from: nat, tail: seq<byte>) {
    && |d| == DATA_SIZE && InRange(p) && from + |tail| <= CLUSTER_SIZE * |p|
    && forall t :: 0 <= t < |tail| ==> tail[t] == FileByte(d, p, from + t)
  }

  lemma TailMore(d: seq<byte>, p: seq<int>, from: nat, tail: seq<byte>, m: nat, n: nat)
    requires TailRead(d, p, from, tail) && from + |tail| == CLUSTER_SIZE * m && m < |p| && n <= CLUSTER_SIZE
    ensures 0 <= p[m] < CLUSTER_COUNT
    ensures TailRead(d, p, from, tail + d[CLUSTER_SIZE * p[m]..CLUSTER_SIZE * p[m] + n])
  {
    var more := tail + d[CLUSTER_SIZE * p[m]..CLUSTER_SIZE * p[m] + n];
    forall t | 0 <= t < |more| ensures more[t] == FileByte(d, p, from + t) {
      if t >= |tail| {
        assert (from + t) / CLUSTER_SIZE == m && (from + t) % CLUSTER_SIZE == t - |tail|;
      }
    }
  }

  lemma TailFirst(d: seq<byte>, p: seq<int>, from: nat, n: nat)
    requires |d| == DATA_SIZE && InRange(p) && from / CLUSTER_SIZE < |p| && n <= CLUSTER_SIZE - from % CLUSTER_SIZE
    ensures var c, o := p[from / CLUSTER_SIZE], from % CLUSTER_SIZE;
      && 0 <= c < CLUSTER_COUNT
      && TailRead(d, p, from, d[CLUSTER_SIZE * c + o..CLUSTER_SIZE * c + o + n])
  {
    var c, o := p[from / CLUSTER_SIZE], from % CLUSTER_SIZE;
    var tail := d[CLUSTER_SIZE * c + o..CLUSTER_SIZE * c + o + n];
    forall t | 0 <= t < |tail| ensures tail[t] == FileByte(d, p, from + t) {
      assert (from + t) / CLUSTER_SIZE == from / CLUSTER_SIZE && (from + t) % CLUSTER_SIZE == o + t;
    }
  }

  lemma TailEmpty(d: seq<byte>, p: seq<int>, from: nat)
    requires |d| == DATA_SIZE && InRange(p) && from <= CLUSTER_SIZE * |p|
    ensures TailRead(d, p, from, [])
  {
  }

  /** A stretch of the file's contents, read from its clusters. */
  lemma TailIsContents(d: seq<byte>, c: seq<int>, size: nat, from: nat, tail: seq<byte>)
    requires |d| == DATA_SIZE && InRange(c) && size <= CLUSTER_SIZE * (|c| - 1)
    requires TailRead(d, DataClusters(c), from, tail) && from + |tail| <= size
    ensures tail == Contents(d, c, size)[from..from + |tail|]
  {
    var v := Contents(d, c, size)[from..from + |tail|];
    forall t | 0 <= t < |tail| ensures tail[t] == v[t] {
      assert tail[t] == FileByte(d, DataClusters(c), from + t);
    }
  }

  /** What an insertion needs to know about the file it cuts. */
  lemma InsertFacts(fat: seq<int>, data: seq<byte>, cs: seq<seq<int>>, recs: seq<FileRec>, i: nat, offset: nat, f: File)
    requires Placed(fat, data, cs, recs) && i < |recs| && |data| == DATA_SIZE && AllInRange(cs)
    requires |cs[i]| >= 2 && f == AbsFile(data, recs[i], cs[i]) && offset < f.size && InsertLegal(f)
    ensures offset < CLUSTER_SIZE * (|cs[i]| - 1) && recs[i].size == f.size && f.clusters == |cs[i]| - 1
    ensures f.size <= CLUSTER_SIZE * (|cs[i]| - 1) && f.bytes == Contents(data, cs[i], f.size)
  {
  }

  /** The directory may be saved with the size of file i cut down. */
  lemma ResizedDir(recs: seq<FileRec>, cs: seq<seq<int>>, i: nat, size: nat)
    requires DirOk(recs, cs) && i < |recs| && size < 0x1_0000_0000
    ensures DirOk(recs[i := recs[i].(size := size)], cs)
  {
    assert recs[i].start == cs[i][0] && cs[i := cs[i]] == cs;
    ReplacedDir(recs, cs, i, recs[i].(size := size), cs[i]);
  }

  lemma SameFilesAbs(data: seq<byte>, recs: seq<FileRec>, cs: seq<seq<int>>, cs': seq<seq<int>>)
    requires |data| == DATA_SIZE && DirOk(recs, cs) && AllInRange(cs) && SameFiles(cs, cs') && AllInRange(cs')
    ensures DirOk(recs, cs') && AbsFiles(data, recs, cs') == AbsFiles(data, recs, cs)
  {
    ResavedShape(recs, cs, cs');
    forall k | 0 <= k < |recs| ensures AbsFile(data, recs[k], cs'[k]) == AbsFile(data, recs[k], cs[k]) {
      assert recs[k].start == cs[k][0];
    }
  }

  /** The state after the cut. The directory was saved before with the new size of file i. */
  lemma CutOffDone(fat1: seq<int>, fat: seq<int>, d: seq<byte>, cs: seq<seq<int>>, files: seq<FileRec>, i: nat,
                   offset: nat, f: File)
    requires i < |files| && Placed(fat1, d, cs, files[i := files[i].(size := offset)])
    requires Shaped(files, cs) && AllInRange(cs) && |d| == DATA_SIZE
    requires |cs[i]| >= 2 && f == AbsFile(d, files[i], cs[i]) && offset < f.size && InsertLegal(f)
    requires var sc := offset / CLUSTER_SIZE; sc + 1 < |cs[i]| && FatWf(fat, cs[i := cs[i][..sc + 2]])
    ensures var files', cs' := files[i := files[i].(size := offset)], cs[i := cs[i][..offset / CLUSTER_SIZE + 2]];
      && Placed(fat, d, cs', files') && Shaped(files', cs') && AllInRange(cs')
      && AbsFiles(d, files', cs') == AbsFiles(d, files, cs)[i := CutFile(f, offset)]
    ensures f.bytes == Contents(d, cs[i], f.size)
  {
    CutPlaced(fat, d, cs, files, i, offset);
  }

  lemma PlacedWf(fat: seq<int>, data: seq<byte>, cs: seq<seq<int>>, recs: seq<FileRec>)
    requires Placed(fat, data, cs, recs)
    ensures FatWf(fat, cs) && AllInRange(cs) && DirOk(recs, cs) && |cs| == |recs| + 1
    ensures forall i :: 0 <= i < |recs| ==> |cs[i]| >= 2 && cs[i][0] == recs[i].start && ValidRec(recs[i])
  {
    WfInRange(fat, cs);
    forall i | 0 <= i < |recs| ensures |cs[i]| >= 2 && cs[i][0] == recs[i].start {}
  }

  lemma CutTailBytes(d: seq<byte>, c: seq<int>, offset: nat, tail: seq<byte>, f: File)
    requires |d| == DATA_SIZE && InRange(c) && f.size <= CLUSTER_SIZE * (|c| - 1) && f.bytes == Contents(d, c, f.size)
    requires TailRead(d, DataClusters(c), offset, tail) && |tail| == CLUSTER_SIZE * (|c| - 1) - offset
    requires offset < f.size
    ensures |tail| >= f.size - offset && |f.bytes| == f.size && tail[..f.size - offset] == f.bytes[offset..]
  {
    TailIsContents(d, c, f.size, offset, tail[..f.size - offset]);
  }

  /** CutOffDone and CutTailBytes together, on the level of the disk. */
  lemma CutOffResult(fat1: seq<int>, fat: seq<int>, d: seq<byte>, cs: seq<seq<int>>, files: seq<FileRec>, i: nat,
                     offset: nat,
                     e: Disk, tail: seq<byte>)
    requires i < |files| && Placed(fat1, d, cs, files[i := files[i].(size := offset)])
    requires Shaped(files, cs) && AllInRange(cs) && |d| == DATA_SIZE && e.files == AbsFiles(d, files, cs)
    requires offset < e.files[i].size && InsertLegal(e.files[i])
    requires var c, sc := cs[i], offset / CLUSTER_SIZE;
      && sc + 1 < |c| && FatWf(fat, cs[i := c[..sc + 2]])
      && TailRead(d, DataClusters(c), offset, tail) && |tail| == CLUSTER_SIZE * (|c| - 1) - offset
      && FreeCount(fat, CLUSTER_COUNT) == e.free + if |c| - 1 >= sc + 2 then |c| - 1 - sc - 2 else 0
    ensures var files', cs' := files[i := files[i].(size := offset)], cs[i := cs[i][..offset / CLUSTER_SIZE + 2]];
      && Placed(fat, d, cs', files') && Shaped(files', cs') && AllInRange(cs')
      && CutTo(e, Disk(AbsFiles(d, files', cs'), FreeCount(fat, CLUSTER_COUNT)), i, offset, tail)
  {
    hide Placed, TailRead, FatWf;
    var f := e.files[i];
    assert files[i].start == cs[i][0] && f == AbsFile(d, files[i], cs[i]);
    CutOffDone(fat1, fat, d, cs, files, i, offset, f);
    CutTailBytes(d, cs[i], offset, tail, f);
  }

  // ---------- copying a file ----------

  /** cp() at work: the first q clusters of the source chain c are copied to the clusters p. */
  ghost predicate Copying(d0: seq<byte>, d: seq<byte>, c: seq<int>, p: seq<int>, q: nat) {
    && |d0| == |d| == DATA_SIZE && InRange(c) && InRange(p) && q < |p| && q < |c|
    && (forall j :: 0 <= j < q ==>
          d[CLUSTER_SIZE * p[j]..CLUSTER_SIZE * p[j] + CLUSTER_SIZE] ==
          d0[CLUSTER_SIZE * c[j]..CLUSTER_SIZE * c[j] + CLUSTER_SIZE])
    && (forall x :: 0 <= x < CLUSTER_COUNT && x !in p[..q] ==> SameCluster(d0, d, x))
  }

  lemma CopyStep(d0: seq<byte>, d: seq<byte>, c: seq<int>, p: seq<int>, q: nat, x: int)
    requires Copying(d0, d, c, p, q) && |p| == q + 1 && q + 1 < |c| && 0 <= x < CLUSTER_COUNT
    requires c[q] !in p && forall i, j :: 0 <= i < j < |p| ==> p[i] != p[j]
    ensures 0 <= p[q] < CLUSTER_COUNT && 0 <= c[q] < CLUSTER_COUNT
    ensures var src := d[CLUSTER_SIZE * c[q]..CLUSTER_SIZE * c[q] + CLUSTER_SIZE];
      Copying(d0, Spliced(d, CLUSTER_SIZE * p[q], src), c, p + [x], q + 1)
  {
    var src := d[CLUSTER_SIZE * c[q]..CLUSTER_SIZE * c[q] + CLUSTER_SIZE];
    var d' := Spliced(d, CLUSTER_SIZE * p[q], src);
    assert d'[CLUSTER_SIZE * p[q]..CLUSTER_SIZE * p[q] + CLUSTER_SIZE] == src;
    forall y | 0 <= y < CLUSTER_COUNT && y != p[q] ensures SameCluster(d, d', y) {
      SpliceSameCluster(d, CLUSTER_SIZE * p[q], src, y);
    }
    CopiedOne(d0, d, d', c, p, q, x);
  }

  /** One cluster was copied, and nothing else has changed. */
  lemma CopiedOne(d0: seq<byte>, d: seq<byte>, d': seq<byte>, c: seq<int>, p: seq<int>, q: nat, x: int)
    requires Copying(d0, d, c, p, q) && |p| == q + 1 && q + 1 < |c| && 0 <= x < CLUSTER_COUNT && |d'| == |d|
    requires c[q] !in p && forall i, j :: 0 <= i < j < |p| ==> p[i] != p[j]
    requires 0 <= p[q] < CLUSTER_COUNT && 0 <= c[q] < CLUSTER_COUNT
    requires d'[CLUSTER_SIZE * p[q]..CLUSTER_SIZE * p[q] + CLUSTER_SIZE]
      == d[CLUSTER_SIZE * c[q]..CLUSTER_SIZE * c[q] + CLUSTER_SIZE]
    requires forall y :: 0 <= y < CLUSTER_COUNT && y != p[q] ==> SameCluster(d, d', y)
    ensures Copying(d0, d', c, p + [x], q + 1)
  {
    var p' := p + [x];
    assert p'[..q + 1] == p && p[..q] + [p[q]] == p;
    assert SameCluster(d0, d, c[q]);
    forall j | 0 <= j < q
      ensures d'[CLUSTER_SIZE * p'[j]..CLUSTER_SIZE * p'[j] + CLUSTER_SIZE] ==
        d0[CLUSTER_SIZE * c[j]..CLUSTER_SIZE * c[j] + CLUSTER_SIZE]
    {
      assert SameCluster(d, d', p[j]);
    }
    forall y | 0 <= y < CLUSTER_COUNT && y !in p'[..q + 1] ensures SameCluster(d0, d', y) {
      assert y !in p[..q] && y != p[q];
      assert SameCluster(d0, d, y) && SameCluster(d, d', y);
    }
  }

  lemma CopiedContents(d0: seq<byte>, d: seq<byte>, c: seq<int>, p: seq<int>, size: nat)
    requires |c| >= 2 && |p| == |c| && Copying(d0, d, c, p, |c| - 1) && size <= CLUSTER_SIZE * (|c| - 1)
    ensures Contents(d, p, size) == Contents(d0, c, size)
  {
    forall k | 0 <= k < size ensures Contents(d, p, size)[k] == Contents(d0, c, size)[k] {
      var j, m := k / CLUSTER_SIZE, k % CLUSTER_SIZE;
      assert d[CLUSTER_SIZE * p[j]..CLUSTER_SIZE * p[j] + CLUSTER_SIZE][m]
          == d0[CLUSTER_SIZE * c[j]..CLUSTER_SIZE * c[j] + CLUSTER_SIZE][m];
    }
  }

  lemma CopiedFile(d0: seq<byte>, d: seq<byte>, c: seq<int>, p: seq<int>, r: FileRec, f: File)
    requires |c| >= 2 && |p| == |c| && Copying(d0, d, c, p, |c| - 1) && ValidRec(r)
    requires f.size == r.size && f.clusters == |c| - 1
    requires f.bytes == if r.size <= CLUSTER_SIZE * (|c| - 1) then Contents(d0, c, r.size) else []
    ensures AbsFile(d, r, p) == File(r.name, f.size, f.clusters, f.bytes, r.open, r.system)
  {
    if r.size <= CLUSTER_SIZE * (|c| - 1) {
      CopiedContents(d0, d, c, p, r.size);
    }
  }

  /** A write into a cluster outside the directory and its spill leaves the directory in place. */
  lemma CopyImage(d: seq<byte>, p: seq<int>, recs: seq<FileRec>, x: nat, src: seq<byte>)
    requires RootImage(d, p, recs) && x !in p && !InSpill(p[|p| - 1], |recs|, x)
    requires |src| == CLUSTER_SIZE && CLUSTER_SIZE * x + CLUSTER_SIZE <= |d|
    ensures RootImage(Spliced(d, CLUSTER_SIZE * x, src), p, recs)
  {
    SparesCluster(p, |recs|, x);
    RootImageSpared(d, Spliced(d, CLUSTER_SIZE * x, src), p, recs, x, 0);
  }

  /** The state when the last cluster has been copied and the destination's chain is closed. */
  lemma CopyPlaced(fat: seq<int>, d0: seq<byte>, d: seq<byte>, cs: seq<seq<int>>, recs: seq<FileRec>, k: nat,
                   c: seq<int>, p: seq<int>, f: File)
    requires DirOk(recs, cs) && Shaped'(recs, cs, k) && AllInRange(cs) && k < |recs|
    requires |c| >= 2 && |p| == |c| && Copying(d0, d, c, p, |c| - 1) && p[0] == cs[k][0]
    requires f.size == recs[k].size && f.clusters == |c| - 1 <= f.size / CLUSTER_SIZE + 1
    requires f.bytes == if f.size <= CLUSTER_SIZE * (|c| - 1) then Contents(d0, c, f.size) else []
    requires FatWf(fat, cs[k := p])
    requires |RootOf(cs)| == RootClusters(|recs|) + 1 && RootOf(cs)[0] == 0
    requires RootImage(d, DataClusters(RootOf(cs)), recs)
    ensures Placed(fat, d, cs[k := p], recs) && Shaped(recs, cs[k := p]) && AllInRange(cs[k := p])
    ensures var r := recs[k];
      AbsFiles(d, recs, cs[k := p])
      == AbsFiles(d0, recs, cs)[k := File(r.name, f.size, f.clusters, f.bytes, r.open, r.system)]
  {
    assert recs[k].start == cs[k][0] && recs[k := recs[k]] == recs;
    CopiedFile(d0, d, c, p, recs[k], f);
    assert DataClusters(p)[0..] == p[..|c| - 1];
    ReplacedFile(fat, d0, d, recs, cs, k, recs[k], p, 0);
    CopyShaped(recs, cs, k, p);
    assert RootOf(cs[k := p]) == RootOf(cs);
  }

  /** Every file but k has no more clusters than its size calls for. */
  ghost predicate Shaped'(recs: seq<FileRec>, cs: seq<seq<int>>, k: nat) {
    DirOk(recs, cs) && forall i :: 0 <= i < |recs| && i != k ==> |cs[i]| - 1 <= recs[i].size / CLUSTER_SIZE + 1
  }

  lemma CopyShaped(recs: seq<FileRec>, cs: seq<seq<int>>, k: nat, p: seq<int>)
    requires Shaped'(recs, cs, k) && k < |recs| && DirOk(recs, cs[k := p]) && |p| - 1 <= recs[k].size / CLUSTER_SIZE + 1
    ensures Shaped(recs, cs[k := p])
  {
    var cs' := cs[k := p];
    forall i | 0 <= i < |recs| ensures |cs'[i]| - 1 <= recs[i].size / CLUSTER_SIZE + 1 {}
  }

  lemma KeepsChainsTwice(recs0: seq<FileRec>, cs0: seq<seq<int>>, recs1: seq<FileRec>, cs1: seq<seq<int>>,
                         recs2: seq<FileRec>, cs2: seq<seq<int>>, except: seq<Name>)
    requires KeepsChains(recs0, cs0, recs1, cs1, except) && KeepsChains(recs1, cs1, recs2, cs2, [])
    ensures KeepsChains(recs0, cs0, recs2, cs2, except)
  {
    forall i | 0 <= i < |recs0| && recs0[i].name !in except ensures HasChain(recs2, cs2, recs0[i].name, cs0[i]) {
      var k :| 0 <= k < |recs1| && recs1[k].name == recs0[i].name && cs1[k] == cs0[i];
      assert recs1[k].name !in [];
    }
  }

  /** The chain of a file that was found by its name. */
  lemma ChainOfNamed(recs: seq<FileRec>, cs: seq<seq<int>>, name: Name, c: seq<int>, i: nat)
    requires DirOk(recs, cs) && HasChain(recs, cs, name, c) && i < |recs| && recs[i].name == name
    ensures cs[i] == c
  {
    var k :| 0 <= k < |recs| && recs[k].name == name && cs[k] == c;
    assert k == i;
  }

  lemma KeepsChainsSome(recs: seq<FileRec>, cs: seq<seq<int>>, name: Name)
    requires |cs| == |recs| + 1
    ensures KeepsChains(recs, cs, recs, cs, [name])
  {
    forall i | 0 <= i < |recs| ensures HasChain(recs, cs, recs[i].name, cs[i]) {}
  }

  lemma KeepsOne(recs: seq<FileRec>, cs: seq<seq<int>>, recs': seq<FileRec>, cs': seq<seq<int>>, name: Name, i: nat)
    requires KeepsChains(recs, cs, recs', cs', [name]) && i < |recs| && recs[i].name != name
    ensures |cs'| == |recs'| + 1 && |cs| == |recs| + 1 && HasChain(recs', cs', recs[i].name, cs[i])
  {
  }

  /** A link of a chain that is not the one being built. */
  lemma OtherChain(fat: seq<int>, cs: seq<seq<int>>, k: nat, p: seq<int>, i: nat, q: nat)
    requires FatOpen(fat, cs, k, p) && i < |cs| && i != k && q < |cs[i]|
    ensures 0 <= cs[i][q] < CLUSTER_COUNT && (fat[cs[i][q]] == EOF_CLUSTER <==> q == |cs[i]| - 1)
    ensures q < |cs[i]| - 1 ==> fat[cs[i][q]] == cs[i][q + 1]
    ensures Apart(cs[i], p)
  {
    assert IsChain(fat, cs[i]);
    assert q < |cs[i]| - 1 ==> fat[cs[i][q]] == cs[i][q + 1];
  }

  lemma SpillDoesNotFit(last: int, n: nat, x: int)
    requires InSpill(last, n, x)
    ensures !Fits(n)
  {
    FitsExactly(n);
  }

  lemma OpenFacts(fat: seq<int>, cs: seq<seq<int>>, k: nat, p: seq<int>, q: nat)
    requires FatOpen(fat, cs, k, p) && q < |p|
    ensures 0 <= p[q] < CLUSTER_COUNT && forall i, j :: 0 <= i < j < |p| ==> p[i] != p[j]
  {
  }

  lemma OpenEnd(fat: seq<int>, cs: seq<seq<int>>, k: nat, p: seq<int>)
    requires FatOpen(fat, cs, k, p)
    ensures |p| >= 1 && 0 <= p[|p| - 1] < |fat| == CLUSTER_COUNT && fat[p[|p| - 1]] != FREE_CLUSTER
    ensures FreeCount(fat, CLUSTER_COUNT) >= 1
  {
  }

  lemma RootApart(fat: seq<int>, cs: seq<seq<int>>, k: nat, p: seq<int>, q: nat)
    requires cs != [] && FatOpen(fat, cs, k, p) && k != |cs| - 1 && q < |p|
    ensures p[q] !in DataClusters(RootOf(cs))
    ensures |RootOf(cs)| >= 2 && DataClusters(RootOf(cs))[|RootOf(cs)| - 2] == RootOf(cs)[|RootOf(cs)| - 2]
  {
    var root := RootOf(cs);
    assert IsChain(fat, root) && Apart(cs[|cs| - 1], p);
    assert p[q] in p;
    assert forall x :: x in DataClusters(root) ==> x in root;
  }

  lemma CopyFacts(fat: seq<int>, d: seq<byte>, cs: seq<seq<int>>, recs: seq<FileRec>, i: nat, fs: seq<File>)
    requires Placed(fat, d, cs, recs) && i < |recs| && |d| == DATA_SIZE && AllInRange(cs) && fs == AbsFiles(d, recs, cs)
    ensures |cs[i]| >= 2 && |fs| == |recs| && fs[i] == AbsFile(d, recs[i], cs[i])
    ensures fs[i].name == recs[i].name && fs[i].clusters == |cs[i]| - 1 && 0 <= recs[i].size < 0x1_0000_0000
  {
    assert recs[i].start == cs[i][0];
  }

  lemma ClustersOf(d: seq<byte>, cs: seq<seq<int>>, recs: seq<FileRec>, i: nat)
    requires |d| == DATA_SIZE && DirOk(recs, cs) && AllInRange(cs) && i < |recs|
    ensures AbsFiles(d, recs, cs)[i].clusters == |cs[i]| - 1
  {
    assert recs[i].start == cs[i][0];
  }

  lemma PlacedRoot(fat: seq<int>, d: seq<byte>, cs: seq<seq<int>>, recs: seq<FileRec>)
    requires Placed(fat, d, cs, recs)
    ensures cs != [] && |RootOf(cs)| >= 2 && RootImage(d, DataClusters(RootOf(cs)), recs)
  {
    assert IsChain(fat, RootOf(cs));
  }

  lemma CopyingStart(d: seq<byte>, c: seq<int>, x: int)
    requires |d| == DATA_SIZE && InRange(c) && |c| >= 2 && 0 <= x < CLUSTER_COUNT
    ensures Copying(d, d, c, [x], 0)
  {
  }

  /** The state when cp() is done. The directory was saved with the new size first; `files` has the old one. */
  lemma CopyResult(fat1: seq<int>, fat: seq<int>, d1: seq<byte>, d: seq<byte>, cs1: seq<seq<int>>, files: seq<FileRec>,
                   i: nat, k: nat, p: seq<int>, fs: seq<File>)
    requires Shaped(files, cs1) && AllInRange(cs1) && |d1| == DATA_SIZE
    requires i < |files| && k < |files| && fs == AbsFiles(d1, files, cs1)
    requires Placed(fat1, d1, cs1, files[k := files[k].(size := files[i].size)])
    requires |cs1[i]| >= 2 && |p| == |cs1[i]| && Copying(d1, d, cs1[i], p, |cs1[i]| - 1) && p[0] == files[k].start
    requires FatWf(fat, cs1[k := p]) && |RootOf(cs1)| >= 2
    requires RootImage(d, DataClusters(RootOf(cs1)), files[k := files[k].(size := files[i].size)])
    ensures var recs, cs, f := files[k := files[k].(size := files[i].size)], cs1[k := p], fs[i];
      && Placed(fat, d, cs, recs) && Shaped(recs, cs) && AllInRange(cs)
      && AbsFiles(d, recs, cs) == WithContents(fs, k, f)
  {
    hide FatWf, Copying, RootImage, InSpill, IsChain;
    var recs := files[k := files[k].(size := files[i].size)];
    PlacedWf(fat1, d1, cs1, recs);
    var f, c := fs[i], cs1[i];
    assert f == AbsFile(d1, files[i], c);
    CopyShape(files, cs1, i, k);
    CopyPlaced(fat, d1, d, cs1, recs, k, c, p, f);
    CopyOthers(d1, files, cs1, k, recs[k]);
  }

  lemma CopyShape(files: seq<FileRec>, cs: seq<seq<int>>, i: nat, k: nat)
    requires Shaped(files, cs) && i < |files| && k < |files|
    requires DirOk(files[k := files[k].(size := files[i].size)], cs)
    ensures Shaped'(files[k := files[k].(size := files[i].size)], cs, k)
    ensures |cs[i]| - 1 <= files[i].size / CLUSTER_SIZE + 1
  {
    var recs := files[k := files[k].(size := files[i].size)];
    forall m | 0 <= m < |recs| && m != k ensures |cs[m]| - 1 <= recs[m].size / CLUSTER_SIZE + 1 {
      assert |cs[m]| - 1 <= files[m].size / CLUSTER_SIZE + 1;
    }
  }

  /** Another record for file k leaves the other files as they are. */
  lemma CopyOthers(d: seq<byte>, files: seq<FileRec>, cs: seq<seq<int>>, k: nat, r: FileRec)
    requires |d| == DATA_SIZE && DirOk(files, cs) && AllInRange(cs) && k < |files| && DirOk(files[k := r], cs)
    ensures var a, b := AbsFiles(d, files[k := r], cs), AbsFiles(d, files, cs);
      |a| == |b| && forall m :: 0 <= m < |a| && m != k ==> a[m] == b[m]
  {
  }

  lemma PlacedRootLength(fat: seq<int>, data: seq<byte>, cs: seq<seq<int>>, recs: seq<FileRec>)
    requires Placed(fat, data, cs, recs)
    ensures cs != [] && |RootOf(cs)| == RootClusters(|recs|) + 1 && RootOf(cs)[0] == 0
  {
  }

  /** Cluster q of a chain: where its link leads, and that only the last one is marked EOF. */
  lemma ChainLink(fat: seq<int>, c: seq<int>, q: nat)
    requires IsChain(fat, c) && q < |c|
    ensures 0 <= c[q] < |fat| && (fat[c[q]] == EOF_CLUSTER <==> q == |c| - 1)
    ensures q < |c| - 1 ==> fat[c[q]] == c[q + 1]
  {
    assert q < |c| - 1 ==> fat[c[q]] == c[q + 1];
  }

  lemma DataInRange(c: seq<int>)
    requires InRange(c)
    ensures InRange(DataClusters(c)) && |DataClusters(c)| == if c == [] then 0 else |c| - 1
    ensures forall k :: 0 <= k < |c| - 1 ==> DataClusters(c)[k] == c[k]
  {
  }
}
