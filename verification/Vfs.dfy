/** The file system itself: the FAT and the cluster memory, updated in place. */
module Vfs {
  import opened Bytes
  import opened FsLayout
  import opened FsChains
  import opened FsSpec
  import opened FsLike
  import opened FsProps
  import opened FsState
  import opened FsFirstFit
  import opened FsPlan

  const SCREEN_BUFFER_SIZE: nat := 256

  function Flatten(pieces: seq<seq<byte>>): seq<byte> {
    if pieces == [] then [] else Flatten(pieces[..|pieces| - 1]) + pieces[|pieces| - 1]
  }

  lemma Regroup(a: seq<byte>, b: seq<byte>, c: seq<byte>)
    ensures (a + b) + c == a + (b + c)
  {
  }

  lemma FlattenSnoc(pieces: seq<seq<byte>>, piece: seq<byte>)
    ensures Flatten(pieces + [piece]) == Flatten(pieces) + piece
  {
    assert (pieces + [piece])[..|pieces|] == pieces;
  }

  /** Behind the cut: the file is where it was, and what is to be appended has been read. */
  lemma CutCarries(e: Disk, d: Disk, cut: Disk, i: nat, offset: nat, tail: seq<byte>, name: Name, hit: set<Name>)
    requires Like(e, d, hit) && i == Find(d.files, name) < |d.files| && FileOk(d.files[i])
    requires offset < d.files[i].size && InsertLegal(d.files[i]) && CutTo(e, cut, i, offset, tail)
    ensures i < |e.files| && FileOk(e.files[i]) && e.files[i].size == d.files[i].size && InsertLegal(e.files[i])
    ensures i == Find(cut.files, name) < |cut.files| && cut.files[i].size == offset
    ensures |e.files[i].bytes| == e.files[i].size && cut == CutDisk(e, i, offset)
    ensures var f, n := e.files[i], |tail| - (CLUSTER_SIZE - d.files[i].size % CLUSTER_SIZE);
      && n == TailLength(f, offset) <= f.size - offset <= |tail|
      && TailSeen(f, offset) == if n >= 0 then tail[..n] else tail + Zeros(0x1_0000_0000 + n - |tail|)
  {
    hide FileOk, Find, CutFile;
    LikeAt(e, d, hit, i);
    var f := e.files[i];
    FileOkAlike(d.files[i], f, true);
    InsertLegalAlike(f, d.files[i], offset);
    CutFileOk(f, offset);
    CutFileFacts(f, offset);
    FindAlike(e.files, d.files, hit, name);
    FindSame(e.files, i, CutFile(f, offset), name);
    if TailLength(f, offset) >= 0 {
      assert tail[..TailLength(f, offset)] == tail[..f.size - offset][..TailLength(f, offset)];
    }
  }

  class FileSystem {
    const fat: array<int>
    const data: array<byte>
    /** cs[i] is the chain of file i, the last one that of the directory. */
    ghost var cs: seq<seq<int>>
    /** The directory as stored in the clusters. */
    ghost var recs: seq<FileRec>
    /** The files whose data the directory was written over, and their copies. */
    ghost var hit: set<Name>
    var fault: Fault

    ghost predicate Memory()
      reads this
    {
      fat.Length == CLUSTER_COUNT && data.Length == DATA_SIZE && fat as object != data
    }

    /** Everything a directory that is in place promises. */
    ghost predicate Stored()
      reads this, fat, data
    {
      Memory() && fault == NoFault && Placed(fat[..], data[..], cs, recs)
    }

    ghost predicate Valid()
      reads this, fat, data
    {
      Stored() && Shaped(recs, cs)
    }

    ghost function Free(): nat
      requires Memory()
      reads this, fat
    {
      FreeCount(fat[..], CLUSTER_COUNT)
    }

    ghost function Files(): (fs: seq<File>)
      requires Stored()
      reads this, fat, data
    {
      WfInRange(fat[..], cs);
      AbsFiles(data[..], recs, cs)
    }

    /** Where everything lies, and which files were hit. */
    ghost function At(): Plan
      reads this, fat
    {
      Plan(Layout(Bare(fat[..]), cs), hit)
    }

    ghost function Abs(): (d: Disk)
      requires Stored()
      reads this, fat, data
      ensures Fit(At().a, d) && FileNames(d.files) == NamesOf(recs)
    {
      WfInRange(fat[..], cs);
      PlacedFit(fat[..], data[..], cs, recs, Free());
      Disk(Files(), Free())
    }

    /** The state after an operation is the one the outcome describes, but for the bytes of the files in
        `hit`. Nothing is said once a file's data was written over the directory's records. */
    ghost predicate Refines(o: Outcome, code: int)
      reads this, fat, data
    {
      fault == DirectoryHit ||
      match o
      case Halted(e) => fault == e && e != NoFault
      case Done(d, c) => Stored() && Like(Abs(), d, hit) && code == c
    }

    lemma RefinesOn(o: Outcome, p: Outcome, code: int, some: set<Name>)
      requires Refines(o, code) && LikeOutcome(o, p, some) && some <= hit
      ensures Refines(p, code)
    {
      if fault != DirectoryHit && o.Done? {
        AlikeOn(Files(), o.disk.files, p.disk.files, hit, some);
        assert hit + some == hit;
      }
    }

    /** The state is that of the disk d. */
    lemma RefinesExactly(d: Disk, code: int)
      requires Stored() && Abs() == d
      ensures Refines(Done(d, code), code)
    {
      AlikeItself(Files(), hit);
    }

    lemma ValidDiskOk()
      requires Valid()
      ensures DiskOk(Abs())
    {
      PlacedWf(fat[..], data[..], cs, recs);
      StoredDiskOk(fat[..], data[..], cs, recs);
    }

    // ---------- formatting ----------

    /** The first half of fs_init(): all clusters are free but cluster 0, and an empty directory is saved. */
    constructor Format()
      ensures Valid() && Abs() == Disk([], CLUSTER_COUNT - 2) && At() == Plan(Layout(Low(2, []), [[0, 1]]), {})
      ensures fresh(fat) && fresh(data)
    {
      hide FirstFit, OnlyDirectory, Reached, FreeCount, RootImage, LastOfRoot, SavedOver, Low;
      fat := new int[CLUSTER_COUNT];
      data := new byte[DATA_SIZE];
      cs := [[0]];
      recs := [];
      hit := {};
      fault := NoFault;
      new;
      for i := 0 to CLUSTER_COUNT
        invariant forall k :: 0 <= k < i ==> fat[k] == FREE_CLUSTER
        invariant fat as object != data && fault == NoFault && cs == [[0]] && hit == {} && fresh(fat) && fresh(data)
      {
        fat[i] := FREE_CLUSTER;
      }
      ghost var f := fat[..];
      FreeCountAll(f, CLUSTER_COUNT);
      FreeCountUpdate(f, CLUSTER_COUNT, 0, TAKEN_CLUSTER);
      fat[0] := TAKEN_CLUSTER;
      assert fat[..] == f[0 := TAKEN_CLUSTER];
      EmptyLow(fat[..]);
      SaveRootFolder([]);
      assert hit == {};
    }

    // ---------- memory ----------

    method Memcpy(at: nat, src: seq<byte>)
      requires Memory() && at + |src| <= DATA_SIZE
      modifies data
      ensures data[..] == Spliced(old(data[..]), at, src)
    {
      for i := 0 to |src|
        invariant forall x :: 0 <= x < DATA_SIZE ==>
          data[x] == if at <= x < at + i then src[x - at] else old(data[x])
      {
        data[at + i] := src[i];
      }
    }

    /** The memory of an array of records. */
    method RecordBytes(rs: seq<FileRec>) returns (b: seq<byte>)
      requires forall i :: 0 <= i < |rs| ==> ValidRec(rs[i])
      ensures Encodes(b, rs)
    {
      b := [];
      for j := 0 to |rs|
        invariant Encodes(b, rs[..j])
      {
        EncodesOneMore(b, rs[..j], rs[j]);
        assert rs[..j + 1] == rs[..j] + [rs[j]];
        b := b + EncodeRec(rs[j]);
      }
      assert rs[..|rs|] == rs;
    }

    // ---------- clusters ----------

    /** exists_n_free_clusters */
    method ExistsNFreeClusters(n: nat) returns (ok: bool)
      requires Memory()
      ensures ok <==> Free() >= n
    {
      var free := 0;
      for i := 0 to CLUSTER_COUNT
        invariant free == FreeCount(fat[..], i)
        invariant i > 0 ==> free < n
      {
        if fat[i] == FREE_CLUSTER {
          free := free + 1;
        }
        if free >= n {
          FreeCountMonotone(fat[..], i + 1, CLUSTER_COUNT);
          return true;
        }
      }
      return false;
    }

    /** get_free_cluster: the first free cluster, marked as taken. */
    method GetFreeCluster() returns (i: nat)
      requires Memory() && Free() >= 1
      modifies fat
      ensures i < CLUSTER_COUNT && old(fat[i]) == FREE_CLUSTER
      ensures forall x :: 0 <= x < i ==> old(fat[x]) != FREE_CLUSTER
      ensures fat[..] == old(fat[..])[i := TAKEN_CLUSTER]
      ensures Free() == old(Free()) - 1
      ensures old(Free()) >= 2 ==> i < CHAIN_LIMIT
    {
      i := 0;
      while i < CLUSTER_COUNT
        invariant i <= CLUSTER_COUNT
        invariant forall x :: 0 <= x < i ==> fat[x] != FREE_CLUSTER
        invariant fat[..] == old(fat[..])
      {
        if fat[i] == FREE_CLUSTER {
          FreeCountUpdate(fat[..], CLUSTER_COUNT, i, TAKEN_CLUSTER);
          if Free() >= 2 { LeastFreeBelowLimit(fat[..], i); }
          fat[i] := TAKEN_CLUSTER;
          return;
        }
        i := i + 1;
      }
      FreeCountZero(fat[..], CLUSTER_COUNT);
      assert false;
    }

    /** Taking a free cluster and linking it behind `prev`, the last cluster p of an open chain. */
    method LinkNext(prev: int, ghost j: nat, ghost p: seq<int>) returns (curr: nat)
      requires Memory() && Free() >= 2
      requires FatOpen(fat[..], cs, j, p) && prev == p[|p| - 1]
      modifies fat
      ensures FatOpen(fat[..], cs, j, p + [curr])
      ensures curr < CHAIN_LIMIT && curr !in p && forall i :: 0 <= i < |cs| && i != j ==> curr !in cs[i]
      ensures OneTaken(old(fat[..]), fat[..], curr)
      ensures forall x :: 0 <= x < CLUSTER_COUNT && x != curr && x != prev ==> fat[x] == old(fat[x])
      ensures fat[curr] == TAKEN_CLUSTER && fat[prev] == curr
      ensures Free() == old(Free()) - 1
    {
      ghost var f := fat[..];
      curr := GetFreeCluster();
      ExtendOpen(f, cs, j, p, curr, TAKEN_CLUSTER);
      FreeCountUpdate(fat[..], CLUSTER_COUNT, prev, curr);
      assert prev in p;
      ChainNotFree(f, p, prev);
      fat[prev] := curr;
      assert fat[..] == f[curr := TAKEN_CLUSTER][prev := curr];
    }

    /** free_all_occupied_clusters: releases chain j except for its first cluster. */
    method FreeAllOccupiedClusters(start: int, ghost j: nat)
      requires Memory() && FatWf(fat[..], cs) && j < |cs| && cs[j][0] == start
      modifies fat
      ensures FatOpen(fat[..], cs, j, [start])
      ensures fat[..] == Freed(old(fat[..]), cs[j][1..])
      ensures Free() == old(Free()) + |cs[j]| - 1
    {
      ghost var f := fat[..];
      ghost var c := cs[j];
      ghost var m := 1;
      assert IsChain(f, c);
      var curr := fat[start];
      while fat[curr] != EOF_CLUSTER && fat[curr] != FREE_CLUSTER
        invariant 1 <= m < |c| && curr == c[m]
        invariant forall x :: 0 <= x < CLUSTER_COUNT ==> fat[x] == if x in c[1..m] then FREE_CLUSTER else f[x]
        invariant forall x :: x in c[1..m] ==> x != c[m]
        invariant Free() == FreeCount(f, CLUSTER_COUNT) + m - 1
        decreases |c| - m
      {
        var prev := curr;
        curr := fat[curr];
        FreeCountUpdate(fat[..], CLUSTER_COUNT, prev, FREE_CLUSTER);
        ChainNotFree(f, c, prev);
        assert c[1..m + 1] == c[1..m] + [prev];
        ghost var g := fat[..];
        fat[prev] := FREE_CLUSTER;
        assert fat[..] == g[prev := FREE_CLUSTER];
        m := m + 1;
      }
      ChainNotFree(f, c, curr);
      ChainEnd(f, c, m);
      assert c[1..] == c[1..m] + [curr];
      FreeCountUpdate(fat[..], CLUSTER_COUNT, curr, FREE_CLUSTER);
      ghost var g := fat[..];
      fat[curr] := FREE_CLUSTER;
      assert fat[..] == g[curr := FREE_CLUSTER];
      CutChain(f, fat[..], cs, j, 1);
      assert c[..1] == [start];
      assert fat[..] == Freed(f, c[1..]);
    }

    // ---------- the directory ----------

    /** save_root_folder at work, by first fit from the FAT f0. */
    ghost predicate Saving(f0: seq<int>, p: seq<int>, files: seq<FileRec>, m: nat, d0: seq<byte>, reach: int)
      reads this, fat, data
    {
      && Memory() && fault == NoFault
      && DirOk(files, cs) && FatOpen(fat[..], cs, |files|, p)
      && Climbing(fat[..], p) && Fitted(f0, fat[..], p)
      && SavingData(d0, data[..], p, files, m, reach)
    }

    /** Storing the number of files and the records of cluster 0. */
    method StoreFirst(files: seq<FileRec>) returns (k: nat)
      requires Memory() && fault == NoFault && |files| < 11000
      requires DirOk(files, cs) && FatOpen(fat[..], cs, |files|, [0])
      modifies data
      ensures k == (if |files| < 2 then |files| else 2) && Saving(fat[..], [0], files, k, old(data[..]), 0)
    {
      var n := |files|;
      ghost var p: seq<int> := [0];
      ghost var d0 := data[..];
      k := if n < 2 then n else 2;
      Memcpy(0, LE32(n));
      ghost var d1 := data[..];
      assert d1[0..4] == LE32(n);
      var src := RecordBytes(files[..k]);
      Memcpy(4, src);
      assert data[..][0..4] == d1[0..4];
      forall i | 0 <= i < k ensures RecStored(data[..], RecAddr(p, i), files[i]) {
        SpliceStores(d1, 4, src, files[..k], i);
      }
      forall y | 0 <= y < |d0| && !Covered(p, 0, y) ensures data[..][y] == d0[y] {
        BehindFirst(y);
      }
      FittedStart(fat[..]);
    }

    /** One more cluster of the directory, holding the records lo..hi. */
    method StoreNext(prev: int, files: seq<FileRec>, lo: nat, hi: nat, ghost p: seq<int>, ghost f0: seq<int>,
                     ghost d0: seq<byte>)
      returns (curr: nat)
      requires Saving(f0, p, files, lo, d0, 0) && Free() >= 2
      requires prev == p[|p| - 1] && lo == 2 * |p| <= hi <= |files|
      modifies fat, data
      ensures Saving(f0, p + [curr], files, hi, d0, RECORD_SIZE * (hi - lo)) && Free() == old(Free()) - 1
    {
      hide Fitted, SavingData, FatOpen;
      ghost var f := fat[..];
      PrevInRange(f, cs, |files|, p);
      curr := LinkNext(prev, |files|, p);
      FittedNext(f0, f, fat[..], p, curr);
      var src := RecordBytes(files[lo..hi]);
      SavingDataNext(d0, data[..], p, curr, src, files, lo, hi);
      SavingFits(d0, data[..], p, files, lo);
      Memcpy(CLUSTER_SIZE * curr, src);
    }

    /** The end of save_root_folder: the chain p is closed with an EOF cluster. */
    method CloseRoot(prev: int, files: seq<FileRec>, ghost p: seq<int>, ghost f0: seq<int>,
                     ghost d0: seq<byte>) returns (curr: nat)
      requires Saving(f0, p, files, |files|, d0, LastBytes(|files|)) && Free() >= 2
      requires prev == p[|p| - 1] && |p| == RootClusters(|files|)
      modifies this, fat
      ensures Stored() && Free() == old(Free()) - 1
      ensures prev < curr && |old(cs)| == |files| + 1 && cs == old(cs)[|files| := p + [curr]] && recs == files
      ensures hit == old(hit) + Reached(NamesOf(files), old(cs), prev)
      ensures FirstFit(f0, p + [curr]) && p != [] && OnlyDirectory(d0, data[..], p, |files|)
      ensures Taken(f0, fat[..], p + [curr])
    {
      hide SavingData, Fitted, Taken, FatOpen, OnlyDirectory, Reached, FreeCount, Placed;
      ghost var f1 := fat[..];
      PrevInRange(f1, cs, |files|, p);
      curr := LinkNext(prev, |files|, p);
      ghost var f := fat[..];
      FittedNext(f0, f1, f, p, curr);
      RootClosed(f, d0, data[..], cs, p, curr, files);
      FittedTaken(f0, f, p + [curr]);
      TakenMarked(f0, f, p + [curr], curr, EOF_CLUSTER);
      hide *;
      FreeCountUpdate(f, CLUSTER_COUNT, curr, EOF_CLUSTER);
      hit := hit + Reached(NamesOf(files), cs, prev);
      cs := cs[|files| := p + [curr]];
      recs := files;
      fat[curr] := EOF_CLUSTER;
      assert fat[..] == f[curr := EOF_CLUSTER];
    }

    /** The directory `files` was saved by first fit from the FAT f0, over the memory d0: which clusters it
        has, which files it has hit, and that it has written nothing but itself. */
    ghost predicate Saved(f0: seq<int>, d0: seq<byte>, cs0: seq<seq<int>>, hit0: set<Name>, files: seq<FileRec>)
      reads this, fat, data
    {
      && |cs0| == |files| + 1 && Stored() && recs == files && RootTaken(cs0, cs, |files|)
      && FirstFit(f0, RootOf(cs)) && RootOf(cs)[|RootOf(cs)| - 2] == LastOfRoot(f0, |files|)
      && At() == Plan(SavedOver(Bare(f0), cs0, |files|), hit0 + Reached(NamesOf(files), cs0, LastOfRoot(f0, |files|)))
      && OnlyDirectory(d0, data[..], DataClusters(RootOf(cs)), |files|)
    }

    /** save_root_folder: the number of files and the records, over a chain that starts at cluster 0 and
        goes on with the first free clusters. */
    method SaveRootFolder(files: seq<FileRec>)
      requires Memory() && fault == NoFault
      requires DirOk(files, cs) && FatOpen(fat[..], cs, |files|, [0])
      modifies this, fat, data
      ensures old(Free()) < RootClusters(|files|) <==> fault == OutOfClusters
      ensures old(Free()) == RootClusters(|files|) <==> fault == SentinelLink
      ensures old(Free()) > RootClusters(|files|) <==> fault == NoFault
      ensures fault == NoFault ==>
        && Saved(old(fat[..]), old(data[..]), old(cs), old(hit), files)
        && Free() == old(Free()) - RootClusters(|files|)
      ensures fault != NoFault ==> hit == old(hit)
      ensures Fits(|files|) ==> hit == old(hit)
    {
      hide FatOpen, RootImage, Placed, Fits, FreeCount, Climbing, SavingData, Shaped, Fitted, OnlyDirectory, Reached,
        FatWf;
      var needed := ClustersNeeded(4 + RECORD_SIZE * |files|);
      RootClustersFacts(|files|);
      assert |cs| == |files| + 1;
      var ok := ExistsNFreeClusters(needed);
      if !ok {
        fault := OutOfClusters;
        return;
      }
      ok := ExistsNFreeClusters(needed + 1);
      if !ok {
        fault := SentinelLink;
        return;
      }
      SaveRoot(files, needed);
      if Fits(|files|) {
        NoneReached(NamesOf(files), old(cs), LastOfRoot(old(fat[..]), |files|));
      }
    }

    /** save_root_folder when enough clusters are free. */
    method SaveRoot(files: seq<FileRec>, needed: nat)
      requires Memory() && fault == NoFault
      requires DirOk(files, cs) && FatOpen(fat[..], cs, |files|, [0])
      requires needed == RootClusters(|files|) < Free()
      modifies this, fat, data
      ensures Saved(old(fat[..]), old(data[..]), old(cs), old(hit), files)
      ensures Free() == old(Free()) - needed
    {
      hide FatOpen, RootImage, SavingData, DirOk, Placed, Reached, OnlyDirectory, Fitted, Taken, TakeFirst, FirstFrees,
        Bare;
      ghost var f0, d0, cs0 := fat[..], data[..], cs;
      var curr, p := SaveRecords(files, needed);
      assert p[0] == 0;
      ghost var climbing := forall a, b :: 0 <= a < b < |p| ==> p[a] < p[b];
      ghost var e := CloseRoot(curr, files, p, f0, d0);
      RootTakenBy(cs0, cs, p, e, |files|);
      FirstFitPrefix(f0, p, e);
      LastIsNth(f0, p, |files|);
      TakenAll(f0, fat[..], p + [e]);
      assert p + [e] == [0] + (p + [e])[1..];
    }

    /** Storing all records over the clusters p, the last of which is `curr`. */
    method SaveRecords(files: seq<FileRec>, needed: nat) returns (curr: nat, ghost p: seq<int>)
      requires Memory() && fault == NoFault
      requires DirOk(files, cs) && FatOpen(fat[..], cs, |files|, [0])
      requires needed == RootClusters(|files|) < Free()
      modifies fat, data
      ensures Saving(old(fat[..]), p, files, |files|, old(data[..]), LastBytes(|files|))
      ensures |p| == needed && curr == p[|p| - 1] && Free() == old(Free()) - needed + 1
    {
      hide FatOpen, Climbing, Fitted, DirOk, FreeCount;
      var n := |files|;
      RootClustersFacts(n);
      ghost var f0, d0 := fat[..], data[..];
      var fileIndex := StoreFirst(files);
      curr, p := 0, [0];
      if n > 2 {
        for i := 0 to needed - 2
          invariant |p| == i + 1 && curr == p[i] && fileIndex == 2 * |p|
          invariant Saving(f0, p, files, fileIndex, d0, 0) && Free() == old(Free()) - i
        {
          curr := StoreNext(curr, files, fileIndex, fileIndex + 2, p, f0, d0);
          p := p + [curr];
          fileIndex := fileIndex + 2;
        }
        curr := StoreNext(curr, files, fileIndex, n, p, f0, d0);
        p := p + [curr];
      }
    }

    method FetchRecords(at: nat, k: nat) returns (rs: seq<FileRec>)
      requires Memory() && at + RECORD_SIZE * k <= DATA_SIZE
      ensures |rs| == k
      ensures forall i :: 0 <= i < k ==>
        rs[i] == DecodeRec(data[..][at + RECORD_SIZE * i..at + RECORD_SIZE * i + RECORD_SIZE])
    {
      rs := [];
      for j := 0 to k
        invariant |rs| == j
        invariant forall i :: 0 <= i < j ==>
          rs[i] == DecodeRec(data[..][at + RECORD_SIZE * i..at + RECORD_SIZE * i + RECORD_SIZE])
      {
        rs := rs + [DecodeRec(data[..][at + RECORD_SIZE * j..at + RECORD_SIZE * j + RECORD_SIZE])];
      }
    }

    /** Reading the records up to `hi` from data cluster i of the directory. */
    method LoadCluster(curr: int, files: seq<FileRec>, hi: nat, ghost i: nat) returns (r: seq<FileRec>)
      requires Stored() && 1 <= i < |RootOf(cs)| - 1 && curr == RootOf(cs)[i]
      requires |files| == 2 * i < hi <= |recs| && files == recs[..2 * i]
      requires hi <= 2 * i + 2 || i == |RootOf(cs)| - 2
      ensures r == recs[..hi]
    {
      hide Placed, RecStored;
      PlacedRecords(fat[..], data[..], cs, recs, i, hi);
      var rs := FetchRecords(CLUSTER_SIZE * curr, hi - |files|);
      FetchedRecords(data[..], CLUSTER_SIZE * curr, recs, 2 * i, rs);
      r := files + rs;
    }

    /** load_root_folder: returns the records that were stored, in the same order. */
    method LoadRootFolder() returns (files: seq<FileRec>)
      requires Stored()
      ensures files == recs
    {
      ghost var root := RootOf(cs);
      assert IsChain(fat[..], root);
      var n := FromLE32(data[..][0..4]);
      LE32RoundTrip(|recs|);
      RootClustersFacts(n);
      var curr := 0;
      files := LoadFirst(n);
      if n <= 2 {
        return;
      }
      ghost var i := 0;
      assert fat[root[0]] == root[1] && fat[root[1]] == root[2];
      while fat[fat[fat[curr]]] != EOF_CLUSTER
        invariant 0 <= i && i + 3 <= |root| && curr == root[i]
        invariant 0 <= curr < CLUSTER_COUNT && fat[curr] == root[i + 1] && fat[root[i + 1]] == root[i + 2]
        invariant i + 3 < |root| ==> fat[root[i + 2]] == root[i + 3]
        invariant |files| == 2 * (i + 1) <= n && files == recs[..|files|]
        decreases |root| - i
      {
        assert i + 4 < |root| ==> fat[root[i + 3]] == root[i + 4];
        curr := fat[curr];
        i := i + 1;
        files := LoadCluster(curr, files, |files| + 2, i);
      }
      curr := fat[curr];
      files := LoadCluster(curr, files, n, i + 1);
    }

    /** Reading the records of cluster 0. */
    method LoadFirst(n: nat) returns (files: seq<FileRec>)
      requires Stored() && n == |recs|
      ensures files == recs[..if n < 2 then n else 2]
    {
      var k := if n < 2 then n else 2;
      hide Placed, RecStored;
      PlacedFirst(fat[..], data[..], cs, recs);
      files := FetchRecords(4, k);
      FetchedRecords(data[..], 4, recs, 0, files);
    }

    /** exists_file and get_file: the first record called `name`. */
    method GetFile(files: seq<FileRec>, name: Name) returns (i: nat)
      ensures i <= |files| && (i < |files| ==> files[i].name == name)
      ensures forall k :: 0 <= k < i ==> files[k].name != name
    {
      i := 0;
      while i < |files|
        invariant i <= |files| && forall k :: 0 <= k < i ==> files[k].name != name
      {
        if files[i].name == name {
          return;
        }
        i := i + 1;
      }
    }

    /** Releasing the directory's clusters and saving `files` in their place. */
    method ResaveRoot(files: seq<FileRec>, ghost oldCount: nat, ghost code: int)
      requires Memory() && fault == NoFault && AllInRange(cs)
      requires FatWf(fat[..], cs) && DirOk(files, cs) && RootOf(cs)[0] == 0
      requires |RootOf(cs)| == RootClusters(oldCount) + 1
      modifies this, fat, data
      ensures Refines(Resave(oldCount, Disk(AbsFiles(old(data[..]), files, old(cs)), old(Free())), code), code)
      ensures fault != DirectoryHit && old(hit) <= hit
      ensures fault == NoFault ==> Stored() && At() == SavePlan(old(At()), NamesOf(files)) && SameFiles(old(cs), cs)
      ensures fault == NoFault ==>
        && recs == files && |RootOf(cs)| >= 2 && Reached(NamesOf(files), cs, LastData(RootOf(cs))) <= hit
        && OnlyDirectory(old(data[..]), data[..], DataClusters(RootOf(cs)), |files|)
    {
      hide Placed, Fits, FatWf, RootImage, FirstFit, Reached, OnlyDirectory, AlikeFiles, LastOfRoot, FatOpen, Freed,
        FreeCount, AllInRange, SavePlan, SavedOver, NamesOf, Bare, Shaped, AbsFiles;
      ghost var f0, d0, cs0, h0 := fat[..], data[..], cs, hit;
      SavePlanIs(f0, cs0, h0, NamesOf(files));
      FreeAllOccupiedClusters(0, |files|);
      SaveRootFolder(files);
      if fault == NoFault {
        PlacedWf(fat[..], data[..], cs, files);
        SavedAlike(fat[..], d0, data[..], cs0, cs, files);
        AlikeMore(Files(), AbsFiles(d0, files, cs0), Reached(NamesOf(files), cs, RootOf(cs)[|RootOf(cs)| - 2]), hit);
      }
    }

    // ---------- creating and deleting ----------

    /** create_file: a start cluster and its EOF cluster, and a record at the end of the directory. */
    method CreateFile(files: seq<FileRec>, name: Name) returns (r: seq<FileRec>, ghost c: seq<int>)
      requires Memory() && fault == NoFault && FatWf(fat[..], cs) && cs != []
      modifies this`cs, this`fault, fat
      ensures fault == if old(Free()) == 2 then SentinelLink else NoFault
      ensures old(Free()) < 2 ==> r == files && cs == old(cs) && fat[..] == old(fat[..])
      ensures old(Free()) > 2 ==>
        && FatWf(fat[..], cs) && Free() == old(Free()) - 2
        && Created(files, old(cs), r, cs, name, c)
        && At().a == WithNewFile(old(At()).a) && c == FirstFrees(old(At()).a.fat, 2)
    {
      hide FirstFrees, TakeFirst, Bare;
      c := [];
      r := files;
      var ok := ExistsNFreeClusters(2);
      if !ok {
        return;
      }
      ok := ExistsNFreeClusters(3);
      if !ok {
        fault := SentinelLink;
        return;
      }
      var start;
      start, c := NewChain();
      r := files + [FileRec(name, start, 0, false, false)];
    }

    /** A start cluster linked to its EOF cluster. */
    method NewChain() returns (start: nat, ghost c: seq<int>)
      requires Memory() && Free() > 2 && FatWf(fat[..], cs) && cs != []
      modifies this`cs, fat
      ensures |c| == 2 && c[0] == start && cs == old(cs)[..|old(cs)| - 1] + [c, RootOf(old(cs))]
      ensures FatWf(fat[..], cs) && Free() == old(Free()) - 2
      ensures At().a == WithNewFile(old(At()).a) && c == FirstFrees(old(At()).a.fat, 2)
    {
      hide FirstFrees, TakeFirst, FreeCount, Bare;
      ghost var f := fat[..];
      start := GetFreeCluster();
      ghost var f1 := fat[..];
      OpenNew(f, cs, start);
      var eof := LinkNext(start, |cs|, [start]);
      ghost var g := fat[..];
      TwoTaken(f, f1, g, start, eof);
      c := [start, eof];
      assert [start] + [eof] == c;
      FreeCountUpdate(g, CLUSTER_COUNT, eof, EOF_CLUSTER);
      CloseOpen(g, cs, |cs|, c);
      fat[eof] := EOF_CLUSTER;
      assert fat[..] == g[eof := EOF_CLUSTER];
      FatWfInsert(fat[..], cs, c);
      cs := cs[..|cs| - 1] + [c, RootOf(cs)];
    }

    method Touch(filename: Name) returns (code: int)
      requires Valid() && 0 !in filename
      modifies this, fat, data
      ensures Refines(FsSpec.Touch(old(Abs()), Normalize(filename)), code)
      ensures fault == NoFault ==> Valid() && KeepsChains(old(recs), old(cs), recs, cs, [])
      ensures fault == NoFault ==> At() == old(TouchPlan(At(), Abs(), Normalize(filename)))
      ensures fault != DirectoryHit && old(hit) <= hit
    {
      hide Placed, Shaped, AbsFiles, KeepsChains, Resave, Fits, FreeCount, AlikeFiles, FatWf, DirOk, SavePlan, Fit,
        FileNames;
      var name := Normalize(filename);
      var files := LoadRootFolder();
      PlacedWf(fat[..], data[..], cs, recs);
      var i := GetFile(files, name);
      FindAgrees(data[..], recs, cs, name, i);
      code := 0;
      if i < |files| {
        KeepsChainsSame(recs, cs);
        RefinesExactly(Abs(), 1);
        return 1;
      }
      TouchNew(files, name);
    }

    /** The directory in memory with the new record, if two clusters are free for it. */
    method AddRecord(files: seq<FileRec>, name: Name) returns (files': seq<FileRec>)
      requires Valid() && files == recs && |name| < FILE_NAME_LEN && 0 !in name
      requires forall k :: 0 <= k < |files| ==> files[k].name != name
      modifies this`cs, this`fault, fat
      ensures fault == if old(Free()) == 2 then SentinelLink else NoFault
      ensures fault == NoFault ==>
        && FatWf(fat[..], cs) && DirOk(files', cs) && Shaped(files', cs) && AllInRange(cs)
        && RootOf(cs) == RootOf(old(cs)) && KeepsChains(files, old(cs), files', cs, [])
      ensures old(Free()) < 2 ==> files' == files && cs == old(cs) && Free() == old(Free()) && fat[..] == old(fat[..])
      ensures old(Free()) > 2 ==>
        At().a == WithNewFile(old(At()).a) && NamesOf(files') == NamesOf(files) + [name]
      ensures old(Free()) > 2 ==>
        && |files'| == |files| + 1 && Free() == old(Free()) - 2
        && AllInRange(old(cs))
        && AbsFiles(data[..], files', cs) == AbsFiles(data[..], files, old(cs)) + [File(name, 0, 1, [], false, false)]
    {
      hide RootImage, FatWf, KeepsChains, FirstFrees, WithNewFile, FreeCount, AbsFiles;
      WfInRange(fat[..], cs);
      ghost var cs0, d := cs, data[..];
      ghost var c;
      files', c := CreateFile(files, name);
      if fault != NoFault {
        return;
      }
      if old(Free()) < 2 {
        KeepsChainsSame(files, cs);
      } else {
        CreatedOk(fat[..], d, files, cs0, files', cs, name, c);
      }
    }

    /** touch() for a name that is not taken. */
    method TouchNew(files: seq<FileRec>, name: Name)
      requires Valid() && files == recs && |name| < FILE_NAME_LEN && 0 !in name
      requires Find(Files(), name) == |files|
      modifies this, fat, data
      ensures Refines(FsSpec.Touch(old(Abs()), name), 0)
      ensures fault == NoFault ==> Valid() && KeepsChains(old(recs), old(cs), recs, cs, [])
      ensures fault == NoFault ==> At() == old(TouchPlan(At(), Abs(), name))
      ensures fault != DirectoryHit && old(hit) <= hit
    {
      hide FsSpec.Touch, Resave, Fits, RootImage, FatWf, KeepsChains, AlikeFiles, Placed, Shaped, WithNewFile, SavePlan,
        AbsFiles, DirOk, Fit, FileNames, NamesOf;
      PlacedWf(fat[..], data[..], cs, files);
      PlacedRootLength(fat[..], data[..], cs, files);
      TouchOutcome(Abs(), name);
      CountFiles();
      NotListed(files, name);
      ghost var cs0 := cs;
      var files' := AddRecord(files, name);
      if fault == NoFault {
        SaveCreated(files, files', cs0);
      }
    }

    lemma NotListed(files: seq<FileRec>, name: Name)
      requires Valid() && files == recs && Find(Files(), name) == |files|
      ensures forall k :: 0 <= k < |files| ==> files[k].name != name
    {
      var fs := Files();
      assert forall k :: 0 <= k < |files| ==> fs[k].name == files[k].name;
    }

    /** Saving the directory with the new record at its end, or as it was. */
    method SaveCreated(files: seq<FileRec>, files': seq<FileRec>, ghost cs0: seq<seq<int>>)
      requires Memory() && fault == NoFault && AllInRange(cs) && |cs0| == |files| + 1
      requires FatWf(fat[..], cs) && DirOk(files', cs) && Shaped(files', cs)
      requires RootOf(cs)[0] == 0 && |RootOf(cs)| == RootClusters(|files|) + 1
      requires KeepsChains(files, cs0, files', cs, [])
      modifies this, fat, data
      ensures Refines(Resave(|files|, Disk(AbsFiles(old(data[..]), files', old(cs)), old(Free())), 0), 0)
      ensures fault == NoFault ==>
        Valid() && KeepsChains(files, cs0, recs, cs, []) && At() == SavePlan(old(At()), NamesOf(files'))
      ensures fault != DirectoryHit && old(hit) <= hit
    {
      hide SavePlan, AlikeFiles, Resave;
      ghost var cs1 := cs;
      ResaveRoot(files', |files|, 0);
      if fault == NoFault {
        ResavedShape(files', cs1, cs);
        ResavedChains(files, cs0, files', cs1, cs, []);
      }
    }

    /** All records but one, in the same order. */
    method WithoutFile(files: seq<FileRec>, filePos: nat) returns (r: seq<FileRec>)
      requires filePos < |files|
      ensures r == files[..filePos] + files[filePos + 1..]
    {
      r := [];
      for i := 0 to |files|
        invariant r == if i <= filePos then files[..i] else files[..filePos] + files[filePos + 1..i]
      {
        if i != filePos {
          r := r + [files[i]];
        }
      }
    }

    /** delete_file: the record goes, its whole chain is released. */
    method DeleteFile(files: seq<FileRec>, filePos: nat) returns (r: seq<FileRec>)
      requires Memory() && FatWf(fat[..], cs) && DirOk(files, cs) && filePos < |files|
      modifies this`cs, fat
      ensures FatWf(fat[..], cs) && Free() == old(Free()) + |old(cs)[filePos]|
      ensures At().a == WithoutChain(old(At()).a, filePos) && Deleted(files, old(cs), r, cs, filePos)
    {
      r := WithoutFile(files, filePos);
      var start := files[filePos].start;
      FreeAllOccupiedClusters(start, filePos);
      ghost var f := fat[..];
      DropChain(f, cs, filePos, start);
      FreeCountUpdate(f, CLUSTER_COUNT, start, FREE_CLUSTER);
      fat[start] := FREE_CLUSTER;
      assert fat[..] == f[start := FREE_CLUSTER];
      ghost var c := cs[filePos];
      assert c == [start] + c[1..];
      assert fat[..] == Freed(old(fat[..]), c);
      BareFreed(old(fat[..]), c);
      cs := cs[..filePos] + cs[filePos + 1..];
    }

    /** The common end of rm and delete_system_file. */
    method DeleteAndSave(files: seq<FileRec>, filePos: nat)
      requires Valid() && files == recs && filePos < |files|
      modifies this, fat, data
      ensures Refines(FsSpec.Delete(old(Abs()), filePos), 0)
      ensures fault == NoFault ==> Valid() && KeepsChains(old(recs), old(cs), recs, cs, [files[filePos].name])
      ensures fault == NoFault ==> At() == old(DeletePlan(At(), Abs(), filePos))
      ensures fault != DirectoryHit && old(hit) <= hit
    {
      hide Placed, Shaped, FatWf, DirOk, KeepsChains, Resave, AbsFiles, SavePlan, WithoutChain, AlikeFiles, FreeCount,
        Fits, Fit, FileNames, NamesOf;
      PlacedWf(fat[..], data[..], cs, files);
      PlacedRootLength(fat[..], data[..], cs, files);
      ghost var d0, cs0, d := data[..], cs, Abs();
      var files' := DeleteFile(files, filePos);
      ghost var f1, cs1 := fat[..], cs;
      DeletedOk(f1, d0, files, cs0, files', cs1, filePos);
      NamesWithout(files, files', filePos);
      assert FsSpec.Delete(d, filePos) == Resave(|files|, Disk(AbsFiles(d0, files', cs1), Free()), 0);
      ResaveRoot(files', |files|, 0);
      if fault == NoFault {
        ResavedShape(files', cs1, cs);
        ResavedChains(files, cs0, files', cs1, cs, [files[filePos].name]);
      }
    }

    /** rm(). For a missing file it first tests a flag through a NULL pointer; `nullBit` is what it reads there. */
    method Rm(filename: Name, nullBit: bool) returns (code: int)
      requires Valid()
      modifies this, fat, data
      ensures Refines(FsSpec.Rm(old(Abs()), Normalize(filename)), code)
      ensures fault == NoFault ==> Valid() && KeepsChains(old(recs), old(cs), recs, cs, [Normalize(filename)])
      ensures fault == NoFault ==> At() == old(RmPlan(At(), Abs(), Normalize(filename)))
      ensures fault != DirectoryHit && old(hit) <= hit
    {
      hide DeletePlan, Fit, AlikeFiles;
      var name := Normalize(filename);
      var files := LoadRootFolder();
      WfInRange(fat[..], cs);
      var i := GetFile(files, name);
      FindAgrees(data[..], recs, cs, name, i);
      KeepsChainsSome(recs, cs, name);
      RefinesExactly(Abs(), 1);
      assert i < |files| ==> Files()[i].system == files[i].system;
      if if i < |files| then files[i].system else nullBit {
        return 1;
      }
      if i == |files| {
        return 1;
      }
      DeleteAndSave(files, i);
      code := 0;
    }

    /** delete_system_file() */
    method DeleteSystemFile(filename: Name) returns (code: int)
      requires Valid()
      modifies this, fat, data
      ensures Refines(FsSpec.DeleteSystemFile(old(Abs()), Normalize(filename)), code)
      ensures fault == NoFault ==> Valid() && At() == old(DeleteSystemPlan(At(), Abs(), Normalize(filename)))
      ensures fault != DirectoryHit && old(hit) <= hit
    {
      hide DeletePlan, Fit, AlikeFiles;
      var name := Normalize(filename);
      var files := LoadRootFolder();
      WfInRange(fat[..], cs);
      var i := GetFile(files, name);
      FindAgrees(data[..], recs, cs, name, i);
      RefinesExactly(Abs(), 1);
      if i == |files| {
        return 1;
      }
      DeleteAndSave(files, i);
      code := 0;
    }

    // ---------- flags ----------

    /** Saving the directory with record i changed in its flags. */
    method SaveFlags(files: seq<FileRec>, i: nat, r: FileRec)
      requires Valid() && files == recs && i < |files| && r == files[i].(open := r.open, system := r.system)
      modifies this, fat, data
      ensures var f := old(Files())[i].(open := r.open, system := r.system);
        Refines(Resave(|old(Files())|, old(Abs()).(files := old(Files())[i := f]), 0), 0)
      ensures fault == NoFault ==> Valid() && At() == old(FlagPlan(At(), Abs(), false))
      ensures fault != DirectoryHit && old(hit) <= hit
    {
      hide SavePlan, Fit, FileNames, AlikeFiles;
      WfInRange(fat[..], cs);
      var files' := files[i := r];
      FlagsOk(data[..], files, cs, i, r);
      ghost var cs1 := cs;
      assert NamesOf(files') == NamesOf(files);
      ResaveRoot(files', |files|, 0);
      if fault == NoFault {
        ResavedShape(files', cs1, cs);
      }
    }

    /** is_file_open() */
    method IsFileOpen(filename: Name) returns (open: bool)
      requires Valid()
      ensures var i := Find(Files(), Normalize(filename)); open <==> i < |Files()| && Files()[i].open
    {
      var name := Normalize(filename);
      var files := LoadRootFolder();
      WfInRange(fat[..], cs);
      var i := GetFile(files, name);
      FindAgrees(data[..], recs, cs, name, i);
      assert i < |files| ==> Files()[i].open == files[i].open;
      open := i < |files| && files[i].open;
    }

    /** set_as_system_file(), for a file that exists. */
    method SetAsSystemFile(filename: Name) returns (code: int)
      requires Valid() && Find(Files(), Normalize(filename)) < |Files()|
      modifies this, fat, data
      ensures Refines(FsSpec.SetAsSystemFile(old(Abs()), Normalize(filename)), code)
      ensures fault == NoFault ==>
        Valid() && At() == old(FlagPlan(At(), Abs(), Files()[Find(Files(), Normalize(filename))].open))
      ensures fault != DirectoryHit && old(hit) <= hit
    {
      hide SavePlan, Fit, AlikeFiles;
      var open := IsFileOpen(filename);
      RefinesExactly(Abs(), 1);
      if open {
        return 1;
      }
      var files := LoadRootFolder();
      WfInRange(fat[..], cs);
      var i := GetFile(files, Normalize(filename));
      FindAgrees(data[..], recs, cs, Normalize(filename), i);
      SaveFlags(files, i, files[i].(system := true));
      code := 0;
    }

    /** open_file(), for a file that exists. */
    method OpenFile(filename: Name) returns (code: int)
      requires Valid() && Find(Files(), Normalize(filename)) < |Files()|
      modifies this, fat, data
      ensures Refines(FsSpec.OpenFile(old(Abs()), Normalize(filename)), code)
      ensures fault == NoFault ==>
        Valid() && At() == old(FlagPlan(At(), Abs(), Files()[Find(Files(), Normalize(filename))].open))
      ensures fault != DirectoryHit && old(hit) <= hit
    {
      hide SavePlan, Fit, AlikeFiles;
      var open := IsFileOpen(filename);
      RefinesExactly(Abs(), 1);
      if open {
        return 1;
      }
      var files := LoadRootFolder();
      WfInRange(fat[..], cs);
      var i := GetFile(files, Normalize(filename));
      FindAgrees(data[..], recs, cs, Normalize(filename), i);
      SaveFlags(files, i, files[i].(open := true));
      code := 0;
    }

    /** close_file() */
    method CloseFile(filename: Name) returns (code: int)
      requires Valid()
      modifies this, fat, data
      ensures Refines(FsSpec.CloseFile(old(Abs()), Normalize(filename)), code)
      ensures fault == NoFault ==>
        && Valid()
        && At() == old(var i := Find(Files(), Normalize(filename));
                       FlagPlan(At(), Abs(), i == |Files()| || !Files()[i].open))
      ensures fault != DirectoryHit && old(hit) <= hit
    {
      hide SavePlan, Fit, AlikeFiles;
      var open := IsFileOpen(filename);
      RefinesExactly(Abs(), 1);
      if !open {
        return 1;
      }
      var files := LoadRootFolder();
      WfInRange(fat[..], cs);
      var i := GetFile(files, Normalize(filename));
      FindAgrees(data[..], recs, cs, Normalize(filename), i);
      SaveFlags(files, i, files[i].(open := false));
      code := 0;
    }

    // ---------- appending ----------

    /** The last data cluster of a file: the one before its EOF cluster. */
    method LastCluster(start: int, ghost j: nat) returns (curr: int)
      requires Memory() && FatWf(fat[..], cs) && j < |cs| && start == cs[j][0]
      ensures |cs[j]| >= 2 && curr == cs[j][|cs[j]| - 2]
    {
      ghost var c := cs[j];
      ghost var i := 0;
      assert IsChain(fat[..], c);
      curr := start;
      assert fat[c[0]] == c[1];
      assert 1 < |c| - 1 ==> fat[c[1]] == c[2];
      while fat[fat[curr]] != EOF_CLUSTER
        invariant 0 <= i < |c| - 1 && curr == c[i] && 0 <= curr < CLUSTER_COUNT && fat[curr] == c[i + 1]
        invariant i + 1 < |c| - 1 ==> fat[c[i + 1]] == c[i + 2]
        decreases |c| - i
      {
        assert i + 2 < |c| - 1 ==> fat[c[i + 2]] == c[i + 3];
        curr := fat[curr];
        i := i + 1;
      }
    }

    /** Bytes w..w+n of the buffer go to a new cluster behind p. */
    method StoreChunk(prev: int, ghost j: nat, ghost p: seq<int>, buffer: seq<byte>, w: nat, n: nat,
                      ghost d0: seq<byte>, ghost c: seq<int>, ghost base: nat) returns (curr: nat)
      requires Memory() && Free() >= 2 && |c| >= 2
      requires FatOpen(fat[..], cs, j, p) && prev == p[|p| - 1]
      requires Appending(d0, data[..], c, |c| - 1, p, buffer, base, w) && base + w == CLUSTER_SIZE * |p|
      requires n <= CLUSTER_SIZE && w + n <= |buffer|
      modifies fat, data
      ensures FatOpen(fat[..], cs, j, p + [curr]) && Free() == old(Free()) - 1
      ensures Appending(d0, data[..], c, |c| - 1, p + [curr], buffer, base, w + n)
      ensures OneTaken(old(fat[..]), fat[..], curr)
    {
      hide FatOpen, Appending, FreeCount;
      curr := LinkNext(prev, j, p);
      AppendCluster(d0, data[..], c, |c| - 1, p, buffer, base, w, curr, n);
      Memcpy(CLUSTER_SIZE * curr, buffer[w..w + n]);
    }

    /** The chain p becomes that of file j, closed by an EOF cluster. */
    method CloseChain(prev: int, ghost j: nat, ghost p: seq<int>) returns (curr: nat)
      requires Memory() && Free() >= 2 && j < |cs|
      requires FatOpen(fat[..], cs, j, p) && prev == p[|p| - 1]
      modifies this`cs, fat
      ensures FatWf(fat[..], cs) && cs == old(cs)[j := p + [curr]] && Free() == old(Free()) - 1
      ensures OneTaken(old(fat[..]), fat[..], curr)
    {
      hide FatWf, FreeCount;
      curr := LinkNext(prev, j, p);
      ghost var f := fat[..];
      ghost var q := p + [curr];
      CloseOpen(f, cs, j, q);
      FreeCountUpdate(f, CLUSTER_COUNT, curr, EOF_CLUSTER);
      fat[curr] := EOF_CLUSTER;
      assert fat[..] == f[curr := EOF_CLUSTER];
      cs := cs[j := p + [curr]];
    }

    /** Releasing the EOF cluster behind the last data cluster. */
    method ReleaseEof(last: int, ghost j: nat)
      requires Memory() && FatWf(fat[..], cs) && j < |cs| && |cs[j]| >= 2 && last == cs[j][|cs[j]| - 2]
      modifies fat
      ensures FatOpen(fat[..], cs, j, DataClusters(cs[j])) && Free() == old(Free()) + 1
      ensures fat[..] == Freed(old(fat[..]), [cs[j][|cs[j]| - 1]])
    {
      ghost var f := fat[..];
      ghost var c := cs[j];
      assert IsChain(f, c) && fat[c[|c| - 2]] == c[|c| - 1];
      var eof := fat[last];
      assert c[|c| - 1..] == [eof];
      FreeCountUpdate(f, CLUSTER_COUNT, eof, FREE_CLUSTER);
      fat[eof] := FREE_CLUSTER;
      assert fat[..] == f[eof := FREE_CLUSTER];
      assert fat[..] == Freed(f, [eof]);
      CutChain(f, fat[..], cs, j, |c| - 1);
    }

    /** The rest of the buffer, from byte `stored` on, over new clusters behind the last data cluster. */
    method StoreRest(last: int, ghost j: nat, buffer: seq<byte>, stored: nat, needed: nat, ghost d0: seq<byte>,
                     ghost base: nat)
      returns (ghost p: seq<int>, ghost e: int)
      requires Memory() && FatWf(fat[..], cs) && j + 1 < |cs| && |cs[j]| >= 2 && last == cs[j][|cs[j]| - 2]
      requires stored <= |buffer| && needed == ClustersNeeded(|buffer| - stored) >= 1 && Free() > needed
      requires Appending(d0, data[..], cs[j], |cs[j]| - 1, DataClusters(cs[j]), buffer, base, stored)
      requires base + stored == CLUSTER_SIZE * (|cs[j]| - 1)
      modifies this`cs, fat, data
      ensures FatWf(fat[..], cs) && cs == old(cs)[j := p + [e]] && Free() == old(Free()) - needed
      ensures |p| == |old(cs)[j]| - 1 + needed
      ensures Appending(d0, data[..], old(cs)[j], |old(cs)[j]| - 1, p, buffer, base, |buffer|)
      ensures At().a == AppendedLayout(old(At()).a, j, needed)
    {
      hide FatOpen, FatWf, Appending, FreeCount, Taken, OneTaken, AppendedLayout, Bare, Freed, ClustersNeeded;
      ghost var f0, cs0, c := fat[..], cs, cs[j];
      ReleaseEof(last, j);
      ghost var f, r: seq<int> := fat[..], [-1];
      TakenStart(f, -1);
      var prev, w := last, stored;
      ghost var q := DataClusters(cs[j]);
      for i := 0 to needed - 1
        invariant cs == old(cs) && Memory()
        invariant |q| == |c| - 1 + i >= 1 && FatOpen(fat[..], cs, j, q) && prev == q[|q| - 1]
        invariant w == stored + CLUSTER_SIZE * i && Free() == old(Free()) + 1 - i
        invariant Appending(d0, data[..], c, |c| - 1, q, buffer, base, w)
        invariant Taken(f, fat[..], r) && |r| == i + 1 && q == DataClusters(c) + r[1..]
      {
        ghost var before := fat[..];
        prev := StoreChunk(prev, j, q, buffer, w, CLUSTER_SIZE, d0, c, base);
        TakenNext(f, before, fat[..], r, prev);
        q, r := q + [prev], r + [prev];
        w := w + CLUSTER_SIZE;
      }
      ghost var before := fat[..];
      prev := StoreChunk(prev, j, q, buffer, w, |buffer| - w, d0, c, base);
      TakenNext(f, before, fat[..], r, prev);
      q, r := q + [prev], r + [prev];
      p := q;
      before := fat[..];
      e := CloseChain(prev, j, q);
      TakenNext(f, before, fat[..], r, e);
      assert p + [e] == DataClusters(c) + (r + [e])[1..];
      AppendedLayoutIs(f0, fat[..], cs0, j, needed, r + [e]);
    }

    /** append_data(), for a file that exists. */
    method AppendData(filename: Name, buffer: seq<byte>)
      requires Valid()
      requires var i := Find(Files(), Normalize(filename)); i < |Files()| && NoWrap(Abs(), i, |buffer|)
      modifies this, fat, data
      ensures FileOk(old(Files()[Find(Files(), Normalize(filename))]))
      ensures Refines(FsSpec.Append(old(Abs()), old(Find(Files(), Normalize(filename))), buffer), 0)
      ensures fault == DirectoryHit <==> old(AppendStops(At(), Abs(), Find(Files(), Normalize(filename)), |buffer|))
      ensures fault == NoFault ==>
        Valid() && At() == old(AppendPlan(At(), Abs(), Find(Files(), Normalize(filename)), |buffer|))
      ensures old(hit) <= hit
    {
      hide Shaped, Refines, AppendStops, AppendPlan, NewClusters, FsSpec.Append, Fit;
      var files := LoadRootFolder();
      WfInRange(fat[..], cs);
      var i := GetFile(files, Normalize(filename));
      FindAgrees(data[..], recs, cs, Normalize(filename), i);
      StoredDiskOk(fat[..], data[..], cs, recs);
      FileFacts(fat[..], data[..], cs, recs, i);
      PlacedRoot(fat[..], data[..], cs, recs);
      assert Files()[i] == AbsFile(data[..], files[i], cs[i]);
      AppendToFile(files, i, buffer, Abs());
    }

    /** append_data() for file i of the directory that was loaded. */
    method AppendToFile(files: seq<FileRec>, i: nat, buffer: seq<byte>, ghost d: Disk)
      requires Valid() && files == recs && i < |files| && d == Abs() && i < |d.files| && NoWrap(d, i, |buffer|)
      requires FileOk(d.files[i]) && d.files[i].size == files[i].size
      modifies this, fat, data
      ensures Fit(old(At()).a, d) && Refines(FsSpec.Append(d, i, buffer), 0)
      ensures fault == DirectoryHit <==> AppendStops(old(At()), d, i, |buffer|)
      ensures fault == NoFault ==> Valid() && At() == AppendPlan(old(At()), d, i, |buffer|)
      ensures old(hit) <= hit
    {
      hide Placed, Shaped, HeadStored, Refines, HeadBytes, ClustersNeeded, FsSpec.Append, Overrun, Appended, FileOk,
        AbsFiles, OverDirectory, NewClusters, SavePlan, FileNames;
      FileFacts(fat[..], data[..], cs, recs, i);
      PlacedRoot(fat[..], data[..], cs, recs);
      ghost var d0 := data[..];
      AppendOutcome(d, i, buffer);
      var last, head := StoreHead(files, i, buffer, d.files);
      if |buffer| > head {
        AppendBeyond(files, i, buffer, last, head, d0, d);
      } else {
        AppendWithin(files, i, buffer, last, d0, d.files);
      }
    }

    /** The first bytes of the buffer go behind the file's data in its last cluster. */
    method StoreHead(files: seq<FileRec>, i: nat, buffer: seq<byte>, ghost fs: seq<File>) returns (last: int, head: nat)
      requires Valid() && files == recs && i < |files| && fs == Files()
      modifies data
      ensures HeadStored(fat[..], old(data[..]), data[..], cs, files, i, buffer, last, head, fs)
      ensures files[i].size >= 0 && head == HeadBytes(files[i].size, |buffer|)
    {
      WfInRange(fat[..], cs);
      HeadStoredBy(fat[..], data[..], cs, files, i, buffer, fs);
      assert IsChain(fat[..], cs[i]) && files[i].start == cs[i][0];
      var offset := files[i].size % CLUSTER_SIZE;
      last := LastCluster(files[i].start, i);
      head := HeadBytes(files[i].size, |buffer|);
      hide *;
      Memcpy(CLUSTER_SIZE * last + offset, buffer[..head]);
    }

    /** append_data() when the buffer fits the last cluster. */
    method AppendWithin(files: seq<FileRec>, i: nat, buffer: seq<byte>, last: int, ghost d0: seq<byte>,
                        ghost fs: seq<File>)
      requires Memory() && fault == NoFault && recs == files
      requires HeadStored(fat[..], d0, data[..], cs, files, i, buffer, last, |buffer|, fs)
      requires files[i].size + |buffer| < 0x1_0000_0000
      modifies this, fat, data
      ensures i < |fs| && Refines(Resave(|files|, Disk(fs[i := Appended(fs[i], buffer)], old(Free())), 0), 0)
      ensures |old(cs)| == |files| + 1 && RootOf(old(cs)) != []
      ensures fault == NoFault ==> Valid() && At() == SavePlan(old(At()), NamesOf(files))
      ensures fault != DirectoryHit && old(hit) <= hit
    {
      hide HeadStored, FatWf, Appended, Shaped, AllInRange, AbsFiles, SavePlan, Resave;
      AppendedWithin(fat[..], d0, data[..], cs, files, i, buffer, last, fs);
      SaveAppended(files, i, files[i].size + |buffer|, fs[i := Appended(fs[i], buffer)]);
    }

    /** The record of file i gets its new size and the directory is saved; `after` are the files then. */
    method SaveAppended(files: seq<FileRec>, i: nat, size: nat, ghost after: seq<File>)
      requires Memory() && fault == NoFault && AllInRange(cs) && i < |files| && |after| == |files|
      requires var files' := files[i := files[i].(size := size)];
        FatWf(fat[..], cs) && Shaped(files', cs) && after == AbsFiles(data[..], files', cs)
      requires RootOf(cs)[0] == 0 && |RootOf(cs)| == RootClusters(|files|) + 1
      modifies this, fat, data
      ensures Refines(Resave(|files|, Disk(after, old(Free())), 0), 0)
      ensures |old(cs)| == |files| + 1
      ensures fault == NoFault ==> Valid() && At() == SavePlan(old(At()), NamesOf(files))
      ensures fault != DirectoryHit && old(hit) <= hit
    {
      hide SavePlan, Resave, AlikeFiles;
      var files' := files[i := files[i].(size := size)];
      assert NamesOf(files') == NamesOf(files);
      ghost var cs1 := cs;
      ResaveRoot(files', |files|, 0);
      if fault == NoFault {
        ResavedShape(files', cs1, cs);
      }
    }

    /** append_data() when the buffer does not fit what it takes for the last cluster. */
    method AppendBeyond(files: seq<FileRec>, i: nat, buffer: seq<byte>, last: int, head: nat, ghost d0: seq<byte>,
                        ghost d: Disk)
      requires Memory() && fault == NoFault && recs == files
      requires HeadStored(fat[..], d0, data[..], cs, files, i, buffer, last, head, d.files) && head < |buffer|
      requires d.free == Free() && i < |d.files| && FileOk(d.files[i])
      requires Fit(At().a, d) && d.files[i].size == files[i].size && NoWrap(d, i, |buffer|)
      requires NewClusters(d.files[i].size, |buffer|) == ClustersNeeded(|buffer| - head)
      requires FileNames(d.files) == NamesOf(files)
      modifies this, fat, data
      ensures Refines(FsSpec.Append(d, i, buffer), 0)
      ensures fault == DirectoryHit <==> AppendStops(old(At()), d, i, |buffer|)
      ensures fault == NoFault ==> Valid() && At() == AppendPlan(old(At()), d, i, |buffer|)
      ensures old(hit) <= hit
    {
      hide FatWf, AppendedLayout, Appended, AllInRange, SavePlan, Resave, Appending, RootImage, HeadBytes,
        FsSpec.Append, Overrun, Shaped, Placed, FileNames, NamesOf, OverDirectory;
      AppendOutcome(d, i, buffer);
      var needed := ClustersNeeded(|buffer| - head);
      var ok := ExistsNFreeClusters(needed);
      if !ok {
        AppendNowhere(files, i, buffer, last, head, d0, d);
        return;
      }
      ok := ExistsNFreeClusters(needed + 1);
      if !ok {
        fault := SentinelLink;
        return;
      }
      AppendClusters(files, i, buffer, last, head, needed, d0, d.files);
    }

    /** append_data() when there are too few clusters: only the head of the buffer was written. */
    method AppendNowhere(files: seq<FileRec>, i: nat, buffer: seq<byte>, last: int, head: nat, ghost d0: seq<byte>,
                         ghost d: Disk)
      requires Memory() && fault == NoFault && recs == files
      requires HeadStored(fat[..], d0, data[..], cs, files, i, buffer, last, head, d.files) && head < |buffer|
      requires i < |d.files| && FileOk(d.files[i]) && Fit(At().a, d) && d.files[i].size == files[i].size
      requires d.free == Free() < NewClusters(d.files[i].size, |buffer|)
      modifies this`fault
      ensures Refines(FsSpec.Append(d, i, buffer), 0)
      ensures fault == NoFault ==> Valid()
      ensures fault == DirectoryHit <==> AppendStops(At(), d, i, |buffer|)
    {
      hide FatWf, Appended, AllInRange, Resave, Appending, RootImage, HeadBytes, FsSpec.Append, Overrun, NewClusters,
        OverDirectory;
      AppendOutcome(d, i, buffer);
      PlacedRootLength(fat[..], d0, cs, files);
      var rootLast := LastCluster(0, |files|);
      var offset := files[i].size % CLUSTER_SIZE;
      if OverDirectory(rootLast, |files|, last, offset) {
        fault := DirectoryHit;
      } else {
        OverrunOk(fat[..], d0, data[..], files, cs, i, buffer);
        OverrunImage(fat[..], d0, data[..], files, cs, i, offset);
        RefinesExactly(Abs(), 0);
      }
    }

    /** append_data() when there are clusters enough. */
    method AppendClusters(files: seq<FileRec>, i: nat, buffer: seq<byte>, last: int, head: nat, needed: nat,
                          ghost d0: seq<byte>, ghost fs: seq<File>)
      requires Memory() && fault == NoFault && recs == files
      requires HeadStored(fat[..], d0, data[..], cs, files, i, buffer, last, head, fs) && head < |buffer|
      requires needed == ClustersNeeded(|buffer| - head) < Free() && files[i].size + |buffer| < 0x1_0000_0000
      modifies this, fat, data
      ensures i < |fs| && Refines(Resave(|files|, Disk(fs[i := Appended(fs[i], buffer)], old(Free()) - needed), 0), 0)
      ensures |old(cs)| == |old(recs)| + 1 && RootOf(old(cs)) != [] && |old(cs)[i]| >= 2
      ensures fault == NoFault ==>
        Valid() && At() == SavePlan(Plan(AppendedLayout(old(At()).a, i, needed), old(hit)), NamesOf(files))
      ensures fault != DirectoryHit && old(hit) <= hit
    {
      hide FatWf, Appended, AllInRange, AbsFiles, SavePlan, AppendedLayout, Resave, Appending, RootImage, HeadBytes,
        ClustersNeeded, Bare;
      FileFacts(fat[..], d0, cs, files, i);
      HeadFills(files[i].size, |buffer|);
      ghost var cs0 := cs;
      ghost var p, e := StoreRest(last, i, buffer, head, needed, d0, AppendBase(cs[i], files[i].size));
      assert NewClusters(files[i].size, |buffer|) == needed;
      AppendedOk(fat[..], d0, data[..], files, cs0, i, p, buffer, e);
      SaveAppended(files, i, files[i].size + |buffer|, fs[i := Appended(fs[i], buffer)]);
    }

    // ---------- writing ----------

    /** Following n links from the start of a chain. */
    method SeekCluster(start: int, n: nat, ghost c: seq<int>) returns (curr: int)
      requires Memory() && IsChain(fat[..], c) && start == c[0] && n < |c|
      ensures curr == c[n]
    {
      curr := start;
      for i := 0 to n
        invariant curr == c[i]
      {
        assert fat[c[i]] == c[i + 1];
        curr := fat[curr];
      }
    }

    /** The tail of file i from `offset` on is copied out and the file is cut off behind the cluster
        of `offset`: the next cluster becomes the EOF cluster, those behind it are released. */
    method CutTail(start: int, ghost i: nat, offset: nat) returns (tail: seq<byte>)
      requires Memory() && FatWf(fat[..], cs) && i < |cs| && |cs[i]| >= 2 && start == cs[i][0]
      requires offset < CLUSTER_SIZE * (|cs[i]| - 1) && i + 1 < |cs|
      modifies this`cs, fat
      ensures var c, sc := old(cs)[i], offset / CLUSTER_SIZE;
        && sc + 1 < |c| && cs == old(cs)[i := c[..sc + 2]]
        && TailRead(data[..], DataClusters(c), offset, tail) && |tail| == CLUSTER_SIZE * (|c| - 1) - offset
        && Free() == old(Free()) + if |c| - 1 >= sc + 2 then |c| - 1 - sc - 2 else 0
      ensures FatWf(fat[..], cs) && At().a == CutLayout(old(At()).a, i, offset / CLUSTER_SIZE)
    {
      hide TailRead, FileByte, CutUpTo, FreeCount, Freed, Bare, CutLayout;
      ghost var f, c := fat[..], cs[i];
      assert IsChain(f, c);
      var sc := offset / CLUSTER_SIZE;
      var curr := SeekCluster(start, sc, c);
      TailFirst(data[..], DataClusters(c), offset, CLUSTER_SIZE - offset % CLUSTER_SIZE);
      tail := data[..][CLUSTER_SIZE * curr + offset % CLUSTER_SIZE..CLUSTER_SIZE * curr + CLUSTER_SIZE];
      assert fat[c[sc]] == c[sc + 1];
      curr := fat[curr];
      tail := CutLoop(curr, c, sc, offset, tail);
      CutDone(f, fat[..], cs, i, sc);
      CutLayoutIs(f, fat[..], cs, i, sc);
      cs := cs[i := cs[i][..sc + 2]];
    }

    /** The loop of write() that copies and releases the clusters behind the cut. */
    method CutLoop(start: int, ghost c: seq<int>, sc: nat, offset: nat, head: seq<byte>) returns (tail: seq<byte>)
      requires Memory() && IsChain(fat[..], c) && sc + 1 < |c| && start == c[sc + 1]
      requires TailRead(data[..], DataClusters(c), offset, head) && offset + |head| == CLUSTER_SIZE * (sc + 1)
      modifies fat
      ensures CutUpTo(old(fat[..]), fat[..], c, sc, |c| - 1)
      ensures TailRead(data[..], DataClusters(c), offset, tail) && offset + |tail| == CLUSTER_SIZE * (|c| - 1)
      ensures Free() == old(Free()) + if |c| - 1 >= sc + 2 then |c| - 1 - sc - 2 else 0
    {
      hide TailRead, FileByte, CutUpTo, FreeCount;
      ghost var f, d := fat[..], data[..];
      ghost var m := sc + 1;
      var curr, first := start, true;
      tail := head;
      CutStart(f, c, sc);
      CutAtEnd(f, f, c, sc, m);
      while fat[curr] != EOF_CLUSTER
        invariant sc + 1 <= m < |c| && curr == c[m] && 0 <= curr < CLUSTER_COUNT
        invariant data[..] == d && CutUpTo(f, fat[..], c, sc, m) && (fat[curr] == EOF_CLUSTER <==> m == |c| - 1)
        invariant first <==> m == sc + 1
        invariant TailRead(d, DataClusters(c), offset, tail) && offset + |tail| == CLUSTER_SIZE * m
        invariant Free() == FreeCount(f, CLUSTER_COUNT) + if m >= sc + 2 then m - sc - 2 else 0
        decreases |c| - m
      {
        TailMore(d, DataClusters(c), offset, tail, m, CLUSTER_SIZE);
        tail := tail + data[..][CLUSTER_SIZE * curr..CLUSTER_SIZE * curr + CLUSTER_SIZE];
        CutStep(f, fat[..], c, sc, m);
        ghost var g := fat[..];
        var prev := curr;
        curr := fat[curr];
        var mark := if first then EOF_CLUSTER else FREE_CLUSTER;
        FreeCountUpdate(g, CLUSTER_COUNT, prev, mark);
        fat[prev] := mark;
        first := false;
        assert fat[..] == g[prev := mark];
        m := m + 1;
        CutAtEnd(f, fat[..], c, sc, m);
      }
    }

    /** The first half of write() below the end of file i: its record and its chain are cut off at
        `offset`, and the bytes behind it are handed back. Saving the directory comes first: e is the disk
        as it is after that, with the file still whole. */
    method CutOff(files: seq<FileRec>, i: nat, offset: nat, ghost d: Disk) returns (tail: seq<byte>, ghost e: Disk)
      requires Valid() && files == recs && i < |files| && d == Abs() && Fit(At().a, d)
      requires i < |d.files| && FileOk(d.files[i]) && offset < d.files[i].size && InsertLegal(d.files[i])
      modifies this, fat, data
      ensures Valid() && Like(e, d, hit) && CutTo(e, Abs(), i, offset, tail)
      ensures At() == CutPlan(old(At()), d, i, offset) && old(hit) <= hit
    {
      hide Placed, Fits, TailRead, FatWf, AllInRange, DirOk, InsertLegal, CutTo, FreeCount, AlikeFiles, Reached,
        SavePlan, CutLayout, Contents, Fit, CutFile, Bare, FileNames, NamesOf, FileOk;
      PlacedWf(fat[..], data[..], cs, files);
      assert d.files[i] == AbsFile(data[..], files[i], cs[i]);
      InsertFacts(fat[..], data[..], cs, files, i, offset, d.files[i]);
      var start := files[i].start;
      ResaveSize(files, i, offset);
      PlacedWf(fat[..], data[..], cs, recs);
      ghost var f1, cs1 := fat[..], cs;
      e := Disk(AbsFiles(data[..], files, cs), Free());
      LikeAt(e, d, hit, i);
      assert e.files[i] == AbsFile(data[..], files[i], cs[i]);
      InsertLegalAlike(e.files[i], d.files[i], offset);
      tail := CutTail(start, i, offset);
      CutOffResult(f1, fat[..], data[..], cs1, files, i, offset, e, tail);
    }

    /** Saving the directory with another size for file i; the files are compared with their old sizes. */
    method ResaveSize(files: seq<FileRec>, i: nat, size: nat)
      requires Valid() && files == recs && i < |files| && size < 0x1_0000_0000
      modifies this, fat, data
      ensures Stored() && recs == files[i := files[i].(size := size)] && AllInRange(cs) && Free() == old(Free())
      ensures SameFiles(old(cs), cs) && DirOk(files, cs) && Shaped(files, cs)
      ensures AlikeFiles(AbsFiles(data[..], files, cs), old(Files()), hit)
      ensures At() == SavePlan(old(At()), NamesOf(files)) && old(hit) <= hit
    {
      hide RootImage, Reached, OnlyDirectory, AlikeFiles, SavePlan, Bare;
      WfInRange(fat[..], cs);
      ResizedDir(files, cs, i, size);
      var files' := files[i := files[i].(size := size)];
      assert NamesOf(files') == NamesOf(files);
      FreeAtLeastOne(fat[..]);
      ghost var d0, cs0 := data[..], cs;
      ResaveSameLength(Disk(AbsFiles(data[..], files', cs), Free()), 0);
      ResaveRoot(files', |files|, 0);
      WfInRange(fat[..], cs);
      ResavedShape(files, cs0, cs);
      SavedAlike(fat[..], d0, data[..], cs0, cs, files);
      AlikeMore(AbsFiles(data[..], files, cs), AbsFiles(d0, files, cs0),
        Reached(NamesOf(files), cs, LastData(RootOf(cs))), hit);
    }

    /** write(): past the end is refused, at the end appends, below the end inserts. */
    method Write(filename: Name, buffer: seq<byte>, offset: nat) returns (code: int)
      requires Valid() && |buffer| < 0x1_0000_0000
      requires var i := Find(Files(), Normalize(filename)); i < |Files()| ==> Files()[i].size + |buffer| < 0x1_0000_0000
      requires WriteLegal(Abs(), Normalize(filename), offset)
      modifies this, fat, data
      ensures DiskOk(old(Abs())) && Refines(FsSpec.Write(old(Abs()), Normalize(filename), buffer, offset), code)
      ensures fault == DirectoryHit <==> old(WriteStops(At(), Abs(), Normalize(filename), buffer, offset))
      ensures fault == NoFault ==>
        Valid() && At() == old(WritePlan(At(), Abs(), Normalize(filename), buffer, offset))
      ensures old(hit) <= hit
    {
      hide Placed, Shaped, FsSpec.Append, FsSpec.Insert, AppendPlan, AppendStops, InsertPlan, InsertStops, Fit,
        AlikeFiles;
      code := 1;
      var files := LoadRootFolder();
      PlacedWf(fat[..], data[..], cs, recs);
      var i := GetFile(files, Normalize(filename));
      FindAgrees(data[..], recs, cs, Normalize(filename), i);
      StoredDiskOk(fat[..], data[..], cs, recs);
      RefinesExactly(Abs(), 1);
      if i == |files| {
        return;
      }
      assert Files()[i] == AbsFile(data[..], files[i], cs[i]);
      if offset > files[i].size {
        return;
      }
      code := 0;
      if offset == files[i].size {
        AppendData(filename, buffer);
        return;
      }
      code := WriteBelowEnd(filename, files, i, buffer, offset, Abs());
    }

    /** write() below the end of file i. */
    method WriteBelowEnd(filename: Name, files: seq<FileRec>, i: nat, buffer: seq<byte>, offset: nat,
                         ghost d: Disk) returns (code: int)
      requires Valid() && files == recs && i < |files| && d == Abs() && Fit(At().a, d)
      requires i == Find(d.files, Normalize(filename))
      requires i < |d.files| && FileOk(d.files[i]) && d.files[i].size == files[i].size
      requires files[i].size + |buffer| < 0x1_0000_0000
      requires offset < d.files[i].size && InsertLegal(d.files[i])
      modifies this, fat, data
      ensures Refines(FsSpec.Insert(d, i, buffer, offset), code)
      ensures fault == DirectoryHit <==> InsertStops(old(At()), d, i, buffer, offset)
      ensures fault == NoFault ==> Valid() && At() == InsertPlan(old(At()), d, i, buffer, offset)
      ensures old(hit) <= hit
    {
      hide Placed, Shaped, FsSpec.Append, FsSpec.Insert, CutFile, FileOk, AbsFiles, Find, AlikeFiles, Bare, InsertPlan,
        InsertStops, Fit, TailSeen, ClustersNeeded, CutReleases, InsertLegal, FreeCount;
      InsertOutcome(d, i, buffer, offset);
      InsertRefused(At(), d, i, buffer, offset);
      code := 1;
      RefinesExactly(d, 1);
      var ok := ExistsNFreeClusters(ClustersNeeded(files[i].size + |buffer|));
      if !ok {
        return;
      }
      code := 0;
      InsertInto(filename, files, i, buffer, offset, d);
    }

    /** The same when there is room. */
    method InsertInto(filename: Name, files: seq<FileRec>, i: nat, buffer: seq<byte>, offset: nat, ghost d: Disk)
      requires Valid() && files == recs && i < |files| && d == Abs() && Fit(At().a, d)
      requires i == Find(d.files, Normalize(filename))
      requires i < |d.files| && FileOk(d.files[i]) && d.files[i].size == files[i].size
      requires files[i].size + |buffer| < 0x1_0000_0000 && d.free >= ClustersNeeded(files[i].size + |buffer|)
      requires offset < d.files[i].size && InsertLegal(d.files[i])
      modifies this, fat, data
      ensures Refines(FsSpec.Insert(d, i, buffer, offset), 0)
      ensures fault == DirectoryHit <==> InsertStops(old(At()), d, i, buffer, offset)
      ensures fault == NoFault ==> Valid() && At() == InsertPlan(old(At()), d, i, buffer, offset)
      ensures old(hit) <= hit
    {
      hide Placed, Shaped, FsSpec.Append, FsSpec.Insert, CutFile, FileOk, CutTo, AbsFiles, FatWf, DirOk,
        Find, AlikeFiles, AppendPlan, AppendStops, CutPlan, Bare, InsertPlan, InsertStops, Fit, TailSeen;
      hide NewClusters, ClustersNeeded, CutReleases, DiskOk, InsertLegal, FreeCount, CutDisk, TailLength;
      var original := files[i].size;
      ghost var p := At();
      var tail, e := CutOff(files, i, offset, d);
      CutCarries(e, d, Abs(), i, offset, tail, Normalize(filename), hit);
      var n := |tail| - (CLUSTER_SIZE - original % CLUSTER_SIZE);
      var rest := if n >= 0 then tail[..n] else tail + Zeros(0x1_0000_0000 + n - |tail|);
      InsertBehind(filename, buffer, rest, i, offset, d, e, p);
    }

    /** The two appends, once the file has been cut: e is the disk with the file whole, p the plan before. */
    method InsertBehind(filename: Name, buffer: seq<byte>, rest: seq<byte>, ghost i: nat, ghost offset: nat,
                        ghost d: Disk, ghost e: Disk, ghost p: Plan)
      requires Valid() && Like(e, d, hit) && i < |e.files| && i < |d.files|
      requires FileOk(d.files[i]) && offset < d.files[i].size && InsertLegal(d.files[i])
      requires FileOk(e.files[i]) && offset < e.files[i].size && InsertLegal(e.files[i])
      requires d.files[i].size + |buffer| < 0x1_0000_0000 && d.free >= ClustersNeeded(d.files[i].size + |buffer|)
      requires |e.files[i].bytes| == e.files[i].size && rest == TailSeen(e.files[i], offset)
      requires Abs() == CutDisk(e, i, offset) && i == Find(Abs().files, Normalize(filename)) < |Abs().files|
      requires Abs().files[i].size == offset && Fit(p.a, d) && At() == CutPlan(p, d, i, offset)
      modifies this, fat, data
      ensures Refines(FsSpec.Insert(d, i, buffer, offset), 0)
      ensures fault == DirectoryHit <==> InsertStops(p, d, i, buffer, offset)
      ensures fault == NoFault ==> Valid() && At() == InsertPlan(p, d, i, buffer, offset)
      ensures old(hit) <= hit
    {
      hide Placed, Shaped, FsSpec.Append, FsSpec.Insert, CutFile, FileOk, AbsFiles, FatWf, DirOk,
        Find, AlikeFiles, AppendPlan, AppendStops, CutPlan, Bare, InsertPlan, InsertStops, Fit, TailSeen;
      hide NewClusters, ClustersNeeded, CutReleases, DiskOk, InsertLegal, FreeCount, CutDisk, TailLength;
      ghost var q, some := At(), hit;
      LikeSizes(e, d, i, hit);
      InsertIsAppends(e, i, buffer, offset);
      RestFits(e, i, |buffer|, offset);
      InsertPlanSteps(p, q, d, e, i, buffer, offset, some);
      AppendTwice(filename, buffer, rest, i);
      InsertLikeMore(e, d, i, buffer, offset, some, hit);
      RefinesOn(FsSpec.Insert(e, i, buffer, offset), FsSpec.Insert(d, i, buffer, offset), 0, hit);
    }

    /** The two appends of an insertion, to file i. */
    method AppendTwice(filename: Name, buffer: seq<byte>, rest: seq<byte>, ghost i: nat)
      requires Valid() && i == Find(Files(), Normalize(filename)) < |Files()| && FileOk(Files()[i])
      requires var size := Files()[i].size;
        && size + |buffer| < 0x1_0000_0000 && Free() > NewClusters(size, |buffer|)
        && (size + |buffer| + |rest| < 0x1_0000_0000 || NewClusters(size + |buffer|, |rest|) > CLUSTER_COUNT)
      modifies this, fat, data
      ensures var o := FsSpec.Append(old(Abs()), i, buffer);
        && o.Done? && i < |o.disk.files| && FileOk(o.disk.files[i]) && Refines(FsSpec.Append(o.disk, i, rest), 0)
        && var q := AppendPlan(old(At()), old(Abs()), i, |buffer|);
        && Fit(q.a, o.disk)
        && (fault == DirectoryHit <==> AppendStops(q, o.disk, i, |rest|))
        && (fault == NoFault ==> Valid() && At() == AppendPlan(q, o.disk, i, |rest|))
      ensures old(hit) <= hit
    {
      hide Placed, Shaped, FsSpec.Append, FileOk, Find, AlikeFiles, AbsFiles, FatWf, DirOk, AppendPlan, NewClusters,
        Bare, Fit;
      ghost var cut, name, p := Abs(), Normalize(filename), At();
      ValidDiskOk();
      AppendSpent(cut, i, buffer);
      AppendFit(p, cut, i, buffer);
      AppendData(filename, buffer);
      InsertMiddle(cut, i, buffer);
      InsertMiddleFile(cut, i, buffer, name);
      ghost var mid, now, some, q := FsSpec.Append(cut, i, buffer).disk, Abs(), hit, At();
      FindAlike(now.files, mid.files, some, name);
      AlikeLength(now, mid, some);
      LikeAt(now, mid, some, i);
      FileOkAlike(mid.files[i], now.files[i], true);
      AppendLike(now, mid, i, rest, rest, some);
      AppendPlanLike(q, now, mid, i, |rest|, some);
      AppendData(filename, rest);
      RefinesOn(FsSpec.Append(now, i, rest), FsSpec.Append(mid, i, rest), 0, some);
    }

    lemma CountFiles()
      requires Valid()
      ensures |Files()| == |recs|
    {
      PlacedWf(fat[..], data[..], cs, recs);
    }

    // ---------- reading ----------

    /** The file called `name`, for one that exists. */
    ghost function FileNamed(name: Name): File
      requires Stored() && Find(Files(), name) < |Files()|
      reads this, fat, data
    {
      Files()[Find(Files(), name)]
    }

    /** read(), for a file that exists. It returns 1 both for a range outside the file and for one
        that ends in the cluster it starts in, 0 when it went on to further clusters. */
    method Read(filename: Name, offset: nat, len: nat) returns (code: int, buffer: seq<byte>)
      requires Valid() && Find(Files(), Normalize(filename)) < |Files()| && offset + len < 0x1_0000_0000
      requires Sound(FileNamed(Normalize(filename)))
      ensures var f := FileNamed(Normalize(filename));
        && |f.bytes| == f.size
        && buffer == (if offset + len <= f.size then f.bytes[offset..offset + len] else [])
        && code == if offset + len <= f.size && len > CLUSTER_SIZE - offset % CLUSTER_SIZE then 0 else 1
    {
      hide Placed, Shaped;
      var files := LoadRootFolder();
      PlacedWf(fat[..], data[..], cs, recs);
      var i := GetFile(files, Normalize(filename));
      FindAgrees(data[..], recs, cs, Normalize(filename), i);
      assert Files()[i] == AbsFile(data[..], files[i], cs[i]);
      code, buffer := ReadFile(files[i], cs[i], offset, len);
    }

    /** read() for a record that was found. */
    method ReadFile(r: FileRec, ghost c: seq<int>, offset: nat, len: nat) returns (code: int, buffer: seq<byte>)
      requires Memory() && IsChain(fat[..], c) && InRange(c) && r.start == c[0] && ValidRec(r)
      requires r.size <= CLUSTER_SIZE * (|c| - 1)
      ensures buffer == (if offset + len <= r.size then Contents(data[..], c, r.size)[offset..offset + len] else [])
      ensures code == if offset + len <= r.size && len > CLUSTER_SIZE - offset % CLUSTER_SIZE then 0 else 1
    {
      hide FileByte, TailRead, Contents;
      code, buffer := 1, [];
      if offset + len > r.size {
        return;
      }
      var n := if len < CLUSTER_SIZE - offset % CLUSTER_SIZE then len else CLUSTER_SIZE - offset % CLUSTER_SIZE;
      ghost var p := DataClusters(c);
      var curr := SeekCluster(r.start, offset / CLUSTER_SIZE, c);
      var at := CLUSTER_SIZE * curr + offset % CLUSTER_SIZE;
      buffer := data[..][at..at + n];
      if offset / CLUSTER_SIZE < |c| - 1 {
        TailFirst(data[..], p, offset, n);
      } else {
        TailEmpty(data[..], p, offset);
        assert buffer == [];
      }
      if len > n {
        buffer := ReadOn(curr, c, offset / CLUSTER_SIZE, offset, len, buffer);
        code := 0;
      }
      TailIsContents(data[..], c, r.size, offset, buffer);
    }

    /** The loop of read() over the clusters behind the first. */
    method ReadOn(start: int, ghost c: seq<int>, ghost k: nat, ghost offset: nat, len: nat,
                  head: seq<byte>) returns (buffer: seq<byte>)
      requires Memory() && IsChain(fat[..], c) && k < |c| - 1 && start == c[k] && |head| <= len
      requires TailRead(data[..], DataClusters(c), offset, head) && offset + |head| == CLUSTER_SIZE * (k + 1)
      requires offset + len <= CLUSTER_SIZE * (|c| - 1)
      ensures TailRead(data[..], DataClusters(c), offset, buffer) && |buffer| == len
    {
      hide FileByte, TailRead;
      var curr := start;
      buffer := head;
      ghost var m := k;
      while |buffer| != len
        invariant k <= m < |c| - 1 && curr == c[m] && |buffer| <= len
        invariant TailRead(data[..], DataClusters(c), offset, buffer)
        invariant |buffer| == len || offset + |buffer| == CLUSTER_SIZE * (m + 1)
        decreases len - |buffer|
      {
        assert fat[c[m]] == c[m + 1];
        curr := fat[curr];
        m := m + 1;
        var n := if |buffer| + CLUSTER_SIZE <= len then CLUSTER_SIZE else len - |buffer|;
        TailMore(data[..], DataClusters(c), offset, buffer, m, n);
        buffer := buffer + data[..][CLUSTER_SIZE * curr..CLUSTER_SIZE * curr + n];
      }
    }

    /** cat(): what it hands to the screen, piece by piece, is the file. */
    method Cat(filename: Name) returns (code: int, pieces: seq<seq<byte>>)
      requires Valid()
      requires Find(Files(), Normalize(filename)) < |Files()| ==> Sound(FileNamed(Normalize(filename)))
      ensures code == if Find(Files(), Normalize(filename)) < |Files()| then 0 else 1
      ensures code == 0 ==> Flatten(pieces) == FileNamed(Normalize(filename)).bytes
      ensures forall i :: 0 <= i < |pieces| ==> |pieces[i]| < SCREEN_BUFFER_SIZE
    {
      hide Placed, Shaped;
      code, pieces := 1, [];
      var files := LoadRootFolder();
      PlacedWf(fat[..], data[..], cs, recs);
      var i := GetFile(files, Normalize(filename));
      FindAgrees(data[..], recs, cs, Normalize(filename), i);
      if i == |files| {
        return;
      }
      assert Files()[i] == AbsFile(data[..], files[i], cs[i]);
      pieces := CatFile(files[i], cs[i]);
      code := 0;
    }

    /** Up to one cluster is added to the screen buffer, which is handed over first if it would overflow. */
    method CatChunk(curr: int, n: nat, ghost c: seq<int>, ghost m: nat, ghost all: seq<byte>,
                    pieces: seq<seq<byte>>, pending: seq<byte>)
      returns (ghost all': seq<byte>, pieces': seq<seq<byte>>, pending': seq<byte>)
      requires Memory() && InRange(c) && m < |c| - 1 && curr == c[m] && n <= CLUSTER_SIZE
      requires TailRead(data[..], DataClusters(c), 0, all) && (n == 0 || |all| == CLUSTER_SIZE * m)
      requires all == Flatten(pieces) + pending && |pending| < SCREEN_BUFFER_SIZE
      requires forall i :: 0 <= i < |pieces| ==> |pieces[i]| < SCREEN_BUFFER_SIZE
      ensures TailRead(data[..], DataClusters(c), 0, all') && |all'| == |all| + n
      ensures all' == Flatten(pieces') + pending' && |pending'| < SCREEN_BUFFER_SIZE
      ensures forall i :: 0 <= i < |pieces'| ==> |pieces'[i]| < SCREEN_BUFFER_SIZE
    {
      hide FileByte, TailRead, Flatten;
      pieces', pending' := pieces, pending;
      if |pending| + n >= SCREEN_BUFFER_SIZE {
        FlattenSnoc(pieces, pending);
        pieces', pending' := pieces + [pending], [];
        assert all == Flatten(pieces') + pending';
      }
      var chunk := data[..][CLUSTER_SIZE * curr..CLUSTER_SIZE * curr + n];
      if n > 0 {
        TailMore(data[..], DataClusters(c), 0, all, m, n);
      } else {
        assert all + chunk == all;
      }
      Regroup(Flatten(pieces'), pending', chunk);
      all' := all + chunk;
      pending' := pending' + chunk;
    }

    method CatFile(r: FileRec, ghost c: seq<int>) returns (pieces: seq<seq<byte>>)
      requires Memory() && IsChain(fat[..], c) && InRange(c) && r.start == c[0] && ValidRec(r)
      requires r.size <= CLUSTER_SIZE * (|c| - 1)
      ensures Flatten(pieces) == Contents(data[..], c, r.size)
      ensures forall i :: 0 <= i < |pieces| ==> |pieces[i]| < SCREEN_BUFFER_SIZE
    {
      assert Flatten([]) == [];
      hide FileByte, TailRead, Flatten, Contents, IsChain;
      ghost var p := DataClusters(c);
      ghost var all: seq<byte> := [];
      ghost var m := 0;
      var curr, readBytes, pending: seq<byte> := r.start, 0, [];
      pieces := [];
      DataInRange(c);
      TailEmpty(data[..], p, 0);
      ChainLink(fat[..], c, 0);
      while fat[curr] != EOF_CLUSTER
        invariant 0 <= m < |c| && curr == c[m] && 0 <= curr < CLUSTER_COUNT
        invariant fat[curr] == EOF_CLUSTER <==> m == |c| - 1
        invariant readBytes == |all| && |all| == (if CLUSTER_SIZE * m <= r.size then CLUSTER_SIZE * m else r.size)
        invariant TailRead(data[..], p, 0, all) && all == Flatten(pieces) + pending
        invariant |pending| < SCREEN_BUFFER_SIZE
        invariant forall i :: 0 <= i < |pieces| ==> |pieces[i]| < SCREEN_BUFFER_SIZE
        decreases |c| - m
      {
        var n := if r.size - readBytes >= CLUSTER_SIZE then CLUSTER_SIZE else r.size - readBytes;
        all, pieces, pending := CatChunk(curr, n, c, m, all, pieces, pending);
        readBytes := readBytes + n;
        ChainLink(fat[..], c, m);
        curr := fat[curr];
        m := m + 1;
        ChainLink(fat[..], c, m);
      }
      FlattenSnoc(pieces, pending);
      pieces := pieces + [pending];
      TailIsContents(data[..], c, r.size, 0, all);
    }

    // ---------- copying ----------

    /** Removing an existing destination and creating a new one, as cp() does. */
    method MakeTarget(files: seq<FileRec>, name: Name, nullBit: bool) returns (code: int)
      requires Valid() && files == recs && |name| < FILE_NAME_LEN && 0 !in name
      modifies this, fat, data
      ensures Refines(FsSpec.CpTarget(old(Abs()), name), code)
      ensures fault == NoFault ==> Valid() && KeepsChains(old(recs), old(cs), recs, cs, [name])
      ensures fault == NoFault ==> At() == old(TargetPlan(At(), Abs(), name))
      ensures fault != DirectoryHit && old(hit) <= hit
    {
      hide Placed, Shaped, FsSpec.Rm, FsSpec.Touch, FsSpec.CpTarget, KeepsChains, AbsFiles, FatWf, DirOk, Find,
        AlikeFiles, TouchPlan, RmPlan, Fit;
      ghost var recs0, cs0, d := recs, cs, Abs();
      CpTargetSteps(d, name);
      PlacedWf(fat[..], data[..], cs, recs);
      var k := GetFile(files, name);
      FindAgrees(data[..], recs, cs, name, k);
      KeepsChainsSome(recs, cs, name);
      AlikeItself(d.files, hit);
      ghost var rest := d;
      CountFiles();
      if k < |files| {
        ValidDiskOk();
        RmGone(d, name);
        code := Rm(name, nullBit);
        if fault != NoFault {
          return;
        }
        rest := FsSpec.Rm(d, name).disk;
      }
      ghost var recs1, cs1 := recs, cs;
      code := TouchTarget(name, rest);
      if fault == NoFault {
        KeepsChainsTwice(recs0, cs0, recs1, cs1, recs, cs, [name]);
      }
    }

    /** touch() of the destination, which by then is not there, or a system file. */
    method TouchTarget(name: Name, ghost rest: Disk) returns (code: int)
      requires Valid() && |name| < FILE_NAME_LEN && 0 !in name && Like(Abs(), rest, hit)
      modifies this, fat, data
      ensures Refines(FsSpec.Touch(rest, name), code)
      ensures fault == NoFault ==> Valid() && KeepsChains(old(recs), old(cs), recs, cs, [])
      ensures Fit(old(At()).a, rest) && (fault == NoFault ==> At() == TouchPlan(old(At()), rest, name))
      ensures fault != DirectoryHit && old(hit) <= hit
    {
      hide Placed, Shaped, FsSpec.Touch, KeepsChains, AbsFiles, Find, AlikeFiles, TouchPlan, Fit;
      ghost var now, some := Abs(), hit;
      assert Normalize(name) == name;
      TouchPlanLike(At(), now, rest, name, some);
      TouchLike(now, rest, name, some);
      code := Touch(name);
      RefinesOn(FsSpec.Touch(now, name), FsSpec.Touch(rest, name), code, some);
    }

    /** cp() */
    method Cp(source: Name, destination: Name, nullBit: bool) returns (code: int)
      requires Valid() && 0 !in destination
      requires CpLegal(Abs(), Normalize(source), Normalize(destination))
      modifies this, fat, data
      ensures Refines(FsSpec.Cp(old(Abs()), Normalize(source), Normalize(destination)), code)
      ensures fault == DirectoryHit <==> old(CpStops(At(), Abs(), Normalize(source), Normalize(destination)))
      ensures fault == NoFault ==>
        Valid() && At() == old(CpPlan(At(), Abs(), Normalize(source), Normalize(destination)))
      ensures old(hit) <= hit
    {
      hide Placed, Shaped, KeepsChains, FsSpec.CpTarget, AbsFiles, FatWf, DirOk, Find, FsSpec.Cp, CpFinish, CpLegal,
        ClustersNeeded, AlikeFiles, FreeCount, FsSpec.Touch, FsSpec.Rm, Resave, HasChain, TargetPlan, CopyPlan,
        CopyStops, Bare, Fit;
      var src, des := Normalize(source), Normalize(destination);
      CpSteps(Abs(), src, des);
      RefinesExactly(Abs(), 1);
      code := 1;
      if src == des {
        return;
      }
      var files := LoadRootFolder();
      PlacedWf(fat[..], data[..], cs, recs);
      var i := GetFile(files, src);
      FindAgrees(data[..], recs, cs, src, i);
      if i == |files| {
        return;
      }
      ghost var d, c := Abs(), cs[i];
      assert d.files[i] == AbsFile(data[..], files[i], c);
      var start, size := files[i].start, files[i].size;
      ghost var cs0 := cs;
      var made := MakeTarget(files, des, nullBit);
      if fault != NoFault {
        return;
      }
      CpTargetKeeps(d, src, des);
      KeepsOne(files, cs0, recs, cs, des, i);
      code := CopyToTarget(src, des, start, size, c, FsSpec.CpTarget(d, des).disk, d.files[i]);
    }

    /** cp() once the destination is in place; `target` is the disk by then, but for bytes of files that were hit. */
    method CopyToTarget(src: Name, des: Name, start: int, size: nat, ghost c: seq<int>, ghost target: Disk,
                        ghost f: File) returns (code: int)
      requires Valid() && Like(Abs(), target, hit) && src != des
      requires HasChain(recs, cs, src, c) && c != [] && start == c[0] && f.size == size < 0x1_0000_0000
      requires Find(target.files, src) < |target.files| && target.files[Find(target.files, src)] == f
      requires target.free >= ClustersNeeded(size) ==> Find(target.files, des) < |target.files|
      modifies this, fat, data
      ensures Fit(old(At()).a, target)
      ensures target.free < ClustersNeeded(size) ==>
        code == 1 && fault == NoFault && Valid() && Refines(Done(target, 1), 1) && At() == old(At())
      ensures target.free >= ClustersNeeded(size) ==>
        && code == 0 && Refines(CpFinish(target, f, des), 0)
        && (fault == DirectoryHit <==> CopyStops(old(At()), target, Find(target.files, des), |c| - 1))
        && (fault == NoFault ==>
              Valid() && At() == CopyPlan(old(At()), target, Find(target.files, des), |c| - 1, src))
      ensures old(hit) <= hit
    {
      hide Placed, Shaped, AbsFiles, FatWf, DirOk, Find, CpFinish, ClustersNeeded, AlikeFiles, FreeCount, CopyPlan,
        CopyStops, HasChain, Bare, Fit;
      ghost var now, some := Abs(), hit;
      FindAlike(now.files, target.files, some, src);
      FindAlike(now.files, target.files, some, des);
      ghost var k := Find(now.files, src);
      AlikeLength(now, target, some);
      LikeAt(now, target, some, k);
      FitLike(At().a, now, target, some);
      code := 1;
      var ok := ExistsNFreeClusters(ClustersNeeded(size));
      if !ok {
        return;
      }
      CopyPlanLike(At(), now, target, Find(now.files, des), |c| - 1, src, some);
      CopyInto(src, des, start, size, c, now, now.files[k]);
      CpFinishCode(now, now.files[k], des);
      code := 0;
      if fault == SentinelLink || fault == NoFault {
        AlikeMore(now.files, target.files, some, hit);
        CpFinishAlike(now, target, now.files[k], f, des, src, hit);
        RefinesOn(CpFinish(now, now.files[k], des), CpFinish(target, f, des), 0, hit);
      }
    }

    /** cp() once the destination is in place and there is room. */
    method CopyInto(src: Name, des: Name, start: int, size: nat, ghost c: seq<int>, ghost d: Disk, ghost f: File)
      requires Valid() && d == Abs() && Fit(At().a, d) && src != des && size < 0x1_0000_0000
      requires HasChain(recs, cs, src, c) && c != [] && start == c[0] && f.size == size
      requires Find(d.files, src) < |d.files| && d.files[Find(d.files, src)] == f && Find(d.files, des) < |d.files|
      modifies this, fat, data
      ensures Refines(CpFinish(d, f, des), 0)
      ensures fault == DirectoryHit <==> CopyStops(old(At()), d, Find(d.files, des), |c| - 1)
      ensures fault == NoFault ==> Valid() && At() == CopyPlan(old(At()), d, Find(d.files, des), |c| - 1, src)
      ensures old(hit) <= hit && (fault == NoFault && src in hit ==> des in hit)
    {
      hide Placed, Shaped, AbsFiles, FatWf, FatOpen, Find, HasChain, AlikeFiles, CopyPlan, CopyStops, Bare, Fit;
      var files := LoadRootFolder();
      PlacedWf(fat[..], data[..], cs, recs);
      var k := GetFile(files, des);
      FindAgrees(data[..], recs, cs, des, k);
      var i := GetFile(files, src);
      FindAgrees(data[..], recs, cs, src, i);
      ChainOfNamed(recs, cs, src, c, i);
      CopyChains(files, i, k, d);
    }

    /** The copying itself, from file i to file k of the directory. */
    method CopyChains(files: seq<FileRec>, i: nat, k: nat, ghost d: Disk)
      requires Valid() && files == recs && d == Abs() && i != k && i < |files| && k < |files| && |d.files| == |files|
      requires Fit(At().a, d)
      modifies this, fat, data
      ensures Refines(if d.free + 1 <= d.files[i].clusters then Halted(SentinelLink)
                      else Done(Disk(WithContents(d.files, k, d.files[i]), d.free + 1 - d.files[i].clusters), 0), 0)
      ensures |old(cs)| == |files| + 1 && |old(cs)[i]| >= 2
      ensures fault == DirectoryHit <==> CopyStops(old(At()), d, k, |old(cs)[i]| - 1)
      ensures fault == NoFault ==> Valid() && At() == CopyPlan(old(At()), d, k, |old(cs)[i]| - 1, files[i].name)
      ensures old(hit) <= hit && (fault == NoFault && files[i].name in hit ==> files[k].name in hit)
    {
      hide Placed, AbsFile, FatWf, FatOpen, Copying, RootImage, AllInRange, DirOk, FreeCount;
      hide InSpill, WithContents, AlikeFiles, FillsSpill, SavePlan, CopiedLayout, Bare, Freed, FileNames, NamesOf,
        Shaped, Fit, AbsFiles, CopyPlan, CopyStops;
      PlacedRoot(fat[..], data[..], cs, recs);
      PlacedWf(fat[..], data[..], cs, files);
      CopyFacts(fat[..], data[..], cs, files, i, d.files);
      CopyFacts(fat[..], data[..], cs, files, k, d.files);
      var srcStart, desStart := files[i].start, files[k].start;
      ghost var cs0, p := cs, At();
      ResaveSize(files, k, files[i].size);
      assert cs[k] == cs0[k] && cs[i] == cs0[i];
      CopyResaved(files, i, k, srcStart, desStart, d, p);
    }

    /** The same when the directory has been saved with the destination's size; p was the plan before, d the disk. */
    method CopyResaved(files: seq<FileRec>, ghost i: nat, ghost k: nat, srcStart: int, desStart: int, ghost d: Disk,
                       ghost p: Plan)
      requires i != k && i < |files| && k < |files| && Stored() && recs == files[k := files[k].(size := files[i].size)]
      requires DirOk(files, cs) && Shaped(files, cs) && AllInRange(cs)
      requires Like(Disk(AbsFiles(data[..], files, cs), Free()), d, hit) && |d.files| == |files|
      requires d.files[k].name == files[k].name && d.files[i].name == files[i].name
      requires |cs| == |files| + 1
      requires |cs[i]| >= 2 && srcStart == cs[i][0] && |cs[k]| >= 2 && desStart == cs[k][0]
      requires Fit(p.a, d) && At() == SavePlan(p, FileNames(d.files))
      modifies this, fat, data
      ensures Refines(if d.free + 1 <= d.files[i].clusters then Halted(SentinelLink)
                      else Done(Disk(WithContents(d.files, k, d.files[i]), d.free + 1 - d.files[i].clusters), 0), 0)
      ensures fault == DirectoryHit <==> CopyStops(p, d, k, |old(cs)[i]| - 1)
      ensures fault == NoFault ==> Valid() && At() == CopyPlan(p, d, k, |old(cs)[i]| - 1, files[i].name)
      ensures old(hit) <= hit && (fault == NoFault && files[i].name in hit ==> files[k].name in hit)
    {
      hide Placed, AbsFile, FatWf, FatOpen, Copying, RootImage, AllInRange, DirOk, FreeCount;
      hide InSpill, WithContents, AlikeFiles, FillsSpill, SavePlan, CopiedLayout, Bare, Freed, FileNames, NamesOf,
        Shaped, Fit, AbsFiles, CopyPlan, CopyStops;
      CopyPlanIs(p, At(), d, k, |cs[i]| - 1, files[i].name);
      ghost var e := Disk(AbsFiles(data[..], files, cs), Free());
      CopyClusters(files, i, k, srcStart, desStart, e, At().a);
      CopiedAlike(e.files, d.files, k, i, hit);
      if fault == NoFault {
        MarkCopy(if files[i].name in hit then {files[k].name} else {});
      }
    }

    /** The copy of a file that was hit is one more. */
    ghost method MarkCopy(copy: set<Name>)
      requires Valid()
      modifies this`hit
      ensures Valid() && Abs() == old(Abs()) && At() == Plan(old(At()).a, old(hit) + copy)
    {
      hit := hit + copy;
    }

    /** The clusters are copied; e is the disk with the destination's old size, a where everything lies before. */
    method CopyClusters(files: seq<FileRec>, ghost i: nat, ghost k: nat, srcStart: int, desStart: int, ghost e: Disk,
                        ghost a: Layout)
      requires i != k && i < |files| && k < |files| && Stored() && recs == files[k := files[k].(size := files[i].size)]
      requires Shaped(files, cs) && AllInRange(cs) && e == Disk(AbsFiles(data[..], files, cs), Free())
      requires |cs[i]| >= 2 && srcStart == cs[i][0] && |cs[k]| >= 2 && desStart == cs[k][0]
      requires a == Layout(Bare(fat[..]), cs)
      modifies this`cs, this`fault, fat, data
      ensures Memory() && (fault == NoFault || fault == SentinelLink || fault == DirectoryHit)
      ensures |a.cs| == |files| + 1 && |RootOf(a.cs)| >= 2
      ensures fault == DirectoryHit <==>
        FillsSpill(Freed(a.fat, [a.cs[k][1]]), a.cs[k][0], |a.cs[i]| - 1, e.free + 1, LastData(RootOf(a.cs)), |files|)
      ensures fault == NoFault ==> At().a == CopiedLayout(a, k, |a.cs[i]| - 1)
      ensures fault == SentinelLink ==> e.free + 1 <= e.files[i].clusters
      ensures fault == NoFault ==>
        && e.free + 1 > e.files[i].clusters && Valid()
        && Abs() == Disk(WithContents(e.files, k, e.files[i]), e.free + 1 - e.files[i].clusters)
    {
      hide Placed, AbsFile, FatWf, FatOpen, Copying, RootImage, FreeCount, InSpill, WithContents, FillsSpill, Freed,
        Bare, CopiedLayout, Taken;
      ghost var f1, d1 := fat[..], data[..];
      PlacedWf(f1, d1, cs, recs);
      PlacedRoot(f1, d1, cs, recs);
      PlacedRootLength(f1, d1, cs, recs);
      ClustersOf(d1, cs, files, i);
      var last := LastCluster(0, |files|);
      ReleaseSecond(desStart, k);
      CopyingStart(d1, cs[i], desStart);
      assert files[k].start == cs[k][0];
      CopyOn(files, i, k, srcStart, desStart, last, f1, e, a);
    }

    /** The loop and the end of cp(); f1 was the FAT before the destination's second cluster was released. */
    method CopyOn(files: seq<FileRec>, ghost i: nat, ghost k: nat, srcStart: int, desStart: int, last: int,
                  ghost f1: seq<int>, ghost e: Disk, ghost a: Layout)
      requires i != k && i < |files| && k < |files| && |e.files| == |files| && |cs| == |files| + 1
      requires Memory() && a == Layout(Bare(f1), cs) && e.free + 1 == Free() && e.files[i].clusters == |cs[i]| - 1
      requires CopyLoopInv(data[..], cs[i], k, [desStart], 0, last, |files|)
      requires Shaped(files, cs) && AllInRange(cs) && e.files == AbsFiles(data[..], files, cs)
      requires recs == files[k := files[k].(size := files[i].size)] && Placed(f1, data[..], cs, recs)
      requires |cs[i]| >= 2 && srcStart == cs[i][0] && |cs[k]| >= 2 && desStart == cs[k][0] == files[k].start
      requires fat[..] == Freed(f1, [cs[k][1]])
      modifies this`cs, this`fault, fat, data
      ensures Memory() && (fault == NoFault || fault == SentinelLink || fault == DirectoryHit)
      ensures |RootOf(a.cs)| >= 2
      ensures fault == DirectoryHit <==>
        FillsSpill(Freed(a.fat, [a.cs[k][1]]), a.cs[k][0], |a.cs[i]| - 1, e.free + 1, LastData(RootOf(a.cs)), |files|)
      ensures fault == NoFault ==> At().a == CopiedLayout(a, k, |a.cs[i]| - 1)
      ensures fault == SentinelLink ==> e.free + 1 <= e.files[i].clusters
      ensures fault == NoFault ==>
        && e.free + 1 > e.files[i].clusters && Valid()
        && Abs() == Disk(WithContents(e.files, k, e.files[i]), e.free + 1 - e.files[i].clusters)
    {
      hide Placed, AbsFile, FatWf, FatOpen, Copying, RootImage, FreeCount, InSpill, WithContents, FillsSpill, Freed,
        Bare, CopiedLayout, Taken, AbsFiles, Shaped;
      ghost var d1 := data[..];
      BareFreed(f1, [cs[k][1]]);
      FillsBare(fat[..], desStart, |cs[i]| - 1, Free(), last, |files|);
      var curr;
      ghost var p;
      curr, p := CopyLoop(srcStart, desStart, i, k, last, |files|, d1);
      if fault == NoFault {
        FinishCopy(curr, k, p, files, i, last, f1, d1, e.files);
      }
    }

    /** The end of cp(): the destination's chain is closed. */
    method FinishCopy(curr: int, ghost k: nat, ghost p: seq<int>, ghost files: seq<FileRec>, ghost i: nat,
                      ghost last: int,
                      ghost f1: seq<int>, ghost d1: seq<byte>, ghost fs: seq<File>)
      requires i < |files| && k < |files| && |fs| == |files| && |d1| == DATA_SIZE
      requires Shaped(files, cs) && AllInRange(cs) && fs == AbsFiles(d1, files, cs)
      requires recs == files[k := files[k].(size := files[i].size)] && Placed(f1, d1, cs, recs)
      requires i < |cs| && |cs[i]| >= 2
      requires CopyLoopInv(d1, cs[i], k, p, |cs[i]| - 1, last, |files|) && curr == p[|p| - 1] && p[0] == files[k].start
      requires |cs[k]| >= 2 && p[0] == cs[k][0] && Taken(Freed(f1, [cs[k][1]]), fat[..], p)
      modifies this`cs, fat
      ensures Valid() && Files() == WithContents(fs, k, fs[i]) && Free() == old(Free())
      ensures At().a == CopiedLayout(Layout(Bare(f1), old(cs)), k, |p| - 1)
    {
      hide Placed, Shaped, AbsFiles, FatWf, FatOpen, Copying, RootImage, AllInRange, DirOk, FreeCount, Taken,
        CopiedLayout, Bare, Freed;
      hide InSpill, WithContents;
      ghost var cs1 := cs;
      CopiedLayoutIs(f1, fat[..], cs, k, p);
      CloseCopy(curr, k, p);
      CopyResult(f1, fat[..], d1, data[..], cs1, files, i, k, p, fs);
    }

    /** The last cluster that was linked becomes the EOF cluster of chain k. */
    method CloseCopy(curr: int, ghost k: nat, ghost p: seq<int>)
      requires Memory() && FatOpen(fat[..], cs, k, p) && k < |cs| && |p| >= 2 && curr == p[|p| - 1]
      modifies this`cs, fat
      ensures FatWf(fat[..], cs) && cs == old(cs)[k := p] && Free() == old(Free())
      ensures Bare(fat[..]) == Bare(old(fat[..]))
    {
      ghost var f := fat[..];
      assert p[|p| - 1] in p;
      ChainNotFree(f, p, curr);
      CloseOpen(f, cs, k, p);
      FreeCountUpdate(f, CLUSTER_COUNT, curr, EOF_CLUSTER);
      fat[curr] := EOF_CLUSTER;
      assert fat[..] == f[curr := EOF_CLUSTER];
      cs := cs[k := p];
    }

    /** Releasing the second cluster of chain k, which for a new file is its EOF cluster. */
    method ReleaseSecond(start: int, ghost k: nat)
      requires Memory() && FatWf(fat[..], cs) && k < |cs| && |cs[k]| >= 2 && start == cs[k][0]
      modifies fat
      ensures FatOpen(fat[..], cs, k, [start]) && Free() == old(Free()) + 1 && 0 <= start < CLUSTER_COUNT
      ensures fat[..] == Freed(old(fat[..]), [cs[k][1]])
    {
      ghost var f, c := fat[..], cs[k];
      assert IsChain(f, c) && fat[c[0]] == c[1];
      var second := fat[start];
      ChainNotFree(f, c, second);
      FreeCountUpdate(f, CLUSTER_COUNT, second, FREE_CLUSTER);
      fat[second] := FREE_CLUSTER;
      assert fat[..] == f[second := FREE_CLUSTER];
      assert fat[..] == Freed(f, [second]);
      assert c[1..][0] == second;
      CutChain(f, fat[..], cs, k, 1);
      assert c[..1] == [start];
    }

    /** What the loop of cp() keeps: q clusters are copied, the last of p is the one to fill next. */
    ghost predicate CopyLoopInv(d0: seq<byte>, c: seq<int>, k: nat, p: seq<int>, q: nat, last: int, n: nat)
      reads this, fat, data
    {
      && Memory() && fault == NoFault && k < |cs| - 1 && n == |recs|
      && |RootOf(cs)| >= 2 && last == RootOf(cs)[|RootOf(cs)| - 2]
      && FatOpen(fat[..], cs, k, p) && |p| == q + 1 && q < |c|
      && Copying(d0, data[..], c, p, q) && RootImage(data[..], DataClusters(RootOf(cs)), recs)
    }

    /** The loop of cp(). It stops before it fills a cluster that the directory's last copy has reached. */
    method CopyLoop(srcStart: int, desStart: int, ghost i: nat, ghost k: nat, last: int, n: nat, ghost d0: seq<byte>)
      returns (curr: int, ghost p: seq<int>)
      requires i < |cs| - 1 && i != k && |cs[i]| >= 2 && srcStart == cs[i][0]
      requires CopyLoopInv(d0, cs[i], k, [desStart], 0, last, n)
      modifies this`fault, fat, data
      ensures fault == DirectoryHit <==> FillsSpill(old(fat[..]), desStart, |cs[i]| - 1, old(Free()), last, n)
      ensures fault == NoFault || fault == DirectoryHit || fault == SentinelLink
      ensures fault == SentinelLink ==> old(Free()) < |cs[i]|
      ensures fault == NoFault ==>
        CopyLoopInv(d0, cs[i], k, p, |cs[i]| - 1, last, n) && curr == p[|p| - 1] && p[0] == desStart
      ensures fault == NoFault ==> old(Free()) >= |cs[i]| && Free() == old(Free()) - (|cs[i]| - 1)
      ensures fault == NoFault ==> Taken(old(fat[..]), fat[..], p)
    {
      hide FatOpen, Copying, RootImage, InSpill, Taken, NthFilled;
      ghost var c, f0 := cs[i], fat[..];
      ghost var q := 0;
      TakenStart(f0, desStart);
      OpenEnd(f0, cs, k, [desStart]);
      var src := srcStart;
      curr, p := desStart, [desStart];
      OtherChain(fat[..], cs, k, p, i, 0);
      while fat[src] != EOF_CLUSTER
        invariant fault == NoFault && Memory() && cs[i] == c && cs == old(cs) && recs == old(recs)
        invariant CopyLoopInv(d0, c, k, p, q, last, n)
        invariant p[0] == desStart && curr == p[q] && src == c[q] && 0 <= src < CLUSTER_COUNT
        invariant fat[src] == EOF_CLUSTER <==> q == |c| - 1
        invariant Free() == old(Free()) - q && (q > 0 ==> Free() >= 1)
        invariant Taken(f0, fat[..], p) && forall r: nat :: r < q ==> !InSpill(last, n, NthFilled(f0, desStart, r))
        decreases |c| - q
      {
        OtherChain(fat[..], cs, k, p, i, q);
        FilledIs(f0, fat[..], p, q);
        if InSpill(last, n, curr) {
          fault := DirectoryHit;
          return;
        }
        var ok := ExistsNFreeClusters(2);
        if !ok {
          fault := SentinelLink;
          return;
        }
        ghost var f, p0 := fat[..], p;
        curr, p := CopyCluster(src, curr, i, k, p, q, last, n, d0);
        TakenNext(f0, f, fat[..], p0, curr);
        OtherChain(fat[..], cs, k, p, i, q);
        src := fat[src];
        q := q + 1;
        OtherChain(fat[..], cs, k, p, i, q);
      }
    }

    /** One cluster is copied and the next one is linked. */
    method CopyCluster(src: int, prev: int, ghost i: nat, ghost k: nat, ghost p: seq<int>, ghost q: nat,
                       ghost last: int, ghost n: nat, ghost d0: seq<byte>)
      returns (curr: int, ghost p': seq<int>)
      requires i < |cs| - 1 && i != k && q + 1 < |cs[i]| && src == cs[i][q] && 0 <= src < CLUSTER_COUNT
      requires CopyLoopInv(d0, cs[i], k, p, q, last, n) && prev == p[q] && !InSpill(last, n, prev) && Free() >= 2
      modifies fat, data
      ensures CopyLoopInv(d0, cs[i], k, p', q + 1, last, n) && p' == p + [curr]
      ensures Free() == old(Free()) - 1
      ensures OneTaken(old(fat[..]), fat[..], curr)
    {
      hide RootImage, InSpill, FatOpen, Copying;
      ghost var c := cs[i];
      OpenEnd(fat[..], cs, k, p);
      OtherChain(fat[..], cs, k, p, i, q);
      OpenFacts(fat[..], cs, k, p, q);
      RootApart(fat[..], cs, k, p, q);
      assert c[q] in c;
      var cluster := data[..][CLUSTER_SIZE * src..CLUSTER_SIZE * src + CLUSTER_SIZE];
      CopyImage(data[..], DataClusters(RootOf(cs)), recs, prev, cluster);
      ghost var d := data[..];
      Memcpy(CLUSTER_SIZE * prev, cluster);
      assert fat[..] == old(fat[..]);
      curr := LinkNext(prev, k, p);
      CopyStep(d0, d, c, p, q, curr);
      p' := p + [curr];
    }
  }
}
