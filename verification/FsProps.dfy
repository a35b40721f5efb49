/** What the operations of the file system are for, proved of the functions in
    FsSpec: when append and write do what they promise, what cp copies, and
    where every cluster goes. */
module FsProps {
  import opened Bytes
  import opened FsLayout
  import opened FsSpec

  // ---------- append ----------

  /** There are clusters for an append of `len` bytes, with one to spare. */
  predicate HasRoom(d: Disk, f: File, len: nat) {
    NewClusters(f.size, len) == 0 || d.free > NewClusters(f.size, len)
  }

  /** append_data appends exactly when the last data cluster has room (or there is nothing to append). */
  lemma AppendIsConcatenation(d: Disk, i: nat, buf: seq<byte>)
    requires DiskOk(d) && i < |d.files| && Sound(d.files[i]) && HasRoom(d, d.files[i], |buf|)
    ensures var f, o := d.files[i], Append(d, i, buf);
      && o.Done? && |o.disk.files| == |d.files|
      && (Sound(o.disk.files[i]) && o.disk.files[i].bytes == f.bytes + buf <==> Roomy(f) || buf == [])
      && (forall k :: 0 <= k < |d.files| && k != i ==> o.disk.files[k] == d.files[k])
  {
    hide Resave;
    var f := d.files[i];
    AppendOutcome(d, i, buf);
    FileOkAfterAppend(f, buf);
    ResaveSameLength(Disk(d.files[i := Appended(f, buf)], d.free - NewClusters(f.size, |buf|)), 0);
  }

  /** Room for the next append is left exactly when the new size is not a multiple of the cluster size. */
  lemma RoomAfterAppend(f: File, buf: seq<byte>)
    requires FileOk(f) && Roomy(f)
    ensures Roomy(Appended(f, buf)) <==> buf == [] || (f.size + |buf|) % CLUSTER_SIZE != 0
  {
    var head, added := HeadBytes(f.size, |buf|), NewClusters(f.size, |buf|);
    assert CLUSTER_SIZE * added >= |buf| - head && (added == 0 || CLUSTER_SIZE * (added - 1) < |buf| - head);
  }

  /** Without enough clusters nothing that was stored changes, provided the last cluster had room;
      if it was full, its 64 bytes are overwritten by the head of the buffer. */
  lemma AppendWithoutSpace(d: Disk, i: nat, buf: seq<byte>)
    requires DiskOk(d) && i < |d.files| && Sound(d.files[i])
    requires NewClusters(d.files[i].size, |buf|) > d.free
    ensures var f, o := d.files[i], Append(d, i, buf);
      && o.Done? && (Roomy(f) ==> o.disk == d)
      && (!Roomy(f) ==>
            && |f.bytes| >= CLUSTER_SIZE && |buf| >= CLUSTER_SIZE
            && o.disk.files[i].bytes == f.bytes[..|f.bytes| - CLUSTER_SIZE] + buf[..CLUSTER_SIZE])
  {
    AppendOutcome(d, i, buf);
  }

  // ---------- write ----------

  /** The cut file and what its two appends need. */
  lemma InsertSpace(f: File, len: nat, offset: nat)
    requires FileOk(f) && offset < f.size && InsertLegal(f)
    requires f.size % CLUSTER_SIZE != 0 && (len == 0 || (offset + len) % CLUSTER_SIZE != 0)
    ensures TailLength(f, offset) == f.size - offset
    ensures var a := NewClusters(offset, len);
      var b := NewClusters(offset + len, f.size - offset);
      && a + b < ClustersNeeded(f.size + len)
      && offset / CLUSTER_SIZE + 1 + a == (offset + len) / CLUSTER_SIZE + 1
      && offset / CLUSTER_SIZE + 1 + a + b >= (f.size + len) / CLUSTER_SIZE
      && offset / CLUSTER_SIZE + 1 + a + b <= (f.size + len) / CLUSTER_SIZE + 1
  {
    var a := NewClusters(offset, len);
    ClustersAfter(offset, len);
    ClustersAfter(offset + len, f.size - offset);
  }

  /** Data clusters of a file with room, after `len` more bytes. */
  lemma ClustersAfter(size: nat, len: nat)
    ensures var n := size / CLUSTER_SIZE + 1 + NewClusters(size, len);
      if len == 0 || (size + len) % CLUSTER_SIZE != 0 then n == (size + len) / CLUSTER_SIZE + 1
      else n == (size + len) / CLUSTER_SIZE
  {
    var head, added := HeadBytes(size, len), NewClusters(size, len);
    assert CLUSTER_SIZE * added >= len - head && (added == 0 || CLUSTER_SIZE * (added - 1) < len - head);
  }

  /** When its space check passes, write() below the end of a file inserts the buffer exactly when the
      old size is not a multiple of 64 and the inserted bytes do not end on a cluster boundary. */
  lemma WriteIsInsertion(d: Disk, i: nat, buf: seq<byte>, offset: nat)
    requires DiskOk(d) && i < |d.files| && offset < d.files[i].size && InsertLegal(d.files[i])
    requires d.free >= ClustersNeeded(d.files[i].size + |buf|)
    ensures var f, o := d.files[i], Insert(d, i, buf, offset);
      Inserted(f, o, i, buf, offset)
      <==> f.size % CLUSTER_SIZE != 0 && (buf == [] || (offset + |buf|) % CLUSTER_SIZE != 0)
  {
    var f := d.files[i];
    if f.size % CLUSTER_SIZE != 0 && (buf == [] || (offset + |buf|) % CLUSTER_SIZE != 0) {
      InsertionSucceeds(d, i, buf, offset);
    } else {
      InsertionFails(d, i, buf, offset);
    }
  }

  /** The outcome holds file i with buf inserted at `offset`. */
  ghost predicate Inserted(f: File, o: Outcome, i: nat, buf: seq<byte>, offset: nat) {
    && o.Done? && i < |o.disk.files| && |f.bytes| == f.size && offset <= f.size
    && Sound(o.disk.files[i]) && o.disk.files[i].bytes == f.bytes[..offset] + buf + f.bytes[offset..]
    && o.disk.files[i].size == f.size + |buf|
  }

  lemma RoomyCut(f: File, offset: nat)
    requires offset <= |f.bytes|
    ensures Roomy(CutFile(f, offset))
  {
  }

  /** The good case, with the clusters it takes and the one it loses. */
  lemma InsertionSucceeds(d: Disk, i: nat, buf: seq<byte>, offset: nat)
    requires DiskOk(d) && i < |d.files| && offset < d.files[i].size && InsertLegal(d.files[i])
    requires d.free >= ClustersNeeded(d.files[i].size + |buf|)
    requires d.files[i].size % CLUSTER_SIZE != 0 && (buf == [] || (offset + |buf|) % CLUSTER_SIZE != 0)
    ensures var f, o := d.files[i], Insert(d, i, buf, offset);
      && Inserted(f, o, i, buf, offset) && o.code == 0
      && var added := NewClusters(offset, |buf|) + NewClusters(offset + |buf|, f.size - offset);
      && o.disk.files[i].clusters == offset / CLUSTER_SIZE + 1 + added
      && o.disk.free == d.free + CutReleases(f, offset) - added
      && o.disk.files == d.files[i := o.disk.files[i]]
      && o.disk.files[i].name == f.name && o.disk.files[i].open == f.open && o.disk.files[i].system == f.system
  {
    hide Append, Appended, Resave, FileOk, ClustersNeeded, NewClusters, HeadBytes, CutReleases, Insert, InsertLegal,
      TailLength, Roomy;
    var f := d.files[i];
    InsertSpace(f, |buf|, offset);
    InsertOutcome(d, i, buf, offset);
    CutFileOk(f, offset);
    RoomyCut(f, offset);
    var g := CutFile(f, offset);
    var cut := Disk(d.files[i := g], d.free + CutReleases(f, offset));
    AppendSucceeds(cut, i, buf);
    var mid := Append(cut, i, buf).disk;
    RoomAfterAppend(g, buf);
    AppendSucceeds(mid, i, TailSeen(f, offset));
    assert TailSeen(f, offset) == f.bytes[offset..];
    FileOkAfterAppend(mid.files[i], f.bytes[offset..]);
  }

  /** An append to a file with room, when there are clusters. */
  lemma AppendSucceeds(d: Disk, i: nat, buf: seq<byte>)
    requires i < |d.files| && FileOk(d.files[i]) && Roomy(d.files[i]) && d.free > NewClusters(d.files[i].size, |buf|)
    ensures var f := d.files[i];
      && Append(d, i, buf) == Done(Disk(d.files[i := Appended(f, buf)], d.free - NewClusters(f.size, |buf|)), 0)
      && FileOk(Appended(f, buf)) && Sound(Appended(f, buf)) && Appended(f, buf).bytes == f.bytes + buf
      && Appended(f, buf).size == f.size + |buf| && Appended(f, buf).clusters == f.clusters + NewClusters(f.size, |buf|)
      && Appended(f, buf).name == f.name && Appended(f, buf).open == f.open && Appended(f, buf).system == f.system
  {
    var f := d.files[i];
    AppendOutcome(d, i, buf);
    FileOkAfterAppend(f, buf);
    ResaveSameLength(Disk(d.files[i := Appended(f, buf)], d.free - NewClusters(f.size, |buf|)), 0);
    assert NewClusters(f.size, 0) == 0;
  }

  /** How the size of file i can come out of an append. */
  lemma AppendSizes(d: Disk, i: nat, buf: seq<byte>)
    requires i < |d.files| && FileOk(d.files[i])
    ensures var f, o := d.files[i], Append(d, i, buf);
      o.Done? ==>
        && |o.disk.files| == |d.files|
        && (o.disk.files[i].size == f.size || o.disk.files[i] == Appended(f, buf))
        && f.size <= o.disk.files[i].size <= f.size + |buf|
  {
    AppendOutcome(d, i, buf);
  }

  /** The bad cases: the file comes out too short, or claims more bytes than it has clusters for. */
  lemma InsertionFails(d: Disk, i: nat, buf: seq<byte>, offset: nat)
    requires DiskOk(d) && i < |d.files| && offset < d.files[i].size && InsertLegal(d.files[i])
    requires d.free >= ClustersNeeded(d.files[i].size + |buf|)
    requires d.files[i].size % CLUSTER_SIZE == 0 || (buf != [] && (offset + |buf|) % CLUSTER_SIZE == 0)
    ensures !Inserted(d.files[i], Insert(d, i, buf, offset), i, buf, offset)
  {
    hide Append, Resave, FileOk, ClustersNeeded, NewClusters, HeadBytes;
    var f := d.files[i];
    InsertOutcome(d, i, buf, offset);
    CutFileOk(f, offset);
    var cut := Disk(d.files[i := CutFile(f, offset)], d.free + CutReleases(f, offset));
    InsertNeeds(f, |buf|, offset);
    CutOk(d, i, offset);
    AppendSpent(cut, i, buf);
    AppendSizes(cut, i, buf);
    var mid, tail := Append(cut, i, buf).disk, TailSeen(f, offset);
    AppendSizes(mid, i, tail);
    if f.size % CLUSTER_SIZE != 0 {
      RoomAfterAppend(CutFile(f, offset), buf);
      FileOkAfterAppend(mid.files[i], tail);
    }
  }

  lemma CutOk(d: Disk, i: nat, offset: nat)
    requires DiskOk(d) && i < |d.files| && offset < d.files[i].size && InsertLegal(d.files[i])
    ensures |d.files[i].bytes| == d.files[i].size
    ensures DiskOk(Disk(d.files[i := CutFile(d.files[i], offset)], d.free + CutReleases(d.files[i], offset)))
  {
    CutFileOk(d.files[i], offset);
    var fs := d.files[i := CutFile(d.files[i], offset)];
    assert forall k :: 0 <= k < |fs| ==> fs[k].name == d.files[k].name;
  }

  /** In the last cluster of a file that fills it the tail is lost, and success is reported. If the buffer
      ends on a cluster boundary the last 64 bytes are lost, too: the tail and zeros are written over them. */
  lemma TailLost(d: Disk, i: nat, buf: seq<byte>, offset: nat)
    requires DiskOk(d) && i < |d.files| && offset < d.files[i].size && InsertLegal(d.files[i])
    requires TailLength(d.files[i], offset) < 0 && ClustersNeeded(d.files[i].size + |buf|) <= d.free <= CLUSTER_COUNT
    ensures var f, o := d.files[i], Insert(d, i, buf, offset);
      && |f.bytes| == f.size && o.Done? && o.code == 0 && o.disk.files == d.files[i := o.disk.files[i]]
      && o.disk.files[i].size == offset + |buf|
      && var kept := f.bytes[..offset] + buf;
      o.disk.files[i].bytes ==
        if buf == [] || |kept| % CLUSTER_SIZE != 0 then kept
        else kept[..|kept| - CLUSTER_SIZE] + f.bytes[offset..] + Zeros(CLUSTER_SIZE - (f.size - offset))
  {
    hide Append, Appended, Resave, FileOk, ClustersNeeded, NewClusters, HeadBytes, Insert, Roomy, TailSeen, TailLength;
    var f := d.files[i];
    CutOk(d, i, offset);
    var tail := TailSeen(f, offset);
    WrappedTail(f, offset);
    InsertOutcome(d, i, buf, offset);
    WrappedReleases(f, offset);
    InsertNeeds(f, |buf|, offset);
    CutFileOk(f, offset);
    RoomyCut(f, offset);
    var cut := Disk(d.files[i := CutFile(f, offset)], d.free);
    AppendSucceeds(cut, i, buf);
    RoomAfterAppend(CutFile(f, offset), buf);
    var mid := Append(cut, i, buf).disk;
    WrappedNeeds(offset + |buf|, |tail|);
    AppendOutcome(mid, i, tail);
    OverrunIs(mid.files[i], tail);
  }

  /** What append_data gets to see of such a tail. */
  lemma WrappedTail(f: File, offset: nat)
    requires |f.bytes| == f.size && offset < f.size && InsertLegal(f) && TailLength(f, offset) < 0
    ensures f.size - offset <= CLUSTER_SIZE && |TailSeen(f, offset)| >= 0x1_0000_0000 - CLUSTER_SIZE
    ensures TailSeen(f, offset)[..CLUSTER_SIZE] == f.bytes[offset..] + Zeros(CLUSTER_SIZE - (f.size - offset))
  {
  }

  lemma OverrunIs(f: File, buf: seq<byte>)
    requires FileOk(f) && Sound(f) && |buf| >= CLUSTER_SIZE
    ensures var g := Overrun(f, buf);
      && g.size == f.size && g.name == f.name
      && g.bytes == if Roomy(f) then f.bytes else f.bytes[..|f.bytes| - CLUSTER_SIZE] + buf[..CLUSTER_SIZE]
    ensures !Roomy(f) ==> |f.bytes| >= CLUSTER_SIZE
  {
  }

  // ---------- cluster accounting ----------

  /** Clusters in the chains of the files, EOF clusters included. */
  function Held(files: seq<File>): nat {
    if files == [] then 0 else Held(files[..|files| - 1]) + files[|files| - 1].clusters + 1
  }

  /** Clusters that are free or in some chain. */
  function Total(d: Disk): nat {
    d.free + RootClusters(|d.files|) + Held(d.files)
  }

  lemma {:induction false} HeldUpdate(files: seq<File>, i: nat, f: File)
    requires i < |files|
    ensures Held(files[i := f]) == Held(files) - files[i].clusters + f.clusters
  {
    var n := |files| - 1;
    if i < n {
      assert files[i := f][..n] == files[..n][i := f];
      HeldUpdate(files[..n], i, f);
    } else {
      assert files[i := f][..n] == files[..n];
    }
  }

  lemma {:induction false} HeldRemove(files: seq<File>, i: nat)
    requires i < |files|
    ensures Held(files[..i] + files[i + 1..]) == Held(files) - files[i].clusters - 1
  {
    var n := |files| - 1;
    var rest := files[..i] + files[i + 1..];
    if i < n {
      assert rest[..n - 1] == files[..n][..i] + files[..n][i + 1..];
      HeldRemove(files[..n], i);
    } else {
      assert rest == files[..n];
    }
  }

  lemma HeldSnoc(files: seq<File>, f: File)
    ensures Held(files + [f]) == Held(files) + f.clusters + 1
  {
    assert (files + [f])[..|files|] == files;
  }

  /** touch, rm and the flag operations lose no cluster. */
  lemma TouchConserves(d: Disk, name: Name)
    requires Touch(d, name).Done?
    ensures Total(Touch(d, name).disk) == Total(d)
  {
    if Find(d.files, name) == |d.files| {
      TouchOutcome(d, name);
      HeldSnoc(d.files, File(name, 0, 1, [], false, false));
    }
  }

  lemma DeleteConserves(d: Disk, i: nat)
    requires i < |d.files| && Delete(d, i).Done?
    ensures Total(Delete(d, i).disk) == Total(d)
  {
    HeldRemove(d.files, i);
  }

  lemma FlagsConserve(d: Disk, name: Name)
    requires Find(d.files, name) < |d.files|
    ensures SetAsSystemFile(d, name).Done? ==> Total(SetAsSystemFile(d, name).disk) == Total(d)
    ensures OpenFile(d, name).Done? ==> Total(OpenFile(d, name).disk) == Total(d)
    ensures CloseFile(d, name).Done? ==> Total(CloseFile(d, name).disk) == Total(d)
  {
    var i := Find(d.files, name);
    var f := d.files[i];
    HeldUpdate(d.files, i, f.(system := true));
    HeldUpdate(d.files, i, f.(open := true));
    HeldUpdate(d.files, i, f.(open := false));
  }

  /** So does append, whatever the shape of the file. */
  lemma AppendConserves(d: Disk, i: nat, buf: seq<byte>)
    requires i < |d.files| && FileOk(d.files[i]) && Append(d, i, buf).Done?
    ensures Total(Append(d, i, buf).disk) == Total(d)
  {
    var f := d.files[i];
    AppendOutcome(d, i, buf);
    HeldUpdate(d.files, i, Appended(f, buf));
    if NewClusters(f.size, |buf|) > d.free {
      HeldUpdate(d.files, i, Overrun(f, buf));
    }
    assert NewClusters(f.size, 0) == 0;
  }

  /** Clusters that write() below the end leaves in no chain and not free. */
  function Stranded(f: File, offset: nat): nat {
    if f.clusters >= offset / CLUSTER_SIZE + 2 then 1 else 0
  }

  /** An insertion strands the old EOF cluster exactly when the tail spans a further data cluster. */
  lemma InsertStrands(d: Disk, i: nat, buf: seq<byte>, offset: nat)
    requires DiskOk(d) && i < |d.files| && offset < d.files[i].size && InsertLegal(d.files[i])
    requires d.free >= ClustersNeeded(d.files[i].size + |buf|) && Insert(d, i, buf, offset).Done?
    ensures Total(Insert(d, i, buf, offset).disk) == Total(d) - Stranded(d.files[i], offset)
  {
    hide Append, Resave, FileOk, ClustersNeeded, NewClusters, HeadBytes;
    var f := d.files[i];
    InsertOutcome(d, i, buf, offset);
    CutFileOk(f, offset);
    var cut := Disk(d.files[i := CutFile(f, offset)], d.free + CutReleases(f, offset));
    HeldUpdate(d.files, i, CutFile(f, offset));
    assert f.clusters >= offset / CLUSTER_SIZE + 1 by { CutReleasesFacts(f, offset); }
    assert Total(cut) == Total(d) - Stranded(f, offset);
    AppendConserves(cut, i, buf);
    AppendConserves(Append(cut, i, buf).disk, i, TailSeen(f, offset));
  }

  lemma CutReleasesFacts(f: File, offset: nat)
    requires offset < f.size && InsertLegal(f)
    ensures f.clusters >= offset / CLUSTER_SIZE + 1
  {
  }

  lemma RmConserves(d: Disk, name: Name)
    requires Rm(d, name).Done?
    ensures Total(Rm(d, name).disk) == Total(d)
  {
    var i := Find(d.files, name);
    if i < |d.files| && !d.files[i].system {
      DeleteConserves(d, i);
    }
  }

  /** cp conserves clusters unless it overwrites a system file, all of whose data clusters but one it loses. */
  lemma CpConserves(d: Disk, src: Name, des: Name)
    requires DiskOk(d) && CpLegal(d, src, des) && Cp(d, src, des).Done?
    ensures var k, o := Find(d.files, des), Cp(d, src, des);
      Total(o.disk)
      == Total(d) - if o.code == 0 && k < |d.files| && d.files[k].system then d.files[k].clusters - 1 else 0
  {
    var i, k := Find(d.files, src), Find(d.files, des);
    CpSteps(d, src, des);
    if src != des && i < |d.files| {
      CpTargetSteps(d, des);
      var d1 := if k < |d.files| then Rm(d, des).disk else d;
      if k < |d.files| { RmConserves(d, des); }
      TouchConserves(d1, des);
      var d2 := CpTarget(d, des).disk;
      if d2.free >= ClustersNeeded(d.files[i].size) {
        var m := Find(d2.files, des);
        var f := d.files[i];
        HeldUpdate(d2.files, m, d2.files[m].(size := f.size, clusters := f.clusters, bytes := f.bytes));
        CpTargetClusters(d, des);
      }
    }
  }

  /** The destination is a new, empty file of one cluster at the end of the directory, or the system
      file that rm refused, or (without room for a file) missing. */
  lemma CpTargetClusters(d: Disk, des: Name)
    requires DiskOk(d) && CpTarget(d, des).Done?
    ensures var k, d2 := Find(d.files, des), CpTarget(d, des).disk;
      var m := Find(d2.files, des);
      m < |d2.files| ==>
        d2.files[m] == if k < |d.files| && d.files[k].system then d.files[k] else File(des, 0, 1, [], false, false)
  {
    var k := Find(d.files, des);
    CpTargetSteps(d, des);
    if k < |d.files| && !d.files[k].system {
      FindGone(d.files, k);
      TouchFinds(Rm(d, des).disk, des);
    } else if k == |d.files| {
      TouchFinds(d, des);
    }
  }

  lemma FindGone(files: seq<File>, k: nat)
    requires k < |files| && forall i, j :: 0 <= i < j < |files| ==> files[i].name != files[j].name
    ensures var rest := files[..k] + files[k + 1..]; Find(rest, files[k].name) == |rest|
  {
    var rest := files[..k] + files[k + 1..];
    assert forall m :: 0 <= m < |rest| ==> rest[m] == files[if m < k then m else m + 1];
  }

  /** rm() of a file that is there: a system file stays, any other is gone. */
  lemma RmGone(d: Disk, name: Name)
    requires DiskOk(d) && Find(d.files, name) < |d.files|
    ensures var o := Rm(d, name);
      && o.Done?
      && if d.files[Find(d.files, name)].system then o.disk == d
         else |o.disk.files| == |d.files| - 1 && Find(o.disk.files, name) == |o.disk.files|
  {
    var k := Find(d.files, name);
    DeleteHalts(d, k);
    FindGone(d.files, k);
  }

  /** A name that was not taken: touch puts the new file at the end, if there is room for it. */
  lemma TouchFinds(d: Disk, name: Name)
    requires Find(d.files, name) == |d.files| && Touch(d, name).Done?
    ensures var d', f := Touch(d, name).disk, File(name, 0, 1, [], false, false);
      var m := Find(d'.files, name);
      if d.free > 2 then d'.files == d.files + [f] && m == |d.files| else d'.files == d.files && m == |d'.files|
  {
    TouchOutcome(d, name);
    var fs := d.files + [File(name, 0, 1, [], false, false)];
    assert forall i :: 0 <= i < |d.files| ==> fs[i].name == d.files[i].name;
    assert fs[|d.files|].name == name && Find(fs, name) == |d.files|;
  }

  // ---------- the panic is unreachable ----------

  /** The kernel's own guards suffice: no operation runs out of clusters in get_free_cluster or in
      save_root_folder. What can happen is that the last free cluster is 0xFFE, exactly in these cases. */
  lemma TouchHalts(d: Disk, name: Name)
    requires DiskOk(d)
    ensures var n := |d.files|;
      Touch(d, name).Halted? <==>
        Find(d.files, name) == n && (d.free == 2 || (d.free == 3 && RootClusters(n + 1) > RootClusters(n)))
    ensures Touch(d, name).Halted? ==> Touch(d, name).fault == SentinelLink
  {
    RootClustersFacts(|d.files|);
    if Find(d.files, name) == |d.files| {
      TouchOutcome(d, name);
    }
  }

  lemma AppendHalts(d: Disk, i: nat, buf: seq<byte>)
    requires DiskOk(d) && i < |d.files|
    ensures Append(d, i, buf).Halted? <==> d.free == NewClusters(d.files[i].size, |buf|)
    ensures Append(d, i, buf).Halted? ==> Append(d, i, buf).fault == SentinelLink
  {
    AppendOutcome(d, i, buf);
    if d.free > NewClusters(d.files[i].size, |buf|) {
      ResaveSameLength(Disk(d.files[i := Appended(d.files[i], buf)], d.free - NewClusters(d.files[i].size, |buf|)), 0);
    }
  }

  lemma DeleteHalts(d: Disk, i: nat)
    requires DiskOk(d) && i < |d.files|
    ensures Delete(d, i).Done?
  {
    RootClustersFacts(|d.files| - 1);
  }

  /** cp stops on the last cluster while its destination is put in place, or because the source has a
      spare cluster that was not counted when cp looked for room. */
  lemma CpHalts(d: Disk, src: Name, des: Name)
    requires DiskOk(d) && CpLegal(d, src, des)
    ensures var i, made, o := Find(d.files, src), CpTarget(d, des), Cp(d, src, des);
      && (o.Halted? <==>
            src != des && i < |d.files|
            && (made.Halted? || (Roomy(d.files[i]) && d.files[i].size == CLUSTER_SIZE * made.disk.free)))
      && (o.Halted? ==> o.fault == SentinelLink)
  {
    var i, k := Find(d.files, src), Find(d.files, des);
    CpSteps(d, src, des);
    CpTargetSteps(d, des);
    if k < |d.files| && !d.files[k].system {
      DeleteHalts(d, k);
      DeleteOk(d, k);
      TouchHalts(Rm(d, des).disk, des);
    } else {
      TouchHalts(d, des);
    }
    assert i < |d.files| ==> FileOk(d.files[i]);
  }

  /** The two appends of an insertion together take fewer clusters than its guard has counted, unless the
      length of the tail has wrapped. */
  lemma InsertNeeds(f: File, len: nat, offset: nat)
    requires offset < f.size && InsertLegal(f)
    ensures NewClusters(offset, len) < ClustersNeeded(f.size + len)
    ensures TailLength(f, offset) >= 0 ==>
      NewClusters(offset, len) + NewClusters(offset + len, TailLength(f, offset)) < ClustersNeeded(f.size + len)
  {
    hide NewClusters;
    var tail := if TailLength(f, offset) >= 0 then TailLength(f, offset) else 0;
    assert tail <= f.size - offset;
    NewClustersBound(offset, len);
    NewClustersBound(offset + len, tail);
    FewerThanNeeded(f.size, offset, len, tail, NewClusters(offset, len), NewClusters(offset + len, tail));
  }

  lemma FewerThanNeeded(size: nat, offset: nat, len: nat, tail: nat, m: nat, n: nat)
    requires offset < size && tail <= size - offset && (len == 0 ==> m == 0) && (tail == 0 ==> n == 0)
    requires len > 0 ==> m < (offset + len + CLUSTER_SIZE - 1) / CLUSTER_SIZE - offset / CLUSTER_SIZE
    requires tail > 0 ==>
      n < (offset + len + tail + CLUSTER_SIZE - 1) / CLUSTER_SIZE - (offset + len) / CLUSTER_SIZE
    ensures m + n < ClustersNeeded(size + len)
  {
    var a, b := (offset + len) / CLUSTER_SIZE, (offset + len + tail + CLUSTER_SIZE - 1) / CLUSTER_SIZE;
    assert (offset + len + CLUSTER_SIZE - 1) / CLUSTER_SIZE <= a + 1;
    assert a <= b <= (size + len + CLUSTER_SIZE - 1) / CLUSTER_SIZE <= ClustersNeeded(size + len);
  }

  /** Clusters that an append adds, in terms of the clusters that the sizes fill. */
  lemma NewClustersBound(size: nat, len: nat)
    ensures NewClusters(size, len) <= (size + len + CLUSTER_SIZE - 1) / CLUSTER_SIZE - size / CLUSTER_SIZE
    ensures len > 0 ==> NewClusters(size, len) < (size + len + CLUSTER_SIZE - 1) / CLUSTER_SIZE - size / CLUSTER_SIZE
    ensures len == 0 ==> NewClusters(size, len) == 0
  {
  }

  /** No disk has room for a tail whose length has wrapped. */
  lemma WrappedNeeds(size: nat, len: nat)
    requires len >= 0x1_0000_0000 - CLUSTER_SIZE
    ensures NewClusters(size, len) > CLUSTER_COUNT
  {
  }

  /** An insertion never stops on the last cluster: its guard counts more clusters than it takes, and for a
      tail whose length has wrapped there is no room on any disk. */
  lemma InsertHalts(d: Disk, i: nat, buf: seq<byte>, offset: nat)
    requires DiskOk(d) && i < |d.files| && offset < d.files[i].size && InsertLegal(d.files[i])
    requires d.free <= CLUSTER_COUNT
    ensures Insert(d, i, buf, offset).Done? && DiskOk(Insert(d, i, buf, offset).disk)
  {
    hide Append, CutFile, TailLength, ClustersNeeded, CutReleases, NewClusters, FileOk;
    var f := d.files[i];
    CutFileOk(f, offset);
    var cut := Disk(d.files[i := CutFile(f, offset)], d.free + CutReleases(f, offset));
    InsertOutcome(d, i, buf, offset);
    InsertNeeds(f, |buf|, offset);
    CutFileFacts(f, offset);
    AppendHalts(cut, i, buf);
    AppendOk(cut, i, buf);
    if d.free >= ClustersNeeded(f.size + |buf|) {
      var mid, tail := Append(cut, i, buf).disk, TailSeen(f, offset);
      AppendSpent(cut, i, buf);
      if TailLength(f, offset) < 0 {
        WrappedNeeds(mid.files[i].size, |tail|);
        WrappedReleases(f, offset);
      }
      AppendHalts(mid, i, tail);
      AppendOk(mid, i, tail);
    }
  }

  lemma WrappedReleases(f: File, offset: nat)
    requires InsertLegal(f) && offset < f.size && TailLength(f, offset) < 0
    ensures f.size % CLUSTER_SIZE == 0 && offset / CLUSTER_SIZE == f.clusters - 1 && CutReleases(f, offset) == 0
  {
  }

  /** Whatever an insertion does, the disk is in order after it. */
  lemma InsertOk(d: Disk, i: nat, buf: seq<byte>, offset: nat)
    requires DiskOk(d) && i < |d.files| && offset < d.files[i].size && InsertLegal(d.files[i])
    ensures match Insert(d, i, buf, offset)
            case Done(d', _) => DiskOk(d')
            case Halted(e) => e == SentinelLink
  {
    hide Append, CutFile, TailLength, ClustersNeeded, CutReleases, NewClusters, FileOk;
    var f := d.files[i];
    CutOk(d, i, offset);
    var cut := Disk(d.files[i := CutFile(f, offset)], d.free + CutReleases(f, offset));
    InsertOutcome(d, i, buf, offset);
    AppendHalts(cut, i, buf);
    AppendOk(cut, i, buf);
    if d.free >= ClustersNeeded(f.size + |buf|) && Append(cut, i, buf).Done? {
      var mid, tail := Append(cut, i, buf).disk, TailSeen(f, offset);
      AppendHalts(mid, i, tail);
      AppendOk(mid, i, tail);
    }
  }

  /** What an append leaves when there are clusters enough. */
  lemma AppendSpent(d: Disk, i: nat, buf: seq<byte>)
    requires DiskOk(d) && i < |d.files| && d.free > NewClusters(d.files[i].size, |buf|)
    ensures var f, o := d.files[i], Append(d, i, buf);
      && o.Done? && |o.disk.files| == |d.files| && o.disk.free == d.free - NewClusters(f.size, |buf|)
      && o.disk.files[i].size == f.size + |buf|
  {
    var f := d.files[i];
    AppendOutcome(d, i, buf);
    ResaveSameLength(Disk(d.files[i := Appended(f, buf)], d.free - NewClusters(f.size, |buf|)), 0);
  }

  lemma AppendOk(d: Disk, i: nat, buf: seq<byte>)
    requires DiskOk(d) && i < |d.files|
    ensures var o := Append(d, i, buf); o.Done? ==> DiskOk(o.disk)
  {
    hide Resave;
    var f := d.files[i];
    AppendOutcome(d, i, buf);
    FileOkAfterAppend(f, buf);
    if d.free > NewClusters(f.size, |buf|) {
      ResaveSameLength(Disk(d.files[i := Appended(f, buf)], d.free - NewClusters(f.size, |buf|)), 0);
    }
  }

  lemma DeleteOk(d: Disk, i: nat)
    requires DiskOk(d) && i < |d.files|
    ensures Delete(d, i).Done? ==> DiskOk(Delete(d, i).disk)
  {
    var fs := d.files[..i] + d.files[i + 1..];
    assert forall k :: 0 <= k < |fs| ==> fs[k] == d.files[if k < i then k else k + 1];
  }

  // ---------- copy ----------

  ghost predicate SameBut(fs: seq<File>, fs': seq<File>, except: Name) {
    && (forall i :: 0 <= i < |fs| && fs[i].name != except ==> fs[i] in fs')
    && (forall i :: 0 <= i < |fs'| && fs'[i].name != except ==> fs'[i] in fs)
  }

  /** A successful cp leaves a destination with the size, the contents and as many clusters as the
      source, and no other file, the source included, has changed, come or gone. */
  lemma CpCopies(d: Disk, src: Name, des: Name)
    requires DiskOk(d) && CpLegal(d, src, des)
    requires Cp(d, src, des).Done? && Cp(d, src, des).code == 0
    ensures var d', f := Cp(d, src, des).disk, d.files[Find(d.files, src)];
      var k := Find(d'.files, des);
      && Find(d.files, src) < |d.files|
      && k < |d'.files| && d'.files[k].bytes == f.bytes && d'.files[k].size == f.size
      && d'.files[k].clusters == f.clusters
      && SameBut(d.files, d'.files, des)
  {
    var i := Find(d.files, src);
    CpSteps(d, src, des);
    var d2, d' := CpTarget(d, des).disk, Cp(d, src, des).disk;
    var m := Find(d2.files, des);
    FindSame(d2.files, m, d'.files[m], des);
    CpTargetSameBut(d, des);
    assert forall j :: 0 <= j < |d2.files| ==> d'.files[j] == if j == m then d'.files[m] else d2.files[j];
    assert d2.files[m].name == des;
    forall j | 0 <= j < |d.files| && d.files[j].name != des ensures d.files[j] in d'.files {
      var q :| 0 <= q < |d2.files| && d2.files[q] == d.files[j];
      assert d'.files[q] == d.files[j];
    }
  }

  lemma CpTargetSameBut(d: Disk, des: Name)
    requires CpTarget(d, des).Done?
    ensures SameBut(d.files, CpTarget(d, des).disk.files, des)
  {
    hide Find;
    CpTargetSteps(d, des);
    var k := Find(d.files, des);
    var d1 := if k < |d.files| then Rm(d, des).disk else d;
    if k < |d.files| && !d.files[k].system {
      RemovedSameBut(d.files, k, des);
    }
    assert SameBut(d.files, d1.files, des);
    var d2 := Touch(d1, des).disk;
    if d2.files != d1.files {
      var f := File(des, 0, 1, [], false, false);
      assert d2.files == d1.files + [f];
    }
  }

  lemma RemovedSameBut(files: seq<File>, k: nat, name: Name)
    requires k < |files| && files[k].name == name
    ensures SameBut(files, files[..k] + files[k + 1..], name)
  {
    var fs := files[..k] + files[k + 1..];
    assert forall j :: 0 <= j < |fs| ==> fs[j] == files[if j < k then j else j + 1];
    forall j | 0 <= j < |files| && files[j].name != name ensures files[j] in fs {
      assert fs[if j < k then j else j - 1] == files[j];
    }
  }

  // ---------- where the promises fail ----------

  /** Without two free clusters touch creates nothing, and reports success. */
  lemma TouchWithoutSpace(d: Disk, name: Name)
    requires DiskOk(d) && d.free < 2 && Find(d.files, name) == |d.files|
    ensures Touch(d, name) == Done(d, 0)
  {
    TouchOutcome(d, name);
    ResaveSameLength(d, 0);
  }

  /** Two free clusters are enough for touch's guard, and the second one it takes is 0xFFE. */
  lemma TouchTakesTheLast(name: Name)
    requires |name| < FILE_NAME_LEN && 0 !in name
    ensures DiskOk(Disk([], 2)) && Touch(Disk([], 2), name) == Halted(SentinelLink)
  {
    TouchOutcome(Disk([], 2), name);
  }

  /** A full cluster: after one byte is appended to 64 the file claims 65 bytes and has one cluster. */
  lemma AppendToFullCluster(name: Name, b: byte)
    requires |name| < FILE_NAME_LEN && 0 !in name
    ensures var full := File(name, CLUSTER_SIZE, 1, Zeros(CLUSTER_SIZE), false, false);
      var o := Append(Disk([full], 100), 0, [b]);
      && DiskOk(Disk([full], 100)) && Sound(full) && !Roomy(full)
      && o.Done? && o.disk.files[0].size == 65 && o.disk.files[0].clusters == 1 && !Sound(o.disk.files[0])
  {
    var full := File(name, CLUSTER_SIZE, 1, Zeros(CLUSTER_SIZE), false, false);
    var d := Disk([full], 100);
    AppendOutcome(d, 0, [b]);
    ResaveSameLength(Disk([Appended(full, [b])], 100), 0);
    assert d.files[0 := Appended(full, [b])] == [Appended(full, [b])];
  }

  /** A file of two full clusters: a byte inserted in the middle costs the last 64 bytes. */
  lemma InsertIntoFullClusters(name: Name, b: byte)
    requires |name| < FILE_NAME_LEN && 0 !in name
    ensures var full := File(name, 128, 2, Zeros(128), false, false);
      var o := Insert(Disk([full], 100), 0, [b], 32);
      && o.Done? && o.disk.files[0].size == 65 && TailLength(full, 32) == 32
  {
    var full := File(name, 128, 2, Zeros(128), false, false);
    var d := Disk([full], 100);
    InsertOutcome(d, 0, [b], 32);
    var cut := Disk(d.files[0 := CutFile(full, 32)], d.free + CutReleases(full, 32));
    var tail := TailSeen(full, 32);
    AppendSucceeds(cut, 0, [b]);
    var mid := Append(cut, 0, [b]).disk;
    AppendSucceeds(mid, 0, tail);
  }
}
