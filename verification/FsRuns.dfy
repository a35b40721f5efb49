/** Whole runs of the file system: sequences of calls, what they do to the
    observable disk, and when that is what they would do to a map from names to
    byte strings. */
module FsRuns {
  import opened Bytes
  import opened FsLayout
  import opened FsSpec
  import opened FsLike
  import opened FsProps

  datatype Op =
    | TouchOp(name: Name)
    | RmOp(name: Name)
    | WriteOp(name: Name, buf: seq<byte>, offset: nat)
    | CpOp(src: Name, des: Name)
    | OpenOp(name: Name)
    | CloseOp(name: Name)
    | SetSystemOp(name: Name)
    | DeleteSystemOp(name: Name)

  /** Names as they arrive from a C string that was already cut to length. */
  predicate GoodName(name: Name) { |name| < FILE_NAME_LEN && 0 !in name }

  lemma DiskOkAt(d: Disk, i: nat)
    requires DiskOk(d) && i < |d.files|
    ensures FileOk(d.files[i]) && GoodName(d.files[i].name)
  {
  }

  /** What a call must meet for the kernel not to leave its own buffers, follow a NULL pointer or wrap a size. */
  ghost predicate Legal(d: Disk, op: Op) {
    DiskOk(d) &&
    match op
    case TouchOp(n) => GoodName(n)
    case RmOp(n) => GoodName(n)
    case WriteOp(n, buf, offset) =>
      GoodName(n) && WriteLegal(d, n, offset) && |buf| < 0x1_0000_0000 &&
      (Find(d.files, n) < |d.files| ==> d.files[Find(d.files, n)].size + |buf| < 0x1_0000_0000)
    case CpOp(s, t) => GoodName(s) && GoodName(t) && CpLegal(d, s, t)
    case OpenOp(n) => GoodName(n) && Find(d.files, n) < |d.files|
    case CloseOp(n) => GoodName(n)
    case SetSystemOp(n) => GoodName(n) && Find(d.files, n) < |d.files|
    case DeleteSystemOp(n) => GoodName(n)
  }

  ghost function Step(d: Disk, op: Op): Outcome
    requires Legal(d, op)
  {
    match op
    case TouchOp(n) => Touch(d, n)
    case RmOp(n) => Rm(d, n)
    case WriteOp(n, buf, offset) => Write(d, n, buf, offset)
    case CpOp(s, t) => Cp(d, s, t)
    case OpenOp(n) => OpenFile(d, n)
    case CloseOp(n) => CloseFile(d, n)
    case SetSystemOp(n) => SetAsSystemFile(d, n)
    case DeleteSystemOp(n) => DeleteSystemFile(d, n)
  }

  /** Every call of the run is legal when its turn comes. */
  ghost predicate LegalRun(d: Disk, ops: seq<Op>)
    decreases |ops|
  {
    ops == [] || (Legal(d, ops[0]) && (Step(d, ops[0]).Done? ==> LegalRun(Step(d, ops[0]).disk, ops[1..])))
  }

  ghost function RunSpec(d: Disk, ops: seq<Op>): Outcome
    requires LegalRun(d, ops)
    decreases |ops|
  {
    if ops == [] then Done(d, 0)
    else
      var o := Step(d, ops[0]);
      if o.Halted? then o else RunSpec(o.disk, ops[1..])
  }

  lemma RunSpecStep(d: Disk, ops: seq<Op>)
    requires ops != [] && LegalRun(d, ops)
    ensures Legal(d, ops[0])
    ensures Step(d, ops[0]).Halted? ==> RunSpec(d, ops) == Step(d, ops[0])
    ensures Step(d, ops[0]).Done? ==>
      LegalRun(Step(d, ops[0]).disk, ops[1..]) && RunSpec(d, ops) == RunSpec(Step(d, ops[0]).disk, ops[1..])
  {
  }

  // ---------- files as a map ----------

  ghost function View(files: seq<File>): map<Name, seq<byte>> {
    map i | 0 <= i < |files| && Find(files, files[i].name) == i :: files[i].name := files[i].bytes
  }

  lemma ViewAt(files: seq<File>, name: Name)
    ensures name in View(files) <==> Find(files, name) < |files|
    ensures name in View(files) ==> View(files)[name] == files[Find(files, name)].bytes
  {
    var i := Find(files, name);
    if i < |files| {
      assert files[i].name == name;
    }
  }

  lemma ViewEqual(files: seq<File>, m: map<Name, seq<byte>>)
    requires forall n :: n in m <==> Find(files, n) < |files|
    requires forall n :: n in m ==> m[n] == files[Find(files, n)].bytes
    ensures View(files) == m
  {
    var v := View(files);
    forall n ensures (n in v <==> n in m) && (n in m ==> v[n] == m[n]) {
      ViewAt(files, n);
    }
    hide View, Find;
    assert v.Keys == m.Keys;
  }

  lemma ViewUpdate(files: seq<File>, i: nat, f: File)
    requires i < |files| && f.name == files[i].name && Find(files, f.name) == i
    ensures View(files[i := f]) == View(files)[f.name := f.bytes]
  {
    var m := View(files)[f.name := f.bytes];
    forall n ensures n in m <==> Find(files[i := f], n) < |files| {
      ViewAt(files, n);
      FindSame(files, i, f, n);
    }
    forall n | n in m ensures m[n] == files[i := f][Find(files[i := f], n)].bytes {
      ViewAt(files, n);
      FindSame(files, i, f, n);
    }
    ViewEqual(files[i := f], m);
  }

  lemma ViewSnoc(files: seq<File>, f: File)
    requires Find(files, f.name) == |files|
    ensures View(files + [f]) == View(files)[f.name := f.bytes]
  {
    var fs, m := files + [f], View(files)[f.name := f.bytes];
    assert fs[|files|] == f && forall k :: 0 <= k < |files| ==> fs[k] == files[k];
    forall n ensures (n in m <==> Find(fs, n) < |fs|) && (n in m ==> m[n] == fs[Find(fs, n)].bytes) {
      ViewAt(files, n);
      if Find(files, n) < |files| {
        FindAppended(files, f, n);
      } else if n == f.name {
        assert Find(fs, n) == |files|;
      }
    }
    ViewEqual(fs, m);
  }

  lemma ViewRemove(files: seq<File>, i: nat)
    requires i < |files| && forall a, b :: 0 <= a < b < |files| ==> files[a].name != files[b].name
    ensures View(files[..i] + files[i + 1..]) == View(files) - {files[i].name}
  {
    var fs, m := files[..i] + files[i + 1..], View(files) - {files[i].name};
    assert forall k :: 0 <= k < |fs| ==> fs[k] == files[if k < i then k else k + 1];
    forall n ensures (n in m <==> Find(fs, n) < |fs|) && (n in m ==> m[n] == fs[Find(fs, n)].bytes) {
      ViewAt(files, n);
      if n == files[i].name {
        FindGone(files, i);
      } else if Find(files, n) < |files| {
        FindWithout(files, i, n);
      }
    }
    ViewEqual(fs, m);
  }

  /** The same calls on a map. */
  function MapStep(m: map<Name, seq<byte>>, op: Op): map<Name, seq<byte>> {
    match op
    case TouchOp(n) => if n in m then m else m[n := []]
    case RmOp(n) => m - {n}
    case WriteOp(n, buf, offset) =>
      if n in m && offset <= |m[n]| then m[n := m[n][..offset] + buf + m[n][offset..]] else m
    case CpOp(s, t) => if s != t && s in m then m[t := m[s]] else m
    case OpenOp(_) => m
    case CloseOp(_) => m
    case SetSystemOp(_) => m
    case DeleteSystemOp(n) => m - {n}
  }

  function MapRun(m: map<Name, seq<byte>>, ops: seq<Op>): map<Name, seq<byte>>
    decreases |ops|
  {
    if ops == [] then m else MapRun(MapStep(m, ops[0]), ops[1..])
  }

  ghost predicate AllRoomy(d: Disk) {
    forall i :: 0 <= i < |d.files| ==> Roomy(d.files[i])
  }

  /** Clusters that are free once cp() has put its destination in place. */
  ghost function FreeForCopy(d: Disk, t: Name): int {
    var n, k := |d.files|, Find(d.files, t);
    if k == n then d.free - 2 - (RootClusters(n + 1) - RootClusters(n))
    else if d.files[k].system then d.free
    else d.free + d.files[k].clusters - 1
  }

  /** The calls on which the file system behaves like a map: there is space, no size and no insertion
      ends on a cluster boundary, and rm() does not meet a system file. */
  ghost predicate Clean(d: Disk, op: Op) {
    match op
    case TouchOp(n) =>
      GoodName(n) &&
      (Find(d.files, n) < |d.files| || d.free > 2 + (RootClusters(|d.files| + 1) - RootClusters(|d.files|)))
    case RmOp(n) => GoodName(n) && var i := Find(d.files, n); i < |d.files| ==> !d.files[i].system
    case WriteOp(n, buf, offset) =>
      && GoodName(n) && |buf| < 0x1_0000_0000
      && var i := Find(d.files, n);
      i < |d.files| ==> d.files[i].size + |buf| < 0x1_0000_0000 && CleanWriteTo(d, d.files[i].size, |buf|, offset)
    case CpOp(s, t) =>
      && GoodName(s) && GoodName(t)
      && var i := Find(d.files, s); s != t && i < |d.files| ==> CleanCopy(d, d.files[i], t)
    case OpenOp(n) => GoodName(n) && Find(d.files, n) < |d.files|
    case CloseOp(n) => GoodName(n)
    case SetSystemOp(n) => GoodName(n) && Find(d.files, n) < |d.files|
    case DeleteSystemOp(n) => GoodName(n)
  }

  /** `len` bytes to position `offset` of a file of `size` bytes: past the end nothing is to be done, at the
      end there must be room, and below it the insertion must not meet a cluster boundary. */
  ghost predicate CleanWriteTo(d: Disk, size: nat, len: nat, offset: nat) {
    if offset > size then true
    else if offset == size then d.free > NewClusters(size, len) && LeavesRoom(size, len)
    else
      size % CLUSTER_SIZE != 0 &&
      (len == 0 || (d.free >= ClustersNeeded(size + len) && LeavesRoom(offset, len) && LeavesRoom(size, len)))
  }

  /** The last cluster of a file with room has room again when `len` bytes were added. */
  predicate LeavesRoom(size: nat, len: nat) { len == 0 || (size + len) % CLUSTER_SIZE != 0 }

  /** A copy of f to t: it has room, or it is refused but t is a system file with these bytes already. */
  ghost predicate CleanCopy(d: Disk, f: File, t: Name) {
    var k := Find(d.files, t);
    || f.clusters <= FreeForCopy(d, t)
    || (k < |d.files| && d.files[k].system && d.free < ClustersNeeded(f.size) && d.files[k].bytes == f.bytes)
  }

  /** One clean call: it is legal, it succeeds, it does to the files what it does to a map, and the
      next call may again be clean. */
  ghost predicate Mirrors(d: Disk, op: Op) {
    && Legal(d, op) && Step(d, op).Done?
    && var d' := Step(d, op).disk;
    DiskOk(d') && AllRoomy(d') && View(d'.files) == MapStep(View(d.files), op)
  }

  lemma UpdateOk(d: Disk, i: nat, f: File, free: nat)
    requires DiskOk(d) && AllRoomy(d) && i < |d.files|
    requires f.name == d.files[i].name && FileOk(f) && Roomy(f) && free >= 1
    ensures DiskOk(Disk(d.files[i := f], free)) && AllRoomy(Disk(d.files[i := f], free))
  {
    var fs := d.files[i := f];
    assert forall k :: 0 <= k < |fs| ==> fs[k].name == d.files[k].name;
  }

  lemma NewFileOk(name: Name)
    requires GoodName(name)
    ensures FileOk(File(name, 0, 1, [], false, false)) && Roomy(File(name, 0, 1, [], false, false))
  {
  }

  lemma CleanTouch(d: Disk, n: Name)
    requires DiskOk(d) && AllRoomy(d) && Clean(d, TouchOp(n))
    ensures Mirrors(d, TouchOp(n))
  {
    ViewAt(d.files, n);
    TouchHalts(d, n);
    if Find(d.files, n) == |d.files| {
      TouchAdds(d, n);
    }
  }

  /** touch of a new name, with room. */
  lemma TouchAdds(d: Disk, n: Name)
    requires DiskOk(d) && AllRoomy(d) && GoodName(n) && Find(d.files, n) == |d.files|
    requires d.free > 2 + (RootClusters(|d.files| + 1) - RootClusters(|d.files|))
    ensures var o, f := Touch(d, n), File(n, 0, 1, [], false, false);
      && o.Done? && o.disk.files == d.files + [f] && o.disk.free == FreeForCopy(d, n)
      && DiskOk(o.disk) && AllRoomy(o.disk) && View(o.disk.files) == View(d.files)[n := []]
  {
    TouchHalts(d, n);
    TouchOutcome(d, n);
    RootClustersFacts(|d.files|);
    NewFileOk(n);
    var f := File(n, 0, 1, [], false, false);
    var fs := d.files + [f];
    assert forall k :: 0 <= k < |fs| ==> fs[k] == if k < |d.files| then d.files[k] else f;
    ViewSnoc(d.files, f);
  }

  lemma DeleteMirrors(d: Disk, i: nat)
    requires DiskOk(d) && AllRoomy(d) && i < |d.files|
    ensures var o := Delete(d, i);
      && o.Done? && o.disk.files == d.files[..i] + d.files[i + 1..]
      && o.disk.free == d.free + d.files[i].clusters + 1 + (RootClusters(|d.files|) - RootClusters(|d.files| - 1))
      && DiskOk(o.disk) && AllRoomy(o.disk) && View(o.disk.files) == View(d.files) - {d.files[i].name}
  {
    hide View, Find, FileOk, Roomy, RootClusters;
    DeleteHalts(d, i);
    DeleteOk(d, i);
    RootClustersFacts(|d.files| - 1);
    ViewRemove(d.files, i);
    var fs := d.files[..i] + d.files[i + 1..];
    assert forall k :: 0 <= k < |fs| ==> fs[k] == d.files[if k < i then k else k + 1];
  }

  lemma CleanRm(d: Disk, n: Name)
    requires DiskOk(d) && AllRoomy(d) && GoodName(n)
    ensures Clean(d, RmOp(n)) ==> Mirrors(d, RmOp(n))
    ensures Mirrors(d, DeleteSystemOp(n))
  {
    var i := Find(d.files, n);
    ViewAt(d.files, n);
    if i < |d.files| {
      DeleteMirrors(d, i);
    } else {
      assert View(d.files) - {n} == View(d.files);
    }
  }

  lemma FlagMirrors(d: Disk, i: nat, f: File)
    requires DiskOk(d) && AllRoomy(d) && i < |d.files| && Find(d.files, d.files[i].name) == i
    requires f == d.files[i].(open := f.open, system := f.system)
    ensures var o := Resave(|d.files|, d.(files := d.files[i := f]), 0);
      o.Done? && DiskOk(o.disk) && AllRoomy(o.disk) && View(o.disk.files) == View(d.files)
  {
    ResaveSameLength(d.(files := d.files[i := f]), 0);
    UpdateOk(d, i, f, d.free);
    ViewUpdate(d.files, i, f);
    ViewAt(d.files, f.name);
    assert View(d.files)[f.name := f.bytes] == View(d.files);
  }

  lemma CleanFlags(d: Disk, n: Name)
    requires DiskOk(d) && AllRoomy(d) && GoodName(n)
    ensures Mirrors(d, CloseOp(n))
    ensures Find(d.files, n) < |d.files| ==> Mirrors(d, OpenOp(n)) && Mirrors(d, SetSystemOp(n))
  {
    hide View, AllRoomy, FileOk, Resave, CpLegal, WriteLegal;
    var i := Find(d.files, n);
    if i < |d.files| {
      FlagMirrors(d, i, d.files[i].(open := false));
      FlagMirrors(d, i, d.files[i].(open := true));
      FlagMirrors(d, i, d.files[i].(system := true));
    }
  }

  lemma CleanWrite(d: Disk, n: Name, buf: seq<byte>, offset: nat)
    requires DiskOk(d) && AllRoomy(d) && Clean(d, WriteOp(n, buf, offset))
    ensures Mirrors(d, WriteOp(n, buf, offset))
  {
    hide Append, Insert, Resave, InsertLegal, View, ClustersNeeded, FileOk;
    var i := Find(d.files, n);
    ViewAt(d.files, n);
    if i < |d.files| {
      assert FileOk(d.files[i]) && Roomy(d.files[i]);
      RoomyFacts(d.files[i]);
      if offset == d.files[i].size {
        CleanAppend(d, i, buf);
      } else if offset < d.files[i].size {
        RoomyInsertLegal(d.files[i], offset);
        InsertOutcome(d, i, buf, offset);
        if d.free >= ClustersNeeded(d.files[i].size + |buf|) {
          CleanInsert(d, i, buf, offset);
        } else {
          ViewWithNothing(d.files, i, offset);
        }
      }
    }
  }

  /** Inserting nothing changes nothing. */
  lemma ViewWithNothing(files: seq<File>, i: nat, offset: nat)
    requires i < |files| && Find(files, files[i].name) == i && offset <= |files[i].bytes|
    ensures var f := files[i]; View(files)[f.name := f.bytes[..offset] + [] + f.bytes[offset..]] == View(files)
  {
    ViewAt(files, files[i].name);
    assert files[i].bytes[..offset] + [] + files[i].bytes[offset..] == files[i].bytes;
  }

  lemma RoomyFacts(f: File)
    requires FileOk(f) && Roomy(f)
    ensures Sound(f) && |f.bytes| == f.size
  {
  }

  lemma CleanAppend(d: Disk, i: nat, buf: seq<byte>)
    requires DiskOk(d) && AllRoomy(d) && i < |d.files| && Find(d.files, d.files[i].name) == i
    requires d.free > NewClusters(d.files[i].size, |buf|) && LeavesRoom(d.files[i].size, |buf|)
    ensures var o, f := Append(d, i, buf), d.files[i];
      && o.Done? && DiskOk(o.disk) && AllRoomy(o.disk)
      && View(o.disk.files) == View(d.files)[f.name := f.bytes[..f.size] + buf + f.bytes[f.size..]]
  {
    hide Append, Resave, View, ClustersNeeded, NewClusters;
    var f := d.files[i];
    assert FileOk(f) && Roomy(f);
    RoomyFacts(f);
    AppendSucceeds(d, i, buf);
    RoomAfterAppend(f, buf);
    assert f.bytes[..f.size] + buf + f.bytes[f.size..] == f.bytes + buf;
    UpdateOk(d, i, Appended(f, buf), d.free - NewClusters(f.size, |buf|));
    ViewUpdate(d.files, i, Appended(f, buf));
  }

  lemma CleanInsert(d: Disk, i: nat, buf: seq<byte>, offset: nat)
    requires DiskOk(d) && AllRoomy(d) && i < |d.files| && Find(d.files, d.files[i].name) == i
    requires offset < d.files[i].size && InsertLegal(d.files[i])
    requires d.free >= ClustersNeeded(d.files[i].size + |buf|) && d.files[i].size % CLUSTER_SIZE != 0
    requires LeavesRoom(offset, |buf|) && LeavesRoom(d.files[i].size, |buf|)
    ensures var o, f := Insert(d, i, buf, offset), d.files[i];
      && o.Done? && DiskOk(o.disk) && AllRoomy(o.disk) && |f.bytes| == f.size
      && View(o.disk.files) == View(d.files)[f.name := f.bytes[..offset] + buf + f.bytes[offset..]]
  {
    hide Insert, View, ClustersNeeded, NewClusters, CutReleases;
    var f := d.files[i];
    assert FileOk(f) && Roomy(f);
    RoomyFacts(f);
    InsertionSucceeds(d, i, buf, offset);
    InsertedRoomy(f, |buf|, offset);
    var o := Insert(d, i, buf, offset);
    UpdateOk(d, i, o.disk.files[i], o.disk.free);
    ViewUpdate(d.files, i, o.disk.files[i]);
  }

  lemma RoomyInsertLegal(f: File, offset: nat)
    requires FileOk(f) && Roomy(f) && offset < f.size && f.size % CLUSTER_SIZE != 0
    ensures InsertLegal(f)
  {
  }

  lemma InsertedRoomy(f: File, len: nat, offset: nat)
    requires FileOk(f) && Roomy(f) && offset < f.size && f.size % CLUSTER_SIZE != 0
    requires LeavesRoom(offset, len)
    ensures var added := NewClusters(offset, len) + NewClusters(offset + len, f.size - offset);
      && (offset / CLUSTER_SIZE + 1 + added == (f.size + len) / CLUSTER_SIZE + 1 <==> LeavesRoom(f.size, len))
      && added < ClustersNeeded(f.size + len)
  {
    RoomyInsertLegal(f, offset);
    InsertSpace(f, len, offset);
    ClustersAfter(offset, len);
    ClustersAfter(offset + len, f.size - offset);
  }

  lemma CleanCp(d: Disk, s: Name, t: Name)
    requires DiskOk(d) && AllRoomy(d) && Clean(d, CpOp(s, t))
    ensures Mirrors(d, CpOp(s, t))
  {
    hide CpTarget, CpFinish, Resave, View;
    var i, k := Find(d.files, s), Find(d.files, t);
    ViewAt(d.files, s);
    if s != t && i < |d.files| {
      var f := d.files[i];
      assert FileOk(f) && Roomy(f);
      if k < |d.files| && d.files[k].system {
        SystemTarget(d, t);
        ViewAt(d.files, t);
        if f.clusters <= d.free {
          CleanFinish(d, f, t);
        } else {
          assert View(d.files)[t := f.bytes] == View(d.files);
        }
      } else {
        CleanTarget(d, t);
        CpTargetKeeps(d, s, t);
        CleanFinish(CpTarget(d, t).disk, f, t);
        assert View(d.files)[t := []][t := f.bytes] == View(d.files)[t := f.bytes];
      }
      CpSteps(d, s, t);
    }
  }

  /** A system file stays: rm() refuses, and touch() finds it. */
  lemma SystemTarget(d: Disk, t: Name)
    requires var k := Find(d.files, t); k < |d.files| && d.files[k].system
    ensures CpTarget(d, t) == Done(d, 1)
  {
  }

  /** Otherwise the destination is a new, empty file. */
  lemma CleanTarget(d: Disk, t: Name)
    requires DiskOk(d) && AllRoomy(d) && GoodName(t)
    requires var k := Find(d.files, t); if k < |d.files| then !d.files[k].system else FreeForCopy(d, t) > 0
    ensures var o := CpTarget(d, t);
      && o.Done? && DiskOk(o.disk) && AllRoomy(o.disk) && o.disk.free == FreeForCopy(d, t)
      && Find(o.disk.files, t) < |o.disk.files| && View(o.disk.files) == View(d.files)[t := []]
  {
    hide Touch, Rm, Delete, Resave, CpTarget, View, RootClusters;
    var k := Find(d.files, t);
    CpTargetSteps(d, t);
    var d1 := d;
    if k < |d.files| {
      assert FileOk(d.files[k]);
      DeleteMirrors(d, k);
      RmDeletes(d, t);
      d1 := Delete(d, k).disk;
      FindGone(d.files, k);
      assert (View(d.files) - {t})[t := []] == View(d.files)[t := []];
    }
    TouchAdds(d1, t);
    TouchFinds(d1, t);
  }

  lemma CleanFinish(d: Disk, f: File, t: Name)
    requires DiskOk(d) && AllRoomy(d) && Find(d.files, t) < |d.files| && FileOk(f) && Roomy(f) && d.free >= f.clusters
    ensures d.free >= ClustersNeeded(f.size)
    ensures var o := CpFinish(d, f, t);
      o.Done? && DiskOk(o.disk) && AllRoomy(o.disk) && View(o.disk.files) == View(d.files)[t := f.bytes]
  {
    hide View;
    var m := Find(d.files, t);
    var g := d.files[m].(size := f.size, clusters := f.clusters, bytes := f.bytes);
    UpdateOk(d, m, g, d.free + 1 - f.clusters);
    ViewUpdate(d.files, m, g);
  }

  lemma RmDeletes(d: Disk, t: Name)
    requires Find(d.files, t) < |d.files| && !d.files[Find(d.files, t)].system
    ensures Rm(d, t) == Delete(d, Find(d.files, t))
  {
  }

  // ---------- and no other call does ----------

  lemma MirrorsTouch(d: Disk, n: Name)
    requires DiskOk(d) && Mirrors(d, TouchOp(n))
    ensures Clean(d, TouchOp(n))
  {
    ViewAt(d.files, n);
    TouchHalts(d, n);
    RootClustersFacts(|d.files|);
    if Find(d.files, n) == |d.files| && d.free < 2 {
      TouchWithoutSpace(d, n);
    }
  }

  lemma MirrorsRm(d: Disk, n: Name)
    requires DiskOk(d) && Mirrors(d, RmOp(n))
    ensures Clean(d, RmOp(n))
  {
    ViewAt(d.files, n);
  }

  lemma MirrorsAppend(d: Disk, i: nat, buf: seq<byte>)
    requires DiskOk(d) && AllRoomy(d) && i < |d.files| && Find(d.files, d.files[i].name) == i
    requires var f, o := d.files[i], Append(d, i, buf);
      && |f.bytes| == f.size && o.Done? && AllRoomy(o.disk)
      && View(o.disk.files) == View(d.files)[f.name := f.bytes[..f.size] + buf + f.bytes[f.size..]]
    ensures d.free > NewClusters(d.files[i].size, |buf|) && LeavesRoom(d.files[i].size, |buf|)
  {
    hide View, Append, Appended, NewClusters;
    var f := d.files[i];
    assert FileOk(f) && Roomy(f);
    RoomyFacts(f);
    AppendHalts(d, i, buf);
    AppendOutcome(d, i, buf);
    if d.free < NewClusters(f.size, |buf|) {
      AppendWithoutSpace(d, i, buf);
      ViewAt(d.files, f.name);
    } else {
      AppendSucceeds(d, i, buf);
      assert Append(d, i, buf).disk.files[i] == Appended(f, buf);
      RoomAfterAppend(f, buf);
    }
  }

  /** Whatever an insertion does, the file stays where it is. */
  lemma InsertStays(d: Disk, i: nat, buf: seq<byte>, offset: nat)
    requires i < |d.files| && FileOk(d.files[i]) && Find(d.files, d.files[i].name) == i
    requires offset < d.files[i].size && InsertLegal(d.files[i]) && Insert(d, i, buf, offset).Done?
    ensures var fs := Insert(d, i, buf, offset).disk.files; Find(fs, d.files[i].name) == i < |fs|
  {
    hide Append, FileOk, CutFile, ClustersNeeded, Find, Insert;
    var f := d.files[i];
    InsertOutcome(d, i, buf, offset);
    var cut := Disk(d.files[i := CutFile(f, offset)], d.free + CutReleases(f, offset));
    CutFileFacts(f, offset);
    FindSame(d.files, i, CutFile(f, offset), f.name);
    if d.free >= ClustersNeeded(f.size + |buf|) {
      InsertMiddleFile(cut, i, buf, f.name);
      InsertMiddleFile(Append(cut, i, buf).disk, i, TailSeen(f, offset), f.name);
    }
  }

  lemma MirrorsInsert(d: Disk, i: nat, buf: seq<byte>, offset: nat)
    requires DiskOk(d) && AllRoomy(d) && i < |d.files| && Find(d.files, d.files[i].name) == i
    requires offset < d.files[i].size && InsertLegal(d.files[i])
    requires var f, o := d.files[i], Insert(d, i, buf, offset);
      && |f.bytes| == f.size && o.Done? && DiskOk(o.disk) && AllRoomy(o.disk)
      && View(o.disk.files) == View(d.files)[f.name := f.bytes[..offset] + buf + f.bytes[offset..]]
    ensures CleanWriteTo(d, d.files[i].size, |buf|, offset)
  {
    hide View, Insert, ClustersNeeded, NewClusters, CutReleases, Find, Append, CutFile, TailSeen, DiskOk, FileOk;
    DiskOkAt(d, i);
    var f, o := d.files[i], Insert(d, i, buf, offset);
    InsertOutcome(d, i, buf, offset);
    InsertStays(d, i, buf, offset);
    ViewAt(o.disk.files, f.name);
    assert o.disk.files[i].bytes == f.bytes[..offset] + buf + f.bytes[offset..];
    DiskOkAt(o.disk, i);
    RoomyFacts(f);
    RoomyFacts(o.disk.files[i]);
    if buf != [] {
      assert Inserted(f, o, i, buf, offset);
      WriteIsInsertion(d, i, buf, offset);
      InsertionSucceeds(d, i, buf, offset);
      InsertedRoomy(f, |buf|, offset);
    }
  }

  lemma MirrorsWrite(d: Disk, n: Name, buf: seq<byte>, offset: nat)
    requires DiskOk(d) && AllRoomy(d) && Mirrors(d, WriteOp(n, buf, offset))
    ensures Clean(d, WriteOp(n, buf, offset))
  {
    hide Append, Insert, Resave, View, ClustersNeeded, FileOk, InsertLegal, CleanWriteTo;
    var i := Find(d.files, n);
    ViewAt(d.files, n);
    if i < |d.files| {
      RoomyBytes(d, i);
      if offset == d.files[i].size {
        MirrorsAppend(d, i, buf);
      } else if offset < d.files[i].size {
        MirrorsInsert(d, i, buf, offset);
      }
      CleanOffsets(d, d.files[i].size, |buf|, offset);
    }
  }

  lemma RoomyBytes(d: Disk, i: nat)
    requires DiskOk(d) && AllRoomy(d) && i < |d.files|
    ensures FileOk(d.files[i]) && Sound(d.files[i]) && |d.files[i].bytes| == d.files[i].size
  {
  }

  lemma CleanOffsets(d: Disk, size: nat, len: nat, offset: nat)
    ensures offset > size ==> CleanWriteTo(d, size, len, offset)
    ensures offset == size ==>
      (CleanWriteTo(d, size, len, offset) <==> d.free > NewClusters(size, len) && LeavesRoom(size, len))
  {
  }

  lemma MirrorsCp(d: Disk, s: Name, t: Name)
    requires DiskOk(d) && AllRoomy(d) && Mirrors(d, CpOp(s, t))
    ensures Clean(d, CpOp(s, t))
  {
    hide CpTarget, Resave, View, RootClusters;
    var i, k := Find(d.files, s), Find(d.files, t);
    ViewAt(d.files, s);
    ViewAt(d.files, t);
    if s != t && i < |d.files| {
      RoomyBytes(d, i);
      CpSteps(d, s, t);
      if k < |d.files| && d.files[k].system {
        SystemTarget(d, t);
        assert View(d.files)[t := d.files[i].bytes][t] == d.files[i].bytes;
      } else if k < |d.files| || FreeForCopy(d, t) > 0 {
        CleanTarget(d, t);
        ViewAt(CpTarget(d, t).disk.files, t);
        assert View(d.files)[t := d.files[i].bytes][t] == d.files[i].bytes;
      } else {
        NoTarget(d, t);
      }
    }
  }

  lemma NoTarget(d: Disk, t: Name)
    requires DiskOk(d) && Find(d.files, t) == |d.files| && FreeForCopy(d, t) <= 0
    ensures CpTarget(d, t).Halted? || CpTarget(d, t) == Done(d, 0)
  {
    TouchHalts(d, t);
    RootClustersFacts(|d.files|);
    CpTargetSteps(d, t);
    if d.free < 2 {
      TouchWithoutSpace(d, t);
    }
  }

  // ---------- clean calls and runs ----------

  lemma CleanStep(d: Disk, op: Op)
    requires DiskOk(d) && AllRoomy(d) && Clean(d, op)
    ensures Mirrors(d, op)
  {
    match op
    case TouchOp(n) => CleanTouch(d, n);
    case RmOp(n) => CleanRm(d, n);
    case WriteOp(n, buf, offset) => CleanWrite(d, n, buf, offset);
    case CpOp(s, t) => CleanCp(d, s, t);
    case OpenOp(n) => CleanFlags(d, n);
    case CloseOp(n) => CleanFlags(d, n);
    case SetSystemOp(n) => CleanFlags(d, n);
    case DeleteSystemOp(n) => CleanRm(d, n);
  }

  /** A call does to the files what it does to a map, and leaves room in each, if and only if it is clean. */
  lemma CleanExactly(d: Disk, op: Op)
    requires DiskOk(d) && AllRoomy(d)
    ensures Clean(d, op) <==> Mirrors(d, op)
  {
    hide Step, AllRoomy, View;
    if Clean(d, op) {
      CleanStep(d, op);
    } else if Mirrors(d, op) {
      match op
      case TouchOp(n) => MirrorsTouch(d, n);
      case RmOp(n) => MirrorsRm(d, n);
      case WriteOp(n, buf, offset) => MirrorsWrite(d, n, buf, offset);
      case CpOp(s, t) => MirrorsCp(d, s, t);
      case OpenOp(n) =>
      case CloseOp(n) =>
      case SetSystemOp(n) =>
      case DeleteSystemOp(n) =>
    }
  }

  ghost predicate CleanRun(d: Disk, ops: seq<Op>)
    decreases |ops|
  {
    || ops == []
    || (Clean(d, ops[0]) &&
        (Legal(d, ops[0]) && Step(d, ops[0]).Done? ==> CleanRun(Step(d, ops[0]).disk, ops[1..])))
  }

  /** A run of clean calls is a run on a map from names to byte strings. */
  lemma {:induction false} CleanRunIsMapRun(d: Disk, ops: seq<Op>)
    requires DiskOk(d) && AllRoomy(d) && CleanRun(d, ops)
    ensures LegalRun(d, ops) && RunSpec(d, ops).Done?
    ensures DiskOk(RunSpec(d, ops).disk) && AllRoomy(RunSpec(d, ops).disk)
    ensures View(RunSpec(d, ops).disk.files) == MapRun(View(d.files), ops)
    decreases |ops|
  {
    if ops != [] {
      CleanStep(d, ops[0]);
      CleanRunIsMapRun(Step(d, ops[0]).disk, ops[1..]);
    }
  }

  /** After the calls the files are what the same calls make of a map, and each has room. */
  ghost predicate Agrees(d: Disk, ops: seq<Op>) {
    && LegalRun(d, ops) && RunSpec(d, ops).Done?
    && DiskOk(RunSpec(d, ops).disk) && AllRoomy(RunSpec(d, ops).disk)
    && View(RunSpec(d, ops).disk.files) == MapRun(View(d.files), ops)
  }

  lemma AgreesFirst(d: Disk, op: Op)
    requires DiskOk(d)
    ensures Agrees(d, []) <==> AllRoomy(d)
    ensures Agrees(d, [op]) <==> Mirrors(d, op)
  {
    hide Step, View, AllRoomy, MapStep, DiskOk;
    assert [op][1..] == [];
    assert MapRun(View(d.files), [op]) == MapRun(MapStep(View(d.files), op), []);
    if Legal(d, op) && Step(d, op).Done? {
      assert LegalRun(Step(d, op).disk, []);
      assert RunSpec(d, [op]) == RunSpec(Step(d, op).disk, []);
    }
  }

  lemma AgreesNext(d: Disk, ops: seq<Op>)
    requires ops != [] && Mirrors(d, ops[0])
    ensures Agrees(d, ops) <==> Agrees(Step(d, ops[0]).disk, ops[1..])
  {
    hide Step, View, AllRoomy, MapStep, DiskOk;
  }

  /** A run agrees with the map after each of its calls if and only if every call is clean. */
  lemma {:induction false} CleanRunExactly(d: Disk, ops: seq<Op>)
    requires DiskOk(d) && AllRoomy(d)
    ensures CleanRun(d, ops) <==> forall k :: 0 <= k <= |ops| ==> Agrees(d, ops[..k])
    decreases |ops|
  {
    hide Step, Legal, Clean, View, AllRoomy, MapStep, DiskOk, Agrees;
    assert ops[..0] == [];
    if ops == [] {
      AgreesFirst(d, CloseOp([]));
      return;
    }
    var op := ops[0];
    CleanExactly(d, op);
    AgreesFirst(d, op);
    assert ops[..1] == [op];
    if Mirrors(d, op) {
      var d' := Step(d, op).disk;
      CleanRunExactly(d', ops[1..]);
      forall k | 0 <= k < |ops| ensures Agrees(d, ops[..k + 1]) <==> Agrees(d', ops[1..][..k]) {
        assert ops[..k + 1][0] == op && ops[..k + 1][1..] == ops[1..][..k];
        AgreesNext(d, ops[..k + 1]);
      }
      ShiftAgrees(d, d', ops);
    }
  }

  lemma ShiftAgrees(d: Disk, d': Disk, ops: seq<Op>)
    requires ops != [] && Agrees(d, ops[..0])
    requires forall k :: 0 <= k < |ops| ==> (Agrees(d, ops[..k + 1]) <==> Agrees(d', ops[1..][..k]))
    ensures (forall k :: 0 <= k <= |ops| ==> Agrees(d, ops[..k])) <==>
      forall k :: 0 <= k <= |ops[1..]| ==> Agrees(d', ops[1..][..k])
  {
    hide Agrees;
    if forall k :: 0 <= k <= |ops| ==> Agrees(d, ops[..k]) {
      forall k | 0 <= k <= |ops[1..]| ensures Agrees(d', ops[1..][..k]) {
        assert Agrees(d, ops[..k + 1]);
      }
    }
    if forall k :: 0 <= k <= |ops[1..]| ==> Agrees(d', ops[1..][..k]) {
      forall k | 0 <= k <= |ops| ensures Agrees(d, ops[..k]) {
        if k > 0 {
          assert Agrees(d', ops[1..][..k - 1]) && (k - 1) + 1 == k;
          assert Agrees(d, ops[..(k - 1) + 1]);
        }
      }
    }
  }

  // ---------- calls on damaged disks ----------

  /** A call does the same on a disk on which some files' bytes differ. A copy of such a file is one more. */
  lemma StepLike(d: Disk, e: Disk, op: Op, hit: set<Name>, more: set<Name>)
    requires Like(d, e, hit) && Legal(d, op) && hit <= more
    requires op.CpOp? && Step(d, op).Done? && Step(d, op).code == 0 && op.src in hit ==> op.des in more
    ensures Legal(e, op) && LikeOutcome(Step(d, op), Step(e, op), more)
  {
    hide Touch, Rm, Write, Cp, OpenFile, CloseFile, SetAsSystemFile, DeleteSystemFile, DiskOk;
    DiskOkAlike(d, e, hit);
    AlikeMore(d.files, e.files, hit, more);
    match op
    case TouchOp(n) => TouchLike(d, e, n, more);
    case RmOp(n) => RmLike(d, e, n, more);
    case WriteOp(n, buf, offset) =>
      WriteLike(d, e, n, buf, offset, more);
      FindAlike(d.files, e.files, more, n);
      if Find(d.files, n) < |d.files| {
        LikeAt(d, e, more, Find(d.files, n));
      }
    case CpOp(s, t) =>
      CpLegalLike(d, e, s, t, hit);
      CpLike(d, e, s, t, hit, more);
    case OpenOp(n) => FlagsLike(d, e, n, more);
    case CloseOp(n) => FlagsLike(d, e, n, more);
    case SetSystemOp(n) => FlagsLike(d, e, n, more);
    case DeleteSystemOp(n) => RmLike(d, e, n, more);
  }

  lemma LegalLike(d: Disk, e: Disk, op: Op, hit: set<Name>)
    requires Like(d, e, hit) && Legal(e, op)
    ensures Legal(d, op)
  {
    LikeBack(d, e, hit);
    StepLike(e, d, op, hit, hit + if op.CpOp? then {op.des} else {});
  }

  /** The same files but for bytes are the same map but for the names that were hit. */
  lemma ViewLike(d: Disk, e: Disk, hit: set<Name>)
    requires Like(d, e, hit)
    ensures View(d.files).Keys == View(e.files).Keys
    ensures forall n :: n in View(d.files) && n !in hit ==> View(d.files)[n] == View(e.files)[n]
    ensures AllRoomy(e) ==> AllRoomy(d)
  {
    forall n ensures n in View(d.files) <==> n in View(e.files)
      ensures n in View(d.files) && n !in hit ==> View(d.files)[n] == View(e.files)[n]
    {
      ViewAt(d.files, n);
      ViewAt(e.files, n);
      FindAlike(d.files, e.files, hit, n);
      var i := Find(d.files, n);
      if i < |d.files| {
        LikeAt(d, e, hit, i);
      }
    }
    forall i | 0 <= i < |d.files| && AllRoomy(e) ensures Roomy(d.files[i]) {
      LikeAt(d, e, hit, i);
    }
  }

  // ---------- few files ----------

  /** The calls that may add a file. */
  predicate Creates(op: Op) { op.TouchOp? || op.CpOp? }

  function Creations(ops: seq<Op>): nat {
    if ops == [] then 0 else (if Creates(ops[0]) then 1 else 0) + Creations(ops[1..])
  }

  lemma StepLength(d: Disk, op: Op)
    requires Legal(d, op) && Step(d, op).Done?
    ensures |Step(d, op).disk.files| <= |d.files| + if Creates(op) then 1 else 0
  {
    match op
    case TouchOp(n) => TouchLength(d, n);
    case RmOp(n) => if Find(d.files, n) < |d.files| { RmLength(d, n); }
    case WriteOp(n, buf, offset) =>
      var i := Find(d.files, n);
      if i < |d.files| && offset == d.files[i].size {
        InsertMiddle(d, i, buf);
      } else if i < |d.files| && offset < d.files[i].size {
        InsertOutcome(d, i, buf, offset);
        InsertLength(d, i, buf, offset);
      }
    case CpOp(s, t) =>
      CpSteps(d, s, t);
      if CpTarget(d, t).Done? { CpTargetLength(d, t); }
    case OpenOp(n) =>
    case CloseOp(n) =>
    case SetSystemOp(n) =>
    case DeleteSystemOp(n) =>
  }

  lemma InsertLength(d: Disk, i: nat, buf: seq<byte>, offset: nat)
    requires i < |d.files| && FileOk(d.files[i]) && offset < d.files[i].size && InsertLegal(d.files[i])
    ensures Insert(d, i, buf, offset).Done? ==> |Insert(d, i, buf, offset).disk.files| == |d.files|
  {
    hide Append, FileOk, CutFile, ClustersNeeded;
    InsertOutcome(d, i, buf, offset);
    var f := d.files[i];
    var cut := Disk(d.files[i := CutFile(f, offset)], d.free + CutReleases(f, offset));
    InsertMiddle(cut, i, buf);
    if d.free >= ClustersNeeded(f.size + |buf|) && Append(cut, i, buf).Done? {
      InsertMiddle(Append(cut, i, buf).disk, i, TailSeen(f, offset));
    }
  }

  // ---------- every legal run ----------

  /** A legal call keeps the disk in order, or stops because the last free cluster was handed out.
      It never finds fewer clusters than its guard had counted. */
  lemma StepOk(d: Disk, op: Op)
    requires Legal(d, op)
    ensures match Step(d, op)
            case Done(d', _) => DiskOk(d')
            case Halted(e) => e == SentinelLink
  {
    match op
    case TouchOp(n) => TouchOk(d, n);
    case RmOp(n) => RmOk(d, n);
    case WriteOp(n, buf, offset) =>
      var i := Find(d.files, n);
      if i < |d.files| && offset == d.files[i].size {
        AppendHalts(d, i, buf);
        AppendOk(d, i, buf);
      } else if i < |d.files| && offset < d.files[i].size {
        InsertOk(d, i, buf, offset);
      }
    case CpOp(s, t) => CpOk(d, s, t);
    case OpenOp(n) => FlagsOk(d, n);
    case CloseOp(n) => FlagsOk(d, n);
    case SetSystemOp(n) => FlagsOk(d, n);
    case DeleteSystemOp(n) => RmOk(d, n);
  }

  lemma TouchOk(d: Disk, n: Name)
    requires DiskOk(d) && GoodName(n)
    ensures match Touch(d, n)
            case Done(d', _) => DiskOk(d')
            case Halted(e) => e == SentinelLink
  {
    TouchHalts(d, n);
    NewFileOk(n);
    if Find(d.files, n) == |d.files| {
      TouchOutcome(d, n);
    }
  }

  lemma RmOk(d: Disk, n: Name)
    requires DiskOk(d)
    ensures Rm(d, n).Done? && DiskOk(Rm(d, n).disk)
    ensures DeleteSystemFile(d, n).Done? && DiskOk(DeleteSystemFile(d, n).disk)
  {
    var i := Find(d.files, n);
    if i < |d.files| {
      DeleteHalts(d, i);
      DeleteOk(d, i);
    }
  }

  lemma FlagsOk(d: Disk, n: Name)
    requires DiskOk(d)
    ensures CloseFile(d, n).Done? && DiskOk(CloseFile(d, n).disk)
    ensures Find(d.files, n) < |d.files| ==>
      && OpenFile(d, n).Done? && DiskOk(OpenFile(d, n).disk)
      && SetAsSystemFile(d, n).Done? && DiskOk(SetAsSystemFile(d, n).disk)
  {
    var i := Find(d.files, n);
    if i < |d.files| {
      ResaveSameLength(d.(files := d.files[i := d.files[i].(open := false)]), 0);
      ResaveSameLength(d.(files := d.files[i := d.files[i].(open := true)]), 0);
      ResaveSameLength(d.(files := d.files[i := d.files[i].(system := true)]), 0);
    }
  }

  lemma CpOk(d: Disk, s: Name, t: Name)
    requires DiskOk(d) && GoodName(t) && CpLegal(d, s, t)
    ensures match Cp(d, s, t)
            case Done(d', _) => DiskOk(d')
            case Halted(e) => e == SentinelLink
  {
    hide Touch, Rm, Cp, CpTarget;
    CpSteps(d, s, t);
    CpHalts(d, s, t);
    CpTargetSteps(d, t);
    RmOk(d, t);
    var rest := if Find(d.files, t) < |d.files| then Rm(d, t).disk else d;
    TouchOk(rest, t);
  }

  /** In no legal run get_free_cluster or save_root_folder reaches its panic. */
  lemma {:induction false} GuardsSuffice(d: Disk, ops: seq<Op>)
    requires DiskOk(d) && LegalRun(d, ops)
    ensures match RunSpec(d, ops)
            case Done(d', _) => DiskOk(d')
            case Halted(e) => e == SentinelLink
    decreases |ops|
  {
    if ops != [] {
      StepOk(d, ops[0]);
      if Step(d, ops[0]).Done? {
        GuardsSuffice(Step(d, ops[0]).disk, ops[1..]);
      }
    }
  }

  /** Clusters that a call leaves in no chain and not free: one for an insertion whose tail spans a further
      data cluster, and all data clusters but one of a system file that cp writes over. */
  ghost function LostBy(d: Disk, op: Op): nat
    requires Legal(d, op)
  {
    match op
    case WriteOp(n, buf, offset) =>
      var i := Find(d.files, n);
      if i < |d.files| && offset < d.files[i].size && d.free >= ClustersNeeded(d.files[i].size + |buf|)
      then Stranded(d.files[i], offset) else 0
    case CpOp(s, t) =>
      var k := Find(d.files, t);
      if Step(d, op).Done? && Step(d, op).code == 0 && k < |d.files| && d.files[k].system
      then d.files[k].clusters - 1 else 0
    case _ => 0
  }

  lemma StepAccounts(d: Disk, op: Op)
    requires Legal(d, op) && Step(d, op).Done?
    ensures Total(Step(d, op).disk) + LostBy(d, op) == Total(d)
  {
    match op
    case TouchOp(n) => TouchConserves(d, n);
    case RmOp(n) => RmConserves(d, n);
    case WriteOp(n, buf, offset) => WriteAccounts(d, n, buf, offset);
    case CpOp(s, t) => CpConserves(d, s, t);
    case OpenOp(n) => FlagsConserve(d, n);
    case CloseOp(n) => if Find(d.files, n) < |d.files| { FlagsConserve(d, n); }
    case SetSystemOp(n) => FlagsConserve(d, n);
    case DeleteSystemOp(n) => if Find(d.files, n) < |d.files| { DeleteConserves(d, Find(d.files, n)); }
  }

  lemma WriteAccounts(d: Disk, n: Name, buf: seq<byte>, offset: nat)
    requires Legal(d, WriteOp(n, buf, offset)) && Write(d, n, buf, offset).Done?
    ensures Total(Write(d, n, buf, offset).disk) + LostBy(d, WriteOp(n, buf, offset)) == Total(d)
  {
    var i := Find(d.files, n);
    if i < |d.files| && offset == d.files[i].size {
      AppendConserves(d, i, buf);
    } else if i < |d.files| && offset < d.files[i].size {
      InsertOutcome(d, i, buf, offset);
      if d.free >= ClustersNeeded(d.files[i].size + |buf|) {
        InsertStrands(d, i, buf, offset);
      }
    }
  }

  /** All that the calls of a run lose. */
  ghost function LostIn(d: Disk, ops: seq<Op>): nat
    requires LegalRun(d, ops)
    decreases |ops|
  {
    if ops == [] || Step(d, ops[0]).Halted? then 0
    else LostBy(d, ops[0]) + LostIn(Step(d, ops[0]).disk, ops[1..])
  }

  /** Over any legal run the clusters that are free or in a chain, and those that were lost, make up the disk. */
  lemma {:induction false} RunAccounts(d: Disk, ops: seq<Op>)
    requires LegalRun(d, ops) && RunSpec(d, ops).Done?
    ensures Total(RunSpec(d, ops).disk) + LostIn(d, ops) == Total(d)
    decreases |ops|
  {
    if ops != [] {
      StepAccounts(d, ops[0]);
      RunAccounts(Step(d, ops[0]).disk, ops[1..]);
    }
  }

  /** From the empty disk on: of all clusters but the one that ends the directory none is unaccounted for. */
  lemma EmptyDiskAccounts(ops: seq<Op>)
    requires LegalRun(Disk([], CLUSTER_COUNT - 2), ops) && RunSpec(Disk([], CLUSTER_COUNT - 2), ops).Done?
    ensures var d := RunSpec(Disk([], CLUSTER_COUNT - 2), ops).disk;
      d.free + RootClusters(|d.files|) + Held(d.files) + LostIn(Disk([], CLUSTER_COUNT - 2), ops) == CLUSTER_COUNT - 1
  {
    RootClustersFacts(0);
    RunAccounts(Disk([], CLUSTER_COUNT - 2), ops);
  }
}
