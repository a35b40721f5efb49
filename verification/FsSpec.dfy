/** What the file system's operations do, as functions on the state a user can
    observe: the files in directory order, how many clusters each one holds, and
    how many clusters are free. Class Vfs.FileSystem refines these functions. */
module FsSpec {
  import opened Bytes
  import opened FsLayout

  /** Why a run stops: the kernel panics, it hands out cluster 0xFFE (whose index, stored as a
      link, reads as "free"), or it writes a file's data over the directory's records. */
  datatype Fault = NoFault | OutOfClusters | SentinelLink | DirectoryHit

  /** `bytes` are the file's contents; they are left empty when the directory claims more bytes
      than the file's clusters can hold. */
  datatype File = File(name: Name, size: nat, clusters: nat, bytes: seq<byte>, open: bool, system: bool)

  datatype Disk = Disk(files: seq<File>, free: nat)

  datatype Outcome = Done(disk: Disk, code: int) | Halted(fault: Fault)

  /** The clusters can hold what the directory claims. */
  predicate Sound(f: File) { f.size <= CLUSTER_SIZE * f.clusters }

  /** The last data cluster has room for one more byte: what append_data takes for granted. */
  predicate Roomy(f: File) { f.clusters == f.size / CLUSTER_SIZE + 1 }

  ghost predicate FileOk(f: File) {
    && |f.name| < FILE_NAME_LEN && 0 !in f.name
    && 1 <= f.clusters <= f.size / CLUSTER_SIZE + 1
    && |f.bytes| == if Sound(f) then f.size else 0
  }

  ghost predicate DiskOk(d: Disk) {
    && d.free >= 1
    && (forall i :: 0 <= i < |d.files| ==> FileOk(d.files[i]))
    && (forall i, j :: 0 <= i < j < |d.files| ==> d.files[i].name != d.files[j].name)
  }

  /** Position of the file called `name`, or the number of files. */
  function Find(files: seq<File>, name: Name): (i: nat)
    ensures i <= |files| && (i < |files| ==> files[i].name == name)
    ensures forall k :: 0 <= k < i ==> files[k].name != name
  {
    if files == [] || files[0].name == name then 0 else 1 + Find(files[1..], name)
  }

  /** Releasing the directory's clusters and storing it again. */
  function Resave(oldCount: nat, d: Disk, code: int): Outcome {
    var available := d.free + RootClusters(oldCount);
    var needed := RootClusters(|d.files|);
    if available < needed then Halted(OutOfClusters)
    else if available == needed then Halted(SentinelLink)
    else Done(d.(free := available - needed), code)
  }

  /** Saving a directory of unchanged length never runs out of clusters. */
  lemma ResaveSameLength(d: Disk, code: int)
    requires d.free >= 1
    ensures Resave(|d.files|, d, code) == Done(d, code)
  {
  }

  function Touch(d: Disk, name: Name): Outcome {
    if Find(d.files, name) < |d.files| then Done(d, 1)
    else if d.free < 2 then Resave(|d.files|, d, 0)
    else if d.free == 2 then Halted(SentinelLink)
    else Resave(|d.files|, Disk(d.files + [File(name, 0, 1, [], false, false)], d.free - 2), 0)
  }

  /** How touch() ends for a name that is not taken. */
  lemma TouchOutcome(d: Disk, name: Name)
    requires Find(d.files, name) == |d.files|
    ensures d.free < 2 ==> Touch(d, name) == Resave(|d.files|, d, 0)
    ensures d.free == 2 ==> Touch(d, name) == Halted(SentinelLink)
    ensures d.free > 2 ==>
      Touch(d, name) == Resave(|d.files|, Disk(d.files + [File(name, 0, 1, [], false, false)], d.free - 2), 0)
  {
  }

  function Delete(d: Disk, i: nat): Outcome
    requires i < |d.files|
  {
    Resave(|d.files|, Disk(d.files[..i] + d.files[i + 1..], d.free + d.files[i].clusters + 1), 0)
  }

  function Rm(d: Disk, name: Name): Outcome {
    var i := Find(d.files, name);
    if i == |d.files| || d.files[i].system then Done(d, 1) else Delete(d, i)
  }

  function DeleteSystemFile(d: Disk, name: Name): Outcome {
    var i := Find(d.files, name);
    if i == |d.files| then Done(d, 1) else Delete(d, i)
  }

  function SetAsSystemFile(d: Disk, name: Name): Outcome
    requires Find(d.files, name) < |d.files|
  {
    var i := Find(d.files, name);
    if d.files[i].open then Done(d, 1) else Resave(|d.files|, d.(files := d.files[i := d.files[i].(system := true)]), 0)
  }

  function OpenFile(d: Disk, name: Name): Outcome
    requires Find(d.files, name) < |d.files|
  {
    var i := Find(d.files, name);
    if d.files[i].open then Done(d, 1) else Resave(|d.files|, d.(files := d.files[i := d.files[i].(open := true)]), 0)
  }

  function CloseFile(d: Disk, name: Name): Outcome {
    var i := Find(d.files, name);
    if i == |d.files| || !d.files[i].open then Done(d, 1)
    else Resave(|d.files|, d.(files := d.files[i := d.files[i].(open := false)]), 0)
  }

  // ---------- append ----------

  /** Bytes that append_data puts into what it takes for the last cluster. */
  function HeadBytes(size: nat, len: nat): (n: nat)
    ensures n <= len && n <= CLUSTER_SIZE - size % CLUSTER_SIZE
  {
    if len < CLUSTER_SIZE - size % CLUSTER_SIZE then len else CLUSTER_SIZE - size % CLUSTER_SIZE
  }

  lemma HeadFills(size: nat, len: nat)
    requires HeadBytes(size, len) < len
    ensures HeadBytes(size, len) == CLUSTER_SIZE - size % CLUSTER_SIZE
  {
  }

  /** Data clusters that appending `len` bytes adds. */
  function NewClusters(size: nat, len: nat): nat {
    ClustersNeeded(len - HeadBytes(size, len))
  }

  function Appended(f: File, buf: seq<byte>): File {
    if buf == [] then f
    else f.(size := f.size + |buf|, clusters := f.clusters + NewClusters(f.size, |buf|),
            bytes := if Roomy(f) then f.bytes + buf else [])
  }

  /** The file after an append that ran out of space: the head of `buf` is already in place. */
  function Overrun(f: File, buf: seq<byte>): File
    requires |buf| >= CLUSTER_SIZE || Roomy(f) || !Sound(f)
  {
    if Roomy(f) || !Sound(f) || |f.bytes| < CLUSTER_SIZE then f
    else f.(bytes := f.bytes[..|f.bytes| - CLUSTER_SIZE] + buf[..CLUSTER_SIZE])
  }

  function Append(d: Disk, i: nat, buf: seq<byte>): Outcome
    requires i < |d.files| && FileOk(d.files[i])
  {
    var f := d.files[i];
    var added := NewClusters(f.size, |buf|);
    if added > 0 && d.free < added then Done(d.(files := d.files[i := Overrun(f, buf)]), 0)
    else if added > 0 && d.free == added then Halted(SentinelLink)
    else Resave(|d.files|, Disk(d.files[i := Appended(f, buf)], d.free - added), 0)
  }

  /** The three ways an append can end. */
  lemma AppendOutcome(d: Disk, i: nat, buf: seq<byte>)
    requires i < |d.files| && FileOk(d.files[i])
    ensures var f, head := d.files[i], HeadBytes(d.files[i].size, |buf|);
      var added := ClustersNeeded(|buf| - head);
      && NewClusters(f.size, |buf|) == added
      && (|buf| == head ==> added == 0)
      && (|buf| > head ==> added > 0)
      && (added > 0 && d.free < added ==> Append(d, i, buf) == Done(d.(files := d.files[i := Overrun(f, buf)]), 0))
      && (added > 0 && d.free == added ==> Append(d, i, buf) == Halted(SentinelLink))
      && (added == 0 || d.free > added ==>
            Append(d, i, buf) == Resave(|d.files|, Disk(d.files[i := Appended(f, buf)], d.free - added), 0))
  {
  }

  // ---------- write ----------

  /** The file cut off at `offset`, which must lie below its end. */
  function CutFile(f: File, offset: nat): File
    requires offset <= |f.bytes|
  {
    f.(size := offset, clusters := offset / CLUSTER_SIZE + 1, bytes := f.bytes[..offset])
  }

  lemma CutFileFacts(f: File, offset: nat)
    requires offset <= |f.bytes|
    ensures CutFile(f, offset).name == f.name && CutFile(f, offset).size == offset
  {
  }

  /** Clusters released by the cut: all data clusters behind the one that becomes the new EOF cluster. */
  function CutReleases(f: File, offset: nat): nat {
    if f.clusters >= offset / CLUSTER_SIZE + 2 then f.clusters - offset / CLUSTER_SIZE - 2 else 0
  }

  /** How many bytes write() takes for the tail behind `offset`; below zero it wraps. */
  function TailLength(f: File, offset: nat): int {
    CLUSTER_SIZE * f.clusters - offset - (CLUSTER_SIZE - f.size % CLUSTER_SIZE)
  }

  /** The file occupies exactly the clusters its size calls for; if it did not, write() below the end would leave
      its temporary buffer or the chain. */
  predicate InsertLegal(f: File) { f.clusters == ClustersNeeded(f.size) }

  /** The tail as it is appended again. In the last cluster of a file that fills it the length has wrapped:
      the buffer holds what was read and zeros, and append_data takes it for almost 4 GB long. */
  function TailSeen(f: File, offset: nat): (t: seq<byte>)
    requires |f.bytes| == f.size && offset < f.size && InsertLegal(f)
    ensures var n := TailLength(f, offset);
      0 < n + CLUSTER_SIZE && n <= f.size - offset && |t| == if n >= 0 then n else 0x1_0000_0000 + n
  {
    var n := TailLength(f, offset);
    if n >= 0 then f.bytes[offset..offset + n] else f.bytes[offset..] + Zeros(0x1_0000_0000 + n - (f.size - offset))
  }

  function Insert(d: Disk, i: nat, buf: seq<byte>, offset: nat): Outcome
    requires i < |d.files| && FileOk(d.files[i]) && offset < d.files[i].size && InsertLegal(d.files[i])
  {
    var f := d.files[i];
    if d.free < ClustersNeeded(f.size + |buf|) then Done(d, 1)
    else
      var cut := Disk(d.files[i := CutFile(f, offset)], d.free + CutReleases(f, offset));
      match Append(cut, i, buf)
      case Halted(e) => Halted(e)
      case Done(mid, _) =>
        InsertMiddle(cut, i, buf);
        Append(mid, i, TailSeen(f, offset))
  }

  lemma InsertMiddle(d: Disk, i: nat, buf: seq<byte>)
    requires i < |d.files| && FileOk(d.files[i])
    ensures var o := Append(d, i, buf);
      o.Done? ==> |o.disk.files| == |d.files| && FileOk(o.disk.files[i]) && o.disk.files[i].name == d.files[i].name
  {
    FileOkAfterAppend(d.files[i], buf);
  }

  lemma FileOkAfterAppend(f: File, buf: seq<byte>)
    requires FileOk(f)
    ensures FileOk(Appended(f, buf))
    ensures |buf| >= CLUSTER_SIZE || Roomy(f) || !Sound(f) ==> FileOk(Overrun(f, buf))
    ensures !Roomy(f) && buf != [] ==> !Sound(Appended(f, buf))
    ensures Roomy(f) ==> Sound(f) && Sound(Appended(f, buf))
  {
    var added := NewClusters(f.size, |buf|);
    var head := HeadBytes(f.size, |buf|);
    assert CLUSTER_SIZE * added >= |buf| - head && (added == 0 || CLUSTER_SIZE * (added - 1) < |buf| - head);
  }

  lemma FindSame(files: seq<File>, i: nat, f: File, name: Name)
    requires i < |files| && f.name == files[i].name
    ensures Find(files[i := f], name) == Find(files, name)
  {
    var a, b := Find(files, name), Find(files[i := f], name);
    assert forall k :: 0 <= k < |files| ==> files[i := f][k].name == files[k].name;
  }

  /** Between the two appends of an insertion file i is still in its place. */
  lemma InsertMiddleFile(d: Disk, i: nat, buf: seq<byte>, name: Name)
    requires i < |d.files| && FileOk(d.files[i]) && Append(d, i, buf).Done? && Find(d.files, name) == i
    ensures var mid := Append(d, i, buf).disk;
      Find(mid.files, name) == i && i < |mid.files| && mid.files[i].size <= d.files[i].size + |buf|
  {
    var mid := Append(d, i, buf).disk;
    assert mid.files == d.files[i := mid.files[i]];
    FindSame(d.files, i, mid.files[i], name);
  }

  /** File i of d was cut off at `offset`, giving d'; `tail` starts with the bytes that were behind it. */
  ghost predicate CutTo(d: Disk, d': Disk, i: nat, offset: nat, tail: seq<byte>) {
    && i < |d.files| && offset < d.files[i].size && InsertLegal(d.files[i])
    && var f := d.files[i];
    && |f.bytes| == f.size
    && d' == Disk(d.files[i := CutFile(f, offset)], d.free + CutReleases(f, offset))
    && |tail| == CLUSTER_SIZE * f.clusters - offset >= f.size - offset && tail[..f.size - offset] == f.bytes[offset..]
  }

  /** write() below the end, put together from its two appends. */
  lemma InsertOutcome(d: Disk, i: nat, buf: seq<byte>, offset: nat)
    requires i < |d.files| && FileOk(d.files[i]) && offset < d.files[i].size && InsertLegal(d.files[i])
    ensures var f := d.files[i];
      var cut := Disk(d.files[i := CutFile(f, offset)], d.free + CutReleases(f, offset));
      && FileOk(cut.files[i]) && |f.bytes| == f.size
      && (d.free < ClustersNeeded(f.size + |buf|) ==> Insert(d, i, buf, offset) == Done(d, 1))
      && (d.free >= ClustersNeeded(f.size + |buf|) ==>
            match Append(cut, i, buf)
            case Halted(e) => Insert(d, i, buf, offset) == Halted(e)
            case Done(mid, _) =>
              |mid.files| == |d.files| && FileOk(mid.files[i]) &&
              Insert(d, i, buf, offset) == Append(mid, i, TailSeen(f, offset)))
  {
    hide Append, FileOk;
    var f := d.files[i];
    CutFileOk(f, offset);
    InsertMiddle(Disk(d.files[i := CutFile(f, offset)], d.free + CutReleases(f, offset)), i, buf);
  }

  lemma CutFileOk(f: File, offset: nat)
    requires FileOk(f) && offset < f.size && InsertLegal(f)
    ensures Sound(f) && |f.bytes| == f.size
    ensures FileOk(CutFile(f, offset))
  {
  }

  /** write(): past the end is refused, at the end appends, below the end inserts. */
  predicate WriteLegal(d: Disk, name: Name, offset: nat) {
    var i := Find(d.files, name);
    i < |d.files| && offset < d.files[i].size ==> InsertLegal(d.files[i])
  }

  function Write(d: Disk, name: Name, buf: seq<byte>, offset: nat): Outcome
    requires DiskOk(d) && WriteLegal(d, name, offset)
  {
    var i := Find(d.files, name);
    if i == |d.files| || offset > d.files[i].size then Done(d, 1)
    else if offset == d.files[i].size then Append(d, i, buf)
    else Insert(d, i, buf, offset)
  }

  // ---------- copy ----------

  /** cp() up to the point where the (empty or system) destination is in place. */
  function CpTarget(d: Disk, des: Name): Outcome {
    var removed := if Find(d.files, des) < |d.files| then Rm(d, des) else Done(d, 0);
    if removed.Halted? then removed else Touch(removed.disk, des)
  }

  /** cp() does not run on a destination that touch() failed to create. */
  predicate CpLegal(d: Disk, src: Name, des: Name) {
    var i := Find(d.files, src);
    src != des && i < |d.files| && CpTarget(d, des).Done?
      && CpTarget(d, des).disk.free >= ClustersNeeded(d.files[i].size)
    ==> Find(CpTarget(d, des).disk.files, des) < |CpTarget(d, des).disk.files|
  }

  /** The destination takes over size, clusters and contents of the source file f. */
  function CpFinish(d: Disk, f: File, des: Name): Outcome
    requires Find(d.files, des) < |d.files|
  {
    if d.free + 1 <= f.clusters then Halted(SentinelLink)
    else Done(Disk(WithContents(d.files, Find(d.files, des), f), d.free + 1 - f.clusters), 0)
  }

  function WithContents(files: seq<File>, k: nat, f: File): seq<File>
    requires k < |files|
  {
    files[k := files[k].(size := f.size, clusters := f.clusters, bytes := f.bytes)]
  }

  function Cp(d: Disk, src: Name, des: Name): Outcome
    requires CpLegal(d, src, des)
  {
    var i := Find(d.files, src);
    if src == des || i == |d.files| then Done(d, 1)
    else
      var made := CpTarget(d, des);
      if made.Halted? then made
      else if made.disk.free < ClustersNeeded(d.files[i].size) then Done(made.disk, 1)
      else CpFinish(made.disk, d.files[i], des)
  }

  lemma CpSteps(d: Disk, src: Name, des: Name)
    requires CpLegal(d, src, des)
    ensures src == des || Find(d.files, src) == |d.files| ==> Cp(d, src, des) == Done(d, 1)
    ensures src != des && Find(d.files, src) < |d.files| ==>
      var f, made := d.files[Find(d.files, src)], CpTarget(d, des);
      if made.Halted? then Cp(d, src, des) == made
      else if made.disk.free < ClustersNeeded(f.size) then Cp(d, src, des) == Done(made.disk, 1)
      else Find(made.disk.files, des) < |made.disk.files| && Cp(d, src, des) == CpFinish(made.disk, f, des)
  {
  }

  /** The source is untouched while the destination of cp() is put in place. */
  lemma CpTargetKeeps(d: Disk, src: Name, des: Name)
    requires src != des && Find(d.files, src) < |d.files| && CpTarget(d, des).Done?
    ensures var d2 := CpTarget(d, des).disk; var k := Find(d2.files, src);
      k < |d2.files| && d2.files[k] == d.files[Find(d.files, src)]
  {
    hide Find;
    var i, j := Find(d.files, src), Find(d.files, des);
    if j < |d.files| {
      var d1 := Rm(d, des).disk;
      if d1 != d {
        FindWithout(d.files, j, src);
      }
      FindAppended(d1.files, File(des, 0, 1, [], false, false), src);
    } else {
      FindAppended(d.files, File(des, 0, 1, [], false, false), src);
    }
  }

  lemma FindWithout(files: seq<File>, j: nat, name: Name)
    requires j < |files| && files[j].name != name && Find(files, name) < |files|
    ensures var fs := files[..j] + files[j + 1..];
      Find(fs, name) < |fs| && fs[Find(fs, name)] == files[Find(files, name)]
  {
    var fs, i := files[..j] + files[j + 1..], Find(files, name);
    var k := if i < j then i else i - 1;
    assert fs[k] == files[i];
    assert forall m :: 0 <= m < k ==> fs[m] == files[if m < j then m else m + 1];
  }

  lemma FindAppended(files: seq<File>, f: File, name: Name)
    requires Find(files, name) < |files|
    ensures Find(files + [f], name) == Find(files, name)
  {
    var a, b := Find(files, name), Find(files + [f], name);
    assert (files + [f])[a] == files[a];
    assert forall m :: 0 <= m < |files| ==> (files + [f])[m] == files[m];
  }

  /** rm() removes one file or none, touch() adds one or none. */
  lemma RmLength(d: Disk, name: Name)
    requires Rm(d, name).Done?
    ensures |d.files| - 1 <= |Rm(d, name).disk.files| <= |d.files|
    ensures Find(d.files, name) < |d.files| ==> |d.files| > 0
  {
  }

  lemma CpTargetLength(d: Disk, name: Name)
    requires CpTarget(d, name).Done?
    ensures |d.files| - 1 <= |CpTarget(d, name).disk.files| <= |d.files| + 1
  {
    hide CpTarget, Resave;
    CpTargetSteps(d, name);
    if Find(d.files, name) < |d.files| {
      RmLength(d, name);
      TouchLength(Rm(d, name).disk, name);
    } else {
      TouchLength(d, name);
    }
  }

  lemma TouchLength(d: Disk, name: Name)
    requires Touch(d, name).Done?
    ensures |d.files| <= |Touch(d, name).disk.files| <= |d.files| + 1
  {
  }

  lemma CpTargetSteps(d: Disk, name: Name)
    ensures Find(d.files, name) == |d.files| ==> CpTarget(d, name) == Touch(d, name)
    ensures Find(d.files, name) < |d.files| && Rm(d, name).Halted? ==> CpTarget(d, name) == Rm(d, name)
    ensures Find(d.files, name) < |d.files| && Rm(d, name).Done? ==> CpTarget(d, name) == Touch(Rm(d, name).disk, name)
  {
  }
}
