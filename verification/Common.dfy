/** print_to_stream (common.cpp): a terminal's log, kept in a file and cut down
    to its last 200 bytes whenever it has grown that long. */
module Common {
  import opened Bytes
  import opened FsLayout
  import opened FsChains
  import opened FsSpec
  import opened FsLike
  import opened FsProps
  import opened FsState
  import opened FsRuns
  import opened FsFirstFit
  import opened FsPlan
  import opened Vfs

  const MAX_SHELL_FILE_SIZE: nat := 200
  const NEWLINE: seq<byte> := [13, 10]

  /** The last 200 bytes, or all of them. */
  function LogEnd(b: seq<byte>): (r: seq<byte>) {
    if |b| >= MAX_SHELL_FILE_SIZE then b[|b| - MAX_SHELL_FILE_SIZE..] else b
  }

  /** r holds the last 200 bytes of b, or all of them if there are fewer. */
  predicate EndOf(b: seq<byte>, r: seq<byte>) {
    if |b| < MAX_SHELL_FILE_SIZE then r == b
    else |r| == MAX_SHELL_FILE_SIZE && forall k :: 0 <= k < |r| ==> r[k] == b[|b| - MAX_SHELL_FILE_SIZE + k]
  }

  lemma LogEndIs(b: seq<byte>)
    ensures EndOf(b, LogEnd(b))
  {
  }

  /** The end of what follows an end is the end of it all. */
  lemma EndOn(a: seq<byte>, r: seq<byte>, b: seq<byte>, q: seq<byte>)
    requires EndOf(a, r) && EndOf(r + b, q)
    ensures EndOf(a + b, q)
  {
    if |a| >= MAX_SHELL_FILE_SIZE {
      forall k | 0 <= k < |q| ensures q[k] == (a + b)[|a + b| - MAX_SHELL_FILE_SIZE + k] {
        var i := |b| + k;
        assert (r + b)[i] == if i < MAX_SHELL_FILE_SIZE then r[i] else b[i - MAX_SHELL_FILE_SIZE];
      }
    } else {
      assert r + b == a + b;
    }
  }

  /** From m to m' the text was printed to the log called `name`: it holds the end of what it held and the text,
      and no other file has come, gone or changed. Nothing is said of the bytes of files in `hit`. */
  ghost predicate LogPrinted(m: map<Name, seq<byte>>, m': map<Name, seq<byte>>, name: Name, text: seq<byte>,
                             hit: set<Name>) {
    && name in m && m'.Keys == m.Keys
    && forall n :: n in m && n !in hit ==> if n == name then EndOf(m[n] + text, m'[n]) else m'[n] == m[n]
  }

  lemma LogLike(m: map<Name, seq<byte>>, d: Disk, e: Disk, name: Name, text: seq<byte>, hit: set<Name>)
    requires Like(d, e, hit) && LogPrinted(m, View(e.files), name, text, {})
    ensures LogPrinted(m, View(d.files), name, text, hit)
  {
    hide View, EndOf, Like;
    ViewLike(d, e, hit);
  }

  // ---------- cutting the log down ----------

  /** The log file after the cut: a new system file at the end of the directory. */
  function Trimmed(d: Disk, i: nat): Disk
    requires i < |d.files| && |d.files[i].bytes| >= MAX_SHELL_FILE_SIZE && d.free + d.files[i].clusters >= 4
  {
    var f := d.files[i];
    Disk(d.files[..i] + d.files[i + 1..] + [File(f.name, 200, 4, LogEnd(f.bytes), false, true)],
         d.free + f.clusters - 4)
  }

  /** delete_system_file, touch and set_as_system_file in a row. */
  lemma TrimTouch(d: Disk, i: nat)
    requires DiskOk(d) && i < |d.files| && d.files[i].clusters >= 4
    ensures var name, rest := d.files[i].name, d.files[..i] + d.files[i + 1..];
      var f := File(name, 0, 1, [], false, false);
      && Find(d.files, name) == i && DeleteSystemFile(d, name).Done?
      && var d1 := DeleteSystemFile(d, name).disk;
      && |d1.files| == |d.files| - 1
      && Touch(d1, name) == Done(Disk(rest + [f], d.free + d.files[i].clusters - 1), 0)
      && Find(rest + [f], name) == |rest|
  {
    var name, rest := d.files[i].name, d.files[..i] + d.files[i + 1..];
    assert Find(d.files, name) == i;
    DeleteHalts(d, i);
    FindGone(d.files, i);
    RootClustersFacts(|d.files| - 1);
    var d1 := Delete(d, i).disk;
    assert d1.files == rest;
    TouchOutcome(d1, name);
    TouchFinds(d1, name);
  }

  lemma TrimWrite(d: Disk, i: nat, text: seq<byte>)
    requires i < |d.files| && |text| == MAX_SHELL_FILE_SIZE && d.free > 3
    requires d.files[i] == File(d.files[i].name, 0, 1, [], false, false) && Find(d.files, d.files[i].name) == i
    requires |d.files[i].name| < FILE_NAME_LEN && 0 !in d.files[i].name
    ensures var f := d.files[i].(system := true);
      var d1 := Disk(d.files[i := f], d.free);
      && SetAsSystemFile(d, f.name) == Done(d1, 0) && Find(d1.files, f.name) == i && FileOk(f)
      && Append(d1, i, text) == Done(Disk(d.files[i := File(f.name, 200, 4, text, false, true)], d.free - 3), 0)
  {
    var f := d.files[i].(system := true);
    var d1 := Disk(d.files[i := f], d.free);
    ResaveSameLength(d1, 0);
    FindSame(d.files, i, f, f.name);
    ClustersAfter(0, 200);
    AppendSucceeds(d1, i, text);
    assert Appended(f, text).bytes == [] + text == text;
  }

  /** The same cut of two files that differ in bytes, if at all. */
  lemma TrimmedLike(d: Disk, e: Disk, i: nat, hit: set<Name>)
    requires Like(d, e, hit) && i < |d.files| && |d.files[i].bytes| >= MAX_SHELL_FILE_SIZE
    requires d.free + d.files[i].clusters >= 4
    ensures |e.files[i].bytes| >= MAX_SHELL_FILE_SIZE && e.free + e.files[i].clusters >= 4
    ensures Like(Trimmed(d, i), Trimmed(e, i), hit)
  {
    LikeAt(d, e, hit, i);
    AlikeRemove(d.files, e.files, hit, i);
  }

  /** What the cut does, as a run of calls. */
  function TrimOps(name: Name, text: seq<byte>): seq<Op> {
    [DeleteSystemOp(name), TouchOp(name), SetSystemOp(name), WriteOp(name, text, 0)]
  }

  /** What lies between the calls of the cut. */
  ghost function TrimPlan(p: Plan, d: Disk, name: Name): (r: Plan)
    requires Fit(p.a, d) && DeleteSystemFile(d, name).Done? && Touch(DeleteSystemFile(d, name).disk, name).Done?
    ensures Fit(r.a, Touch(DeleteSystemFile(d, name).disk, name).disk)
  {
    var e := DeleteSystemFile(d, name).disk;
    FlagPlan(TouchPlan(DeleteSystemPlan(p, d, name), e, name), Touch(e, name).disk, false)
  }

  lemma EmptyRun(p: Plan, d: Disk)
    ensures LegalRun(d, []) && RunSpec(d, []) == Done(d, 0)
    ensures RunFits(d, []) && (Fit(p.a, d) ==> RunPlan(p, d, []) == p)
  {
  }

  /** The cut is the run of its calls. */
  lemma TrimRun(p: Plan, d: Disk, i: nat, text: seq<byte>)
    requires Fit(p.a, d) && TrimReady(d, i, text)
    ensures var name, n := d.files[i].name, |d.files| - 1;
      && LegalRun(d, TrimOps(name, text)) && RunSpec(d, TrimOps(name, text)) == Done(Trimmed(d, i), 0)
      && DeleteSystemFile(d, name).Done? && Touch(DeleteSystemFile(d, name).disk, name).Done?
      && var e := Touch(DeleteSystemFile(d, name).disk, name).disk;
      Find(e.files, name) == n < |e.files| && SetAsSystemFile(e, name).Done?
      && var e', q := SetAsSystemFile(e, name).disk, TrimPlan(p, d, name);
      && n < |e'.files| && Fit(q.a, e') && RunPlan(p, d, TrimOps(name, text)) == AppendPlan(q, e', n, |text|)
    ensures Fits(|d.files|) && Fits(|d.files| - 1) ==> RunFits(d, TrimOps(d.files[i].name, text))
  {
    hide Fit, FsSpec.Touch, FsSpec.DeleteSystemFile, FsSpec.SetAsSystemFile, FsSpec.Append, RunPlan, LegalRun, RunSpec,
      TouchPlan, DeleteSystemPlan, FlagPlan, AppendPlan, Trimmed, Fits, RunFits, DiskOk, RunStops;
    var name, n := d.files[i].name, |d.files| - 1;
    TrimSteps(d, i, text);
    var d1 := FsSpec.DeleteSystemFile(d, name).disk;
    var d2 := FsSpec.Touch(d1, name).disk;
    var d3 := FsSpec.SetAsSystemFile(d2, name).disk;
    var delete, touch, mark, write := DeleteSystemOp(name), TouchOp(name), SetSystemOp(name), WriteOp(name, text, 0);
    assert FileOk(d.files[i]) by { DiskOkAt(d, i); }
    StepOk(d, delete);
    StepOk(d1, touch);
    StepOk(d2, mark);
    var p1 := StepPlan(p, d, delete);
    StepFit(p, d, delete);
    var p2 := StepPlan(p1, d1, touch);
    StepFit(p1, d1, touch);
    var p3 := StepPlan(p2, d2, mark);
    StepFit(p2, d2, mark);
    StepFit(p3, d3, write);
    EmptyRun(StepPlan(p3, d3, write), Trimmed(d, i));
    assert [write] + [] == [write];
    RunFrom(p3, d3, write, []);
    RunFrom(p2, d2, mark, [write]);
    RunFrom(p1, d1, touch, [mark] + [write]);
    RunFrom(p, d, delete, [touch] + ([mark] + [write]));
    assert TrimOps(name, text) == [delete] + ([touch] + ([mark] + [write]));
  }

  /** The file is there to be cut down, and `text` is what stays of it. */
  ghost predicate TrimReady(d: Disk, i: nat, text: seq<byte>) {
    && DiskOk(d) && i < |d.files| && d.files[i].clusters >= 4 && |d.files[i].bytes| >= MAX_SHELL_FILE_SIZE
    && text == LogEnd(d.files[i].bytes)
  }

  /** The end of print_to_stream: the last 200 bytes are read, and the file is deleted and written anew. */
  method TrimStream(fs: FileSystem, name: Name)
    requires fs.Valid() && GoodName(name) && Find(fs.Files(), name) < |fs.Files()|
    requires var f := fs.FileNamed(name); Sound(f) && MAX_SHELL_FILE_SIZE <= f.size < 0x1_0000_0000
    modifies fs, fs.fat, fs.data
    ensures fs.fault == NoFault && fs.Valid() && old(fs.hit) <= fs.hit
    ensures var i := old(Find(fs.Files(), name));
      && old(fs.Abs().free + fs.Files()[i].clusters >= 4 && |fs.Files()[i].bytes| >= MAX_SHELL_FILE_SIZE)
      && Like(fs.Abs(), Trimmed(old(fs.Abs()), i), fs.hit)
    ensures LogPrinted(old(View(fs.Files())), View(fs.Files()), name, [], fs.hit)
    ensures var d, ops := old(fs.Abs()), TrimOps(name, LogEnd(old(fs.FileNamed(name)).bytes));
      LegalRun(d, ops) && fs.At() == RunPlan(old(fs.At()), d, ops)
  {
    hide Placed, Shaped, AbsFiles, FatWf, DirOk, FreeCount, Trimmed, AlikeFiles, Like, RunPlan, LegalRun, Fit,
      View, LogPrinted;
    ghost var d, i := fs.Abs(), Find(fs.Files(), name);
    fs.ValidDiskOk();
    assert FileOk(d.files[i]);
    var text := ReadEnd(fs, name);
    Rewrite(fs, name, text, d, i);
    TrimmedLog(d, i);
    LogLike(View(d.files), fs.Abs(), Trimmed(d, i), name, [], fs.hit);
  }

  lemma TrimmedLog(d: Disk, i: nat)
    requires DiskOk(d) && i < |d.files| && |d.files[i].bytes| >= MAX_SHELL_FILE_SIZE
    requires d.free + d.files[i].clusters >= 4
    ensures LogPrinted(View(d.files), View(Trimmed(d, i).files), d.files[i].name, [], {})
  {
    hide View, EndOf, LogEnd, Find;
    var f := d.files[i];
    var g := File(f.name, 200, 4, LogEnd(f.bytes), false, true);
    assert f.bytes + [] == f.bytes;
    LogEndIs(f.bytes);
    ViewAt(d.files, f.name);
    FindFirst(d, i);
    ViewRemove(d.files, i);
    FindGone(d.files, i);
    ViewSnoc(d.files[..i] + d.files[i + 1..], g);
  }

  /** The last 200 bytes of a file. */
  method ReadEnd(fs: FileSystem, name: Name) returns (text: seq<byte>)
    requires fs.Valid() && GoodName(name) && Find(fs.Files(), name) < |fs.Files()|
    requires var f := fs.FileNamed(name); Sound(f) && MAX_SHELL_FILE_SIZE <= f.size < 0x1_0000_0000
    ensures text == LogEnd(fs.FileNamed(name).bytes) && EndOf(fs.FileNamed(name).bytes, text)
  {
    hide Placed, Shaped, AbsFiles;
    LogEndIs(fs.FileNamed(name).bytes);
    assert Normalize(name) == name;
    var size := GetFileSize(fs, name);
    var code;
    code, text := fs.Read(name, size - MAX_SHELL_FILE_SIZE, MAX_SHELL_FILE_SIZE);
    ghost var all := fs.FileNamed(name).bytes;
    assert all[size - MAX_SHELL_FILE_SIZE..size] == all[size - MAX_SHELL_FILE_SIZE..];
  }

  /** Deleting the log file and writing it anew. */
  method Rewrite(fs: FileSystem, name: Name, text: seq<byte>, ghost d: Disk, ghost i: nat)
    requires fs.Valid() && d == fs.Abs() && GoodName(name) && TrimReady(d, i, text) && d.files[i].name == name
    modifies fs, fs.fat, fs.data
    ensures fs.fault == NoFault && fs.Valid() && Like(fs.Abs(), Trimmed(d, i), fs.hit) && old(fs.hit) <= fs.hit
    ensures LegalRun(d, TrimOps(name, text)) && Fit(old(fs.At()).a, d)
    ensures fs.At() == RunPlan(old(fs.At()), d, TrimOps(name, text))
  {
    hide Placed, Shaped, AbsFiles, FatWf, DirOk, FreeCount, Resave, FsSpec.Touch, FsSpec.DeleteSystemFile,
      FsSpec.Append;
    hide FsSpec.SetAsSystemFile, Insert, Find, FileOk, AlikeFiles, FsSpec.Write, Trimmed, RunPlan, LegalRun, RunSpec,
      Fit, FlagPlan, TouchPlan, DeleteSystemPlan, AppendPlan;
    TrimSteps(d, i, text);
    TrimRun(fs.At(), d, i, text);
    ghost var e, n := FsSpec.Touch(FsSpec.DeleteSystemFile(d, name).disk, name).disk, |d.files| - 1;
    Recreate(fs, name, d);
    ghost var now, some := fs.Abs(), fs.hit;
    FlagsLike(now, e, name, some);
    FlagOf(fs.At(), now, e, name, some);
    assert Normalize(name) == name;
    var code := fs.SetAsSystemFile(name);
    fs.RefinesOn(FsSpec.SetAsSystemFile(now, name), FsSpec.SetAsSystemFile(e, name), code, some);
    WriteText(fs, name, text, FsSpec.SetAsSystemFile(e, name).disk, n);
  }

  /** All the steps: the file is deleted, made anew, marked and written. */
  lemma TrimSteps(d: Disk, i: nat, text: seq<byte>)
    requires TrimReady(d, i, text)
    ensures var name, n := d.files[i].name, |d.files| - 1;
      var o1 := FsSpec.DeleteSystemFile(d, name);
      && o1.Done? && FsSpec.Touch(o1.disk, name).Done? && |o1.disk.files| == n
      && var e := FsSpec.Touch(o1.disk, name).disk;
      |e.files| == n + 1 && Find(e.files, name) == n && !e.files[n].open
      && var o2 := FsSpec.SetAsSystemFile(e, name);
      && o2.Done? && |o2.disk.files| == n + 1 && Find(o2.disk.files, name) == n && o2.disk.free > 3
      && FileOk(o2.disk.files[n]) && o2.disk.files[n].size == 0
      && Append(o2.disk, n, text).Done? && Append(o2.disk, n, text).disk == Trimmed(d, i)
  {
    hide FsSpec.Touch, FsSpec.DeleteSystemFile, FsSpec.Append, FsSpec.SetAsSystemFile, Find;
    TrimTouch(d, i);
    var name, n := d.files[i].name, |d.files| - 1;
    var e := FsSpec.Touch(FsSpec.DeleteSystemFile(d, name).disk, name).disk;
    assert FileOk(d.files[i]);
    TrimWrite(e, n, text);
    assert e.files[n := File(name, 200, 4, text, false, true)]
        == d.files[..i] + d.files[i + 1..] + [File(name, 200, 4, text, false, true)];
  }

  /** The log file is deleted and made anew, at the end of the directory. */
  method Recreate(fs: FileSystem, name: Name, ghost d: Disk)
    requires fs.Valid() && d == fs.Abs() && GoodName(name) && FsSpec.DeleteSystemFile(d, name).Done?
    requires var e := FsSpec.DeleteSystemFile(d, name).disk; FsSpec.Touch(e, name).Done? && |e.files| == |d.files| - 1
    modifies fs, fs.fat, fs.data
    ensures fs.fault == NoFault && fs.Valid() && old(fs.hit) <= fs.hit
    ensures Like(fs.Abs(), FsSpec.Touch(FsSpec.DeleteSystemFile(d, name).disk, name).disk, fs.hit)
    ensures Fit(old(fs.At()).a, d)
    ensures fs.At() == TouchPlan(DeleteSystemPlan(old(fs.At()), d, name), FsSpec.DeleteSystemFile(d, name).disk, name)
  {
    hide Placed, Shaped, AbsFiles, FatWf, DirOk, FreeCount, FsSpec.Touch, FsSpec.DeleteSystemFile, AlikeFiles, Fit,
      TouchPlan, DeleteSystemPlan;
    assert Normalize(name) == name;
    ghost var e := FsSpec.DeleteSystemFile(d, name).disk;
    var _ := fs.DeleteSystemFile(name);
    ghost var now, some := fs.Abs(), fs.hit;
    TouchPlanLike(fs.At(), now, e, name, some);
    TouchLike(now, e, name, some);
    var code := fs.Touch(name);
    fs.RefinesOn(FsSpec.Touch(now, name), FsSpec.Touch(e, name), code, some);
  }

  /** The text is written to the file, which is empty. */
  method WriteText(fs: FileSystem, name: Name, text: seq<byte>, ghost e: Disk, ghost n: nat)
    requires fs.Valid() && Like(fs.Abs(), e, fs.hit) && GoodName(name) && |text| == MAX_SHELL_FILE_SIZE
    requires n == Find(e.files, name) < |e.files| && FileOk(e.files[n]) && e.files[n].size == 0
    requires Append(e, n, text).Done? && e.free > 3
    modifies fs, fs.fat, fs.data
    ensures fs.fault == NoFault && fs.Valid()
    ensures Like(fs.Abs(), Append(e, n, text).disk, fs.hit) && old(fs.hit) <= fs.hit
    ensures Fit(old(fs.At()).a, e) && fs.At() == AppendPlan(old(fs.At()), e, n, |text|)
  {
    hide Placed, Shaped, AbsFiles, FatWf, DirOk, FreeCount, FsSpec.Append, Insert, AlikeFiles, AppendPlan, Fit;
    ghost var d, some := fs.Abs(), fs.hit;
    assert Normalize(name) == name;
    FindAlike(d.files, e.files, some, name);
    AlikeLength(d, e, some);
    LikeAt(d, e, some, n);
    ClustersAfter(0, 200);
    fs.ValidDiskOk();
    assert FileOk(d.files[n]);
    AppendLike(d, e, n, text, text, some);
    AppendPlanLike(fs.At(), d, e, n, |text|, some);
    var code := fs.Write(name, text, 0);
    fs.RefinesOn(FsSpec.Append(d, n, text), FsSpec.Append(e, n, text), code, some);
  }

  /** get_file_size: 0 for a file that does not exist. */
  method GetFileSize(fs: FileSystem, name: Name) returns (size: nat)
    requires fs.Valid()
    ensures var i := Find(fs.Files(), Normalize(name)); size == if i < |fs.Files()| then fs.Files()[i].size else 0
  {
    hide Placed, Shaped;
    var files := fs.LoadRootFolder();
    PlacedWf(fs.fat[..], fs.data[..], fs.cs, fs.recs);
    var i := fs.GetFile(files, Normalize(name));
    FindAgrees(fs.data[..], fs.recs, fs.cs, Normalize(name), i);
    if i == |files| {
      return 0;
    }
    assert fs.Files()[i] == AbsFile(fs.data[..], files[i], fs.cs[i]);
    size := files[i].size;
  }

  // ---------- printing ----------

  /** The bytes that one call prints. */
  function Printed(buffer: seq<byte>, newline: bool): seq<byte> {
    buffer + if newline then NEWLINE else []
  }

  /** The log file has room for the buffer, and then for the line break, and there are clusters to spare. */
  ghost predicate Printable(d: Disk, i: nat, buffer: seq<byte>, newline: bool) {
    && CanPrint(d, i, buffer, newline)
    && (newline ==> LeavesRoom(d.files[i].size, |buffer|))
  }

  /** The same without regard to whether the buffer leaves room for the line break. */
  ghost predicate CanPrint(d: Disk, i: nat, buffer: seq<byte>, newline: bool) {
    && DiskOk(d) && i < |d.files| && Roomy(d.files[i])
    && d.files[i].size + |buffer| + 2 < 0x1_0000_0000
    && d.free > PrintClusters(d.files[i].size, |buffer|, newline)
  }

  /** Clusters that a print takes. */
  function PrintClusters(size: nat, len: nat, newline: bool): nat {
    NewClusters(size, len) + if newline then NewClusters(size + len, 2) else 0
  }

  function WithAppended(d: Disk, i: nat, buf: seq<byte>): Disk
    requires i < |d.files| && d.free >= NewClusters(d.files[i].size, |buf|)
  {
    Disk(d.files[i := Appended(d.files[i], buf)], d.free - NewClusters(d.files[i].size, |buf|))
  }

  /** A write at the end of the file, when there is room for it. */
  lemma PrintStep(d: Disk, i: nat, buf: seq<byte>)
    requires DiskOk(d) && i < |d.files| && Roomy(d.files[i]) && d.free > NewClusters(d.files[i].size, |buf|)
    ensures var f, d' := d.files[i], WithAppended(d, i, buf);
      && Find(d.files, f.name) == i && WriteLegal(d, f.name, f.size) && Write(d, f.name, buf, f.size) == Done(d', 0)
      && d'.files[i].size == f.size + |buf| && d'.files[i].bytes == f.bytes + buf && d'.files[i].name == f.name
      && (LeavesRoom(f.size, |buf|) ==> Roomy(d'.files[i])) && Sound(d'.files[i]) && DiskOk(d')
  {
    var f := d.files[i];
    AppendSucceeds(d, i, buf);
    RoomAfterAppend(f, buf);
    var fs := d.files[i := Appended(f, buf)];
    assert forall k :: 0 <= k < |fs| ==> fs[k].name == d.files[k].name;
  }

  /** What the disk is after print_to_stream. */
  ghost predicate PrintedTo(d: Disk, d': Disk, i: nat, text: seq<byte>) {
    && i < |d.files|
    && var f := d.files[i];
    if |f.bytes| + |text| >= MAX_SHELL_FILE_SIZE then
      && |d'.files| == |d.files|
      && d'.files[..|d.files| - 1] == d.files[..i] + d.files[i + 1..]
      && var log := d'.files[|d.files| - 1];
      log == File(f.name, 200, 4, log.bytes, false, true) && EndOf(f.bytes + text, log.bytes)
    else
      && |d'.files| == |d.files| && d'.files[i].bytes == f.bytes + text && d'.files[i].name == f.name
      && d'.files == d.files[i := d'.files[i]]
  }

  /** The disk after both writes of print_to_stream. */
  function AfterPrint(d: Disk, i: nat, buffer: seq<byte>, newline: bool): Disk
    requires i < |d.files| && d.free >= PrintClusters(d.files[i].size, |buffer|, newline)
  {
    var d1 := WithAppended(d, i, buffer);
    AppendedSize(d.files[i], buffer);
    if newline then WithAppended(d1, i, NEWLINE) else d1
  }

  lemma AppendedSize(f: File, buf: seq<byte>)
    ensures Appended(f, buf).size == f.size + |buf|
  {
  }

  /** The two writes of print_to_stream. */
  lemma PrintWrites(d: Disk, i: nat, buffer: seq<byte>, newline: bool)
    requires Printable(d, i, buffer, newline)
    ensures var f, d1, d2 := d.files[i], WithAppended(d, i, buffer), AfterPrint(d, i, buffer, newline);
      && Find(d.files, f.name) == i && WriteLegal(d, f.name, f.size) && Write(d, f.name, buffer, f.size) == Done(d1, 0)
      && DiskOk(d1) && Find(d1.files, f.name) == i && d1.files[i].size == f.size + |buffer|
      && (newline ==> WriteLegal(d1, f.name, f.size + |buffer|))
      && (newline ==> Write(d1, f.name, NEWLINE, f.size + |buffer|) == Done(d2, 0))
      && DiskOk(d2) && Find(d2.files, f.name) == i && Sound(d2.files[i]) && d2.files[i].size <= f.size + |buffer| + 2
      && d2.files[i].bytes == f.bytes + Printed(buffer, newline) && |d2.files[i].bytes| == d2.files[i].size
      && d2.files[i].name == f.name && d2.files == d.files[i := d2.files[i]]
  {
    hide Write, AfterPrint;
    var f, d1, d2 := d.files[i], WithAppended(d, i, buffer), AfterPrint(d, i, buffer, newline);
    PrintStep(d, i, buffer);
    assert Find(d1.files, f.name) == i;
    if newline {
      PrintStep(d1, i, NEWLINE);
      AfterPrintIs(d, i, buffer, newline);
      assert f.bytes + buffer + NEWLINE == f.bytes + Printed(buffer, true);
      assert d2.files == d.files[i := d2.files[i]];
    } else {
      AfterPrintIs(d, i, buffer, newline);
      assert f.bytes + buffer == f.bytes + Printed(buffer, false);
    }
  }

  lemma AfterPrintIs(d: Disk, i: nat, buffer: seq<byte>, newline: bool)
    requires i < |d.files| && d.free >= PrintClusters(d.files[i].size, |buffer|, newline)
    ensures var d1 := WithAppended(d, i, buffer);
      && |d1.files| == |d.files| && (newline ==> d1.free >= NewClusters(d1.files[i].size, 2))
      && AfterPrint(d, i, buffer, newline) == if newline then WithAppended(d1, i, NEWLINE) else d1
  {
    AppendedSize(d.files[i], buffer);
  }

  /** With clusters to spare the printout is appended if and only if no line break follows a buffer that
      fills the last cluster. */
  lemma PrintsExactly(d: Disk, i: nat, buffer: seq<byte>, newline: bool)
    requires CanPrint(d, i, buffer, newline)
    ensures var f, d2 := d.files[i], AfterPrint(d, i, buffer, newline);
      && i < |d2.files|
      && (Sound(d2.files[i]) && d2.files[i].bytes == f.bytes + Printed(buffer, newline)
          <==> Printable(d, i, buffer, newline))
  {
    if Printable(d, i, buffer, newline) {
      PrintWrites(d, i, buffer, newline);
    } else {
      var f1 := Appended(d.files[i], buffer);
      AfterPrintIs(d, i, buffer, newline);
      RoomAfterAppend(d.files[i], buffer);
      FileOkAfterAppend(d.files[i], buffer);
      FileOkAfterAppend(f1, NEWLINE);
    }
  }

  /** A line of 64 characters in an empty log: the line break is lost, and the file claims 66 bytes in one cluster. */
  lemma LineOf64(name: Name, line: seq<byte>)
    requires GoodName(name) && |line| == 64
    ensures var d := Disk([File(name, 0, 1, [], false, true)], 100);
      && CanPrint(d, 0, line, true)
      && var f := AfterPrint(d, 0, line, true).files[0];
      f.size == 66 && f.clusters == 1 && !Sound(f)
  {
    var d := Disk([File(name, 0, 1, [], false, true)], 100);
    AfterPrintIs(d, 0, line, true);
  }

  /** The disk that print_to_stream leaves. */
  function PrintResult(d: Disk, i: nat, buffer: seq<byte>, newline: bool): Disk
    requires i < |d.files| && d.free >= PrintClusters(d.files[i].size, |buffer|, newline)
  {
    var d2 := AfterPrint(d, i, buffer, newline);
    if |d2.files| == |d.files| && d2.files[i].size >= MAX_SHELL_FILE_SIZE && d2.free + d2.files[i].clusters >= 4
      && |d2.files[i].bytes| >= MAX_SHELL_FILE_SIZE
    then Trimmed(d2, i) else d2
  }

  /** It is cut down, or not. */
  lemma PrintEnds(d: Disk, i: nat, buffer: seq<byte>, newline: bool)
    requires Printable(d, i, buffer, newline)
    ensures PrintedTo(d, PrintResult(d, i, buffer, newline), i, Printed(buffer, newline))
    ensures var d2 := AfterPrint(d, i, buffer, newline);
      i < |d2.files| &&
      PrintResult(d, i, buffer, newline) == if d2.files[i].size >= MAX_SHELL_FILE_SIZE then Trimmed(d2, i) else d2
  {
    hide AfterPrint, Printed;
    PrintWrites(d, i, buffer, newline);
    var d2 := AfterPrint(d, i, buffer, newline);
    LogEndIs(d2.files[i].bytes);
    assert FileOk(d2.files[i]);
    assert d2.files[..i] == d.files[..i] && d2.files[i + 1..] == d.files[i + 1..];
  }

  /** What a print leaves is told of the files alone: the log ends as everything printed to it. */
  lemma PrintsToLog(d: Disk, i: nat, buffer: seq<byte>, newline: bool)
    requires Printable(d, i, buffer, newline)
    ensures i < |d.files| && d.free >= PrintClusters(d.files[i].size, |buffer|, newline)
    ensures LogPrinted(View(d.files), View(PrintResult(d, i, buffer, newline).files), d.files[i].name,
                       Printed(buffer, newline), {})
  {
    hide PrintResult, AfterPrint, Printed, View, EndOf, LogEnd, Find;
    PrintedSize(d, i, buffer, newline);
    PrintEnds(d, i, buffer, newline);
    var f, text, d' := d.files[i], Printed(buffer, newline), PrintResult(d, i, buffer, newline);
    ViewAt(d.files, f.name);
    FindFirst(d, i);
    if |f.bytes| + |text| >= MAX_SHELL_FILE_SIZE {
      var rest, g := d.files[..i] + d.files[i + 1..], d'.files[|d.files| - 1];
      assert d'.files == rest + [g];
      ViewRemove(d.files, i);
      FindGone(d.files, i);
      ViewSnoc(rest, g);
    } else {
      EndShort(f.bytes + text);
      ViewUpdate(d.files, i, d'.files[i]);
    }
  }

  lemma EndShort(b: seq<byte>)
    ensures |b| < MAX_SHELL_FILE_SIZE ==> EndOf(b, b)
  {
  }

  lemma FindFirst(d: Disk, i: nat)
    requires DiskOk(d) && i < |d.files|
    ensures Find(d.files, d.files[i].name) == i
  {
  }

  /** The writes of print_to_stream. */
  function WriteOps(name: Name, size: nat, buffer: seq<byte>, newline: bool): seq<Op> {
    [WriteOp(name, buffer, size)] + if newline then [WriteOp(name, NEWLINE, size + |buffer|)] else []
  }

  /** The two writes are the run of their calls. */
  lemma WritesRun(p: Plan, d: Disk, i: nat, buffer: seq<byte>, newline: bool)
    requires Fit(p.a, d) && Printable(d, i, buffer, newline)
    ensures var f, ops := d.files[i], WriteOps(d.files[i].name, d.files[i].size, buffer, newline);
      && LegalRun(d, ops) && RunSpec(d, ops) == Done(AfterPrint(d, i, buffer, newline), 0)
      && |WithAppended(d, i, buffer).files| == |d.files|
      && var q := AppendPlan(p, d, i, |buffer|);
      && Fit(q.a, WithAppended(d, i, buffer))
      && RunPlan(p, d, ops) == (if newline then AppendPlan(q, WithAppended(d, i, buffer), i, 2) else q)
      && (Fits(|d.files|) ==> RunFits(d, ops))
  {
    hide AppendPlan, FsSpec.Write, WithAppended, Fit, DiskOk, AfterPrint, Printed, RunPlan, LegalRun, RunSpec, RunFits,
      RunStops, Fits, NewClusters, WriteLegal, Find;
    var f, d1, d2 := d.files[i], WithAppended(d, i, buffer), AfterPrint(d, i, buffer, newline);
    PrintWrites(d, i, buffer, newline);
    AppendedCount(d, i, buffer);
    DiskOkAt(d, i);
    AfterPrintIs(d, i, buffer, newline);
    var w, v := WriteOp(f.name, buffer, f.size), WriteOp(f.name, NEWLINE, f.size + |buffer|);
    var q := AppendPlan(p, d, i, |buffer|);
    StepFit(p, d, w);
    if newline {
      StepFit(q, d1, v);
      EmptyRun(AppendPlan(q, d1, i, 2), d2);
      RunFrom(q, d1, v, []);
      assert [v] + [] == [v];
      RunFrom(p, d, w, [v]);
    } else {
      EmptyRun(q, d1);
      RunFrom(p, d, w, []);
    }
  }

  /** All the calls of print_to_stream. */
  function PrintOps(f: File, buffer: seq<byte>, newline: bool): seq<Op> {
    var text := f.bytes + Printed(buffer, newline);
    WriteOps(f.name, f.size, buffer, newline) +
    if |text| >= MAX_SHELL_FILE_SIZE then TrimOps(f.name, LogEnd(text)) else []
  }

  /** print_to_stream does to the disk what the run of its calls does. */
  lemma PrintIsRun(p: Plan, d: Disk, i: nat, buffer: seq<byte>, newline: bool)
    requires Fit(p.a, d) && Printable(d, i, buffer, newline)
    ensures var f, ops, d2 := d.files[i], PrintOps(d.files[i], buffer, newline), AfterPrint(d, i, buffer, newline);
      && LegalRun(d, ops) && RunSpec(d, ops) == Done(PrintResult(d, i, buffer, newline), 0)
      && var a := WriteOps(f.name, f.size, buffer, newline);
      && LegalRun(d, a) && Fit(RunPlan(p, d, a).a, d2)
      && i < |d2.files|
      && if d2.files[i].size < MAX_SHELL_FILE_SIZE then RunPlan(p, d, ops) == RunPlan(p, d, a)
         else
           && TrimReady(d2, i, LogEnd(d2.files[i].bytes)) && LegalRun(d2, TrimOps(f.name, LogEnd(d2.files[i].bytes)))
           && RunPlan(p, d, ops) == RunPlan(RunPlan(p, d, a), d2, TrimOps(f.name, LogEnd(d2.files[i].bytes)))
  {
    hide AppendPlan, WithAppended, Fit, DiskOk, AfterPrint, Printed, RunPlan, LegalRun, WriteOps, TrimOps, Trimmed,
      RunFits, Fits;
    var f, d2 := d.files[i], AfterPrint(d, i, buffer, newline);
    var a := WriteOps(f.name, f.size, buffer, newline);
    PrintWrites(d, i, buffer, newline);
    PrintEnds(d, i, buffer, newline);
    WritesRun(p, d, i, buffer, newline);
    EmptyRun(RunPlan(p, d, a), d2);
    RunsOn(p, d, a, []);
    if d2.files[i].size >= MAX_SHELL_FILE_SIZE {
      FileOkAt(d2, i);
      var q, text := RunPlan(p, d, a), LogEnd(d2.files[i].bytes);
      TrimRun(q, d2, i, text);
      RunsOn(p, d, a, TrimOps(f.name, text));
    } else {
      assert a + [] == a;
    }
  }

  lemma PrintedSize(d: Disk, i: nat, buffer: seq<byte>, newline: bool)
    requires Printable(d, i, buffer, newline)
    ensures i < |d.files| && d.free >= PrintClusters(d.files[i].size, |buffer|, newline)
    ensures var d2 := AfterPrint(d, i, buffer, newline);
      && |d2.files| == |d.files| && d2.files[i].size == |d.files[i].bytes + Printed(buffer, newline)|
      && d2.files[i].bytes == d.files[i].bytes + Printed(buffer, newline) && d2.files[i].name == d.files[i].name
  {
    hide AfterPrint, Printed, WithAppended, NewClusters, Write;
    PrintWrites(d, i, buffer, newline);
  }

  /** The writes save a directory that fits, and so does the cut behind them. */
  lemma WritesFit(p: Plan, d: Disk, i: nat, buffer: seq<byte>, newline: bool)
    requires Fit(p.a, d) && Printable(d, i, buffer, newline) && Fits(|d.files|)
    ensures var f, a := d.files[i], WriteOps(d.files[i].name, d.files[i].size, buffer, newline);
      LegalRun(d, a) && RunFits(d, a)
  {
    hide AppendPlan, WithAppended, Fit, AfterPrint, RunPlan, LegalRun, WriteOps, RunFits, Fits, RunSpec, Printable;
    WritesRun(p, d, i, buffer, newline);
  }

  lemma TrimFits(p: Plan, d: Disk, i: nat, text: seq<byte>)
    requires Fit(p.a, d) && TrimReady(d, i, text) && Fits(|d.files|) && Fits(|d.files| - 1)
    ensures LegalRun(d, TrimOps(d.files[i].name, text)) && RunFits(d, TrimOps(d.files[i].name, text))
  {
    hide FsSpec.Touch, FsSpec.DeleteSystemFile, FsSpec.SetAsSystemFile, Fit, RunPlan, LegalRun, RunSpec, TrimPlan,
      TrimOps, RunFits, Fits, AppendPlan, Trimmed;
    TrimRun(p, d, i, text);
  }

  lemma CutFits(p: Plan, d: Disk, i: nat, buffer: seq<byte>, newline: bool)
    requires Fit(p.a, d) && Printable(d, i, buffer, newline) && Fits(|d.files|) && Fits(|d.files| - 1)
    requires |d.files[i].bytes + Printed(buffer, newline)| >= MAX_SHELL_FILE_SIZE
    ensures LegalRun(d, PrintOps(d.files[i], buffer, newline)) && RunFits(d, PrintOps(d.files[i], buffer, newline))
  {
    hide AppendPlan, WithAppended, Fit, AfterPrint, Printed, RunPlan, LegalRun, WriteOps, TrimOps, Trimmed, RunFits,
      Fits, RunSpec, PrintResult, Printable, LogEnd, TrimReady, DiskOk, PrintClusters;
    PrintedSize(d, i, buffer, newline);
    var f, d2 := d.files[i], AfterPrint(d, i, buffer, newline);
    var a, text := WriteOps(f.name, f.size, buffer, newline), LogEnd(d2.files[i].bytes);
    WritesFit(p, d, i, buffer, newline);
    PrintIsRun(p, d, i, buffer, newline);
    WritesRun(p, d, i, buffer, newline);
    assert RunSpec(d, a).disk == d2;
    TrimFits(RunPlan(p, d, a), d2, i, text);
    FitsOn(d, a, TrimOps(f.name, text));
  }

  /** While the directory fits, and fits without the log file when that is cut down, a print hits no file. */
  lemma PrintFits(p: Plan, d: Disk, i: nat, buffer: seq<byte>, newline: bool)
    requires Fit(p.a, d) && Printable(d, i, buffer, newline) && Fits(|d.files|)
    requires |d.files[i].bytes + Printed(buffer, newline)| >= MAX_SHELL_FILE_SIZE ==> Fits(|d.files| - 1)
    ensures LegalRun(d, PrintOps(d.files[i], buffer, newline)) && RunFits(d, PrintOps(d.files[i], buffer, newline))
  {
    hide Fit, LegalRun, RunFits, WriteOps, TrimOps, Fits, Printable, Printed;
    PrintedSize(d, i, buffer, newline);
    if |d.files[i].bytes + Printed(buffer, newline)| >= MAX_SHELL_FILE_SIZE {
      CutFits(p, d, i, buffer, newline);
    } else {
      WritesFit(p, d, i, buffer, newline);
      var a := WriteOps(d.files[i].name, d.files[i].size, buffer, newline);
      assert a + [] == a;
    }
  }

  /** A log of 200 bytes has four clusters. */
  lemma FileOkAt(d: Disk, i: nat)
    requires DiskOk(d) && i < |d.files| && Sound(d.files[i]) && d.files[i].size >= MAX_SHELL_FILE_SIZE
    ensures FileOk(d.files[i]) && d.files[i].clusters >= 4
  {
  }

  lemma TrimReadyFacts(d: Disk, i: nat, text: seq<byte>)
    requires TrimReady(d, i, text)
    ensures i < |d.files| && |text| == MAX_SHELL_FILE_SIZE
  {
  }

  lemma TrimPlanLike(p: Plan, d: Disk, e: Disk, name: Name, hit: set<Name>)
    requires Like(d, e, hit) && Fit(p.a, d)
    requires DeleteSystemFile(d, name).Done? && Touch(DeleteSystemFile(d, name).disk, name).Done?
    ensures Fit(p.a, e) && DeleteSystemFile(e, name).Done? && Touch(DeleteSystemFile(e, name).disk, name).Done?
    ensures TrimPlan(p, d, name) == TrimPlan(p, e, name)
    ensures
      Like(Touch(DeleteSystemFile(d, name).disk, name).disk, Touch(DeleteSystemFile(e, name).disk, name).disk, hit)
  {
    hide FsSpec.Touch, FsSpec.DeleteSystemFile, Fit, TouchPlan, DeleteSystemPlan, FlagPlan, AlikeFiles;
    RmLike(d, e, name, hit);
    RmPlanLike(p, d, e, name, hit);
    var p1, d1, e1 := DeleteSystemPlan(p, d, name), FsSpec.DeleteSystemFile(d, name).disk,
      FsSpec.DeleteSystemFile(e, name).disk;
    TouchLike(d1, e1, name, hit);
    TouchPlanLike(p1, d1, e1, name, hit);
    FlagPlanLike(TouchPlan(p1, d1, name), FsSpec.Touch(d1, name).disk, FsSpec.Touch(e1, name).disk, false, hit);
  }

  /** The plan of the cut does not depend on the bytes. */
  lemma TrimRunLike(p: Plan, d: Disk, e: Disk, i: nat, text: seq<byte>, text': seq<byte>, hit: set<Name>)
    requires Like(d, e, hit) && Fit(p.a, d) && TrimReady(d, i, text) && TrimReady(e, i, text')
    ensures Fit(p.a, e) && d.files[i].name == e.files[i].name
    ensures LegalRun(d, TrimOps(d.files[i].name, text)) && LegalRun(e, TrimOps(e.files[i].name, text'))
    ensures RunPlan(p, d, TrimOps(d.files[i].name, text)) == RunPlan(p, e, TrimOps(e.files[i].name, text'))
  {
    hide TrimReady, LogEnd, AppendPlan, FsSpec.Touch, FsSpec.DeleteSystemFile, FsSpec.SetAsSystemFile, Fit, RunPlan,
      LegalRun, RunSpec, TrimPlan, Like, Alike, DiskOk, Find, Trimmed, TrimOps, RunFits, Fits;
    TrimReadyFacts(d, i, text);
    TrimReadyFacts(e, i, text');
    var name, n := d.files[i].name, |d.files| - 1;
    LikeAt(d, e, hit, i);
    AlikeLength(d, e, hit);
    FitLike(p.a, d, e, hit);
    TrimRun(p, d, i, text);
    TrimRun(p, e, i, text');
    TrimPlanLike(p, d, e, name, hit);
    var d2 := FsSpec.Touch(FsSpec.DeleteSystemFile(d, name).disk, name).disk;
    var e2 := FsSpec.Touch(FsSpec.DeleteSystemFile(e, name).disk, name).disk;
    MarkedLike(TrimPlan(p, d, name), d2, e2, name, n, |text|, hit);
  }

  lemma MarkedLike(q: Plan, d: Disk, e: Disk, name: Name, n: nat, len: nat, hit: set<Name>)
    requires Like(d, e, hit) && Find(d.files, name) == n < |d.files| && SetAsSystemFile(d, name).Done?
    requires n < |SetAsSystemFile(d, name).disk.files| && Fit(q.a, SetAsSystemFile(d, name).disk)
    ensures Find(e.files, name) == n < |e.files| && SetAsSystemFile(e, name).Done?
    ensures n < |SetAsSystemFile(e, name).disk.files| && Fit(q.a, SetAsSystemFile(e, name).disk)
    ensures AppendPlan(q, SetAsSystemFile(d, name).disk, n, len) == AppendPlan(q, SetAsSystemFile(e, name).disk, n, len)
  {
    hide AppendPlan, Fit, FsSpec.SetAsSystemFile, AlikeFiles, Find;
    AlikeLength(d, e, hit);
    FlagsLike(d, e, name, hit);
    AlikeLength(FsSpec.SetAsSystemFile(d, name).disk, FsSpec.SetAsSystemFile(e, name).disk, hit);
    AppendPlanLike(q, FsSpec.SetAsSystemFile(d, name).disk, FsSpec.SetAsSystemFile(e, name).disk, n, len, hit);
  }

  /** print_to_stream: the log file is left with the last 200 bytes of everything printed to it, or with
      all of it while that is shorter; no other file changes. Files that the directory was written over
      are excepted; which ones is told from the start, and none is while the directories that are saved fit. */
  method PrintToStream(fs: FileSystem, stdout: Name, buffer: seq<byte>, newline: bool)
    requires fs.Valid() && GoodName(stdout) && Find(fs.Files(), stdout) < |fs.Files()|
    requires Printable(fs.Abs(), Find(fs.Files(), stdout), buffer, newline)
    modifies fs, fs.fat, fs.data
    ensures fs.fault == NoFault && fs.Valid() && old(fs.hit) <= fs.hit
    ensures var d, i := old(fs.Abs()), old(Find(fs.Files(), stdout));
      && Like(fs.Abs(), PrintResult(d, i, buffer, newline), fs.hit)
      && PrintedTo(d, PrintResult(d, i, buffer, newline), i, Printed(buffer, newline))
    ensures LogPrinted(old(View(fs.Files())), View(fs.Files()), stdout, Printed(buffer, newline), fs.hit)
    ensures var d, ops := old(fs.Abs()), PrintOps(old(fs.FileNamed(stdout)), buffer, newline);
      && LegalRun(d, ops) && fs.At() == RunPlan(old(fs.At()), d, ops)
      && (old(fs.hit) == {} && RunFits(d, ops) ==>
            fs.hit == {} && PrintedTo(d, fs.Abs(), old(Find(fs.Files(), stdout)), Printed(buffer, newline)))
  {
    hide Placed, Shaped, AbsFiles, FatWf, DirOk, FreeCount, FsSpec.Write, DiskOk, WithAppended, NewClusters, Find;
    hide AfterPrint, PrintedTo, Trimmed, Printed, WriteLegal, PrintResult, AlikeFiles, RunPlan, LegalRun, RunSpec, Fit,
      PrintOps, TrimOps, RunFits, RunStops, View, LogPrinted, LogEnd, EndOf;
    ghost var d, i, p := fs.Abs(), Find(fs.Files(), stdout), fs.At();
    assert Normalize(stdout) == stdout && d.files[i].name == stdout;
    PrintWrites(d, i, buffer, newline);
    PrintEnds(d, i, buffer, newline);
    PrintIsRun(p, d, i, buffer, newline);
    if fs.hit == {} && RunFits(d, PrintOps(d.files[i], buffer, newline)) {
      RunSpares(p, d, PrintOps(d.files[i], buffer, newline));
    }
    PrintBoth(fs, stdout, buffer, newline, i);
    ghost var now, d2, some, q := fs.Abs(), AfterPrint(d, i, buffer, newline), fs.hit, fs.At();
    AlikeLength(now, d2, some);
    FindAlike(now.files, d2.files, some, stdout);
    LikeAt(now, d2, some, i);
    var size := GetFileSize(fs, stdout);
    if size >= MAX_SHELL_FILE_SIZE {
      fs.ValidDiskOk();
      FileOkAt(now, i);
      TrimRunLike(q, now, d2, i, LogEnd(now.files[i].bytes), LogEnd(d2.files[i].bytes), some);
      TrimStream(fs, stdout);
      TrimmedLike(now, d2, i, some);
      AlikeOn(fs.Files(), Trimmed(now, i).files, Trimmed(d2, i).files, fs.hit, some);
      assert fs.hit + some == fs.hit;
    }
    PrintsToLog(d, i, buffer, newline);
    LogLike(View(d.files), fs.Abs(), PrintResult(d, i, buffer, newline), stdout, Printed(buffer, newline), fs.hit);
    if fs.hit == {} {
      LikeNone(fs.Abs(), PrintResult(d, i, buffer, newline));
    }
  }

  /** The two writes. */
  method PrintBoth(fs: FileSystem, stdout: Name, buffer: seq<byte>, newline: bool, ghost i: nat)
    requires fs.Valid() && GoodName(stdout) && i == Find(fs.Files(), stdout) < |fs.Files()|
    requires Printable(fs.Abs(), i, buffer, newline)
    modifies fs, fs.fat, fs.data
    ensures fs.fault == NoFault && fs.Valid() && old(fs.hit) <= fs.hit
    ensures Like(fs.Abs(), AfterPrint(old(fs.Abs()), i, buffer, newline), fs.hit)
    ensures var d, ops := old(fs.Abs()), WriteOps(stdout, old(fs.Files()[i].size), buffer, newline);
      LegalRun(d, ops) && fs.At() == RunPlan(old(fs.At()), d, ops)
  {
    hide Placed, Shaped, AbsFiles, FatWf, DirOk, FreeCount, FsSpec.Write, DiskOk, WithAppended, NewClusters, Find;
    hide AfterPrint, Printed, WriteLegal, AlikeFiles, RunPlan, LegalRun, Fit, WriteOps, AppendPlan;
    ghost var d := fs.Abs();
    PrintWrites(d, i, buffer, newline);
    WritesRun(fs.At(), d, i, buffer, newline);
    PrintStep(d, i, buffer);
    AppendedCount(d, i, buffer);
    AfterPrintIs(d, i, buffer, newline);
    AlikeItself(d.files, fs.hit);
    var size := GetFileSize(fs, stdout);
    WriteAtEnd(fs, stdout, buffer, size, d, i);
    if newline {
      WriteAtEnd(fs, stdout, NEWLINE, size + |buffer|, WithAppended(d, i, buffer), i);
    }
  }

  /** A write at the end of file i, which has room. */
  method WriteAtEnd(fs: FileSystem, name: Name, buf: seq<byte>, size: nat, ghost d: Disk, ghost i: nat)
    requires fs.Valid() && GoodName(name) && Like(fs.Abs(), d, fs.hit) && DiskOk(d)
    requires i < |d.files| && d.files[i].name == name && d.files[i].size == size && size + |buf| < 0x1_0000_0000
    requires Roomy(d.files[i]) && d.free > NewClusters(size, |buf|)
    modifies fs, fs.fat, fs.data
    ensures fs.fault == NoFault && fs.Valid() && old(fs.hit) <= fs.hit
    ensures Like(fs.Abs(), WithAppended(d, i, buf), fs.hit)
    ensures Fit(old(fs.At()).a, d) && fs.At() == AppendPlan(old(fs.At()), d, i, |buf|)
  {
    hide Placed, Shaped, AbsFiles, FatWf, DirOk, FreeCount, FsSpec.Write, WithAppended, NewClusters, Find, FileOk;
    hide WriteLegal, AlikeFiles, OverDirectory, Roomy, LeavesRoom, AppendPlan, Fit;
    ghost var now, some := fs.Abs(), fs.hit;
    assert Normalize(name) == name;
    PrintStep(d, i, buf);
    LikeBack(now, d, some);
    WriteLike(d, now, name, buf, size, some);
    WriteLike(now, d, name, buf, size, some);
    FindAlike(now.files, d.files, some, name);
    AlikeLength(now, d, some);
    LikeAt(now, d, some, i);
    AppendPlanLike(fs.At(), now, d, i, |buf|, some);
    var code := fs.Write(name, buf, size);
    fs.RefinesOn(FsSpec.Write(now, name, buf, size), FsSpec.Write(d, name, buf, size), code, some);
  }

  lemma AppendedCount(d: Disk, i: nat, buf: seq<byte>)
    requires i < |d.files| && d.free >= NewClusters(d.files[i].size, |buf|)
    ensures var e := WithAppended(d, i, buf);
      |e.files| == |d.files| && e.free == d.free - NewClusters(d.files[i].size, |buf|)
  {
  }
}
