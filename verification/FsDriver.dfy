/** Runs of the file system in memory: every sequence of legal calls does to the
    observable disk what FsRuns says, and to the layout what FsPlan says. */
module FsDriver {
  import opened Bytes
  import opened FsLayout
  import opened FsSpec
  import opened FsLike
  import opened FsProps
  import opened FsRuns
  import opened FsChains
  import opened FsState
  import opened FsFirstFit
  import opened FsPlan
  import opened Vfs

  /** One call. `nullBit` is what rm() reads through a NULL pointer for a missing file. */
  method Call(fs: FileSystem, op: Op, nullBit: bool) returns (code: int)
    requires fs.Valid() && Legal(fs.Abs(), op)
    modifies fs, fs.fat, fs.data
    ensures fs.Refines(Step(old(fs.Abs()), op), code)
    ensures fs.fault == DirectoryHit <==> old(StepStops(fs.At(), fs.Abs(), op))
    ensures fs.fault == NoFault ==> fs.Valid() && fs.At() == old(StepPlan(fs.At(), fs.Abs(), op))
    ensures old(fs.hit) <= fs.hit
  {
    hide FsSpec.Touch, FsSpec.Rm, FsSpec.Write, FsSpec.Cp, FsSpec.OpenFile, FsSpec.CloseFile, Placed, Shaped, AbsFiles,
      DiskOk, AlikeFiles, TouchPlan, RmPlan, WritePlan, CpPlan, FlagPlan, DeleteSystemPlan, WriteStops, CpStops, Fit;
    hide FsSpec.SetAsSystemFile, FsSpec.DeleteSystemFile;
    match op {
      case TouchOp(n) => code := fs.Touch(n);
      case RmOp(n) => code := fs.Rm(n, nullBit);
      case WriteOp(n, buf, offset) => code := fs.Write(n, buf, offset);
      case CpOp(s, t) => code := fs.Cp(s, t, nullBit);
      case OpenOp(n) => code := fs.OpenFile(n);
      case CloseOp(n) => code := fs.CloseFile(n);
      case SetSystemOp(n) => code := fs.SetAsSystemFile(n);
      case DeleteSystemOp(n) => code := fs.DeleteSystemFile(n);
    }
  }

  /** A call on a disk that is damaged already: still the same as on the disk e that is not. */
  method CallLike(fs: FileSystem, op: Op, nullBit: bool, ghost e: Disk)
    requires fs.Valid() && Like(fs.Abs(), e, fs.hit) && Legal(e, op)
    modifies fs, fs.fat, fs.data
    ensures exists code :: fs.Refines(Step(e, op), code)
    ensures Fit(old(fs.At()).a, e) && (fs.fault == DirectoryHit <==> StepStops(old(fs.At()), e, op))
    ensures fs.fault == NoFault ==>
      && fs.Valid() && Step(e, op).Done? && Like(fs.Abs(), Step(e, op).disk, fs.hit)
      && fs.At() == StepPlan(old(fs.At()), e, op)
    ensures old(fs.hit) <= fs.hit
  {
    hide Step, Legal, Placed, Shaped, AbsFiles, DiskOk, AlikeFiles, StepPlan, StepStops, Fit;
    ghost var d, p := fs.Abs(), fs.At();
    LegalLike(d, e, op, p.hit);
    StepPlanLike(p, d, e, op, p.hit);
    var code := Call(fs, op, nullBit);
    if fs.fault != DirectoryHit {
      CopyOfHit(p, d, op);
      StepLike(d, e, op, p.hit, fs.hit);
      fs.RefinesOn(Step(d, op), Step(e, op), code, fs.hit);
    }
    assert fs.Refines(Step(e, op), code);
  }

  /** A copy of a file that was hit is one more. */
  lemma CopyOfHit(p: Plan, d: Disk, op: Op)
    requires Fit(p.a, d) && Legal(d, op)
    ensures op.CpOp? && op.src in p.hit && Step(d, op).Done? && Step(d, op).code == 0 ==>
      op.des in StepPlan(p, d, op).hit
  {
    if op.CpOp? && op.src in p.hit && Step(d, op).Done? && Step(d, op).code == 0 {
      CpPlanHits(p, d, op.src, op.des);
    }
  }

  /** A whole run: which files it hits, and whether a file's data goes over the directory's records, is told
      from the start. It stops early only when it does or when the specification halts. */
  method Run(fs: FileSystem, ops: seq<Op>, nullBits: seq<bool>)
    requires fs.Valid() && LegalRun(fs.Abs(), ops) && |nullBits| == |ops|
    modifies fs, fs.fat, fs.data
    ensures fs.Refines(RunSpec(old(fs.Abs()), ops), 0) && fs.fault != OutOfClusters && old(fs.hit) <= fs.hit
    ensures fs.fault == DirectoryHit <==> old(RunStops(fs.At(), fs.Abs(), ops))
    ensures fs.fault == NoFault ==>
      && fs.Valid() && Total(fs.Abs()) + LostIn(old(fs.Abs()), ops) == Total(old(fs.Abs()))
      && fs.At() == old(RunPlan(fs.At(), fs.Abs(), ops))
  {
    hide Step, Legal, Placed, Shaped, AbsFiles, DiskOk, Total, LostIn, AlikeFiles, StepPlan, StepStops, Fit;
    ghost var d0, p0, e := fs.Abs(), fs.At(), fs.Abs();
    fs.ValidDiskOk();
    GuardsSuffice(d0, ops);
    if RunSpec(d0, ops).Done? {
      RunAccounts(d0, ops);
    }
    AlikeItself(e.files, fs.hit);
    var i := 0;
    assert ops[0..] == ops;
    while i < |ops|
      invariant i <= |ops| && fs.Valid() && LegalRun(e, ops[i..]) && Like(fs.Abs(), e, fs.hit) && old(fs.hit) <= fs.hit
      invariant RunSpec(d0, ops) == RunSpec(e, ops[i..]) && Fit(fs.At().a, e)
      invariant RunStops(p0, d0, ops) <==> RunStops(fs.At(), e, ops[i..])
      invariant RunPlan(p0, d0, ops) == RunPlan(fs.At(), e, ops[i..])
    {
      RunSpecStep(e, ops[i..]);
      ghost var p := fs.At();
      CallLike(fs, ops[i], nullBits[i], e);
      RunPlanStep(p, e, ops[i..]);
      if fs.fault != NoFault {
        return;
      }
      e := Step(e, ops[i]).disk;
      assert ops[i..][1..] == ops[i + 1..];
      i := i + 1;
    }
    if RunSpec(d0, ops).Done? {
      TotalLike(fs.Abs(), e, fs.hit);
    }
  }

  lemma {:induction false} HeldAlike(fs: seq<File>, gs: seq<File>, hit: set<Name>)
    requires AlikeFiles(fs, gs, hit)
    ensures Held(fs) == Held(gs)
  {
    if fs != [] {
      var n := |fs| - 1;
      assert Alike(fs[n], gs[n], gs[n].name in hit);
      HeldAlike(fs[..n], gs[..n], hit);
    }
  }

  lemma TotalLike(d: Disk, e: Disk, hit: set<Name>)
    requires Like(d, e, hit)
    ensures Total(d) == Total(e)
  {
    HeldAlike(d.files, e.files, hit);
  }

  /** A run of clean calls leaves what the same calls leave in a map from names to contents, but for the
      files that it hits, which are told from the start. */
  method RunClean(fs: FileSystem, ops: seq<Op>, nullBits: seq<bool>)
    requires fs.Valid() && AllRoomy(fs.Abs()) && CleanRun(fs.Abs(), ops) && |nullBits| == |ops|
    modifies fs, fs.fat, fs.data
    ensures LegalRun(old(fs.Abs()), ops)
    ensures fs.fault == if old(RunStops(fs.At(), fs.Abs(), ops)) then DirectoryHit else NoFault
    ensures fs.fault == NoFault ==>
      var m := MapRun(old(View(fs.Files())), ops);
      && fs.Valid() && AllRoomy(fs.Abs()) && View(fs.Files()).Keys == m.Keys
      && fs.At() == old(RunPlan(fs.At(), fs.Abs(), ops))
      && forall n :: n in m && n !in old(RunPlan(fs.At(), fs.Abs(), ops)).hit ==> View(fs.Files())[n] == m[n]
    ensures old(fs.hit) == {} && RunFits(old(fs.Abs()), ops) ==>
      fs.fault == NoFault && fs.hit == {} && View(fs.Files()) == MapRun(old(View(fs.Files())), ops)
  {
    hide Step, Legal, CleanRun, View, MapRun, AllRoomy, Placed, Shaped, AbsFiles, DiskOk, AlikeFiles, Total, LostIn,
      RunStops, RunPlan, Fit, RunFits;
    fs.ValidDiskOk();
    CleanRunIsMapRun(fs.Abs(), ops);
    if fs.hit == {} && RunFits(fs.Abs(), ops) {
      RunSpares(fs.At(), fs.Abs(), ops);
    }
    ghost var e := RunSpec(fs.Abs(), ops).disk;
    Run(fs, ops, nullBits);
    if fs.fault == NoFault {
      ViewLike(fs.Abs(), e, fs.hit);
    }
  }
}
