/** Disks that differ in the bytes of some files only. Saving the directory can write over other files'
    data; everything else the operations do is the same on a disk that was damaged in this way. */
module FsLike {
  import opened Bytes
  import opened FsLayout
  import opened FsSpec

  predicate Alike(f: File, g: File, damaged: bool) {
    f.(bytes := g.bytes) == g && |f.bytes| == |g.bytes| && (damaged || f.bytes == g.bytes)
  }

  /** The files in fs are those in gs, but for the bytes of the ones called by a name in `hit`. */
  predicate AlikeFiles(fs: seq<File>, gs: seq<File>, hit: set<Name>) {
    |fs| == |gs| && forall i :: 0 <= i < |fs| ==> Alike(fs[i], gs[i], gs[i].name in hit)
  }

  predicate Like(d: Disk, e: Disk, hit: set<Name>) { d.free == e.free && AlikeFiles(d.files, e.files, hit) }

  predicate LikeOutcome(o: Outcome, p: Outcome, hit: set<Name>) {
    match o
    case Halted(e) => p == Halted(e)
    case Done(d, c) => p.Done? && p.code == c && Like(d, p.disk, hit)
  }

  lemma AlikeItself(fs: seq<File>, hit: set<Name>)
    ensures AlikeFiles(fs, fs, hit)
  {
  }

  lemma AlikeOn(fs: seq<File>, gs: seq<File>, hs: seq<File>, hit: set<Name>, more: set<Name>)
    requires AlikeFiles(fs, gs, hit) && AlikeFiles(gs, hs, more)
    ensures AlikeFiles(fs, hs, hit + more)
  {
    forall i | 0 <= i < |fs| ensures Alike(fs[i], hs[i], hs[i].name in hit + more) {
      assert Alike(fs[i], gs[i], gs[i].name in hit) && Alike(gs[i], hs[i], hs[i].name in more);
    }
  }

  lemma AlikeMore(fs: seq<File>, gs: seq<File>, hit: set<Name>, more: set<Name>)
    requires AlikeFiles(fs, gs, hit) && hit <= more
    ensures AlikeFiles(fs, gs, more)
  {
    forall i | 0 <= i < |fs| ensures Alike(fs[i], gs[i], gs[i].name in more) {
      assert Alike(fs[i], gs[i], gs[i].name in hit);
    }
  }

  /** With no file hit nothing differs. */
  lemma LikeNone(d: Disk, e: Disk)
    requires Like(d, e, {})
    ensures d == e
  {
    forall i | 0 <= i < |d.files| ensures d.files[i] == e.files[i] {
      assert Alike(d.files[i], e.files[i], false);
    }
  }

  lemma LikeAt(d: Disk, e: Disk, hit: set<Name>, i: nat)
    requires Like(d, e, hit) && i < |d.files|
    ensures Alike(d.files[i], e.files[i], e.files[i].name in hit) && d.files[i].name == e.files[i].name
  {
  }

  lemma LikeSizes(d: Disk, e: Disk, i: nat, hit: set<Name>)
    requires Like(d, e, hit) && i < |d.files|
    ensures d.free == e.free && i < |e.files| && d.files[i].size == e.files[i].size
  {
  }

  lemma {:induction false} FindAlike(fs: seq<File>, gs: seq<File>, hit: set<Name>, name: Name)
    requires AlikeFiles(fs, gs, hit)
    ensures Find(fs, name) == Find(gs, name)
  {
    if fs != [] {
      assert Alike(fs[0], gs[0], gs[0].name in hit);
      FindAlike(fs[1..], gs[1..], hit, name);
    }
  }

  lemma AlikeUpdate(fs: seq<File>, gs: seq<File>, hit: set<Name>, i: nat, f: File, g: File)
    requires AlikeFiles(fs, gs, hit) && i < |fs| && Alike(f, g, g.name in hit)
    ensures AlikeFiles(fs[i := f], gs[i := g], hit)
  {
  }

  lemma AlikeRemove(fs: seq<File>, gs: seq<File>, hit: set<Name>, i: nat)
    requires AlikeFiles(fs, gs, hit) && i < |fs|
    ensures AlikeFiles(fs[..i] + fs[i + 1..], gs[..i] + gs[i + 1..], hit)
  {
    var a, b := fs[..i] + fs[i + 1..], gs[..i] + gs[i + 1..];
    forall k | 0 <= k < |a| ensures Alike(a[k], b[k], b[k].name in hit) {
      var m := if k < i then k else k + 1;
      assert Alike(fs[m], gs[m], gs[m].name in hit);
    }
  }

  lemma AlikeSnoc(fs: seq<File>, gs: seq<File>, hit: set<Name>, f: File)
    requires AlikeFiles(fs, gs, hit)
    ensures AlikeFiles(fs + [f], gs + [f], hit)
  {
  }

  lemma ResaveLike(n: nat, d: Disk, e: Disk, code: int, hit: set<Name>)
    requires Like(d, e, hit)
    ensures LikeOutcome(Resave(n, d, code), Resave(n, e, code), hit)
  {
  }

  lemma TouchLike(d: Disk, e: Disk, name: Name, hit: set<Name>)
    requires Like(d, e, hit)
    ensures LikeOutcome(Touch(d, name), Touch(e, name), hit)
  {
    hide Resave;
    FindAlike(d.files, e.files, hit, name);
    var f := File(name, 0, 1, [], false, false);
    AlikeSnoc(d.files, e.files, hit, f);
    ResaveLike(|d.files|, d, e, 0, hit);
    if d.free > 2 {
      ResaveLike(|d.files|, Disk(d.files + [f], d.free - 2), Disk(e.files + [f], e.free - 2), 0, hit);
    }
  }

  lemma DeleteLike(d: Disk, e: Disk, i: nat, hit: set<Name>)
    requires Like(d, e, hit) && i < |d.files|
    ensures LikeOutcome(Delete(d, i), Delete(e, i), hit)
  {
    hide Resave;
    LikeAt(d, e, hit, i);
    AlikeRemove(d.files, e.files, hit, i);
    ResaveLike(|d.files|, Disk(d.files[..i] + d.files[i + 1..], d.free + d.files[i].clusters + 1),
               Disk(e.files[..i] + e.files[i + 1..], e.free + e.files[i].clusters + 1), 0, hit);
  }

  lemma RmLike(d: Disk, e: Disk, name: Name, hit: set<Name>)
    requires Like(d, e, hit)
    ensures LikeOutcome(Rm(d, name), Rm(e, name), hit)
    ensures LikeOutcome(DeleteSystemFile(d, name), DeleteSystemFile(e, name), hit)
  {
    hide Delete;
    FindAlike(d.files, e.files, hit, name);
    var i := Find(d.files, name);
    if i < |d.files| {
      LikeAt(d, e, hit, i);
      DeleteLike(d, e, i, hit);
    }
  }

  lemma FlagLike(d: Disk, e: Disk, i: nat, open: bool, system: bool, hit: set<Name>)
    requires Like(d, e, hit) && i < |d.files|
    ensures var f, g := d.files[i].(open := open, system := system), e.files[i].(open := open, system := system);
      LikeOutcome(Resave(|d.files|, d.(files := d.files[i := f]), 0),
        Resave(|e.files|, e.(files := e.files[i := g]), 0), hit)
  {
    hide Resave;
    LikeAt(d, e, hit, i);
    var f, g := d.files[i].(open := open, system := system), e.files[i].(open := open, system := system);
    AlikeUpdate(d.files, e.files, hit, i, f, g);
    ResaveLike(|d.files|, d.(files := d.files[i := f]), e.(files := e.files[i := g]), 0, hit);
  }

  lemma FlagsLike(d: Disk, e: Disk, name: Name, hit: set<Name>)
    requires Like(d, e, hit)
    ensures LikeOutcome(CloseFile(d, name), CloseFile(e, name), hit)
    ensures Find(d.files, name) == Find(e.files, name)
    ensures Find(d.files, name) < |d.files| ==>
      && LikeOutcome(OpenFile(d, name), OpenFile(e, name), hit)
      && LikeOutcome(SetAsSystemFile(d, name), SetAsSystemFile(e, name), hit)
  {
    hide Resave;
    FindAlike(d.files, e.files, hit, name);
    var i := Find(d.files, name);
    if i < |d.files| {
      var f := d.files[i];
      LikeAt(d, e, hit, i);
      FlagLike(d, e, i, false, f.system, hit);
      FlagLike(d, e, i, true, f.system, hit);
      FlagLike(d, e, i, f.open, true, hit);
    }
  }

  // ---------- appending and inserting ----------

  lemma AppendedAlike(f: File, g: File, buf: seq<byte>, buf': seq<byte>, damaged: bool)
    requires Alike(f, g, damaged) && |buf| == |buf'| && (damaged || buf == buf')
    ensures Alike(Appended(f, buf), Appended(g, buf'), damaged)
    ensures |buf| >= CLUSTER_SIZE || Roomy(f) || !Sound(f) ==> Alike(Overrun(f, buf), Overrun(g, buf'), damaged)
  {
  }

  /** Bytes may differ in what is appended, if they may differ in the file. */
  lemma AppendLike(d: Disk, e: Disk, i: nat, buf: seq<byte>, buf': seq<byte>, hit: set<Name>)
    requires Like(d, e, hit) && i < |d.files| && FileOk(d.files[i]) && FileOk(e.files[i])
    requires |buf| == |buf'| && (e.files[i].name in hit || buf == buf')
    ensures LikeOutcome(Append(d, i, buf), Append(e, i, buf'), hit)
  {
    hide Resave, Appended, Overrun, HeadBytes, NewClusters, ClustersNeeded, Append;
    LikeAt(d, e, hit, i);
    var f, g := d.files[i], e.files[i];
    AppendOutcome(d, i, buf);
    AppendOutcome(e, i, buf');
    AppendedAlike(f, g, buf, buf', g.name in hit);
    var added := NewClusters(f.size, |buf|);
    assert Appended(f, buf).name == f.name by { AppendedName(f, buf); }
    AppendedName(g, buf');
    AlikeUpdate(d.files, e.files, hit, i, Appended(f, buf), Appended(g, buf'));
    if added == 0 || d.free > added {
      ResaveLike(|d.files|, Disk(d.files[i := Appended(f, buf)], d.free - added),
        Disk(e.files[i := Appended(g, buf')], e.free - added), 0, hit);
    } else if d.free < added {
      OverrunName(f, buf);
      OverrunName(g, buf');
      AlikeUpdate(d.files, e.files, hit, i, Overrun(f, buf), Overrun(g, buf'));
    }
  }

  lemma AppendedName(f: File, buf: seq<byte>)
    ensures Appended(f, buf).name == f.name
  {
  }

  /** What overruns a file with a full cluster has at least 64 bytes. */
  lemma OverrunName(f: File, buf: seq<byte>)
    requires FileOk(f) && NewClusters(f.size, |buf|) > 0
    ensures |buf| >= CLUSTER_SIZE || Roomy(f) || !Sound(f)
    ensures Overrun(f, buf).name == f.name
  {
  }

  lemma FileOkAlike(f: File, g: File, damaged: bool)
    requires Alike(f, g, damaged) && FileOk(f)
    ensures FileOk(g)
  {
  }

  lemma CutAlike(f: File, g: File, offset: nat, damaged: bool)
    requires Alike(f, g, damaged) && offset <= |f.bytes|
    ensures Alike(CutFile(f, offset), CutFile(g, offset), damaged) && CutReleases(f, offset) == CutReleases(g, offset)
  {
  }

  lemma InsertLike(d: Disk, e: Disk, i: nat, buf: seq<byte>, offset: nat, hit: set<Name>)
    requires Like(d, e, hit) && i < |d.files| && FileOk(d.files[i]) && FileOk(e.files[i])
    requires offset < d.files[i].size && InsertLegal(d.files[i])
    ensures offset < e.files[i].size && InsertLegal(e.files[i])
    ensures LikeOutcome(Insert(d, i, buf, offset), Insert(e, i, buf, offset), hit)
  {
    hide Append, FileOk, ClustersNeeded, CutFile, CutReleases;
    LikeAt(d, e, hit, i);
    var f, g := d.files[i], e.files[i];
    InsertOutcome(d, i, buf, offset);
    InsertOutcome(e, i, buf, offset);
    hide Insert;
    CutAlike(f, g, offset, g.name in hit);
    CutFileFacts(f, offset);
    CutFileFacts(g, offset);
    AlikeUpdate(d.files, e.files, hit, i, CutFile(f, offset), CutFile(g, offset));
    var cut := Disk(d.files[i := CutFile(f, offset)], d.free + CutReleases(f, offset));
    var cut' := Disk(e.files[i := CutFile(g, offset)], e.free + CutReleases(g, offset));
    AppendLike(cut, cut', i, buf, buf, hit);
    if d.free >= ClustersNeeded(f.size + |buf|) && Append(cut, i, buf).Done? {
      var tail, tail' := TailSeen(f, offset), TailSeen(g, offset);
      InsertMiddle(cut', i, buf);
      AppendLike(Append(cut, i, buf).disk, Append(cut', i, buf).disk, i, tail, tail', hit);
    }
  }

  /** The same when more files have been hit by then. */
  lemma InsertLikeMore(d: Disk, e: Disk, i: nat, buf: seq<byte>, offset: nat, hit: set<Name>, more: set<Name>)
    requires Like(d, e, hit) && hit <= more && i < |d.files|
    requires FileOk(d.files[i]) && i < |e.files| && FileOk(e.files[i])
    requires offset < d.files[i].size && InsertLegal(d.files[i]) && offset < e.files[i].size && InsertLegal(e.files[i])
    ensures LikeOutcome(Insert(d, i, buf, offset), Insert(e, i, buf, offset), more)
  {
    hide FileOk, InsertLegal, Insert;
    AlikeMore(d.files, e.files, hit, more);
    InsertLike(d, e, i, buf, offset, more);
  }

  lemma DiskOkAlike(d: Disk, e: Disk, hit: set<Name>)
    requires Like(d, e, hit) && DiskOk(d)
    ensures DiskOk(e)
  {
    forall i | 0 <= i < |d.files| ensures FileOk(e.files[i]) && e.files[i].name == d.files[i].name {
      LikeAt(d, e, hit, i);
      FileOkAlike(d.files[i], e.files[i], e.files[i].name in hit);
    }
  }

  lemma WriteLike(d: Disk, e: Disk, name: Name, buf: seq<byte>, offset: nat, hit: set<Name>)
    requires Like(d, e, hit) && DiskOk(d) && WriteLegal(d, name, offset)
    ensures DiskOk(e) && WriteLegal(e, name, offset)
    ensures LikeOutcome(Write(d, name, buf, offset), Write(e, name, buf, offset), hit)
  {
    hide Append, Insert, FileOk;
    DiskOkAlike(d, e, hit);
    FindAlike(d.files, e.files, hit, name);
    var i := Find(d.files, name);
    if i < |d.files| {
      LikeAt(d, e, hit, i);
      AppendLike(d, e, i, buf, buf, hit);
      if offset < d.files[i].size {
        InsertLike(d, e, i, buf, offset, hit);
      }
    }
  }

  // ---------- copying ----------

  lemma CpTargetLike(d: Disk, e: Disk, des: Name, hit: set<Name>)
    requires Like(d, e, hit)
    ensures LikeOutcome(CpTarget(d, des), CpTarget(e, des), hit)
  {
    hide Rm, Touch;
    FindAlike(d.files, e.files, hit, des);
    RmLike(d, e, des, hit);
    var r := if Find(d.files, des) < |d.files| then Rm(d, des) else Done(d, 0);
    var q := if Find(e.files, des) < |e.files| then Rm(e, des) else Done(e, 0);
    if r.Done? {
      TouchLike(r.disk, q.disk, des, hit);
    }
  }

  /** A copy of a file that was hit counts as hit. */
  lemma CpFinishLike(d: Disk, e: Disk, f: File, g: File, des: Name, damaged: bool, hit: set<Name>)
    requires Like(d, e, hit) && Alike(f, g, damaged) && (damaged ==> des in hit) && Find(d.files, des) < |d.files|
    ensures Find(e.files, des) < |e.files| && LikeOutcome(CpFinish(d, f, des), CpFinish(e, g, des), hit)
  {
    FindAlike(d.files, e.files, hit, des);
    var k := Find(d.files, des);
    LikeAt(d, e, hit, k);
  }

  lemma CpLike(d: Disk, e: Disk, src: Name, des: Name, hit: set<Name>, more: set<Name>)
    requires Like(d, e, hit) && CpLegal(d, src, des) && hit <= more
    requires Cp(d, src, des).Done? && Cp(d, src, des).code == 0 && src in hit ==> des in more
    ensures CpLegal(e, src, des) && LikeOutcome(Cp(d, src, des), Cp(e, src, des), more)
  {
    hide CpTarget, CpFinish, Cp, ClustersNeeded;
    FindAlike(d.files, e.files, hit, src);
    CpTargetLike(d, e, des, hit);
    var i := Find(d.files, src);
    if src != des && i < |d.files| && CpTarget(d, des).Done? {
      FindAlike(CpTarget(d, des).disk.files, CpTarget(e, des).disk.files, hit, des);
      LikeAt(d, e, hit, i);
    }
    CpSteps(d, src, des);
    CpSteps(e, src, des);
    AlikeMore(d.files, e.files, hit, more);
    if src != des && i < |d.files| && CpTarget(d, des).Done? {
      var made, made', f, g := CpTarget(d, des).disk, CpTarget(e, des).disk, d.files[i], e.files[i];
      AlikeMore(made.files, made'.files, hit, more);
      if made.free >= ClustersNeeded(f.size) {
        CpFinishCode(made, f, des);
        CpFinishCode(made', g, des);
        if made.free + 1 > f.clusters {
          CpFinishLike(made, made', f, g, des, src in hit, more);
        }
      }
    }
  }

  lemma CpFinishCode(d: Disk, f: File, des: Name)
    requires Find(d.files, des) < |d.files|
    ensures if d.free + 1 <= f.clusters then CpFinish(d, f, des) == Halted(SentinelLink)
            else CpFinish(d, f, des).Done? && CpFinish(d, f, des).code == 0
  {
  }

  /** The same, for the file called src. */
  lemma CpFinishAlike(d: Disk, e: Disk, f: File, g: File, des: Name, src: Name, hit: set<Name>)
    requires Like(d, e, hit) && Alike(f, g, src in hit) && Find(d.files, des) < |d.files|
    requires CpFinish(d, f, des).Done? && src in hit ==> des in hit
    ensures Find(e.files, des) < |e.files| && LikeOutcome(CpFinish(d, f, des), CpFinish(e, g, des), hit)
  {
    FindAlike(d.files, e.files, hit, des);
    CpFinishCode(d, f, des);
    CpFinishCode(e, g, des);
    if d.free + 1 > f.clusters {
      CpFinishLike(d, e, f, g, des, src in hit, hit);
    }
  }

  /** The same on two lists of files. */
  lemma CopiedAlike(fs: seq<File>, gs: seq<File>, k: nat, i: nat, hit: set<Name>)
    requires AlikeFiles(fs, gs, hit) && i < |fs| && k < |fs|
    ensures |gs| == |fs| && fs[i].clusters == gs[i].clusters
    ensures AlikeFiles(WithContents(fs, k, fs[i]), WithContents(gs, k, gs[i]),
                       hit + if gs[i].name in hit then {gs[k].name} else {})
  {
    assert Alike(fs[i], gs[i], gs[i].name in hit) && Alike(fs[k], gs[k], gs[k].name in hit);
  }

  lemma AlikeLength(d: Disk, e: Disk, hit: set<Name>)
    requires Like(d, e, hit)
    ensures |d.files| == |e.files|
  {
  }

  lemma InsertLegalAlike(f: File, g: File, offset: nat)
    requires Alike(f, g, true)
    ensures f.size == g.size && (InsertLegal(g) ==> InsertLegal(f))
    ensures TailLength(f, offset) == TailLength(g, offset)
  {
  }

  lemma LikeBack(d: Disk, e: Disk, hit: set<Name>)
    requires Like(d, e, hit)
    ensures Like(e, d, hit)
  {
    forall i | 0 <= i < |d.files| ensures Alike(e.files[i], d.files[i], d.files[i].name in hit) {
      LikeAt(d, e, hit, i);
    }
  }

  lemma CpLegalLike(d: Disk, e: Disk, src: Name, des: Name, hit: set<Name>)
    requires Like(d, e, hit) && CpLegal(d, src, des)
    ensures CpLegal(e, src, des)
  {
    CpLike(d, e, src, des, hit, hit + {des});
  }
}
