/** How each call of the file system ends: which result it has, and what a refused call leaves. */
module FsCalls {
  import opened Bytes
  import opened FsLayout
  import opened FsSpec
  import opened FsProps
  import opened FsRuns

  /** File i is the one called `name`. */
  predicate Named(d: Disk, i: int, name: Name) { 0 <= i < |d.files| && d.files[i].name == name }

  lemma NamedFound(d: Disk, i: int, name: Name)
    requires DiskOk(d) && Named(d, i, name)
    ensures Find(d.files, name) == i
  {
  }

  lemma NoneFound(d: Disk, name: Name)
    requires forall i :: !Named(d, i, name)
    ensures Find(d.files, name) == |d.files|
  {
    assert !Named(d, Find(d.files, name), name);
  }

  // ---------- flags ----------

  /** A closed file can be opened, and then not opened again; closing it undoes that, and a file that is not open
      or not there is not closed. Nothing else on the disk changes. */
  lemma OpenThenClose(d: Disk, i: int, name: Name)
    requires DiskOk(d) && Named(d, i, name)
    ensures Find(d.files, name) == i
    ensures d.files[i].open ==> OpenFile(d, name) == Done(d, 1)
    ensures d.files[i].open ==>
      CloseFile(d, name) == Done(Disk(d.files[i := d.files[i].(open := false)], d.free), 0)
    ensures !d.files[i].open ==>
      var e := Disk(d.files[i := d.files[i].(open := true)], d.free);
      && OpenFile(d, name) == Done(e, 0) && Find(e.files, name) == i && OpenFile(e, name) == Done(e, 1)
      && CloseFile(e, name) == Done(d, 0) && CloseFile(d, name) == Done(d, 1)
  {
    hide Resave;
    NamedFound(d, i, name);
    var f, g := d.files[i].(open := true), d.files[i].(open := false);
    var e, c := Disk(d.files[i := f], d.free), Disk(d.files[i := g], d.free);
    FindSame(d.files, i, f, name);
    ResaveSameLength(e, 0);
    ResaveSameLength(c, 0);
    if !d.files[i].open {
      ResaveSameLength(d, 0);
      assert e.files[i := e.files[i].(open := false)] == d.files;
    }
  }

  lemma CloseMissing(d: Disk, name: Name)
    requires forall i :: !Named(d, i, name)
    ensures CloseFile(d, name) == Done(d, 1)
  {
    NoneFound(d, name);
  }

  /** The disk without file i, as a call leaves it that says it succeeded. */
  ghost predicate Removed(d: Disk, o: Outcome, i: int) {
    && 0 <= i < |d.files| && o.Done? && o.code == 0 && o.disk.files == d.files[..i] + d.files[i + 1..]
    && View(o.disk.files) == View(d.files) - {d.files[i].name}
  }

  /** A closed file that was marked as a system file is not removed by rm, only by delete_system_file; marking it
      changes nothing else. An open file is not marked. */
  lemma SystemFileStays(d: Disk, i: int, name: Name)
    requires DiskOk(d) && Named(d, i, name)
    ensures Find(d.files, name) == i
    ensures d.files[i].open ==> SetAsSystemFile(d, name) == Done(d, 1)
    ensures !d.files[i].open ==>
      var e := Disk(d.files[i := d.files[i].(system := true)], d.free);
      && SetAsSystemFile(d, name) == Done(e, 0)
      && Rm(e, name) == Done(e, 1) && Removed(e, DeleteSystemFile(e, name), i)
  {
    hide Resave, Rm, DeleteSystemFile, Removed;
    NamedFound(d, i, name);
    var f := d.files[i].(system := true);
    var e := Disk(d.files[i := f], d.free);
    ResaveSameLength(e, 0);
    FlaggedOk(d, i, f);
    RmExactly(e, name);
    DeleteSystemExactly(e, name);
  }

  lemma FlaggedOk(d: Disk, i: int, f: File)
    requires DiskOk(d) && 0 <= i < |d.files| && f == d.files[i].(system := true)
    ensures DiskOk(Disk(d.files[i := f], d.free)) && Named(Disk(d.files[i := f], d.free), i, f.name)
  {
    var fs := d.files[i := f];
    assert forall k :: 0 <= k < |fs| ==> fs[k] == if k == i then f else d.files[k];
  }

  // ---------- results ----------

  lemma DeleteRemoves(d: Disk, i: int)
    requires DiskOk(d) && 0 <= i < |d.files|
    ensures Removed(d, Delete(d, i), i)
  {
    hide View;
    DeleteHalts(d, i);
    ViewRemove(d.files, i);
  }

  /** rm refuses a file that is missing or a system file, and changes nothing then; any other one is gone. */
  lemma RmExactly(d: Disk, name: Name)
    requires DiskOk(d)
    ensures forall i :: Named(d, i, name) && !d.files[i].system ==> Removed(d, Rm(d, name), i)
    ensures (forall i :: Named(d, i, name) ==> d.files[i].system) ==> Rm(d, name) == Done(d, 1)
  {
    hide Removed, Delete;
    forall i | Named(d, i, name) && !d.files[i].system ensures Removed(d, Rm(d, name), i) {
      NamedFound(d, i, name);
      DeleteRemoves(d, i);
    }
    if Find(d.files, name) < |d.files| {
      assert Named(d, Find(d.files, name), name);
    }
  }

  /** delete_system_file refuses a file that is missing, and no other. */
  lemma DeleteSystemExactly(d: Disk, name: Name)
    requires DiskOk(d)
    ensures forall i :: Named(d, i, name) ==> Removed(d, DeleteSystemFile(d, name), i)
    ensures (forall i :: !Named(d, i, name)) ==> DeleteSystemFile(d, name) == Done(d, 1)
  {
    hide Removed, Delete;
    forall i | Named(d, i, name) ensures Removed(d, DeleteSystemFile(d, name), i) {
      NamedFound(d, i, name);
      DeleteRemoves(d, i);
    }
    if Find(d.files, name) < |d.files| {
      assert Named(d, Find(d.files, name), name);
    }
  }

  /** touch refuses a name that is taken. It reports success for any other, and then an empty file is at the end
      of the directory, but for a disk with less than two free clusters, which stays as it is. */
  lemma TouchExactly(d: Disk, name: Name)
    requires DiskOk(d)
    ensures (exists i :: Named(d, i, name)) ==> Touch(d, name) == Done(d, 1)
    ensures (forall i :: !Named(d, i, name)) && Touch(d, name).Done? ==>
      && Touch(d, name).code == 0
      && Touch(d, name).disk.files == if d.free < 2 then d.files else d.files + [File(name, 0, 1, [], false, false)]
  {
    if i :| Named(d, i, name) {
      NamedFound(d, i, name);
    } else {
      NoneFound(d, name);
    }
  }

  /** write refuses a missing file, an offset past the end, and an insertion for which fewer clusters are free than
      the grown file calls for, and changes nothing then. In no other case does it report a failure. */
  lemma WriteExactly(d: Disk, name: Name, buf: seq<byte>, offset: nat)
    requires DiskOk(d) && WriteLegal(d, name, offset)
    ensures (forall i :: !Named(d, i, name)) ==> Write(d, name, buf, offset) == Done(d, 1)
    ensures forall i :: Named(d, i, name) ==>
      if RefusedWrite(d, d.files[i].size, |buf|, offset) then Write(d, name, buf, offset) == Done(d, 1)
      else Write(d, name, buf, offset).Done? ==> Write(d, name, buf, offset).code == 0
  {
    hide Append, Insert;
    if i :| Named(d, i, name) {
      NamedFound(d, i, name);
      AppendSaysYes(d, i, buf);
      if offset < d.files[i].size {
        InsertSaysYes(d, i, buf, offset);
      }
    } else {
      NoneFound(d, name);
    }
  }

  /** `len` bytes more in a file of `size` bytes do not fit the free clusters, or the offset is past the end. */
  predicate RefusedWrite(d: Disk, size: nat, len: nat, offset: nat) {
    offset > size || (offset < size && CLUSTER_SIZE * d.free < size + len)
  }

  lemma AppendSaysYes(d: Disk, i: nat, buf: seq<byte>)
    requires i < |d.files| && FileOk(d.files[i])
    ensures Append(d, i, buf).Done? ==> Append(d, i, buf).code == 0
  {
    AppendOutcome(d, i, buf);
  }

  lemma InsertSaysYes(d: Disk, i: nat, buf: seq<byte>, offset: nat)
    requires i < |d.files| && FileOk(d.files[i]) && offset < d.files[i].size && InsertLegal(d.files[i])
    ensures var o := Insert(d, i, buf, offset);
      if CLUSTER_SIZE * d.free < d.files[i].size + |buf| then o == Done(d, 1) else o.Done? ==> o.code == 0
  {
    hide Append, FileOk, Insert, CutFile, TailSeen, InsertLegal;
    InsertOutcome(d, i, buf, offset);
    var f := d.files[i];
    CutFileOk(f, offset);
    var cut := Disk(d.files[i := CutFile(f, offset)], d.free + CutReleases(f, offset));
    if d.free >= ClustersNeeded(f.size + |buf|) && Append(cut, i, buf).Done? {
      AppendSaysYes(Append(cut, i, buf).disk, i, TailSeen(f, offset));
    }
  }

  /** cp puts an empty file into its destination's place. */
  ghost predicate EmptyTarget(d: Disk, des: Name) {
    if exists k :: Named(d, k, des) then forall k :: Named(d, k, des) ==> !d.files[k].system else d.free >= 2
  }

  lemma TargetView(d: Disk, des: Name)
    requires DiskOk(d) && CpTarget(d, des).Done?
    ensures View(CpTarget(d, des).disk.files) == if EmptyTarget(d, des) then View(d.files)[des := []] else View(d.files)
  {
    hide View, CpTarget, Touch, Rm, Resave;
    CpTargetSteps(d, des);
    var f := File(des, 0, 1, [], false, false);
    if k :| Named(d, k, des) {
      NamedFound(d, k, des);
      if d.files[k].system {
        SystemTarget(d, des);
      } else {
        RmDeletes(d, des);
        DeleteRemoves(d, k);
        DeleteFrees(d, k);
        FindGone(d.files, k);
        var e := Delete(d, k).disk;
        TouchFinds(e, des);
        ViewSnoc(e.files, f);
        assert (View(d.files) - {des})[des := []] == View(d.files)[des := []];
      }
    } else {
      NoneFound(d, des);
      TouchFinds(d, des);
      TouchOutcome(d, des);
      ViewSnoc(d.files, f);
    }
  }

  lemma DeleteFrees(d: Disk, i: int)
    requires DiskOk(d) && 0 <= i < |d.files|
    ensures Delete(d, i).Done? && Delete(d, i).disk.free > 2
  {
    DeleteHalts(d, i);
    RootClustersFacts(|d.files| - 1);
    assert FileOk(d.files[i]);
  }

  /** cp refuses a missing source and a copy to itself, and changes nothing then. When it finds that the source
      does not fit, the destination is already an empty file, unless it is a system file, or it was not there and
      could not be made. */
  lemma CpRefused(d: Disk, src: Name, des: Name)
    requires DiskOk(d) && CpLegal(d, src, des) && GoodName(des)
    ensures src == des || (forall i :: !Named(d, i, src)) ==> Cp(d, src, des) == Done(d, 1)
    ensures src != des && (exists i :: Named(d, i, src)) && Cp(d, src, des).Done? && Cp(d, src, des).code != 0 ==>
      && Cp(d, src, des).code == 1
      && View(Cp(d, src, des).disk.files)
        == if EmptyTarget(d, des) then View(d.files)[des := []] else View(d.files)
  {
    CpSteps(d, src, des);
    if i :| Named(d, i, src) {
      NamedFound(d, i, src);
      hide Cp, Find, CpFinish, View;
      if src != des && CpTarget(d, des).Done? && CpTarget(d, des).disk.free < ClustersNeeded(d.files[i].size) {
        TargetView(d, des);
      }
    } else {
      NoneFound(d, src);
    }
  }
}
