/** What the calls do to where everything lies, and which files' data they write over: told from sizes, names and
    free clusters alone, not from the bytes. */
module FsPlan {
  import opened Bytes
  import opened FsLayout
  import opened FsChains
  import opened FsSpec
  import opened FsLike
  import opened FsProps
  import opened FsRuns
  import opened FsState
  import opened FsFirstFit

  /** The layout, and the files whose data the directory was written over, with their copies. */
  datatype Plan = Plan(a: Layout, hit: set<Name>)

  function FileNames(files: seq<File>): (names: seq<Name>)
    ensures |names| == |files|
  {
    seq(|files|, i requires 0 <= i < |files| => files[i].name)
  }

  /** The layout has a chain for every file, as long as the file says. */
  ghost predicate Fit(a: Layout, d: Disk) {
    && |a.cs| == |d.files| + 1 && |RootOf(a.cs)| >= 2
    && forall i :: 0 <= i < |d.files| ==> |a.cs[i]| == d.files[i].clusters + 1 >= 2
  }

  lemma PlacedFit(fat: seq<int>, data: seq<byte>, cs: seq<seq<int>>, recs: seq<FileRec>, free: nat)
    requires Placed(fat, data, cs, recs) && |data| == DATA_SIZE && AllInRange(cs)
    ensures Fit(Layout(Bare(fat), cs), Disk(AbsFiles(data, recs, cs), free))
    ensures FileNames(AbsFiles(data, recs, cs)) == NamesOf(recs)
  {
    PlacedRoot(fat, data, cs, recs);
    PlacedWf(fat, data, cs, recs);
    var fs := AbsFiles(data, recs, cs);
    forall i | 0 <= i < |recs| ensures fs[i].name == recs[i].name && fs[i].clusters == |cs[i]| - 1 {
      assert fs[i] == AbsFile(data, recs[i], cs[i]);
    }
  }

  lemma NamesWithout(recs: seq<FileRec>, recs': seq<FileRec>, i: nat)
    requires i < |recs| && recs' == recs[..i] + recs[i + 1..]
    ensures NamesOf(recs') == NamesOf(recs)[..i] + NamesOf(recs)[i + 1..]
  {
  }

  // ---------- one call ----------

  /** The directory of these files is saved: its last copy may reach data of some of them. */
  ghost function SavePlan(p: Plan, names: seq<Name>): (r: Plan)
    requires |p.a.cs| == |names| + 1 && RootOf(p.a.cs) != []
    ensures p.hit <= r.hit && (Fits(|names|) ==> r.hit == p.hit)
  {
    var a := SavedLayout(p.a, |names|);
    NoneReached(names, p.a.cs, LastData(RootOf(a.cs)));
    Plan(a, p.hit + Reached(names, p.a.cs, LastData(RootOf(a.cs))))
  }

  /** What the plan says, from the memory's own FAT. */
  lemma SavePlanIs(f: seq<int>, cs: seq<seq<int>>, hit: set<Name>, names: seq<Name>)
    requires |cs| == |names| + 1 && RootOf(cs) != []
    ensures var g := Freed(f, RootOf(cs)[1..]);
      SavePlan(Plan(Layout(Bare(f), cs), hit), names)
      == Plan(SavedOver(Bare(g), cs, |names|), hit + Reached(names, cs, LastOfRoot(g, |names|)))
  {
    var g := Freed(f, RootOf(cs)[1..]);
    BareFreed(f, RootOf(cs)[1..]);
    LastIs(g, cs, |names|);
  }

  ghost function TouchPlan(p: Plan, d: Disk, name: Name): (r: Plan)
    requires Fit(p.a, d)
    ensures p.hit <= r.hit && (Touch(d, name).Done? ==> Fit(r.a, Touch(d, name).disk))
  {
    if Find(d.files, name) < |d.files| then p
    else if d.free < 2 then SavePlan(p, FileNames(d.files))
    else SavePlan(Plan(WithNewFile(p.a), p.hit), FileNames(d.files) + [name])
  }

  ghost function DeletePlan(p: Plan, d: Disk, i: nat): (r: Plan)
    requires Fit(p.a, d) && i < |d.files|
    ensures p.hit <= r.hit && (Delete(d, i).Done? ==> Fit(r.a, Delete(d, i).disk))
  {
    var names := FileNames(d.files);
    SavePlan(Plan(WithoutChain(p.a, i), p.hit), names[..i] + names[i + 1..])
  }

  ghost function RmPlan(p: Plan, d: Disk, name: Name): (r: Plan)
    requires Fit(p.a, d)
    ensures p.hit <= r.hit && (Rm(d, name).Done? ==> Fit(r.a, Rm(d, name).disk))
  {
    var i := Find(d.files, name);
    if i == |d.files| || d.files[i].system then p else DeletePlan(p, d, i)
  }

  ghost function DeleteSystemPlan(p: Plan, d: Disk, name: Name): (r: Plan)
    requires Fit(p.a, d)
    ensures DeleteSystemFile(d, name).Done? ==> Fit(r.a, DeleteSystemFile(d, name).disk)
  {
    var i := Find(d.files, name);
    if i == |d.files| then p else DeletePlan(p, d, i)
  }

  /** The directory is saved with a flag changed, unless the call is refused. */
  ghost function FlagPlan(p: Plan, d: Disk, refused: bool): (r: Plan)
    requires Fit(p.a, d)
    ensures Fit(r.a, d) && p.hit <= r.hit
  {
    if refused then p else SavePlan(p, FileNames(d.files))
  }

  /** The new size does not wrap, or is never reached. */
  predicate NoWrap(d: Disk, i: nat, len: nat)
    requires i < |d.files|
  {
    d.files[i].size + len < 0x1_0000_0000 || NewClusters(d.files[i].size, len) > d.free
  }

  /** An append of len bytes; without space nothing is taken, and the directory is not saved. */
  ghost function AppendPlan(p: Plan, d: Disk, i: nat, len: nat): (r: Plan)
    requires Fit(p.a, d) && i < |d.files|
    ensures |r.a.cs| == |p.a.cs| && |RootOf(r.a.cs)| >= 2
    ensures var added := NewClusters(d.files[i].size, len);
      |r.a.cs[i]| == |p.a.cs[i]| + if added > d.free then 0 else added
    ensures forall k :: 0 <= k < |d.files| && k != i ==> r.a.cs[k] == p.a.cs[k]
  {
    var added := NewClusters(d.files[i].size, len);
    if added > d.free then p else SavePlan(Plan(AppendedLayout(p.a, i, added), p.hit), FileNames(d.files))
  }

  lemma AppendFit(p: Plan, d: Disk, i: nat, buf: seq<byte>)
    requires Fit(p.a, d) && i < |d.files| && FileOk(d.files[i]) && Append(d, i, buf).Done?
    ensures Fit(AppendPlan(p, d, i, |buf|).a, Append(d, i, buf).disk)
  {
    AppendOutcome(d, i, buf);
    assert NewClusters(d.files[i].size, 0) == 0;
  }

  function CutDisk(d: Disk, i: nat, offset: nat): Disk
    requires i < |d.files| && offset <= |d.files[i].bytes|
  {
    Disk(d.files[i := CutFile(d.files[i], offset)], d.free + CutReleases(d.files[i], offset))
  }

  /** The directory is saved with the file's new size, and the file is cut. */
  ghost function CutPlan(p: Plan, d: Disk, i: nat, offset: nat): (r: Plan)
    requires Fit(p.a, d) && i < |d.files| && FileOk(d.files[i]) && offset < d.files[i].size && InsertLegal(d.files[i])
    ensures |d.files[i].bytes| == d.files[i].size
    ensures Fit(r.a, CutDisk(d, i, offset))
  {
    CutFileOk(d.files[i], offset);
    var q := SavePlan(p, FileNames(d.files));
    Plan(CutLayout(q.a, i, offset / CLUSTER_SIZE), q.hit)
  }

  /** An insertion: a cut and two appends. */
  ghost function InsertPlan(p: Plan, d: Disk, i: nat, buf: seq<byte>, offset: nat): (r: Plan)
    requires Fit(p.a, d) && i < |d.files| && FileOk(d.files[i]) && offset < d.files[i].size && InsertLegal(d.files[i])
  {
    var f := d.files[i];
    if d.free < ClustersNeeded(f.size + |buf|) then p
    else
      InsertOutcome(d, i, buf, offset);
      var cut, q := CutDisk(d, i, offset), CutPlan(p, d, i, offset);
      var r := AppendPlan(q, cut, i, |buf|);
      if Append(cut, i, buf).Halted? then r
      else
        AppendFit(q, cut, i, buf);
        AppendPlan(r, Append(cut, i, buf).disk, i, |TailSeen(f, offset)|)
  }

  lemma InsertFit(p: Plan, d: Disk, i: nat, buf: seq<byte>, offset: nat)
    requires Fit(p.a, d) && i < |d.files| && FileOk(d.files[i]) && offset < d.files[i].size && InsertLegal(d.files[i])
    requires Insert(d, i, buf, offset).Done?
    ensures Fit(InsertPlan(p, d, i, buf, offset).a, Insert(d, i, buf, offset).disk)
  {
    hide Fit, Append, FileOk, CutFile, ClustersNeeded, CutReleases, AppendPlan, CutPlan, SavePlan, Resave, NewClusters;
    InsertOutcome(d, i, buf, offset);
    if d.free >= ClustersNeeded(d.files[i].size + |buf|) {
      var cut, q := CutDisk(d, i, offset), CutPlan(p, d, i, offset);
      AppendFit(q, cut, i, buf);
      AppendFit(AppendPlan(q, cut, i, |buf|), Append(cut, i, buf).disk, i, TailSeen(d.files[i], offset));
    }
  }

  ghost function WritePlan(p: Plan, d: Disk, name: Name, buf: seq<byte>, offset: nat): (r: Plan)
    requires Fit(p.a, d) && DiskOk(d) && WriteLegal(d, name, offset)
  {
    var i := Find(d.files, name);
    if i == |d.files| || offset > d.files[i].size then p
    else if offset == d.files[i].size then AppendPlan(p, d, i, |buf|)
    else InsertPlan(p, d, i, buf, offset)
  }

  /** cp() puts its destination in place. */
  ghost function TargetPlan(p: Plan, d: Disk, des: Name): (r: Plan)
    requires Fit(p.a, d)
    ensures p.hit <= r.hit && (CpTarget(d, des).Done? ==> Fit(r.a, CpTarget(d, des).disk))
  {
    if Find(d.files, des) == |d.files| then TouchPlan(p, d, des)
    else if Rm(d, des).Halted? then p
    else TouchPlan(RmPlan(p, d, des), Rm(d, des).disk, des)
  }

  /** The copying, from a file of m clusters called src to file k: a copy of a file that was hit is one more. */
  ghost function CopyPlan(p: Plan, d: Disk, k: nat, m: nat, src: Name): (r: Plan)
    requires Fit(p.a, d) && k < |d.files|
    ensures p.hit <= r.hit && (src in p.hit ==> d.files[k].name in r.hit)
  {
    var q := SavePlan(p, FileNames(d.files));
    Plan(CopiedLayout(q.a, k, m), q.hit + if src in q.hit then {d.files[k].name} else {})
  }

  ghost function CpPlan(p: Plan, d: Disk, src: Name, des: Name): (r: Plan)
    requires Fit(p.a, d) && CpLegal(d, src, des)
  {
    var i, made := Find(d.files, src), CpTarget(d, des);
    if src == des || i == |d.files| then p
    else if made.Halted? || made.disk.free < ClustersNeeded(d.files[i].size) then TargetPlan(p, d, des)
    else CopyPlan(TargetPlan(p, d, des), made.disk, Find(made.disk.files, des), d.files[i].clusters, src)
  }

  lemma CpFit(p: Plan, d: Disk, src: Name, des: Name)
    requires Fit(p.a, d) && CpLegal(d, src, des) && Cp(d, src, des).Done?
    ensures Fit(CpPlan(p, d, src, des).a, Cp(d, src, des).disk)
  {
    hide CpTarget;
    CpSteps(d, src, des);
  }

  /** A copy of a file that was hit counts as hit. */
  lemma CpPlanHits(p: Plan, d: Disk, src: Name, des: Name)
    requires Fit(p.a, d) && CpLegal(d, src, des) && Cp(d, src, des).Done? && Cp(d, src, des).code == 0 && src in p.hit
    ensures des in CpPlan(p, d, src, des).hit
  {
    hide CpTarget, TargetPlan, CopyPlan, Fit;
    CpSteps(d, src, des);
  }

  // ---------- when data goes over the directory ----------

  /** An append finds no room behind its first write, and that goes over the directory's records. */
  ghost predicate AppendStops(p: Plan, d: Disk, i: nat, len: nat)
    requires Fit(p.a, d) && i < |d.files|
  {
    && NewClusters(d.files[i].size, len) > d.free
    && OverDirectory(LastData(RootOf(p.a.cs)), |d.files|, LastData(p.a.cs[i]), d.files[i].size % CLUSTER_SIZE)
  }

  ghost predicate InsertStops(p: Plan, d: Disk, i: nat, buf: seq<byte>, offset: nat)
    requires Fit(p.a, d) && i < |d.files| && FileOk(d.files[i]) && offset < d.files[i].size && InsertLegal(d.files[i])
  {
    InsertOutcome(d, i, buf, offset);
    var cut, q := CutDisk(d, i, offset), CutPlan(p, d, i, offset);
    && d.free >= ClustersNeeded(d.files[i].size + |buf|)
    && Append(cut, i, buf).Done?
    && (AppendFit(q, cut, i, buf);
        AppendStops(AppendPlan(q, cut, i, |buf|), Append(cut, i, buf).disk, i, |TailSeen(d.files[i], offset)|))
  }

  ghost predicate WriteStops(p: Plan, d: Disk, name: Name, buf: seq<byte>, offset: nat)
    requires Fit(p.a, d) && DiskOk(d) && WriteLegal(d, name, offset)
  {
    var i := Find(d.files, name);
    && i < |d.files| && offset <= d.files[i].size
    && if offset == d.files[i].size then AppendStops(p, d, i, |buf|) else InsertStops(p, d, i, buf, offset)
  }

  /** The clusters that the copy of m clusters to file k fills, by first fit, include one that the directory's
      last copy has reached. */
  ghost predicate CopyStops(p: Plan, d: Disk, k: nat, m: nat)
    requires Fit(p.a, d) && k < |d.files|
  {
    var a := SavePlan(p, FileNames(d.files)).a;
    var f := Freed(a.fat, [a.cs[k][1]]);
    FillsSpill(f, a.cs[k][0], m, d.free + 1, LastData(RootOf(a.cs)), |d.files|)
  }

  ghost predicate CpStops(p: Plan, d: Disk, src: Name, des: Name)
    requires Fit(p.a, d) && CpLegal(d, src, des)
  {
    var i, made := Find(d.files, src), CpTarget(d, des);
    && src != des && i < |d.files| && made.Done? && made.disk.free >= ClustersNeeded(d.files[i].size)
    && CopyStops(TargetPlan(p, d, des), made.disk, Find(made.disk.files, des), d.files[i].clusters)
  }

  // ---------- bytes do not matter ----------

  lemma FitLike(a: Layout, d: Disk, e: Disk, hit: set<Name>)
    requires Like(d, e, hit)
    ensures (Fit(a, d) <==> Fit(a, e)) && FileNames(d.files) == FileNames(e.files)
  {
    forall i | 0 <= i < |d.files|
      ensures d.files[i].clusters == e.files[i].clusters && d.files[i].name == e.files[i].name
    {
      LikeAt(d, e, hit, i);
    }
  }

  lemma TouchPlanLike(p: Plan, d: Disk, e: Disk, name: Name, hit: set<Name>)
    requires Like(d, e, hit) && Fit(p.a, d)
    ensures Fit(p.a, e) && TouchPlan(p, d, name) == TouchPlan(p, e, name)
  {
    hide SavePlan, FileNames, Fit, AlikeFiles;
    FitLike(p.a, d, e, hit);
    FindAlike(d.files, e.files, hit, name);
    AlikeLength(d, e, hit);
  }

  lemma RmPlanLike(p: Plan, d: Disk, e: Disk, name: Name, hit: set<Name>)
    requires Like(d, e, hit) && Fit(p.a, d)
    ensures Fit(p.a, e) && RmPlan(p, d, name) == RmPlan(p, e, name)
    ensures DeleteSystemPlan(p, d, name) == DeleteSystemPlan(p, e, name)
  {
    hide SavePlan, FileNames, Fit, AlikeFiles;
    FitLike(p.a, d, e, hit);
    FindAlike(d.files, e.files, hit, name);
    AlikeLength(d, e, hit);
    var i := Find(d.files, name);
    if i < |d.files| {
      LikeAt(d, e, hit, i);
    }
  }

  lemma AppendPlanLike(p: Plan, d: Disk, e: Disk, i: nat, len: nat, hit: set<Name>)
    requires Like(d, e, hit) && Fit(p.a, d) && i < |d.files|
    ensures Fit(p.a, e) && AppendPlan(p, d, i, len) == AppendPlan(p, e, i, len)
    ensures AppendStops(p, d, i, len) <==> AppendStops(p, e, i, len)
  {
    hide SavePlan, FileNames, AlikeFiles;
    FitLike(p.a, d, e, hit);
    LikeAt(d, e, hit, i);
    AlikeLength(d, e, hit);
  }

  /** An insertion that is refused. */
  lemma InsertRefused(p: Plan, d: Disk, i: nat, buf: seq<byte>, offset: nat)
    requires Fit(p.a, d) && i < |d.files| && FileOk(d.files[i]) && offset < d.files[i].size && InsertLegal(d.files[i])
    ensures d.free < ClustersNeeded(d.files[i].size + |buf|) ==>
      InsertPlan(p, d, i, buf, offset) == p && !InsertStops(p, d, i, buf, offset)
  {
    hide Fit, AppendPlan, CutPlan;
  }

  /** An insertion that is not refused, from a disk e that is like d once the directory is saved. */
  lemma InsertPlanSteps(p: Plan, q: Plan, d: Disk, e: Disk, i: nat, buf: seq<byte>, offset: nat, hit: set<Name>)
    requires Like(e, d, hit) && Fit(p.a, d) && i < |d.files| && i < |e.files|
    requires FileOk(d.files[i]) && offset < d.files[i].size && InsertLegal(d.files[i]) && q == CutPlan(p, d, i, offset)
    requires FileOk(e.files[i]) && offset < e.files[i].size && InsertLegal(e.files[i])
    requires d.free >= ClustersNeeded(d.files[i].size + |buf|)
    ensures |e.files[i].bytes| == e.files[i].size && Fit(q.a, CutDisk(e, i, offset))
    ensures FileOk(CutDisk(e, i, offset).files[i])
    ensures var o, r := Append(CutDisk(e, i, offset), i, buf), AppendPlan(q, CutDisk(e, i, offset), i, |buf|);
      o.Done? && Fit(r.a, o.disk) && |o.disk.files| == |e.files| ==>
        && InsertPlan(p, d, i, buf, offset) == AppendPlan(r, o.disk, i, |TailSeen(e.files[i], offset)|)
        && (InsertStops(p, d, i, buf, offset) <==> AppendStops(r, o.disk, i, |TailSeen(e.files[i], offset)|))
    ensures Append(CutDisk(e, i, offset), i, buf).Halted? ==>
      && InsertPlan(p, d, i, buf, offset) == AppendPlan(q, CutDisk(e, i, offset), i, |buf|)
      && !InsertStops(p, d, i, buf, offset)
    ensures Append(CutDisk(e, i, offset), i, buf).Done? ==>
      var o, r := Append(CutDisk(e, i, offset), i, buf), AppendPlan(q, CutDisk(e, i, offset), i, |buf|);
      Fit(r.a, o.disk) && |o.disk.files| == |e.files|
  {
    hide Fit, Append, FileOk, CutFile, ClustersNeeded, CutReleases, AppendPlan, AppendStops, CutPlan, Resave,
      NewClusters, AlikeFiles, Insert;
    LikeAt(e, d, hit, i);
    var f, g := e.files[i], d.files[i];
    InsertOutcome(d, i, buf, offset);
    InsertOutcome(e, i, buf, offset);
    CutAlike(f, g, offset, g.name in hit);
    CutFileFacts(f, offset);
    CutFileFacts(g, offset);
    AlikeUpdate(e.files, d.files, hit, i, CutFile(f, offset), CutFile(g, offset));
    var cut, cut' := CutDisk(e, i, offset), CutDisk(d, i, offset);
    FitLike(q.a, cut, cut', hit);
    AppendPlanLike(q, cut, cut', i, |buf|, hit);
    AppendLike(cut, cut', i, buf, buf, hit);
    if Append(cut, i, buf).Done? {
      var r, mid, mid' := AppendPlan(q, cut, i, |buf|), Append(cut, i, buf).disk, Append(cut', i, buf).disk;
      AppendFit(q, cut', i, buf);
      LikeBack(mid, mid', hit);
      AppendPlanLike(r, mid', mid, i, |TailSeen(f, offset)|, hit);
    }
  }

  /** An insertion that is not refused is two appends to the file that was cut. */
  lemma InsertIsAppends(d: Disk, i: nat, buf: seq<byte>, offset: nat)
    requires i < |d.files| && FileOk(d.files[i]) && offset < d.files[i].size && InsertLegal(d.files[i])
    requires d.free >= ClustersNeeded(d.files[i].size + |buf|)
    ensures |d.files[i].bytes| == d.files[i].size && FileOk(CutDisk(d, i, offset).files[i])
    ensures var o := Append(CutDisk(d, i, offset), i, buf);
      o.Done? && i < |o.disk.files| && FileOk(o.disk.files[i]) ==>
        Insert(d, i, buf, offset) == Append(o.disk, i, TailSeen(d.files[i], offset))
  {
    hide Append, FileOk, CutFile, ClustersNeeded, CutReleases, Insert, TailSeen;
    InsertOutcome(d, i, buf, offset);
  }

  /** What the second append of an insertion finds: room for the size, or a tail whose length has wrapped. */
  lemma RestFits(d: Disk, i: nat, len: nat, offset: nat)
    requires i < |d.files| && FileOk(d.files[i]) && offset < d.files[i].size && InsertLegal(d.files[i])
    requires d.files[i].size + len < 0x1_0000_0000 && d.free >= ClustersNeeded(d.files[i].size + len)
    ensures |d.files[i].bytes| == d.files[i].size && offset + len < 0x1_0000_0000
    ensures CutDisk(d, i, offset).free > NewClusters(offset, len)
    ensures var n := |TailSeen(d.files[i], offset)|;
      offset + len + n < 0x1_0000_0000 || NewClusters(offset + len, n) > CLUSTER_COUNT
  {
    hide NewClusters, ClustersNeeded, CutFile;
    var f := d.files[i];
    CutFileOk(f, offset);
    InsertNeeds(f, len, offset);
    if TailLength(f, offset) < 0 {
      WrappedNeeds(offset + len, |TailSeen(f, offset)|);
    }
  }

  lemma TargetPlanLike(p: Plan, d: Disk, e: Disk, des: Name, hit: set<Name>)
    requires Like(d, e, hit) && Fit(p.a, d)
    ensures Fit(p.a, e) && TargetPlan(p, d, des) == TargetPlan(p, e, des)
  {
    hide Fit, AlikeFiles, TouchPlan, RmPlan, Rm;
    FitLike(p.a, d, e, hit);
    FindAlike(d.files, e.files, hit, des);
    AlikeLength(d, e, hit);
    TouchPlanLike(p, d, e, des, hit);
    RmPlanLike(p, d, e, des, hit);
    RmLike(d, e, des, hit);
    if Rm(d, des).Done? {
      TouchPlanLike(RmPlan(p, d, des), Rm(d, des).disk, Rm(e, des).disk, des, hit);
    }
  }

  /** The copying, from the layout q in which the directory has been saved. */
  lemma CopyPlanIs(p: Plan, q: Plan, d: Disk, k: nat, m: nat, src: Name)
    requires Fit(p.a, d) && k < |d.files| && q == SavePlan(p, FileNames(d.files))
    ensures |q.a.cs| == |d.files| + 1 && |q.a.cs[k]| >= 2 && |RootOf(q.a.cs)| >= 2
    ensures CopyPlan(p, d, k, m, src)
      == Plan(CopiedLayout(q.a, k, m), q.hit + if src in q.hit then {d.files[k].name} else {})
    ensures CopyStops(p, d, k, m) <==>
      FillsSpill(Freed(q.a.fat, [q.a.cs[k][1]]), q.a.cs[k][0], m, d.free + 1, LastData(RootOf(q.a.cs)), |d.files|)
  {
    hide FillsSpill, CopiedLayout, Freed;
  }

  lemma CopyPlanLike(p: Plan, d: Disk, e: Disk, k: nat, m: nat, src: Name, hit: set<Name>)
    requires Like(d, e, hit) && Fit(p.a, d) && k < |d.files|
    ensures Fit(p.a, e) && k < |e.files| && CopyPlan(p, d, k, m, src) == CopyPlan(p, e, k, m, src)
    ensures CopyStops(p, d, k, m) <==> CopyStops(p, e, k, m)
  {
    hide SavePlan, FileNames, AlikeFiles, CopiedLayout, FillsSpill, Fit;
    FitLike(p.a, d, e, hit);
    LikeAt(d, e, hit, k);
    AlikeLength(d, e, hit);
  }

  lemma InsertPlanLike(p: Plan, d: Disk, e: Disk, i: nat, buf: seq<byte>, offset: nat, hit: set<Name>)
    requires Like(d, e, hit) && Fit(p.a, d) && i < |d.files| && FileOk(d.files[i])
    requires offset < d.files[i].size && InsertLegal(d.files[i])
    ensures Fit(p.a, e) && i < |e.files| && FileOk(e.files[i]) && offset < e.files[i].size && InsertLegal(e.files[i])
    ensures InsertPlan(p, d, i, buf, offset) == InsertPlan(p, e, i, buf, offset)
    ensures InsertStops(p, d, i, buf, offset) <==> InsertStops(p, e, i, buf, offset)
  {
    hide Fit, Append, FileOk, CutFile, ClustersNeeded, CutReleases, AppendPlan, AppendStops, SavePlan, CutLayout,
      AlikeFiles, Insert, InsertPlan, InsertStops, InsertLegal, Insert, TailSeen, FileNames;
    FitLike(p.a, d, e, hit);
    AlikeLength(d, e, hit);
    LikeAt(d, e, hit, i);
    FileOkAlike(d.files[i], e.files[i], true);
    InsertLegalAlike(e.files[i], d.files[i], offset) by { LikeBack(d, e, hit); LikeAt(e, d, hit, i); }
    InsertRefused(p, d, i, buf, offset);
    InsertRefused(p, e, i, buf, offset);
    if d.free >= ClustersNeeded(d.files[i].size + |buf|) {
      var q := CutPlan(p, d, i, offset);
      LikeBack(d, e, hit);
      AlikeItself(e.files, hit);
      InsertPlanSteps(p, q, d, e, i, buf, offset, hit);
      InsertPlanSteps(p, q, e, e, i, buf, offset, hit);
    }
  }

  lemma WritePlanLike(p: Plan, d: Disk, e: Disk, name: Name, buf: seq<byte>, offset: nat, hit: set<Name>)
    requires Like(d, e, hit) && Fit(p.a, d) && DiskOk(d) && WriteLegal(d, name, offset)
    ensures Fit(p.a, e) && DiskOk(e) && WriteLegal(e, name, offset)
    ensures WritePlan(p, d, name, buf, offset) == WritePlan(p, e, name, buf, offset)
    ensures WriteStops(p, d, name, buf, offset) <==> WriteStops(p, e, name, buf, offset)
  {
    hide Fit, AppendPlan, AppendStops, InsertPlan, InsertStops, AlikeFiles, FileOk, InsertLegal;
    FitLike(p.a, d, e, hit);
    DiskOkAlike(d, e, hit);
    WriteLike(d, e, name, buf, offset, hit);
    FindAlike(d.files, e.files, hit, name);
    AlikeLength(d, e, hit);
    var i := Find(d.files, name);
    if i < |d.files| {
      LikeAt(d, e, hit, i);
      AppendPlanLike(p, d, e, i, |buf|, hit);
      if offset < d.files[i].size {
        InsertPlanLike(p, d, e, i, buf, offset, hit);
      }
    }
  }

  lemma CpPlanLike(p: Plan, d: Disk, e: Disk, src: Name, des: Name, hit: set<Name>)
    requires Like(d, e, hit) && Fit(p.a, d) && CpLegal(d, src, des)
    ensures Fit(p.a, e) && CpLegal(e, src, des) && CpPlan(p, d, src, des) == CpPlan(p, e, src, des)
    ensures CpStops(p, d, src, des) <==> CpStops(p, e, src, des)
  {
    hide Fit, TargetPlan, CopyPlan, CopyStops, CpTarget, AlikeFiles;
    FitLike(p.a, d, e, hit);
    CpLegalLike(d, e, src, des, hit);
    FindAlike(d.files, e.files, hit, src);
    AlikeLength(d, e, hit);
    TargetPlanLike(p, d, e, des, hit);
    CpTargetLike(d, e, des, hit);
    var i := Find(d.files, src);
    if src != des && i < |d.files| {
      LikeAt(d, e, hit, i);
      if CpTarget(d, des).Done? {
        var made, made' := CpTarget(d, des).disk, CpTarget(e, des).disk;
        FindAlike(made.files, made'.files, hit, des);
        AlikeLength(made, made', hit);
        if made.free >= ClustersNeeded(d.files[i].size) {
          CopyPlanLike(TargetPlan(p, d, des), made, made', Find(made.files, des), d.files[i].clusters, src, hit);
        }
      }
    }
  }

  lemma FlagPlanLike(p: Plan, d: Disk, e: Disk, refused: bool, hit: set<Name>)
    requires Like(d, e, hit) && Fit(p.a, d)
    ensures Fit(p.a, e) && FlagPlan(p, d, refused) == FlagPlan(p, e, refused)
  {
    FitLike(p.a, d, e, hit);
  }

  // ---------- any call, any run ----------

  ghost function StepPlan(p: Plan, d: Disk, op: Op): (r: Plan)
    requires Fit(p.a, d) && Legal(d, op)
  {
    match op
    case TouchOp(n) => TouchPlan(p, d, n)
    case RmOp(n) => RmPlan(p, d, n)
    case WriteOp(n, buf, offset) => WritePlan(p, d, n, buf, offset)
    case CpOp(s, t) => CpPlan(p, d, s, t)
    case OpenOp(n) => FlagPlan(p, d, d.files[Find(d.files, n)].open)
    case CloseOp(n) => FlagPlan(p, d, Find(d.files, n) == |d.files| || !d.files[Find(d.files, n)].open)
    case SetSystemOp(n) => FlagPlan(p, d, d.files[Find(d.files, n)].open)
    case DeleteSystemOp(n) => DeleteSystemPlan(p, d, n)
  }

  ghost predicate StepStops(p: Plan, d: Disk, op: Op)
    requires Fit(p.a, d) && Legal(d, op)
  {
    match op
    case WriteOp(n, buf, offset) => WriteStops(p, d, n, buf, offset)
    case CpOp(s, t) => CpStops(p, d, s, t)
    case _ => false
  }

  lemma StepFit(p: Plan, d: Disk, op: Op)
    requires Fit(p.a, d) && Legal(d, op) && Step(d, op).Done?
    ensures Fit(StepPlan(p, d, op).a, Step(d, op).disk)
  {
    match op
    case TouchOp(n) =>
    case RmOp(n) =>
    case WriteOp(n, buf, offset) => WriteFit(p, d, n, buf, offset);
    case CpOp(s, t) => CpFit(p, d, s, t);
    case OpenOp(n) => FlagsFit(p, d, n);
    case CloseOp(n) => FlagsFit(p, d, n);
    case SetSystemOp(n) => FlagsFit(p, d, n);
    case DeleteSystemOp(n) =>
  }

  lemma WriteFit(p: Plan, d: Disk, name: Name, buf: seq<byte>, offset: nat)
    requires Fit(p.a, d) && DiskOk(d) && WriteLegal(d, name, offset) && Write(d, name, buf, offset).Done?
    ensures Fit(WritePlan(p, d, name, buf, offset).a, Write(d, name, buf, offset).disk)
  {
    hide Fit, Append, Insert;
    var i := Find(d.files, name);
    if i < |d.files| && offset == d.files[i].size {
      AppendFit(p, d, i, buf);
    } else if i < |d.files| && offset < d.files[i].size {
      InsertFit(p, d, i, buf, offset);
    }
  }

  lemma FlagsFit(p: Plan, d: Disk, n: Name)
    requires Fit(p.a, d) && DiskOk(d)
    ensures var i := Find(d.files, n);
      && (CloseFile(d, n).Done? ==> Fit(FlagPlan(p, d, i == |d.files| || !d.files[i].open).a, CloseFile(d, n).disk))
      && (i < |d.files| && OpenFile(d, n).Done? ==> Fit(FlagPlan(p, d, d.files[i].open).a, OpenFile(d, n).disk))
      && (i < |d.files| && SetAsSystemFile(d, n).Done? ==>
            Fit(FlagPlan(p, d, d.files[i].open).a, SetAsSystemFile(d, n).disk))
  {
  }

  /** The plan of a call, and whether it stops, are the same on a damaged disk. */
  lemma StepPlanLike(p: Plan, d: Disk, e: Disk, op: Op, hit: set<Name>)
    requires Like(d, e, hit) && Fit(p.a, d) && Legal(d, op) && Legal(e, op)
    ensures Fit(p.a, e) && StepPlan(p, d, op) == StepPlan(p, e, op) && (StepStops(p, d, op) <==> StepStops(p, e, op))
  {
    hide Fit, TouchPlan, RmPlan, WritePlan, CpPlan, FlagPlan, DeleteSystemPlan, WriteStops, CpStops, DiskOk, AlikeFiles,
      WriteLegal, CpLegal;
    FitLike(p.a, d, e, hit);
    AlikeLength(d, e, hit);
    match op
    case TouchOp(n) => TouchPlanLike(p, d, e, n, hit);
    case RmOp(n) => RmPlanLike(p, d, e, n, hit);
    case WriteOp(n, buf, offset) => WritePlanLike(p, d, e, n, buf, offset, hit);
    case CpOp(s, t) => CpPlanLike(p, d, e, s, t, hit);
    case OpenOp(n) => FlagOf(p, d, e, n, hit);
    case CloseOp(n) => FlagOf(p, d, e, n, hit);
    case SetSystemOp(n) => FlagOf(p, d, e, n, hit);
    case DeleteSystemOp(n) => RmPlanLike(p, d, e, n, hit);
  }

  lemma FlagOf(p: Plan, d: Disk, e: Disk, n: Name, hit: set<Name>)
    requires Like(d, e, hit) && Fit(p.a, d)
    ensures Fit(p.a, e) && Find(d.files, n) == Find(e.files, n) && |d.files| == |e.files|
    ensures forall refused :: FlagPlan(p, d, refused) == FlagPlan(p, e, refused)
    ensures Find(d.files, n) < |d.files| ==> d.files[Find(d.files, n)].open == e.files[Find(d.files, n)].open
  {
    hide FlagPlan;
    FindAlike(d.files, e.files, hit, n);
    FitLike(p.a, d, e, hit);
    forall refused ensures FlagPlan(p, d, refused) == FlagPlan(p, e, refused) {
      FlagPlanLike(p, d, e, refused, hit);
    }
  }

  ghost function RunPlan(p: Plan, d: Disk, ops: seq<Op>): (r: Plan)
    requires Fit(p.a, d) && LegalRun(d, ops)
    decreases |ops|
  {
    if ops == [] then p
    else if Step(d, ops[0]).Halted? then StepPlan(p, d, ops[0])
    else
      StepFit(p, d, ops[0]);
      RunPlan(StepPlan(p, d, ops[0]), Step(d, ops[0]).disk, ops[1..])
  }

  /** Some call of the run writes a file's data over the directory. */
  ghost predicate RunStops(p: Plan, d: Disk, ops: seq<Op>)
    requires Fit(p.a, d) && LegalRun(d, ops)
    decreases |ops|
  {
    && ops != []
    && (StepStops(p, d, ops[0]) ||
        (Step(d, ops[0]).Done? &&
         (StepFit(p, d, ops[0]); RunStops(StepPlan(p, d, ops[0]), Step(d, ops[0]).disk, ops[1..]))))
  }

  /** The first call of a run that goes on. */
  lemma RunPlanStep(p: Plan, d: Disk, ops: seq<Op>)
    requires Fit(p.a, d) && LegalRun(d, ops) && ops != []
    ensures Legal(d, ops[0]) && (StepStops(p, d, ops[0]) ==> RunStops(p, d, ops))
    ensures Step(d, ops[0]).Halted? ==> (RunStops(p, d, ops) <==> StepStops(p, d, ops[0]))
    ensures Step(d, ops[0]).Done? ==>
      var q, d' := StepPlan(p, d, ops[0]), Step(d, ops[0]).disk;
      && Fit(q.a, d') && LegalRun(d', ops[1..]) && RunPlan(p, d, ops) == RunPlan(q, d', ops[1..])
      && (RunStops(p, d, ops) <==> StepStops(p, d, ops[0]) || RunStops(q, d', ops[1..]))
  {
    hide Step, Legal, StepPlan, StepStops, Fit;
    if Step(d, ops[0]).Done? {
      StepFit(p, d, ops[0]);
    }
  }

  /** A call before a run. */
  lemma RunFrom(p: Plan, d: Disk, op: Op, ops: seq<Op>)
    requires Fit(p.a, d) && Legal(d, op) && Step(d, op).Done? && LegalRun(Step(d, op).disk, ops)
    ensures LegalRun(d, [op] + ops) && RunSpec(d, [op] + ops) == RunSpec(Step(d, op).disk, ops)
    ensures var q, e := StepPlan(p, d, op), Step(d, op).disk;
      && Fit(q.a, e) && RunPlan(p, d, [op] + ops) == RunPlan(q, e, ops)
      && (RunStops(p, d, [op] + ops) <==> StepStops(p, d, op) || RunStops(q, e, ops))
      && (SavesFit(d, op) && RunFits(e, ops) ==> RunFits(d, [op] + ops))
  {
    hide Step, Legal, StepPlan, StepStops, Fit, SavesFit;
    assert ([op] + ops)[1..] == ops;
    RunPlanStep(p, d, [op] + ops);
    RunSpecStep(d, [op] + ops);
  }

  /** A run in two parts. */
  lemma {:induction false} RunsOn(p: Plan, d: Disk, a: seq<Op>, b: seq<Op>)
    requires Fit(p.a, d) && LegalRun(d, a) && RunSpec(d, a).Done? && LegalRun(RunSpec(d, a).disk, b)
    ensures LegalRun(d, a + b) && RunSpec(d, a + b) == RunSpec(RunSpec(d, a).disk, b)
    ensures Fit(RunPlan(p, d, a).a, RunSpec(d, a).disk)
    ensures RunPlan(p, d, a + b) == RunPlan(RunPlan(p, d, a), RunSpec(d, a).disk, b)
    decreases |a|
  {
    hide Step, Legal, StepPlan, StepStops, Fit;
    if a == [] {
      assert a + b == b;
    } else {
      RunPlanStep(p, d, a);
      RunSpecStep(d, a);
      RunsOn(StepPlan(p, d, a[0]), Step(d, a[0]).disk, a[1..], b);
      assert (a + b)[1..] == a[1..] + b;
      RunPlanStep(p, d, a + b);
      RunSpecStep(d, a + b);
    }
  }

  lemma {:induction false} FitsOn(d: Disk, a: seq<Op>, b: seq<Op>)
    requires LegalRun(d, a) && RunSpec(d, a).Done? && LegalRun(RunSpec(d, a).disk, b)
    requires RunFits(d, a) && RunFits(RunSpec(d, a).disk, b)
    ensures LegalRun(d, a + b) && RunFits(d, a + b)
    decreases |a|
  {
    hide Step, Legal, SavesFit;
    if a == [] {
      assert a + b == b;
    } else {
      RunSpecStep(d, a);
      FitsOn(Step(d, a[0]).disk, a[1..], b);
      assert (a + b)[1..] == a[1..] + b;
    }
  }

  // ---------- calls whose directories fit ----------

  /** Every directory that the call saves stays inside its own clusters. */
  ghost predicate SavesFit(d: Disk, op: Op) {
    var n := |d.files|;
    match op
    case TouchOp(name) => TouchFits(d, name)
    case RmOp(name) => Find(d.files, name) < n ==> Fits(n - 1)
    case WriteOp(_, _, _) => Fits(n)
    case CpOp(s, t) =>
      var k := Find(d.files, t);
      s != t && Find(d.files, s) < n ==>
        if k == n then TouchFits(d, t) && Fits(n + 1)
        else Fits(n) && (d.files[k].system || Fits(n - 1))
    case OpenOp(_) => Fits(n)
    case CloseOp(_) => Fits(n)
    case SetSystemOp(_) => Fits(n)
    case DeleteSystemOp(name) => Find(d.files, name) < n ==> Fits(n - 1)
  }

  ghost predicate TouchFits(d: Disk, name: Name) {
    Find(d.files, name) < |d.files| || Fits(if d.free < 2 then |d.files| else |d.files| + 1)
  }

  /** Such a call hits no file, and only copies files that were hit; and it writes no data over the directory. */
  lemma StepSpares(p: Plan, d: Disk, op: Op)
    requires Fit(p.a, d) && Legal(d, op) && SavesFit(d, op)
    ensures !StepStops(p, d, op)
    ensures !(op.CpOp? && op.src in p.hit) ==> StepPlan(p, d, op).hit == p.hit
  {
    hide Fit, TouchPlan, RmPlan, DeleteSystemPlan, FlagPlan, WritePlan, CpPlan, WriteStops, CpStops, DiskOk, WriteLegal,
      CpLegal, Fits;
    match op
    case TouchOp(n) => TouchSpares(p, d, n);
    case RmOp(n) => RmSpares(p, d, n);
    case WriteOp(n, buf, offset) => WriteSpares(p, d, n, buf, offset);
    case CpOp(s, t) => CpSpares(p, d, s, t);
    case OpenOp(n) => FlagSpares(p, d);
    case CloseOp(n) => FlagSpares(p, d);
    case SetSystemOp(n) => FlagSpares(p, d);
    case DeleteSystemOp(n) => RmSpares(p, d, n);
  }

  lemma TouchSpares(p: Plan, d: Disk, n: Name)
    requires Fit(p.a, d) && TouchFits(d, n)
    ensures TouchPlan(p, d, n).hit == p.hit
  {
    hide SavePlan, Fits;
  }

  lemma RmSpares(p: Plan, d: Disk, n: Name)
    requires Fit(p.a, d) && (Find(d.files, n) < |d.files| ==> Fits(|d.files| - 1))
    ensures RmPlan(p, d, n).hit == p.hit && DeleteSystemPlan(p, d, n).hit == p.hit
  {
    hide SavePlan, Fits;
  }

  lemma FlagSpares(p: Plan, d: Disk)
    requires Fit(p.a, d) && Fits(|d.files|)
    ensures forall refused :: FlagPlan(p, d, refused).hit == p.hit
  {
    hide SavePlan, Fits;
  }

  lemma AppendSpares(p: Plan, d: Disk, i: nat, len: nat)
    requires Fit(p.a, d) && i < |d.files| && Fits(|d.files|)
    ensures !AppendStops(p, d, i, len) && AppendPlan(p, d, i, len).hit == p.hit
  {
    hide SavePlan;
    if AppendStops(p, d, i, len) {
      OverDoesNotFit(LastData(RootOf(p.a.cs)), |d.files|, LastData(p.a.cs[i]), d.files[i].size % CLUSTER_SIZE);
    }
  }

  lemma InsertSpares(p: Plan, d: Disk, i: nat, buf: seq<byte>, offset: nat)
    requires Fit(p.a, d) && i < |d.files| && FileOk(d.files[i]) && offset < d.files[i].size && InsertLegal(d.files[i])
    requires Fits(|d.files|)
    ensures !InsertStops(p, d, i, buf, offset) && InsertPlan(p, d, i, buf, offset).hit == p.hit
  {
    hide SavePlan, AppendPlan, AppendStops, Append, Insert, Fit, FileOk, InsertLegal, Fits, TailSeen, CutLayout,
      CutFile;
    CutFileOk(d.files[i], offset);
    InsertOutcome(d, i, buf, offset);
    var cut, q := CutDisk(d, i, offset), CutPlan(p, d, i, offset);
    AppendSpares(q, cut, i, |buf|);
    if Append(cut, i, buf).Done? {
      AppendFit(q, cut, i, buf);
      InsertMiddle(cut, i, buf);
      AppendSpares(AppendPlan(q, cut, i, |buf|), Append(cut, i, buf).disk, i, |TailSeen(d.files[i], offset)|);
    }
  }

  lemma WriteSpares(p: Plan, d: Disk, n: Name, buf: seq<byte>, offset: nat)
    requires Fit(p.a, d) && DiskOk(d) && WriteLegal(d, n, offset) && Fits(|d.files|)
    ensures !WriteStops(p, d, n, buf, offset) && WritePlan(p, d, n, buf, offset).hit == p.hit
  {
    hide AppendPlan, AppendStops, InsertPlan, InsertStops, Fit, FileOk, InsertLegal, Fits;
    var i := Find(d.files, n);
    if i < |d.files| {
      AppendSpares(p, d, i, |buf|);
      if offset < d.files[i].size {
        InsertSpares(p, d, i, buf, offset);
      }
    }
  }

  lemma TargetSpares(p: Plan, d: Disk, t: Name)
    requires Fit(p.a, d) && DiskOk(d)
    requires var n, k := |d.files|, Find(d.files, t);
      if k == n then TouchFits(d, t) && Fits(n + 1) else Fits(n) && (d.files[k].system || Fits(n - 1))
    ensures TargetPlan(p, d, t).hit == p.hit
    ensures var made := CpTarget(d, t);
      made.Done? && Find(made.disk.files, t) < |made.disk.files| ==> Fits(|made.disk.files|)
  {
    hide SavePlan, Fit, Fits, Resave, Touch, Rm;
    CpTargetSteps(d, t);
    var k := Find(d.files, t);
    if k == |d.files| {
      if Touch(d, t).Done? { TouchFinds(d, t); }
    } else {
      RmGone(d, t);
      var rest := Rm(d, t).disk;
      if !d.files[k].system && Touch(rest, t).Done? { TouchFinds(rest, t); }
      assert d.files[k].system ==> Touch(d, t) == Done(d, 1) by { TouchThere(d, t); }
      assert RmPlan(p, d, t).hit == p.hit;
    }
  }

  lemma TouchThere(d: Disk, t: Name)
    ensures Find(d.files, t) < |d.files| ==> Touch(d, t) == Done(d, 1)
  {
  }

  lemma CopySpares(p: Plan, d: Disk, k: nat, m: nat, src: Name)
    requires Fit(p.a, d) && k < |d.files| && Fits(|d.files|)
    ensures !CopyStops(p, d, k, m) && (src !in p.hit ==> CopyPlan(p, d, k, m, src).hit == p.hit)
  {
    hide NthFilled, InSpill;
    if CopyStops(p, d, k, m) {
      var a := SavePlan(p, FileNames(d.files)).a;
      var f, last := Freed(a.fat, [a.cs[k][1]]), LastData(RootOf(a.cs));
      var q: nat :| q < m && q < d.free + 1 && InSpill(last, |d.files|, NthFilled(f, a.cs[k][0], q));
      SpillDoesNotFit(last, |d.files|, NthFilled(f, a.cs[k][0], q));
    }
  }

  lemma CpSpares(p: Plan, d: Disk, s: Name, t: Name)
    requires Fit(p.a, d) && DiskOk(d) && CpLegal(d, s, t) && SavesFit(d, CpOp(s, t))
    ensures !CpStops(p, d, s, t) && (s !in p.hit ==> CpPlan(p, d, s, t).hit == p.hit)
  {
    hide Fit, TargetPlan, CopyPlan, CopyStops, CpTarget, TouchFits, Fits, DiskOk;
    var i, made := Find(d.files, s), CpTarget(d, t);
    if s != t && i < |d.files| {
      TargetSpares(p, d, t);
      if made.Done? && made.disk.free >= ClustersNeeded(d.files[i].size) {
        CopySpares(TargetPlan(p, d, t), made.disk, Find(made.disk.files, t), d.files[i].clusters, s);
      }
    }
  }

  /** So it is with every call of the run. */
  ghost predicate RunFits(d: Disk, ops: seq<Op>)
    requires LegalRun(d, ops)
    decreases |ops|
  {
    ops == [] || (SavesFit(d, ops[0]) && (Step(d, ops[0]).Done? ==> RunFits(Step(d, ops[0]).disk, ops[1..])))
  }

  lemma {:induction false} RunSpares(p: Plan, d: Disk, ops: seq<Op>)
    requires Fit(p.a, d) && LegalRun(d, ops) && RunFits(d, ops) && p.hit == {}
    ensures !RunStops(p, d, ops) && RunPlan(p, d, ops).hit == {}
    decreases |ops|
  {
    hide Fit, Step, Legal, StepPlan, StepStops, SavesFit;
    if ops != [] {
      StepSpares(p, d, ops[0]);
      if Step(d, ops[0]).Done? {
        StepFit(p, d, ops[0]);
        RunSpares(StepPlan(p, d, ops[0]), Step(d, ops[0]).disk, ops[1..]);
      }
    }
  }

  /** With few files it is so anyway. */
  lemma {:induction false} FewFit(d: Disk, ops: seq<Op>)
    requires LegalRun(d, ops) && |d.files| + Creations(ops) <= 6
    ensures RunFits(d, ops)
    decreases |ops|
  {
    hide Step, Legal;
    if ops != [] && Step(d, ops[0]).Done? {
      StepLength(d, ops[0]);
      FewFit(Step(d, ops[0]).disk, ops[1..]);
    }
  }
}
