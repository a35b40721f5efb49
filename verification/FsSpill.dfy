/** Runs from the moment the system has started, with the three default files and the logs of the four shells: seven
    records, one more than fit. The directory is written over a file, and a file over the directory. */
module FsSpill {
  import opened Bytes
  import opened FsLayout
  import opened FsChains
  import opened FsSpec
  import opened FsProps
  import opened FsRuns
  import opened FsState
  import opened FsFirstFit
  import opened FsPlan
  import opened FsBoot

  /** As the system starts, saving the directory moves nothing and hits nothing, because its last copy reaches
      the end of primes.dat only, which holds no data. */
  lemma StartIsClean(names: seq<Name>)
    requires |names| == 7
    ensures SavePlan(BootPlan(), names) == BootPlan()
  {
    hide Low, SavePlan, RootClusters;
    BootClusters();
    ResaveLow(BootPlan(), names, 23);
    SavedHits(BootPlan(), names);
  }

  /** The disk as the system starts: what the runs below need of it. */
  lemma BootFacts(readme: seq<byte>, ascii: seq<byte>, primes: seq<byte>)
    requires |readme| == 199 && |ascii| == 94 && |primes| == 94
    ensures var d := BootDisk(readme, ascii, primes);
      && DiskOk(d) && Fit(BootPlan().a, d) && d.free == 4072
      && d.files[2].size == 94 && Roomy(d.files[2]) && Find(d.files, Ascii("primes.dat")) == 2
      && d.files[3].size == 0 && Roomy(d.files[3]) && Find(d.files, ShellName(0)) == 3
      && GoodName(Ascii("primes.dat")) && GoodName(ShellName(0))
  {
    hide Ascii, ShellName, GoodName, Find;
    var d := BootDisk(readme, ascii, primes);
    DefaultNames();
    forall i | 0 <= i < 4 ensures GoodName(ShellName(i)) { ShellNames(i); }
    assert d.files[..3] == DefaultFiles(readme, ascii, primes);
    forall i | 0 <= i < 7 ensures FileOk(d.files[i]) { BootFileOk(readme, ascii, primes, i); }
    forall i, j | 0 <= i < j < 7 ensures d.files[i].name != d.files[j].name {
      BootNamesApart(readme, ascii, primes, i, j);
    }
    FoundAt(d, 2);
    FoundAt(d, 3);
  }

  lemma FoundAt(d: Disk, i: nat)
    requires DiskOk(d) && i < |d.files|
    ensures Find(d.files, d.files[i].name) == i
  {
  }

  lemma BootFileOk(readme: seq<byte>, ascii: seq<byte>, primes: seq<byte>, i: nat)
    requires |readme| == 199 && |ascii| == 94 && |primes| == 94 && i < 7
    ensures FileOk(BootDisk(readme, ascii, primes).files[i])
  {
    hide Ascii, ShellName;
    DefaultNames();
    if i >= 3 {
      ShellNames(i - 3);
      assert BootDisk(readme, ascii, primes).files[i] == ShellLog(i - 3);
    }
  }

  lemma BootNamesApart(readme: seq<byte>, ascii: seq<byte>, primes: seq<byte>, i: nat, j: nat)
    requires i < j < 7
    ensures var fs := BootDisk(readme, ascii, primes).files; fs[i].name != fs[j].name
  {
    hide Ascii, ShellName;
    var fs := BootDisk(readme, ascii, primes).files;
    DefaultNames();
    assert i >= 3 ==> fs[i] == ShellLog(i - 3);
    assert j >= 3 ==> fs[j] == ShellLog(j - 3);
  }

  // ---------- the directory over a file ----------

  function ToPrimes(text: seq<byte>, size: nat): Op { WriteOp(Ascii("primes.dat"), text, size) }

  /** primes.dat has a third data cluster, the one behind the directory's last. */
  function GrownPlan(): Plan { Plan(Layout(Low(24, []), BootChains([10, 11, 13, 23])), {Ascii("primes.dat")}) }

  /** The disk when primes.dat has grown by 35 bytes. */
  ghost predicate Grown(d: Disk) {
    && DiskOk(d) && |d.files| == 7 && d.free == 4071 && Find(d.files, Ascii("primes.dat")) == 2
    && d.files[2].size == 129 && d.files[3].size == 0 && Roomy(d.files[3]) && Find(d.files, ShellName(0)) == 3
  }

  /** Once 35 bytes more are in primes.dat the cluster that was its end holds data, and saving the directory, which
      needs 75 bytes from cluster 12 on, goes over the first 11 of them. */
  lemma AppendThenSpill(readme: seq<byte>, ascii: seq<byte>, primes: seq<byte>, text: seq<byte>)
    requires |readme| == 199 && |ascii| == 94 && |primes| == 94 && |text| == 35
    ensures var d, op := BootDisk(readme, ascii, primes), ToPrimes(text, 94);
      && Fit(BootPlan().a, d) && Legal(d, op) && Step(d, op).Done? && Grown(Step(d, op).disk)
      && StepPlan(BootPlan(), d, op) == GrownPlan()
    ensures var cs := BootChains([10, 11, 13, 23]);
      LastData(RootOf(cs)) == 12 && cs[2][2] == 13 && CLUSTER_SIZE * 12 + LastBytes(7) == CLUSTER_SIZE * 13 + 11
  {
    hide Ascii, ShellName, BootDisk, BootPlan, GoodName, FileOk, AppendPlan, Append, Fit, Low, Find, Appended,
      RootClusters, NewClusters;
    var d := BootDisk(readme, ascii, primes);
    BootFacts(readme, ascii, primes);
    BootClusters();
    assert NewClusters(94, 35) == 1 by { FirstNeeds(); }
    AppendSucceeds(d, 2, text);
    StepOk(d, ToPrimes(text, 94));
    FindSame(d.files, 2, Appended(d.files[2], text), Ascii("primes.dat"));
    FindSame(d.files, 2, Appended(d.files[2], text), ShellName(0));
    GrownFirst(d);
    assert LastBytes(7) == 75;
  }

  lemma FirstNeeds()
    ensures NewClusters(94, 35) == 1 && NewClusters(0, 260544) == 4070 && NewClusters(129, 128) == 2
  {
  }

  lemma GrownFirst(d: Disk)
    requires Fit(BootPlan().a, d) && |d.files| == 7 && d.free == 4072 && d.files[2].size == 94
    requires d.files[2].name == Ascii("primes.dat")
    ensures AppendPlan(BootPlan(), d, 2, 35) == GrownPlan()
  {
    hide Ascii, Fit, Low, RootClusters, SavedLayout, Reached, NewClusters, AppendedLayout;
    BootClusters();
    FirstNeeds();
    var p := BootPlan();
    GrowLow(p, d, 2, 35, 23);
    AppendLow(23, p.a.cs, 2, 1);
    assert [10, 11, 13] + Interval(23, 24) == [10, 11, 13, 23];
    assert p.a.cs[2 := [10, 11, 13, 23]] == BootChains([10, 11, 13, 23]);
    BootReached(FileNames(d.files), [10, 11, 13, 23]);
  }

  // ---------- a file over the directory ----------

  function FullChains(): (cs: seq<seq<int>>)
    ensures |cs| == 8
  {
    BootChains([10, 11, 13, 23])[3 := [14, 15] + Interval(24, CHAIN_LIMIT)]
  }

  /** A log of 260544 bytes takes all clusters that are left, but for cluster 0xFFE. */
  lemma LogFills(d: Disk, text: seq<byte>)
    requires Fit(GrownPlan().a, d) && Grown(d) && |text| == 260544
    ensures var op := WriteOp(ShellName(0), text, 0);
      && Legal(d, op) && Step(d, op).Done?
      && var e := Step(d, op).disk;
      && DiskOk(e) && |e.files| == 7 && e.free == 1 && Find(e.files, Ascii("primes.dat")) == 2 && e.files[2].size == 129
      && StepPlan(GrownPlan(), d, op).a == Layout(Low(CHAIN_LIMIT, []), FullChains())
  {
    hide Ascii, ShellName, GoodName, AppendPlan, Append, Fit, Low, Find, Appended, RootClusters, NewClusters, Roomy;
    BootClusters();
    FirstNeeds();
    DiskOkAt(d, 3);
    AppendSucceeds(d, 3, text);
    StepOk(d, WriteOp(ShellName(0), text, 0));
    FindSame(d.files, 3, Appended(d.files[3], text), Ascii("primes.dat"));
    GrowLow(GrownPlan(), d, 3, 260544, 24);
  }

  /** On that disk an append of 128 bytes to primes.dat finds no room, and what it has written by then lies over
      the directory's last record. So three calls after the start are enough to lose the directory. */
  lemma OverrunOnFullDisk(readme: seq<byte>, ascii: seq<byte>, primes: seq<byte>, first: seq<byte>, log: seq<byte>,
                          last: seq<byte>)
    requires |readme| == 199 && |ascii| == 94 && |primes| == 94 && |first| == 35 && |log| == 260544 && |last| == 128
    ensures var d, ops := BootDisk(readme, ascii, primes),
        [ToPrimes(first, 94)] + ([WriteOp(ShellName(0), log, 0)] + [ToPrimes(last, 129)]);
      && Fit(BootPlan().a, d) && LegalRun(d, ops) && RunStops(BootPlan(), d, ops)
  {
    hide Ascii, ShellName, BootDisk, BootPlan, Step, StepPlan, Grown, Fit, GrownPlan, Low;
    var d, op := BootDisk(readme, ascii, primes), ToPrimes(first, 94);
    var op', op'' := WriteOp(ShellName(0), log, 0), ToPrimes(last, 129);
    AppendThenSpill(readme, ascii, primes, first);
    var d1 := Step(d, op).disk;
    StepFit(BootPlan(), d, op);
    LogFills(d1, log);
    var d2, p2 := Step(d1, op').disk, StepPlan(GrownPlan(), d1, op');
    StepFit(GrownPlan(), d1, op');
    LastStops(p2, d2, last);
    RunFrom(GrownPlan(), d1, op', [op'']);
    RunFrom(BootPlan(), d, op, [op'] + [op'']);
  }

  lemma LastStops(p: Plan, d: Disk, text: seq<byte>)
    requires p.a == Layout(Low(CHAIN_LIMIT, []), FullChains()) && Fit(p.a, d) && |text| == 128
    requires DiskOk(d) && |d.files| == 7 && d.free == 1
    requires Find(d.files, Ascii("primes.dat")) == 2 && d.files[2].size == 129
    ensures LegalRun(d, [ToPrimes(text, 129)]) && RunStops(p, d, [ToPrimes(text, 129)])
  {
    hide Ascii, Low, Fit, Append, GoodName, Find, FileOk, NewClusters;
    FirstNeeds();
    DiskOkAt(d, 2);
    AppendOutcome(d, 2, text);
    assert FullChains()[2] == [10, 11, 13, 23] && RootOf(FullChains()) == [0, 1, 12, 18];
  }
}
