/** The boot sequence: fs_init() and the logs of the shells, and where everything lies after them. */
module FsBoot {
  import opened Bytes
  import opened FsLayout
  import opened FsChains
  import opened FsSpec
  import opened FsLike
  import opened FsProps
  import opened FsRuns
  import opened FsState
  import opened FsFirstFit
  import opened FsPlan
  import opened Vfs

  function Ascii(s: string): (n: seq<byte>)
    ensures |n| == |s|
  {
    seq(|s|, i requires 0 <= i < |s| => if s[i] as int < 256 then s[i] as int else 63)
  }

  function DefaultFile(name: Name, text: seq<byte>): File {
    File(name, |text|, |text| / CLUSTER_SIZE + 1, text, false, false)
  }

  /** The disk with one more default file, two clusters and what the text and the directory take further. */
  function WithDefaultFile(d: Disk, name: Name, text: seq<byte>): Disk
    requires d.free > 10 && |text| < 256
  {
    RootClustersFacts(|d.files|);
    var n := |d.files|;
    Disk(d.files + [DefaultFile(name, text)],
      d.free - 2 - |text| / CLUSTER_SIZE - (RootClusters(n + 1) - RootClusters(n)))
  }

  /** touch() and the append to the empty file, on the level of the disk. */
  lemma DefaultFileSteps(d: Disk, name: Name, text: seq<byte>)
    requires DiskOk(d) && GoodName(name) && Find(d.files, name) == |d.files| && d.free > 10
    requires |text| < 256 && |text| % CLUSTER_SIZE != 0
    ensures var o, n := Touch(d, name), |d.files|;
      && o.Done? && |o.disk.files| == n + 1 && FileOk(o.disk.files[n])
      && o.disk.files[n].size == 0 && Find(o.disk.files, name) == n
      && Append(o.disk, n, text) == Done(WithDefaultFile(d, name, text), 0)
  {
    var n := |d.files|;
    var f := File(name, 0, 1, [], false, false);
    RootClustersFacts(n);
    TouchOutcome(d, name);
    TouchFinds(d, name);
    var d1 := Touch(d, name).disk;
    ClustersAfter(0, |text|);
    AppendSucceeds(d1, n, text);
    assert Appended(f, text).bytes == [] + text == text;
    assert (d.files + [f])[n := Appended(f, text)] == d.files + [DefaultFile(name, text)];
  }

  /** Where everything lies after touch() and that append. */
  ghost function DefaultPlan(p: Plan, d: Disk, name: Name, len: nat): (r: Plan)
    requires Fit(p.a, d) && Touch(d, name).Done? && |d.files| < |Touch(d, name).disk.files|
  {
    AppendPlan(TouchPlan(p, d, name), Touch(d, name).disk, |d.files|, len)
  }

  /** One of the files that the system starts with. */
  method CreateDefaultFile(fs: FileSystem, name: Name, text: seq<byte>)
    requires fs.Valid() && GoodName(name) && Find(fs.Files(), name) == |fs.Files()| && |fs.Files()| < 3
    requires |text| < 256 && |text| % CLUSTER_SIZE != 0 && fs.Abs().free > 10 && fs.hit == {}
    modifies fs, fs.fat, fs.data
    ensures fs.Valid() && fs.Abs() == WithDefaultFile(old(fs.Abs()), name, text) && fs.hit == {}
    ensures var d := old(fs.Abs());
      && Touch(d, name).Done? && |d.files| < |Touch(d, name).disk.files|
      && fs.At() == DefaultPlan(old(fs.At()), d, name, |text|)
  {
    hide Placed, Shaped, AbsFiles, FsSpec.Touch, FsSpec.Append, WithDefaultFile, FatWf, DirOk, DiskOk, FileOk,
      FreeCount, Find, TouchPlan, AppendPlan, Fit;
    fs.ValidDiskOk();
    assert Normalize(name) == name;
    DefaultFileSteps(fs.Abs(), name, text);
    ghost var d, p := fs.Abs(), fs.At();
    DefaultSpares(p, d, name, |text|);
    var _ := fs.Touch(name);
    LikeNone(fs.Abs(), FsSpec.Touch(d, name).disk);
    fs.AppendData(name, text);
    LikeNone(fs.Abs(), WithDefaultFile(d, name, text));
  }

  lemma DefaultSpares(p: Plan, d: Disk, name: Name, len: nat)
    requires Fit(p.a, d) && Touch(d, name).Done? && |d.files| < |Touch(d, name).disk.files| && |d.files| < 3
    ensures TouchPlan(p, d, name).hit == p.hit && DefaultPlan(p, d, name, len).hit == p.hit
  {
    hide SavePlan, AppendPlan, Fit;
    AppendSpares(TouchPlan(p, d, name), Touch(d, name).disk, |d.files|, len);
  }

  // ---------- where everything lies ----------

  /** The directory's clusters behind cluster 0, in order and below n. */
  ghost predicate RootLow(cs: seq<seq<int>>, n: nat) {
    cs != [] && RootOf(cs) != [] && RootOf(cs)[0] == 0 && Climbs(RootOf(cs)[1..], n)
  }

  lemma RootLowMore(cs: seq<seq<int>>, cs': seq<seq<int>>, n: nat, m: nat)
    requires RootLow(cs, n) && cs' != [] && n <= m && RootOf(cs') == RootOf(cs) + Interval(n, m)
    ensures RootLow(cs', m)
  {
    assert RootOf(cs')[1..] == RootOf(cs)[1..] + Interval(n, m);
  }

  /** touch() on a disk that was filled from below. */
  lemma TouchLow(p: Plan, d: Disk, name: Name, n: nat)
    requires Fit(p.a, d) && p.a.fat == Low(n, []) && RootLow(p.a.cs, n) && n + 100 < CLUSTER_COUNT
    requires Find(d.files, name) == |d.files| < 7 && d.free >= 2 && |RootOf(p.a.cs)| - 1 <= RootClusters(|d.files| + 1)
    ensures var k, m := |d.files|, n + 2 + RootClusters(|d.files| + 1) - (|RootOf(p.a.cs)| - 1);
      var a := TouchPlan(p, d, name).a;
      && a == Layout(Low(m, []), p.a.cs[..k] + [[n, n + 1], RootOf(p.a.cs) + Interval(n + 2, m)])
      && RootLow(a.cs, m)
  {
    hide TakeFirst, FirstFrees, Low, Reached;
    var k, cs := |d.files|, p.a.cs;
    NewLow(n, cs);
    var cs1 := WithNewFile(p.a).cs;
    assert RootOf(cs1) == RootOf(cs);
    SaveLow(n + 2, cs1, k + 1);
    var m := n + 2 + RootClusters(k + 1) - (|RootOf(cs)| - 1);
    assert cs1[|cs1| - 1 := RootOf(cs) + Interval(n + 2, m)] == cs[..k] + [[n, n + 1], RootOf(cs) + Interval(n + 2, m)];
    RootLowMore(cs1, cs[..k] + [[n, n + 1], RootOf(cs) + Interval(n + 2, m)], n + 2, m);
  }

  /** A directory of unchanged length is saved where it was. */
  lemma ResaveLow(p: Plan, names: seq<Name>, n: nat)
    requires |p.a.cs| == |names| + 1 && p.a.fat == Low(n, []) && RootLow(p.a.cs, n)
    requires |RootOf(p.a.cs)| - 1 == RootClusters(|names|) && n <= CLUSTER_COUNT
    ensures SavePlan(p, names).a == p.a
  {
    hide TakeFirst, FirstFrees, Low, Reached;
    SaveLow(n, p.a.cs, |names|);
    assert RootOf(p.a.cs) + Interval(n, n) == RootOf(p.a.cs);
    assert p.a.cs[|p.a.cs| - 1 := RootOf(p.a.cs)] == p.a.cs;
  }

  /** An append on such a disk. */
  lemma GrowLow(p: Plan, d: Disk, i: nat, len: nat, n: nat)
    requires Fit(p.a, d) && i < |d.files| && p.a.fat == Low(n, []) && RootLow(p.a.cs, n)
    requires |RootOf(p.a.cs)| - 1 == RootClusters(|d.files|) && 0 <= p.a.cs[i][|p.a.cs[i]| - 1] < n
    requires NewClusters(d.files[i].size, len) <= d.free && n + NewClusters(d.files[i].size, len) <= CLUSTER_COUNT
    ensures var m := n + NewClusters(d.files[i].size, len);
      && AppendPlan(p, d, i, len).a == Layout(Low(m, []), p.a.cs[i := p.a.cs[i] + Interval(n, m)])
      && RootLow(p.a.cs[i := p.a.cs[i] + Interval(n, m)], m)
  {
    hide TakeFirst, FirstFrees, Low, SavePlan, NewClusters, Freed;
    var added := NewClusters(d.files[i].size, len);
    RootClustersFacts(|d.files|);
    AppendLow(n, p.a.cs, i, added);
    var q := Plan(AppendedLayout(p.a, i, added), p.hit);
    RootLowMore(p.a.cs, q.a.cs, n, n);
    assert RootOf(q.a.cs) == RootOf(p.a.cs);
    ResaveLow(q, FileNames(d.files), n + added);
  }

  /** touch() and an append to the new file. */
  lemma DefaultLow(p: Plan, d: Disk, name: Name, len: nat, n: nat)
    requires Fit(p.a, d) && p.a.fat == Low(n, []) && RootLow(p.a.cs, n) && n + 200 < CLUSTER_COUNT && len < 256
    requires Find(d.files, name) == |d.files| < 7 && d.free > 10 && |RootOf(p.a.cs)| - 1 == RootClusters(|d.files|)
    ensures Touch(d, name).Done? && |d.files| < |Touch(d, name).disk.files|
    ensures var k, a := |d.files|, DefaultPlan(p, d, name, len).a;
      var m := n + 2 + RootClusters(k + 1) - (|RootOf(p.a.cs)| - 1);
      var e := m + NewClusters(0, len);
      && a == Layout(Low(e, []), p.a.cs[..k] + [[n, n + 1] + Interval(m, e), RootOf(p.a.cs) + Interval(n + 2, m)])
      && RootLow(a.cs, e) && |RootOf(a.cs)| - 1 == RootClusters(k + 1)
  {
    hide TouchPlan, AppendPlan, Low, RootClusters;
    var k, root := |d.files|, RootOf(p.a.cs);
    RootClustersFacts(k);
    TouchOutcome(d, name);
    TouchFinds(d, name);
    TouchLow(p, d, name, n);
    var q, e := TouchPlan(p, d, name), Touch(d, name).disk;
    var m := n + 2 + RootClusters(k + 1) - (|root| - 1);
    var c := [n, n + 1] + Interval(m, m + NewClusters(0, len));
    assert RootOf(q.a.cs) == root + Interval(n + 2, m) && q.a.cs[k] == [n, n + 1];
    GrowLow(q, e, k, len, m);
    assert q.a.cs[k := c] == p.a.cs[..k] + [c, root + Interval(n + 2, m)];
  }

  // ---------- fs_init ----------

  /** How many clusters directories and texts of these lengths take. */
  lemma BootClusters()
    ensures RootClusters(0) == RootClusters(1) == RootClusters(2) == 1
    ensures RootClusters(3) == RootClusters(4) == 2 && RootClusters(5) == RootClusters(6) == RootClusters(7) == 3
    ensures NewClusters(0, 199) == 3 && NewClusters(0, 94) == 1
  {
  }

  function InitChains(): (cs: seq<seq<int>>)
    ensures |cs| == 4
  {
    [[2, 3, 4, 5, 6], [7, 8, 9], [10, 11, 13], [0, 1, 12]]
  }

  function Chains(n: nat): seq<seq<int>>
    requires n <= 2
  {
    if n == 0 then [[0, 1]] else if n == 1 then [[2, 3, 4, 5, 6], [0, 1]] else [[2, 3, 4, 5, 6], [7, 8, 9], [0, 1]]
  }

  lemma FirstDefault(p: Plan, d: Disk, name: Name)
    requires Fit(p.a, d) && p.a == Layout(Low(2, []), Chains(0)) && d.files == [] && d.free > 10
    ensures Touch(d, name).Done? && |d.files| < |Touch(d, name).disk.files|
    ensures DefaultPlan(p, d, name, 199).a == Layout(Low(7, []), Chains(1))
  {
    hide TouchPlan, AppendPlan, Low, Touch, DefaultPlan, NewClusters, RootClusters;
    BootClusters();
    DefaultLow(p, d, name, 199, 2);
    assert [2, 3] + Interval(4, 7) == [2, 3, 4, 5, 6] && [0, 1] + Interval(4, 4) == [0, 1];
  }

  lemma SecondDefault(p: Plan, d: Disk, name: Name)
    requires Fit(p.a, d) && p.a == Layout(Low(7, []), Chains(1)) && Find(d.files, name) == |d.files| == 1 && d.free > 10
    ensures Touch(d, name).Done? && |d.files| < |Touch(d, name).disk.files|
    ensures DefaultPlan(p, d, name, 94).a == Layout(Low(10, []), Chains(2))
  {
    hide TouchPlan, AppendPlan, Low, Touch, DefaultPlan, NewClusters, RootClusters;
    BootClusters();
    DefaultLow(p, d, name, 94, 7);
    assert [7, 8] + Interval(9, 10) == [7, 8, 9] && [0, 1] + Interval(9, 9) == [0, 1];
  }

  lemma ThirdDefault(p: Plan, d: Disk, name: Name)
    requires Fit(p.a, d) && p.a == Layout(Low(10, []), Chains(2))
    requires Find(d.files, name) == |d.files| == 2 && d.free > 10
    ensures Touch(d, name).Done? && |d.files| < |Touch(d, name).disk.files|
    ensures DefaultPlan(p, d, name, 94).a == Layout(Low(14, []), InitChains())
  {
    hide TouchPlan, AppendPlan, Low, Touch, DefaultPlan, NewClusters, RootClusters;
    BootClusters();
    DefaultLow(p, d, name, 94, 10);
    assert [10, 11] + Interval(13, 14) == [10, 11, 13] && [0, 1] + Interval(12, 13) == [0, 1, 12];
  }

  function DefaultFiles(readme: seq<byte>, ascii: seq<byte>, primes: seq<byte>): (files: seq<File>)
    ensures |files| == 3
  {
    [DefaultFile(Ascii("README.md"), readme), DefaultFile(Ascii("ascii.txt"), ascii),
     DefaultFile(Ascii("primes.dat"), primes)]
  }

  /** fs_init(): the three files the system starts with, for texts of the lengths they have in the source. */
  method FsInit(readme: seq<byte>, ascii: seq<byte>, primes: seq<byte>) returns (fs: FileSystem)
    requires |readme| == 199 && |ascii| == 94 && |primes| == 94
    ensures fresh(fs) && fresh(fs.fat) && fresh(fs.data) && fs.Valid()
    ensures fs.Abs() == Disk(DefaultFiles(readme, ascii, primes), 4081)
    ensures AllRoomy(fs.Abs()) && fs.At() == Plan(Layout(Low(14, []), InitChains()), {})
  {
    hide Placed, Shaped, AbsFiles, FatWf, DirOk, FreeCount, Ascii, RootClusters, GoodName, Roomy, DefaultFile, AllRoomy,
      Low, DefaultPlan, Fit, FsSpec.Touch, InitChains, Bare;
    fs := new FileSystem.Format();
    var names := [Ascii("README.md"), Ascii("ascii.txt"), Ascii("primes.dat")];
    DefaultNames();
    DefaultsAreRoomy(readme, ascii, primes);
    FirstDefault(fs.At(), fs.Abs(), names[0]);
    CreateDefaultFile(fs, names[0], readme);
    SecondDefault(fs.At(), fs.Abs(), names[1]);
    CreateDefaultFile(fs, names[1], ascii);
    ThirdDefault(fs.At(), fs.Abs(), names[2]);
    CreateDefaultFile(fs, names[2], primes);
  }

  lemma DefaultsAreRoomy(readme: seq<byte>, ascii: seq<byte>, primes: seq<byte>)
    ensures AllRoomy(Disk(DefaultFiles(readme, ascii, primes), 4081))
    ensures forall name, text :: DefaultFile(name, text).name == name
  {
  }

  lemma DefaultNames()
    ensures GoodName(Ascii("README.md")) && GoodName(Ascii("ascii.txt")) && GoodName(Ascii("primes.dat"))
    ensures Ascii("README.md") != Ascii("ascii.txt") && |Ascii("README.md")| == |Ascii("ascii.txt")| == 9
    ensures |Ascii("primes.dat")| == 10
    ensures RootClusters(0) == RootClusters(1) == RootClusters(2) == 1 && RootClusters(3) == 2
  {
    assert Ascii("README.md")[0] == 82 && Ascii("ascii.txt")[0] == 97;
  }

  // ---------- the logs of the shells ----------

  function ShellName(i: nat): (name: Name)
    requires i < 4
    ensures |name| == 7 && name[6] == 49 + i
  {
    Ascii("shell_") + [49 + i]
  }

  /** touch() and set_as_system_file() of a new name. */
  function WithShell(d: Disk, name: Name): Disk
    requires d.free > 10
  {
    RootClustersFacts(|d.files|);
    Disk(d.files + [File(name, 0, 1, [], false, true)],
      d.free - 2 - (RootClusters(|d.files| + 1) - RootClusters(|d.files|)))
  }

  lemma ShellSteps(d: Disk, name: Name)
    requires DiskOk(d) && GoodName(name) && Find(d.files, name) == |d.files| && d.free > 10
    ensures var o, n := Touch(d, name), |d.files|;
      && o.Done? && |o.disk.files| == n + 1 && Find(o.disk.files, name) == n && !o.disk.files[n].open
      && SetAsSystemFile(o.disk, name) == Done(WithShell(d, name), 0)
  {
    var n := |d.files|;
    RootClustersFacts(n);
    TouchOutcome(d, name);
    TouchFinds(d, name);
    var e := Touch(d, name).disk;
    var fs := e.files[n := e.files[n].(system := true)];
    ResaveSameLength(Disk(fs, e.free), 0);
    assert fs == d.files + [File(name, 0, 1, [], false, true)];
  }

  ghost function ShellPlan(p: Plan, d: Disk, name: Name): (r: Plan)
    requires Fit(p.a, d) && Touch(d, name).Done?
    ensures TouchPlan(p, d, name).hit <= r.hit
  {
    FlagPlan(TouchPlan(p, d, name), Touch(d, name).disk, false)
  }

  /** The log file of a shell. */
  method StartShell(fs: FileSystem, name: Name)
    requires fs.Valid() && GoodName(name) && Find(fs.Files(), name) == |fs.Files()| && fs.Abs().free > 10
    requires Touch(fs.Abs(), name).Done? && ShellPlan(fs.At(), fs.Abs(), name).hit == {}
    modifies fs, fs.fat, fs.data
    ensures fs.Valid() && fs.Abs() == WithShell(old(fs.Abs()), name)
    ensures fs.At() == old(ShellPlan(fs.At(), fs.Abs(), name))
  {
    hide Placed, Shaped, AbsFiles, FsSpec.Touch, FsSpec.SetAsSystemFile, WithShell, FatWf, DirOk, DiskOk, FileOk,
      FreeCount, Find, TouchPlan, FlagPlan, Fit;
    fs.ValidDiskOk();
    assert Normalize(name) == name;
    ShellSteps(fs.Abs(), name);
    ghost var d := fs.Abs();
    var _ := fs.Touch(name);
    LikeNone(fs.Abs(), FsSpec.Touch(d, name).disk);
    var _ := fs.SetAsSystemFile(name);
    LikeNone(fs.Abs(), WithShell(d, name));
  }

  lemma ShellLow(p: Plan, d: Disk, name: Name, n: nat)
    requires Fit(p.a, d) && p.a.fat == Low(n, []) && RootLow(p.a.cs, n) && n + 200 < CLUSTER_COUNT
    requires Find(d.files, name) == |d.files| < 7 && d.free > 10 && |RootOf(p.a.cs)| - 1 == RootClusters(|d.files|)
    ensures Touch(d, name).Done?
    ensures var k, a := |d.files|, ShellPlan(p, d, name).a;
      var m := n + 2 + RootClusters(k + 1) - (|RootOf(p.a.cs)| - 1);
      && a == Layout(Low(m, []), p.a.cs[..k] + [[n, n + 1], RootOf(p.a.cs) + Interval(n + 2, m)])
      && RootLow(a.cs, m)
  {
    hide TouchPlan, SavePlan, Low, RootClusters;
    RootClustersFacts(|d.files|);
    TouchOutcome(d, name);
    TouchFinds(d, name);
    TouchLow(p, d, name, n);
    var k, e, q := |d.files|, Touch(d, name).disk, TouchPlan(p, d, name);
    ResaveLow(q, FileNames(e.files), n + 2 + RootClusters(k + 1) - (|RootOf(p.a.cs)| - 1));
  }

  /** The chains of README.md, ascii.txt, primes.dat, the four logs and the directory. */
  function BootChains(primes: seq<int>): (cs: seq<seq<int>>)
    ensures |cs| == 8
  {
    [[2, 3, 4, 5, 6], [7, 8, 9], primes, [14, 15], [16, 17], [19, 20], [21, 22], [0, 1, 12, 18]]
  }

  /** The chains when i of the logs are there. */
  function ShellChains(i: nat): (cs: seq<seq<int>>)
    requires i <= 4
    ensures |cs| == i + 4
  {
    BootChains([10, 11, 13])[..3 + i] + [if i < 2 then [0, 1, 12] else [0, 1, 12, 18]]
  }

  function ShellsEnd(i: nat): nat
    requires i <= 4
  {
    [14, 16, 19, 21, 23][i]
  }

  /** The only cluster that 75 bytes from cluster 12 on reach is the next one. */
  lemma ReachesNext(x: int)
    ensures InSpill(12, 7, x) <==> x == 13
  {
    assert LastBytes(7) == 75;
  }

  /** That cluster is the end of primes.dat; it is in no other chain. */
  lemma NextIsEnd(primes: seq<int>, i: nat)
    requires i < 7 && i != 2
    ensures 13 !in BootChains(primes)[i]
  {
  }

  lemma BootReached(names: seq<Name>, primes: seq<int>)
    requires |names| == 7 && (primes == [10, 11, 13] || primes == [10, 11, 13, 23])
    ensures Reached(names, BootChains(primes), 12) == if |primes| == 3 then {} else {names[2]}
  {
    hide InSpill, BootChains;
    forall x ensures InSpill(12, 7, x) <==> x == 13 { ReachesNext(x); }
    var cs := BootChains(primes);
    forall i | 0 <= i < 7 && i != 2 ensures !HitBy(cs[i], 12, 7) {
      NextIsEnd(primes, i);
      forall k | 0 <= k < |cs[i]| - 1 ensures cs[i][k] != 13 { assert cs[i][k] in cs[i]; }
    }
    assert cs[2] == primes by { ChainOfPrimes(primes); }
    assert HitBy(cs[2], 12, 7) <==> |primes| == 4 by {
      assert |primes| == 4 ==> InSpill(12, 7, primes[2]);
    }
  }

  lemma ChainOfPrimes(primes: seq<int>)
    ensures BootChains(primes)[2] == primes
  {
  }

  /** One log more. */
  lemma NextShell(p: Plan, d: Disk, i: nat, name: Name)
    requires i < 4 && Fit(p.a, d) && p == Plan(Layout(Low(ShellsEnd(i), []), ShellChains(i)), {})
    requires Find(d.files, name) == |d.files| && d.free > 10
    ensures Touch(d, name).Done?
    ensures ShellPlan(p, d, name) == Plan(Layout(Low(ShellsEnd(i + 1), []), ShellChains(i + 1)), {})
  {
    hide Low, TouchPlan, FlagPlan, RootClusters;
    BootClusters();
    assert RootOf(p.a.cs) == if i < 2 then [0, 1, 12] else [0, 1, 12, 18];
    ShellLow(p, d, name, ShellsEnd(i));
    ShellGrows(i);
    ShellSpares(p, d, i, name);
  }

  /** What the layout comes to. */
  lemma ShellGrows(i: nat)
    requires i < 4
    ensures var n, root := ShellsEnd(i), RootOf(ShellChains(i));
      var m := n + 2 + RootClusters(i + 4) - (|root| - 1);
      m == ShellsEnd(i + 1) && n + 2 <= m &&
      ShellChains(i + 1) == ShellChains(i)[..i + 3] + [[n, n + 1], root + Interval(n + 2, m)]
  {
    BootClusters();
    var n, root := ShellsEnd(i), RootOf(ShellChains(i));
    var m := n + 2 + RootClusters(i + 4) - (|root| - 1);
    assert root + Interval(n + 2, m) == if i < 1 then [0, 1, 12] else [0, 1, 12, 18];
    assert BootChains([10, 11, 13])[3 + i] == [n, n + 1];
  }

  /** Nothing is hit: the last copy of 7 records reaches cluster 13 only, and that holds no data. */
  lemma ShellSpares(p: Plan, d: Disk, i: nat, name: Name)
    requires i < 4 && Fit(p.a, d) && p == Plan(Layout(Low(ShellsEnd(i), []), ShellChains(i)), {})
    requires Find(d.files, name) == |d.files| && d.free > 10 && Touch(d, name).Done?
    ensures ShellPlan(p, d, name).hit == {}
  {
    hide Low, SavePlan, RootClusters, Reached, LastData, Resave;
    var k, e, names := |d.files|, Touch(d, name).disk, FileNames(d.files) + [name];
    assert k == i + 3;
    TouchFinds(d, name);
    var made := Plan(WithNewFile(p.a), {});
    assert Fits(k + 1) <==> i < 3;
    if i == 3 {
      BootClusters();
      TouchLow(p, d, name, ShellsEnd(3));
      ShellLow(p, d, name, ShellsEnd(3));
      ShellGrows(3);
      NewLow(21, p.a.cs);
      SavedHits(made, names);
      SavedHits(SavePlan(made, names), FileNames(e.files));
    }
  }

  /** A directory of 7 records is saved to 0, 1, 12 and 18: which files that hits. */
  lemma SavedHits(p: Plan, names: seq<Name>)
    requires |names| == 7 && p.a.cs == BootChains([10, 11, 13]) && RootOf(SavePlan(p, names).a.cs) == [0, 1, 12, 18]
    ensures SavePlan(p, names).hit == p.hit
  {
    hide SavedLayout;
    BootReached(names, [10, 11, 13]);
  }

  // ---------- the whole sequence ----------

  function ShellLog(i: nat): File
    requires i < 4
  {
    File(ShellName(i), 0, 1, [], false, true)
  }

  /** The disk when i of the logs are there. */
  function ShellDisk(defaults: seq<File>, i: nat): (d: Disk)
    requires i <= 4
    ensures |d.files| == |defaults| + i
  {
    Disk(defaults + [ShellLog(0), ShellLog(1), ShellLog(2), ShellLog(3)][..i], [4081, 4079, 4076, 4074, 4072][i])
  }

  lemma ShellNames(i: nat)
    requires i < 4
    ensures GoodName(ShellName(i))
  {
    assert forall k :: 0 <= k < 6 ==> Ascii("shell_")[k] != 0;
  }

  lemma NextDisk(defaults: seq<File>, i: nat)
    requires |defaults| == 3 && i < 4 && forall k :: 0 <= k < 3 ==> |defaults[k].name| != 7
    ensures var d := ShellDisk(defaults, i);
      Find(d.files, ShellName(i)) == |d.files| && WithShell(d, ShellName(i)) == ShellDisk(defaults, i + 1)
  {
    hide ShellName, RootClusters;
    BootClusters();
    var d, logs := ShellDisk(defaults, i), [ShellLog(0), ShellLog(1), ShellLog(2), ShellLog(3)];
    assert logs[..i + 1] == logs[..i] + [logs[i]];
    forall k | 0 <= k < |d.files| ensures d.files[k].name != ShellName(i) {
      if k >= 3 { assert d.files[k] == ShellLog(k - 3); }
    }
  }

  /** The disk as the system starts: three default files and the empty logs of four shells. */
  function BootDisk(readme: seq<byte>, ascii: seq<byte>, primes: seq<byte>): (d: Disk)
    ensures |d.files| == 7
  {
    ShellDisk(DefaultFiles(readme, ascii, primes), 4)
  }

  /** Where everything lies then: below cluster 23 all is taken, and no file was hit. */
  function BootPlan(): Plan { Plan(Layout(Low(23, []), BootChains([10, 11, 13])), {}) }

  /** fs_init(), and the logs that the scheduler creates for the shells. */
  method Boot(readme: seq<byte>, ascii: seq<byte>, primes: seq<byte>) returns (fs: FileSystem)
    requires |readme| == 199 && |ascii| == 94 && |primes| == 94
    ensures fresh(fs) && fs.Valid() && fs.Abs() == BootDisk(readme, ascii, primes) && fs.At() == BootPlan()
  {
    hide Placed, Shaped, AbsFiles, FatWf, DirOk, FreeCount, ShellName, Low, ShellPlan, Fit, FsSpec.Touch, Bare,
      ShellDisk, WithShell, ShellChains, InitChains, DefaultFiles, Find, AllRoomy;
    fs := FsInit(readme, ascii, primes);
    ghost var defaults := DefaultFiles(readme, ascii, primes);
    BootStart(readme, ascii, primes);
    for i := 0 to 4
      invariant fresh(fs) && fresh(fs.fat) && fresh(fs.data) && fs.Valid() && fs.Abs() == ShellDisk(defaults, i)
      invariant fs.At() == Plan(Layout(Low(ShellsEnd(i), []), ShellChains(i)), {})
    {
      var name := ShellName(i);
      ShellNames(i);
      NextDisk(defaults, i);
      EnoughFree(defaults, i);
      NextShell(fs.At(), fs.Abs(), i, name);
      StartShell(fs, name);
    }
    BootEnd();
  }

  lemma EnoughFree(defaults: seq<File>, i: nat)
    requires i <= 4
    ensures ShellDisk(defaults, i).free > 10
  {
  }

  lemma BootStart(readme: seq<byte>, ascii: seq<byte>, primes: seq<byte>)
    ensures Disk(DefaultFiles(readme, ascii, primes), 4081) == ShellDisk(DefaultFiles(readme, ascii, primes), 0)
    ensures InitChains() == ShellChains(0) && ShellsEnd(0) == 14
    ensures forall k :: 0 <= k < 3 ==> |DefaultFiles(readme, ascii, primes)[k].name| != 7
  {
  }

  lemma BootEnd()
    ensures ShellChains(4) == BootChains([10, 11, 13]) && ShellsEnd(4) == 23
  {
  }
}
