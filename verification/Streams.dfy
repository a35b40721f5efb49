/** A terminal's log over any number of prints: it holds the end of everything that was printed. */
module Streams {
  import opened Bytes
  import opened FsLayout
  import opened FsSpec
  import opened FsLike
  import opened FsProps
  import opened FsRuns
  import opened FsState
  import opened FsFirstFit
  import opened FsPlan
  import opened Vfs
  import opened Common

  /** What one call of print_to_stream is given. */
  datatype Line = Line(text: seq<byte>, newline: bool)

  /** All that is printed. */
  function Text(lines: seq<Line>): seq<byte> {
    if lines == [] then [] else Printed(lines[0].text, lines[0].newline) + Text(lines[1..])
  }

  // ---------- on the disk ----------

  ghost predicate Prints(d: Disk, name: Name, l: Line) {
    Find(d.files, name) < |d.files| && Printable(d, Find(d.files, name), l.text, l.newline)
  }

  ghost function AfterLine(d: Disk, name: Name, l: Line): Disk
    requires Prints(d, name, l)
  {
    PrintResult(d, Find(d.files, name), l.text, l.newline)
  }

  /** Every print has room when its turn comes. */
  ghost predicate PrintsAll(d: Disk, name: Name, lines: seq<Line>)
    decreases |lines|
  {
    lines == [] || (Prints(d, name, lines[0]) && PrintsAll(AfterLine(d, name, lines[0]), name, lines[1..]))
  }

  ghost function AfterAll(d: Disk, name: Name, lines: seq<Line>): Disk
    requires PrintsAll(d, name, lines)
    decreases |lines|
  {
    if lines == [] then d else AfterAll(AfterLine(d, name, lines[0]), name, lines[1..])
  }

  lemma LogOn(m: map<Name, seq<byte>>, m1: map<Name, seq<byte>>, m2: map<Name, seq<byte>>, name: Name,
              a: seq<byte>, b: seq<byte>)
    requires LogPrinted(m, m1, name, a, {}) && LogPrinted(m1, m2, name, b, {})
    ensures LogPrinted(m, m2, name, a + b, {})
  {
    hide EndOf;
    EndOn(m[name] + a, m1[name], b, m2[name]);
    assert m[name] + a + b == m[name] + (a + b);
  }

  /** After any number of prints the log is the end of what it held and of everything printed, and no other
      file has changed. */
  lemma {:induction false} LogIsEnd(d: Disk, name: Name, lines: seq<Line>)
    requires PrintsAll(d, name, lines) && lines != []
    ensures LogPrinted(View(d.files), View(AfterAll(d, name, lines).files), name, Text(lines), {})
    decreases |lines|
  {
    hide LogPrinted, View, Printable, PrintResult, Printed;
    var l, e := lines[0], AfterLine(d, name, lines[0]);
    PrintsToLog(d, Find(d.files, name), l.text, l.newline);
    var rest := lines[1..];
    if rest == [] {
      assert Printed(l.text, l.newline) + [] == Printed(l.text, l.newline);
    } else {
      LogIsEnd(e, name, rest);
      LogOn(View(d.files), View(e.files), View(AfterAll(e, name, rest).files), name, Printed(l.text, l.newline),
            Text(rest));
    }
  }

  // ---------- as a run of calls ----------

  ghost function LineOps(d: Disk, name: Name, l: Line): seq<Op>
    requires Prints(d, name, l)
  {
    PrintOps(d.files[Find(d.files, name)], l.text, l.newline)
  }

  ghost function AllOps(d: Disk, name: Name, lines: seq<Line>): seq<Op>
    requires PrintsAll(d, name, lines)
    decreases |lines|
  {
    if lines == [] then []
    else LineOps(d, name, lines[0]) + AllOps(AfterLine(d, name, lines[0]), name, lines[1..])
  }

  lemma LineRun(p: Plan, d: Disk, name: Name, l: Line)
    requires Fit(p.a, d) && Prints(d, name, l)
    ensures var ops := LineOps(d, name, l);
      && LegalRun(d, ops) && RunSpec(d, ops) == Done(AfterLine(d, name, l), 0)
      && Fit(RunPlan(p, d, ops).a, AfterLine(d, name, l))
  {
    hide Printable, PrintResult, PrintOps, RunPlan, RunSpec, LegalRun, Fit, AfterPrint, RunFits;
    PrintIsRun(p, d, Find(d.files, name), l.text, l.newline);
    var ops := LineOps(d, name, l);
    EmptyRun(p, AfterLine(d, name, l));
    RunsOn(p, d, ops, []);
  }

  /** All the prints are one run of calls. */
  lemma {:induction false} AllRun(p: Plan, d: Disk, name: Name, lines: seq<Line>)
    requires Fit(p.a, d) && PrintsAll(d, name, lines)
    ensures LegalRun(d, AllOps(d, name, lines))
    ensures RunSpec(d, AllOps(d, name, lines)) == Done(AfterAll(d, name, lines), 0)
    ensures lines != [] ==>
      var ops, e := LineOps(d, name, lines[0]), AfterLine(d, name, lines[0]);
      && LegalRun(d, ops) && Fit(RunPlan(p, d, ops).a, e) && LegalRun(e, AllOps(e, name, lines[1..]))
      && RunPlan(p, d, AllOps(d, name, lines)) == RunPlan(RunPlan(p, d, ops), e, AllOps(e, name, lines[1..]))
    decreases |lines|
  {
    hide Prints, AfterLine, LineOps, RunPlan, RunSpec, LegalRun, Fit, RunFits;
    EmptyRun(p, d);
    if lines != [] {
      var ops, e := LineOps(d, name, lines[0]), AfterLine(d, name, lines[0]);
      LineRun(p, d, name, lines[0]);
      AllRun(RunPlan(p, d, ops), e, name, lines[1..]);
      RunsOn(p, d, ops, AllOps(e, name, lines[1..]));
    }
  }

  // ---------- on a disk with hit files ----------

  lemma AppendedLike(d: Disk, e: Disk, i: nat, buf: seq<byte>, hit: set<Name>)
    requires Like(d, e, hit) && i < |d.files| && d.free >= NewClusters(d.files[i].size, |buf|)
    ensures i < |e.files| && e.free >= NewClusters(e.files[i].size, |buf|)
    ensures Like(WithAppended(d, i, buf), WithAppended(e, i, buf), hit)
  {
    hide NewClusters;
    LikeAt(d, e, hit, i);
    AlikeUpdate(d.files, e.files, hit, i, Appended(d.files[i], buf), Appended(e.files[i], buf));
  }

  lemma AfterPrintLike(d: Disk, e: Disk, i: nat, buffer: seq<byte>, newline: bool, hit: set<Name>)
    requires Like(d, e, hit) && i < |d.files| && d.free >= PrintClusters(d.files[i].size, |buffer|, newline)
    ensures i < |e.files| && e.free >= PrintClusters(e.files[i].size, |buffer|, newline)
    ensures Like(AfterPrint(d, i, buffer, newline), AfterPrint(e, i, buffer, newline), hit)
  {
    hide NewClusters, WithAppended, AfterPrint, AlikeFiles;
    AlikeLength(d, e, hit);
    LikeAt(d, e, hit, i);
    AppendedLike(d, e, i, buffer, hit);
    AfterPrintIs(d, i, buffer, newline);
    AfterPrintIs(e, i, buffer, newline);
    if newline {
      AppendedLike(WithAppended(d, i, buffer), WithAppended(e, i, buffer), i, NEWLINE, hit);
    }
  }

  lemma ResultLike(d: Disk, e: Disk, i: nat, buffer: seq<byte>, newline: bool, hit: set<Name>)
    requires Like(d, e, hit) && i < |d.files| && d.free >= PrintClusters(d.files[i].size, |buffer|, newline)
    ensures i < |e.files| && e.free >= PrintClusters(e.files[i].size, |buffer|, newline)
    ensures Like(PrintResult(d, i, buffer, newline), PrintResult(e, i, buffer, newline), hit)
  {
    hide AfterPrint, PrintClusters, Trimmed, AlikeFiles;
    AfterPrintLike(d, e, i, buffer, newline, hit);
    AlikeLength(d, e, hit);
    var d2, e2 := AfterPrint(d, i, buffer, newline), AfterPrint(e, i, buffer, newline);
    AlikeLength(d2, e2, hit);
    if |d2.files| == |d.files| {
      LikeAt(d2, e2, hit, i);
      if d2.files[i].size >= MAX_SHELL_FILE_SIZE && d2.free + d2.files[i].clusters >= 4
        && |d2.files[i].bytes| >= MAX_SHELL_FILE_SIZE
      {
        TrimmedLike(d2, e2, i, hit);
      }
    }
  }

  lemma PrintableLike(d: Disk, e: Disk, i: nat, buffer: seq<byte>, newline: bool, hit: set<Name>)
    requires Like(d, e, hit) && DiskOk(d) && Printable(e, i, buffer, newline)
    ensures Printable(d, i, buffer, newline)
  {
    hide PrintClusters, DiskOk;
    LikeAt(d, e, hit, i);
  }

  /** The plan of a print does not depend on the bytes. */
  lemma PrintPlanLike(p: Plan, d: Disk, e: Disk, i: nat, buffer: seq<byte>, newline: bool, hit: set<Name>)
    requires Fit(p.a, d) && Like(d, e, hit) && Printable(d, i, buffer, newline) && Printable(e, i, buffer, newline)
    ensures Fit(p.a, e) && i < |d.files| && i < |e.files|
    ensures var a, b := PrintOps(d.files[i], buffer, newline), PrintOps(e.files[i], buffer, newline);
      LegalRun(d, a) && LegalRun(e, b) && RunPlan(p, d, a) == RunPlan(p, e, b)
  {
    hide Fit, DiskOk, AfterPrint, Printed, PrintOps, RunPlan, LegalRun, RunSpec, WriteOps, TrimOps, TrimReady, LogEnd,
      PrintResult, RunFits, AlikeFiles, Printable;
    FitLike(p.a, d, e, hit);
    PrintIsRun(p, d, i, buffer, newline);
    PrintIsRun(p, e, i, buffer, newline);
    PrintedSize(d, i, buffer, newline);
    PrintedSize(e, i, buffer, newline);
    AfterPrintLike(d, e, i, buffer, newline, hit);
    LikeAt(d, e, hit, i);
    WritesPlanLike(p, d, e, i, buffer, newline, hit);
    var d2, e2 := AfterPrint(d, i, buffer, newline), AfterPrint(e, i, buffer, newline);
    LikeAt(d2, e2, hit, i);
    var f := d.files[i];
    if d2.files[i].size >= MAX_SHELL_FILE_SIZE {
      var q := RunPlan(p, d, WriteOps(f.name, f.size, buffer, newline));
      TrimRunLike(q, d2, e2, i, LogEnd(d2.files[i].bytes), LogEnd(e2.files[i].bytes), hit);
    }
  }

  lemma WritesPlanLike(p: Plan, d: Disk, e: Disk, i: nat, buffer: seq<byte>, newline: bool, hit: set<Name>)
    requires Fit(p.a, d) && Like(d, e, hit) && Printable(d, i, buffer, newline) && Printable(e, i, buffer, newline)
    ensures Fit(p.a, e) && i < |d.files| && i < |e.files|
    ensures var f := d.files[i];
      var a := WriteOps(f.name, f.size, buffer, newline);
      && f.name == e.files[i].name && f.size == e.files[i].size
      && LegalRun(d, a) && LegalRun(e, a) && RunPlan(p, d, a) == RunPlan(p, e, a)
  {
    hide Fit, DiskOk, AfterPrint, Printed, RunPlan, LegalRun, RunSpec, WriteOps, AppendPlan, RunFits, AlikeFiles,
      NewClusters, WithAppended;
    FitLike(p.a, d, e, hit);
    LikeAt(d, e, hit, i);
    AlikeLength(d, e, hit);
    WritesRun(p, d, i, buffer, newline);
    WritesRun(p, e, i, buffer, newline);
    AppendPlanLike(p, d, e, i, |buffer|, hit);
    AppendedLike(d, e, i, buffer, hit);
    if newline {
      AppendPlanLike(AppendPlan(p, d, i, |buffer|), WithAppended(d, i, buffer), WithAppended(e, i, buffer), i, 2, hit);
    }
  }

  // ---------- on the arrays ----------

  /** print_to_stream for every line in turn. The log is left with the end of what it held and of everything that
      was printed, and no other file changes, but for the files that are hit; which ones is told from the start,
      and none is while the directories that are saved fit. */
  method PrintLines(fs: FileSystem, stdout: Name, lines: seq<Line>)
    requires fs.Valid() && GoodName(stdout) && PrintsAll(fs.Abs(), stdout, lines) && lines != []
    modifies fs, fs.fat, fs.data
    ensures fs.fault == NoFault && fs.Valid() && old(fs.hit) <= fs.hit
    ensures LogPrinted(old(View(fs.Files())), View(fs.Files()), stdout, Text(lines), fs.hit)
    ensures var d, ops := old(fs.Abs()), AllOps(old(fs.Abs()), stdout, lines);
      && LegalRun(d, ops) && fs.At() == RunPlan(old(fs.At()), d, ops)
      && (old(fs.hit) == {} && RunFits(d, ops) ==> fs.hit == {})
  {
    hide PrintsAll, AfterAll, AllOps, LogPrinted, View, Placed, Shaped, AbsFiles, RunPlan, LegalRun, RunSpec, Fit,
      RunFits, RunStops, Text, AlikeFiles, Prints, AfterLine, LineOps, DiskOk;
    ghost var d, p, e := fs.Abs(), fs.At(), fs.Abs();
    AlikeItself(e.files, fs.hit);
    AllRun(p, d, stdout, lines);
    LogIsEnd(d, stdout, lines);
    if fs.hit == {} && RunFits(d, AllOps(d, stdout, lines)) {
      RunSpares(p, d, AllOps(d, stdout, lines));
    }
    var i := 0;
    assert lines[0..] == lines;
    while i < |lines|
      invariant i <= |lines| && fs.Valid() && fs.fault == NoFault && old(fs.hit) <= fs.hit
      invariant Like(fs.Abs(), e, fs.hit) && PrintsAll(e, stdout, lines[i..]) && Fit(fs.At().a, e)
      invariant AfterAll(d, stdout, lines) == AfterAll(e, stdout, lines[i..])
      invariant LegalRun(e, AllOps(e, stdout, lines[i..]))
      invariant RunPlan(p, d, AllOps(d, stdout, lines)) == RunPlan(fs.At(), e, AllOps(e, stdout, lines[i..]))
    {
      NextLine(fs.At(), e, stdout, lines[i..]);
      PrintNext(fs, stdout, lines[i], e);
      e := AfterLine(e, stdout, lines[i]);
      assert lines[i..][1..] == lines[i + 1..];
      i := i + 1;
    }
    assert lines[i..] == [];
    NoLines(fs.At(), e, stdout);
    LogLike(View(d.files), fs.Abs(), e, stdout, Text(lines), fs.hit);
  }

  /** The first of the lines that are left. */
  lemma NextLine(p: Plan, d: Disk, name: Name, lines: seq<Line>)
    requires Fit(p.a, d) && PrintsAll(d, name, lines) && lines != []
    ensures Prints(d, name, lines[0])
    ensures var ops, e := LineOps(d, name, lines[0]), AfterLine(d, name, lines[0]);
      && PrintsAll(e, name, lines[1..]) && AfterAll(d, name, lines) == AfterAll(e, name, lines[1..])
      && LegalRun(d, ops) && Fit(RunPlan(p, d, ops).a, e) && LegalRun(d, AllOps(d, name, lines))
      && LegalRun(e, AllOps(e, name, lines[1..]))
      && RunPlan(p, d, AllOps(d, name, lines)) == RunPlan(RunPlan(p, d, ops), e, AllOps(e, name, lines[1..]))
  {
    hide Prints, AfterLine, LineOps, RunPlan, RunSpec, LegalRun, Fit, RunFits;
    AllRun(p, d, name, lines);
  }

  lemma NoLines(p: Plan, d: Disk, name: Name)
    requires Fit(p.a, d)
    ensures AfterAll(d, name, []) == d && AllOps(d, name, []) == []
    ensures LegalRun(d, []) && RunPlan(p, d, []) == p
  {
  }

  /** One print on a disk that is e but for the bytes of hit files. */
  method PrintNext(fs: FileSystem, stdout: Name, l: Line, ghost e: Disk)
    requires fs.Valid() && GoodName(stdout) && Like(fs.Abs(), e, fs.hit) && Prints(e, stdout, l) && Fit(fs.At().a, e)
    modifies fs, fs.fat, fs.data
    ensures fs.fault == NoFault && fs.Valid() && old(fs.hit) <= fs.hit
    ensures Like(fs.Abs(), AfterLine(e, stdout, l), fs.hit)
    ensures var ops := LineOps(e, stdout, l); LegalRun(e, ops) && fs.At() == RunPlan(old(fs.At()), e, ops)
  {
    hide Placed, Shaped, AbsFiles, RunPlan, LegalRun, RunSpec, Fit, RunFits, AlikeFiles, DiskOk, PrintOps, Printable,
      PrintResult, Printed, PrintedTo, LogPrinted, View, Find;
    ghost var d, i, some := fs.Abs(), Find(fs.Files(), stdout), fs.hit;
    fs.ValidDiskOk();
    FindAlike(d.files, e.files, some, stdout);
    AlikeLength(d, e, some);
    PrintableLike(d, e, i, l.text, l.newline, some);
    PrintPlanLike(fs.At(), d, e, i, l.text, l.newline, some);
    CanPrintIs(d, i, l.text, l.newline);
    ResultLike(d, e, i, l.text, l.newline, some);
    PrintToStream(fs, stdout, l.text, l.newline);
    AlikeOn(fs.Files(), PrintResult(d, i, l.text, l.newline).files, PrintResult(e, i, l.text, l.newline).files, fs.hit,
            some);
    assert fs.hit + some == fs.hit;
  }

  lemma CanPrintIs(d: Disk, i: nat, buffer: seq<byte>, newline: bool)
    requires Printable(d, i, buffer, newline)
    ensures i < |d.files| && d.free >= PrintClusters(d.files[i].size, |buffer|, newline)
  {
  }
}
