/** scheduler.cpp over its linked lists, with the interrupt handlers and system calls that use it. */
module Scheduler {
  import opened Lists
  import opened SchedSpec
  import opened SchedProps
  import opened SchedRuns
  import opened SchedResults

  class Scheduler {
    const all: List<Ref>
    const ready: List<Ref>
    const onProcess: List<Ref>
    const onKeyboard: List<Ref>
    /** The control blocks that kmalloc handed out, and kfree did not take back. */
    var pcbs: map<Ref, Pcb>
    var pids: seq<bool>
    var running: Ref
    var latest: seq<Ref>
    const idle: Ref
    var focused: nat
    var ticks: nat
    var down: bool

    ghost predicate Valid()
      reads this, all, ready, onProcess, onKeyboard, all.repr, ready.repr, onProcess.repr, onKeyboard.repr
    {
      && all.Valid() && ready.Valid() && onProcess.Valid() && onKeyboard.Valid()
      && Disjoint(all, ready) && Disjoint(all, onProcess) && Disjoint(all, onKeyboard)
      && Disjoint(ready, onProcess) && Disjoint(ready, onKeyboard) && Disjoint(onProcess, onKeyboard)
    }

    ghost function Now(): Sched
      reads this, all, ready, onProcess, onKeyboard
    {
      Sched(pcbs, pids, all.Contents(), ready.Contents(), onProcess.Contents(), onKeyboard.Contents(),
            running, latest, idle, focused, ticks, down)
    }

    /** The nodes of the four lists. */
    ghost function Nodes(): set<Node<Ref>>
      reads all, ready, onProcess, onKeyboard
    {
      all.repr + ready.repr + onProcess.repr + onKeyboard.repr
    }

    /** The lists of a system without processes. */
    constructor (idle: Ref)
      ensures Valid() && fresh(Nodes()) && Now() == Nothing(idle)
    {
      all := new List();
      ready := new List();
      onProcess := new List();
      onKeyboard := new List();
      pcbs := map[];
      pids := seq(MAX_PIDS, i => false);
      running := idle;
      latest := seq(TERMINALS, i => idle);
      this.idle := idle;
      focused := 1;
      ticks := 0;
      down := false;
    }

    method SetState(r: Ref, st: PState)
      requires Valid() && r in pcbs
      modifies `pcbs
      ensures Valid() && Now() == WithState(old(Now()), r, st)
    {
      pcbs := pcbs[r := pcbs[r].(state := st)];
    }

    method SetResult(r: Ref, eax: nat)
      requires Valid() && r in pcbs
      modifies `pcbs
      ensures Valid() && Now() == WithResult(old(Now()), r, eax)
    {
      pcbs := pcbs[r := pcbs[r].(eax := eax)];
    }

    /** set_process_as_ready: not twice. */
    method SetProcessAsReady(r: Ref)
      requires Valid() && r in pcbs
      modifies `pcbs, ready, ready.repr
      ensures Valid() && fresh(ready.repr - old(ready.repr)) && Now() == SetReady(old(Now()), r)
    {
      hide Lists.List.Valid, Data;
      var found := ready.Contains(x => x == r);
      if found {
        return;
      }
      SetState(r, Ready);
      ready.AddLast(r);
    }

    /** What the scheduler may be asked to run: live processes that belong to a terminal. */
    ghost predicate Runnable()
      reads this, ready
    {
      && idle in pcbs
      && forall r :: r in ready.Contents() ==> r in pcbs && (r != idle ==> 1 <= pcbs[r].shell <= |latest|)
    }

    /** The first process in the queue that is not the idle one, which is dropped. */
    method TakeNext()
      requires ready.Valid()
      modifies `running, ready, ready.repr
      ensures ready.Valid() && ready.repr == old(ready.repr)
      ensures var q := SkipIdle(old(ready.Contents()), idle);
        if q == [] then running == idle && ready.Contents() == [] else running == q[0] && ready.Contents() == q[1..]
    {
      hide Lists.List.Valid, Data, SkipIdle;
      running := idle;
      ghost var q := SkipIdle(ready.Contents(), idle);
      ready.FirstIs();
      while ready.first != null && running == idle
        invariant ready.Valid() && ready.repr == old(ready.repr)
        invariant ready.first == null <==> ready.Contents() == []
        invariant running == idle ==> SkipIdle(ready.Contents(), idle) == q
        invariant running != idle ==> q == [running] + ready.Contents()
        decreases |ready.Contents()|
      {
        SkipIdleStep(ready.Contents(), idle);
        TakeFirst();
      }
      SkipIdleStep(ready.Contents(), idle);
    }

    /** The first process in the queue is to run. */
    method TakeFirst()
      requires ready.Valid() && ready.Contents() != []
      modifies `running, ready, ready.repr
      ensures ready.Valid() && ready.repr == old(ready.repr)
      ensures old(ready.Contents()) == [running] + ready.Contents() && ready.Contents() == old(ready.Contents())[1..]
      ensures ready.first == null <==> ready.Contents() == []
    {
      hide Data;
      ghost var s := ready.Contents();
      ready.FirstIs();
      running := ready.first.data;
      ready.Remove(0);
      ready.FirstIs();
      HeadAndTail(s);
    }

    /** switch_to_next_process */
    method SwitchToNextProcess()
      requires Valid() && Runnable() && Now().all != []
      modifies this, ready, ready.repr
      ensures Valid() && ready.repr == old(ready.repr) && Now() == Dispatch(old(Now()))
    {
      hide Lists.List.Valid, Data, SkipIdle;
      all.FirstIs();
      if all.first == all.last {
        down := true;
        return;
      }
      ghost var s := Now();
      TakeNext();
      TakenIsRunnable(s);
      if running != idle {
        latest := latest[pcbs[running].shell - 1 := running];
      }
      SetState(running, Running);
    }

    /** The first process in a queue with that pid. */
    method FindByPid(l: List<Ref>, pid: nat) returns (found: Option<Ref>)
      requires l.Valid() && forall r :: r in l.Contents() ==> r in pcbs
      ensures found == FindPid(pcbs, l.Contents(), pid)
    {
      ghost var s, i := l.Contents(), 0;
      var curr := l.first;
      while curr != null
        invariant i <= |l.nodes| && curr == At(l.nodes, i)
        invariant FindPid(pcbs, s, pid) == FindPid(pcbs, s[i..], pid)
        decreases |l.nodes| - i
      {
        assert s[i..][0] == s[i] && s[i] in s && s[i..][1..] == s[i + 1..];
        if pcbs[curr.data].pid == pid {
          return Some(curr.data);
        }
        assert i + 1 < |l.nodes| ==> curr.next == l.nodes[i + 1];
        curr := curr.next;
        i := i + 1;
      }
      return None;
    }

    /** wake_up_parent_process */
    method WakeUpParent(ppid: nat, code: nat)
      requires Valid() && forall r :: r in Now().onProcess ==> r in pcbs
      modifies `pcbs, ready, ready.repr, onProcess, onProcess.repr
      ensures Valid() && fresh(ready.repr - old(ready.repr)) && onProcess.repr == old(onProcess.repr)
      ensures Now() == WakeParent(old(Now()), ppid, code)
    {
      hide Lists.List.Valid, Data, RemoveFirst, FindPid;
      var found := FindByPid(onProcess, ppid);
      if found == None {
        return;
      }
      var parent := found.value;
      FindPidLives(pcbs, onProcess.Contents(), ppid);
      onProcess.RemoveData(parent);
      SetResult(parent, code);
      var elsewhere := onKeyboard.Contains(x => x == parent);
      if !elsewhere {
        SetProcessAsReady(parent);
      }
    }

    /** wake_process_waiting_for_keyboard, for a line that was entered */
    method WakeProcessWaitingForKeyboard()
      requires Valid() && forall r :: r in Now().onKeyboard ==> r in pcbs
      modifies `pcbs, ready, ready.repr, onKeyboard, onKeyboard.repr
      ensures Valid() && fresh(ready.repr - old(ready.repr)) && onKeyboard.repr == old(onKeyboard.repr)
      ensures Now() == WakeKeyboard(old(Now()))
    {
      hide Lists.List.Valid, Data, RemoveFirst;
      var first := onKeyboard.Get(0);
      if first == None {
        return;
      }
      var r := first.value;
      assert r in onKeyboard.Contents();
      if pcbs[r].shell != focused {
        return;
      }
      ghost var s := onKeyboard.Contents();
      onKeyboard.Remove(0);
      assert onKeyboard.Contents() == s[1..];
      var elsewhere := onProcess.Contains(x => x == r);
      if !elsewhere {
        SetProcessAsReady(r);
      }
    }

    /** kill_process, but for the files and the memory of the process */
    method KillProcess(r: Ref)
      requires Valid() && r in pcbs && pcbs[r].pid < |pids| && 1 <= pcbs[r].shell <= |latest|
      modifies this, all, ready, onProcess, onKeyboard, Nodes()
      ensures Valid() && Nodes() == old(Nodes()) && Now() == Kill(old(Now()), r)
    {
      hide Lists.List.Valid, Data, RemoveFirst, SkipIdle;
      var p := pcbs[r];
      pids := pids[p.pid := false];
      ready.RemoveData(r);
      all.RemoveData(r);
      onProcess.RemoveData(r);
      onKeyboard.RemoveData(r);
      latest := latest[p.shell - 1 := idle];
      pcbs := pcbs - {r};
    }

    /** create_process, for a program that exists: the control block is at `at`. */
    method CreateProcess(at: Ref, ppid: nat, shell: nat) returns (pid: nat)
      requires Valid() && at !in pcbs && LeastPid(pids, 0) < |pids|
      modifies this, all, all.repr
      ensures Valid() && fresh(all.repr - old(all.repr)) && Now() == Spawn(old(Now()), at, ppid, shell)
      ensures pid == LeastPid(old(pids), 0)
    {
      pid := LeastPid(pids, 0);
      pids := pids[pid := true];
      pcbs := pcbs[at := Pcb(pid, ppid, shell, Fresh, 0)];
      all.AddLast(at);
    }

    /** switch_to_terminal, for the queues */
    method SwitchToTerminal(pid: nat)
      requires Valid() && forall r :: r in Now().all ==> r in pcbs
      modifies this, onProcess, onProcess.repr, onKeyboard, onKeyboard.repr
      ensures Valid() && fresh(Nodes() - old(Nodes())) && Now() == Refocus(old(Now()), pid)
      ensures var s := old(Now());
        FindPid(s.pcbs, s.all, pid).Some? ==>
          && focused == pid
          && (exists to :: Regrouped(OfShell(pcbs, pid), s.onKeyboard, Now().onKeyboard, to))
          && (exists to :: Regrouped(OfShell(pcbs, pid), s.onProcess, Now().onProcess, to))
    {
      hide Lists.List.Valid, Data, FindPid, Partitioned, OfShell, Regrouped;
      var found := FindByPid(all, pid);
      if found == None {
        return;
      }
      focused := pid;
      Reschedule(OfShell(pcbs, pid), onKeyboard);
      Reschedule(OfShell(pcbs, pid), onProcess);
    }

    // ---------- boot ----------

    /** init_process_scheduler: the idle process waits, the shells are ready, the first one last. */
    method InitProcessScheduler(a: Ref, b: Ref, c: Ref, d: Ref)
      requires Valid() && Now() == Nothing(idle) && Distinct(idle, a, b, c, d)
      modifies this, all, ready, Nodes()
      ensures Valid() && fresh(Nodes() - old(Nodes())) && Now() == Boot(idle, a, b, c, d) && Inv(Now())
    {
      hide Lists.List.Valid, Data, Spawn, WithState, SetReady, Core, Inv;
      BootInv(idle, a, b, c, d);
      MakeIdle();
      MakeShell(a, 1);
      MakeReadyShell(b, 2);
      MakeLastShells(a, c, d);
      latest := [a, b, c, d];
    }

    method MakeLastShells(a: Ref, c: Ref, d: Ref)
      requires Valid() && Core(Now()) && a in pcbs && c !in pcbs
      requires d !in pcbs && c != d && pids == seq(MAX_PIDS, i => i < 3)
      modifies this, all, ready, Nodes()
      ensures Valid() && fresh(Nodes() - old(Nodes()))
      ensures Now() == SetReady(SetReady(Spawn(SetReady(Spawn(old(Now()), c, 0, 3), c), d, 0, 4), d), a)
    {
      hide Lists.List.Valid, Data, Spawn, SetReady, Core;
      MakeReadyShell(c, 3);
      MakeReadyShell(d, 4);
      SetProcessAsReady(a);
    }

    method MakeIdle()
      requires Valid() && Now() == Nothing(idle)
      modifies this, all, all.repr
      ensures Valid() && fresh(Nodes() - old(Nodes())) && ready.repr == old(ready.repr)
      ensures Now() == WithState(Spawn(Nothing(idle), idle, 0, 0), idle, Waiting)
      ensures Core(Now()) && pids == seq(MAX_PIDS, i => i < 1) && pcbs.Keys == {idle}
    {
      hide Lists.List.Valid, Data, Spawn, WithState, Core;
      IdleCore(idle);
      NothingIsTaken(pids, 0);
      SpawnedIs(Nothing(idle), idle, 0, 0);
      var _ := CreateProcess(idle, 0, 0);
      SetState(idle, Waiting);
    }

    method MakeShell(at: Ref, n: nat)
      requires Valid() && Core(Now()) && at !in pcbs && 1 <= n <= TERMINALS && pids == seq(MAX_PIDS, i => i < n)
      modifies this, all, all.repr
      ensures Valid() && fresh(all.repr - old(all.repr)) && Now() == Spawn(old(Now()), at, 0, n)
      ensures Core(Now()) && pids == seq(MAX_PIDS, i => i < n + 1) && pcbs.Keys == old(pcbs.Keys) + {at}
    {
      hide Lists.List.Valid, Data, Spawn, Core;
      ShellCore(Now(), at, n);
      NothingIsTaken(pids, n);
      var _ := CreateProcess(at, 0, n);
    }

    method MakeReadyShell(at: Ref, n: nat)
      requires Valid() && Core(Now()) && at !in pcbs && 1 <= n <= TERMINALS && pids == seq(MAX_PIDS, i => i < n)
      modifies this, all, ready, Nodes()
      ensures Valid() && fresh(Nodes() - old(Nodes())) && Now() == SetReady(Spawn(old(Now()), at, 0, n), at)
      ensures Core(Now()) && pids == seq(MAX_PIDS, i => i < n + 1) && pcbs.Keys == old(pcbs.Keys) + {at}
    {
      hide Lists.List.Valid, Data, Spawn, Core, SetReady;
      ShellMade(Now(), at, n);
      MakeShell(at, n);
      SetProcessAsReady(at);
    }

    // ---------- system calls ----------

    /** sys_call_exit: the parent is told first, and then the process is gone. */
    method Die(p: Ref, ppid: nat, code: nat)
      requires Valid() && Inv(Now()) && p in pcbs && p != idle && ppid == pcbs[p].ppid
      modifies this, all, ready, onProcess, onKeyboard, Nodes()
      ensures Valid() && fresh(Nodes() - old(Nodes())) && Now() == Kill(WakeParent(old(Now()), ppid, code), p)
    {
      hide Lists.List.Valid, Data, WakeParent, Kill, RemoveFirst, FindPid, Inv;
      ghost var s := Now();
      InvQueues(s);
      WakeUpParent(ppid, code);
      WakeParentKin(s, ppid, code, p);
      KillProcess(p);
    }

    /** sys_call_exec, for a program that exists or not */
    method Exec(p: Ref, found: bool, at: Ref)
      requires Valid() && Inv(Now()) && p == running && Legal(Now(), Syscall(SchedSpec.Exec(found, at)))
      modifies this, all, ready, Nodes()
      ensures Valid() && fresh(Nodes() - old(Nodes())) && Now() == DoCall(old(Now()), p, SchedSpec.Exec(found, at))
      ensures if found then at in pcbs && Born(old(Now()), Now(), at, pcbs[at].pid) else Ended(old(Now()), Now(), 0)
    {
      hide Lists.List.Valid, Data, Inv, WithState, Born, Ended;
      ghost var s := Now();
      RunningLives(s);
      var pid, shell := pcbs[p].pid, pcbs[p].shell;
      SetProcessAsReady(p);
      ReadyKin(s, p);
      SetResult(p, 0);
      if found {
        var childPid := CreateProcess(at, pid, shell);
        SetResult(p, childPid);
        SetProcessAsReady(at);
        ChildExec(s, at);
      } else {
        ResultFirst(s);
      }
    }

    /** sys_call_fork */
    method Fork(p: Ref, at: Ref)
      requires Valid() && Inv(Now()) && p == running && Legal(Now(), Syscall(SchedSpec.Fork(at)))
      modifies this, all, ready, Nodes()
      ensures Valid() && fresh(Nodes() - old(Nodes())) && Now() == DoCall(old(Now()), p, SchedSpec.Fork(at))
      ensures Born(old(Now()), Now(), at, 1)
    {
      hide Lists.List.Valid, Data, Inv, WithState, Born;
      RunningLives(Now());
      AtNotIdle(Now(), at);
      NotQueued(Now());
      ForkMeans(Now(), at);
      var _ := CreateProcess(at, pcbs[p].pid, pcbs[p].shell);
      SetResult(p, 1);
      SetResult(at, 0);
      ghost var t := Now();
      SetProcessAsReady(p);
      ReadyKin(t, p);
      SetProcessAsReady(at);
    }

    /** sys_call_wait: for any child, if the one meant exists */
    method WaitFor(p: Ref, pid: nat)
      requires Valid() && Inv(Now()) && p == running
      modifies this, ready, onProcess, Nodes()
      ensures Valid() && fresh(Nodes() - old(Nodes())) && Now() == DoCall(old(Now()), p, Wait(pid))
    {
      hide Lists.List.Valid, Data, Inv, FindPid;
      ghost var s := Now();
      RunningLives(s);
      InvQueues(s);
      var found := FindByPid(all, pid);
      if found == None {
        SetResult(p, 1);
        SetProcessAsReady(p);
      } else {
        SetState(p, Waiting);
        onProcess.AddLast(p);
      }
    }

    /** sys_callback */
    method SysCallback(c: Call)
      requires Valid() && Inv(Now()) && Legal(Now(), Syscall(c))
      modifies this, all, ready, onProcess, onKeyboard, Nodes()
      ensures Valid() && fresh(Nodes() - old(Nodes())) && Now() == DoCall(old(Now()), old(running), c)
    {
      hide Lists.List.Valid, Data, Inv, WakeParent, SetReady, Kill, Spawn, WithState, FindPid;
      RunningLives(Now());
      var p := running;
      match c
      case Plain(result) =>
        SetResult(p, result);
        SetProcessAsReady(p);
      case Exit(code) => Die(p, pcbs[p].ppid, code);
      case ReadLine =>
        SetState(p, Waiting);
        onKeyboard.AddFirst(p);
      case Exec(found, at) => Exec(p, found, at);
      case Fork(at) => Fork(p, at);
      case Wait(pid) => WaitFor(p, pid);
      case Unknown =>
        RunningKillable(Now());
        KillProcess(p);
    }

    // ---------- interrupts ----------

    lemma CanSwitch()
      requires Core(Now())
      ensures Runnable() && Now().all != []
    {
      assert idle in Now().all;
    }

    /** int0x80: a system call, and the next process */
    method SystemCall(c: Call)
      requires Valid() && Inv(Now()) && Legal(Now(), Syscall(c))
      modifies this, all, ready, onProcess, onKeyboard, Nodes()
      ensures Valid() && fresh(Nodes() - old(Nodes())) && Now() == Step(old(Now()), Syscall(c))
      ensures down || Inv(Now())
    {
      hide Lists.List.Valid, Data, Inv, Core, Vacant, DoCall, Dispatch;
      ghost var s := Now();
      RunningLives(s);
      StepInv(s, Syscall(c));
      CallVacates(s, c);
      SysCallback(c);
      CanSwitch();
      SwitchToNextProcess();
    }

    /** kill_running_process: a fault */
    method KillRunningProcess()
      requires Valid() && Inv(Now()) && running != idle
      modifies this, all, ready, onProcess, onKeyboard, Nodes()
      ensures Valid() && fresh(Nodes() - old(Nodes())) && Now() == Step(old(Now()), Fault)
      ensures down || Inv(Now())
    {
      hide Lists.List.Valid, Data, Inv, Core, Vacant, WakeParent, Kill, Dispatch;
      ghost var s := Now();
      RunningLives(s);
      StepInv(s, Fault);
      DeathCore(s, running, 1);
      Die(running, pcbs[running].ppid, 1);
      CanSwitch();
      SwitchToNextProcess();
    }

    /** The Enter case of process_key */
    method EnterKey()
      requires Valid() && Inv(Now())
      modifies `pcbs, ready, onKeyboard, Nodes()
      ensures Valid() && fresh(Nodes() - old(Nodes())) && Now() == Step(old(Now()), Enter) && Inv(Now())
    {
      hide Lists.List.Valid, Data, Inv, WakeKeyboard;
      RunningLives(Now());
      InvQueues(Now());
      EnterInv(Now());
      WakeProcessWaitingForKeyboard();
    }

    /** abort_current_cmd: Ctrl-C spares the idle process and the shells. */
    method AbortCurrentCmd()
      requires Valid() && Inv(Now())
      modifies this, all, ready, onProcess, onKeyboard, Nodes()
      ensures Valid() && fresh(Nodes() - old(Nodes())) && Now() == Step(old(Now()), Interrupt)
      ensures down || Inv(Now())
    {
      hide Lists.List.Valid, Data, Inv, Core, Vacant, WakeParent, Kill, SetReady, Dispatch;
      ghost var s := Now();
      RunningLives(s);
      TargetLives(s);
      AbortInv(s);
      var p := latest[focused - 1];
      if pcbs[p].pid == 0 || pcbs[p].pid == 1 || pcbs[p].pid == 2 || pcbs[p].pid == 3 || pcbs[p].pid == 4 {
        return;
      }
      DeathCore(s, p, 1);
      Die(p, pcbs[p].ppid, 1);
      ghost var t := Now();
      if running != p {
        Settled(t);
        YieldVacates(t);
        SetProcessAsReady(running);
      }
      CanSwitch();
      SwitchToNextProcess();
    }

    /** The shortcuts Ctrl-1 to Ctrl-4 */
    method FocusTerminal(pid: nat)
      requires Valid() && Inv(Now()) && 1 <= pid <= TERMINALS
      modifies this, onProcess, onKeyboard, Nodes()
      ensures Valid() && fresh(Nodes() - old(Nodes())) && Now() == Step(old(Now()), Focus(pid)) && Inv(Now())
    {
      hide Lists.List.Valid, Data, Inv, Refocus;
      RunningLives(Now());
      InvQueues(Now());
      RefocusInv(Now(), pid);
      SwitchToTerminal(pid);
    }

    /** int0x20: every tenth tick the running process joins the queue and the next one runs. */
    method TimerTick()
      requires Valid() && Inv(Now())
      modifies this, ready, ready.repr
      ensures Valid() && fresh(Nodes() - old(Nodes())) && Now() == Step(old(Now()), Tick)
      ensures down || Inv(Now())
    {
      hide Lists.List.Valid, Data, Inv, SetReady, Dispatch;
      ghost var s := Now();
      RunningLives(s);
      StepInv(s, Tick);
      TicksBounded(s);
      ticks := ticks + 1;
      if ticks % TICKS == 0 {
        ticks := 0;
        TicksCore(s, 0);
        Preempt();
      }
    }

    /** The running process joins the queue, and the next one runs. */
    method Preempt()
      requires Valid() && Inv(Now())
      modifies this, ready, ready.repr
      ensures Valid() && fresh(Nodes() - old(Nodes())) && Now() == Dispatch(SetReady(old(Now()), old(running)))
    {
      hide Lists.List.Valid, Data, Inv, Core, Vacant, SetReady, Dispatch;
      RunningLives(Now());
      YieldVacates(Now());
      SetProcessAsReady(running);
      CanSwitch();
      SwitchToNextProcess();
    }

    // ---------- runs ----------

    /** One interrupt. */
    method Handle(e: Event)
      requires Valid() && Inv(Now()) && Legal(Now(), e)
      modifies this, all, ready, onProcess, onKeyboard, Nodes()
      ensures Valid() && fresh(Nodes() - old(Nodes())) && Now() == Step(old(Now()), e) && (down || Inv(Now()))
    {
      hide Lists.List.Valid, Data, Inv, Step;
      match e
      case Tick => TimerTick();
      case Syscall(c) => SystemCall(c);
      case Fault => KillRunningProcess();
      case Enter => EnterKey();
      case Interrupt => AbortCurrentCmd();
      case Focus(pid) => FocusTerminal(pid);
    }

    /** Any run: the lists and control blocks are what the transition system says. */
    method HandleAll(es: seq<Event>)
      requires Valid() && Inv(Now()) && LegalRun(Now(), es)
      modifies this, all, ready, onProcess, onKeyboard, Nodes()
      ensures Valid() && fresh(Nodes() - old(Nodes())) && Now() == Run(old(Now()), es) && (down || Inv(Now()))
      decreases |es|
    {
      hide Lists.List.Valid, Data, Inv, Step, Legal;
      if es == [] {
        return;
      }
      RunningLives(Now());
      Handle(es[0]);
      if down {
        StaysDown(Now(), es[1..]);
        return;
      }
      HandleAll(es[1..]);
    }
  }

  lemma HeadAndTail(s: seq<Ref>)
    requires s != []
    ensures s == [s[0]] + s[1..] && s[..0] + s[0 + 1..] == s[1..]
  {
  }

  lemma SkipIdleStep(q: seq<Ref>, idle: Ref)
    ensures q == [] ==> SkipIdle(q, idle) == []
    ensures q != [] ==> SkipIdle(q, idle) == if q[0] == idle then SkipIdle(q[1..], idle) else q
  {
  }

  lemma TakenIsRunnable(s: Sched)
    ensures var q := SkipIdle(s.ready, s.idle); q != [] ==> q[0] in s.ready && q[0] != s.idle
  {
  }

  lemma {:induction false} FindPidLives(pcbs: map<Ref, Pcb>, q: seq<Ref>, pid: nat)
    ensures FindPid(pcbs, q, pid).Some? ==> FindPid(pcbs, q, pid).value in pcbs
  {
    if q != [] {
      FindPidLives(pcbs, q[1..], pid);
    }
  }

  /** What is in a queue lives. */
  lemma InvQueues(s: Sched)
    requires Inv(s)
    ensures forall r :: r in s.all || r in s.onProcess || r in s.onKeyboard || r in s.ready ==> r in s.pcbs
  {
  }

  lemma Killable(s: Sched, p: Ref)
    requires Core(s) && p in s.pcbs && p != s.idle
    ensures s.pcbs[p].pid < |s.pids| && 1 <= s.pcbs[p].shell <= |s.latest|
  {
  }

  lemma RunningKillable(s: Sched)
    requires Inv(s) && s.running != s.idle
    ensures s.pcbs[s.running].pid < |s.pids| && 1 <= s.pcbs[s.running].shell <= |s.latest|
  {
  }

  lemma WakeParentKin(s: Sched, ppid: nat, code: nat, p: Ref)
    requires Inv(s) && p in s.pcbs && p != s.idle
    ensures var t := WakeParent(s, ppid, code);
      p in t.pcbs && t.pcbs[p].pid < |t.pids| && 1 <= t.pcbs[p].shell <= |t.latest|
  {
    hide Core, WakeParent, FindPid, WokenWith;
    WakeParentCore(s, ppid, code);
    WakeKeeps(s, WakeParent(s, ppid, code), ppid, code);
    Killable(WakeParent(s, ppid, code), p);
  }

  lemma ReadyKin(s: Sched, r: Ref)
    requires r in s.pcbs
    ensures SetReady(s, r).pcbs.Keys == s.pcbs.Keys
  {
  }

  lemma Settled(s: Sched)
    requires Core(s) && Runs(s)
    ensures Inv(s) && s.running in s.pcbs
  {
  }

  lemma SpawnedIs(s: Sched, at: Ref, ppid: nat, shell: nat)
    ensures at in Spawn(s, at, ppid, shell).pcbs
  {
  }
}
