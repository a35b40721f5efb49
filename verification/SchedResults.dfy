/** What each system call and each interrupt leaves, in terms of the state before it. */
module SchedResults {
  import opened Lists
  import opened SchedSpec
  import opened SchedProps
  import opened SchedRuns

  // ---------- a switch ----------

  /** The first entry of q that is not the idle process runs, and those behind it are left; if there is none,
      the idle process runs. */
  ghost predicate Turn(q: seq<Ref>, idle: Ref, running: Ref, rest: seq<Ref>) {
    exists n :: 0 <= n <= |q| && IdleUpTo(q, idle, n) &&
      if n < |q| then q[n] == running && running != idle && rest == q[n + 1..] else running == idle && rest == []
  }

  ghost predicate IdleUpTo(q: seq<Ref>, idle: Ref, n: int)
    requires n <= |q|
  {
    forall k :: 0 <= k < n ==> q[k] == idle
  }

  lemma SkipTurn(q: seq<Ref>, idle: Ref)
    ensures var rest := SkipIdle(q, idle);
      if rest == [] then Turn(q, idle, idle, []) else rest[0] != idle && Turn(q, idle, rest[0], rest[1..])
  {
    var rest := SkipIdle(q, idle);
    var n := |q| - |rest|;
    assert IdleUpTo(q, idle, n);
    if rest != [] {
      assert q[n] == rest[0] && q[n + 1..] == rest[1..];
    }
  }

  /** Every process is as it was, but for its state. */
  ghost predicate SameData(s: Sched, t: Sched) {
    && t.pcbs.Keys == s.pcbs.Keys && t.pids == s.pids && t.all == s.all
    && forall r :: r in s.pcbs ==> t.pcbs[r].(state := s.pcbs[r].state) == s.pcbs[r]
  }

  /** The terminal of that shell remembers r, and all others what they did. */
  predicate Remembers(l: seq<Ref>, l': seq<Ref>, shell: nat, r: Ref) {
    |l'| == |l| && forall i :: 0 <= i < |l| ==> l'[i] == if i + 1 == shell then r else l[i]
  }

  /** A switch from u to t: whoever is first in the queue runs, and no other queue changes. */
  ghost predicate Switched(u: Sched, t: Sched) {
    && Turn(u.ready, u.idle, t.running, t.ready) && SameData(u, t) && t.down == u.down && t.idle == u.idle
    && t.onKeyboard == u.onKeyboard && t.onProcess == u.onProcess && t.focused == u.focused && t.ticks == u.ticks
    && (forall q :: q in u.pcbs && q != t.running ==> t.pcbs[q] == u.pcbs[q])
    && if t.running == u.idle then t.latest == u.latest
       else t.running in u.pcbs ==> Remembers(u.latest, t.latest, u.pcbs[t.running].shell, t.running)
  }

  lemma DispatchTurn(u: Sched)
    requires |u.all| != 1
    ensures Switched(u, Dispatch(u))
  {
    hide SkipIdle, Turn, WithState;
    SkipTurn(u.ready, u.idle);
    var q := SkipIdle(u.ready, u.idle);
    if q == [] {
      StateMeans(u.(ready := [], running := u.idle), u.idle, Running);
    } else {
      LaunchMeans(u.(ready := q[1..]), q[0]);
      hide Launch, Remembers;
    }
  }

  lemma StateMeans(s: Sched, r: Ref, st: PState)
    ensures var t := WithState(s, r, st);
      && t == s.(pcbs := t.pcbs) && SameData(s, t)
      && forall q :: q in s.pcbs && q != r ==> t.pcbs[q] == s.pcbs[q]
  {
  }

  lemma LaunchMeans(s: Sched, r: Ref)
    ensures var t := Launch(s, r);
      && t == s.(pcbs := t.pcbs, running := r, latest := t.latest) && SameData(s, t)
      && (r in s.pcbs ==> Remembers(s.latest, t.latest, s.pcbs[r].shell, r))
      && forall q :: q in s.pcbs && q != r ==> t.pcbs[q] == s.pcbs[q]
  {
  }

  /** There is another process than the idle one. */
  lemma NotAlone(s: Sched, r: Ref)
    requires Listed(s) && r in s.pcbs && r != s.idle
    ensures |s.all| != 1
  {
    OnlyIdle(s);
  }

  /** The caller is behind all that were ready, and those in xs behind it. */
  lemma TurnSplit(q: seq<Ref>, p: Ref, xs: seq<Ref>, idle: Ref, running: Ref, rest: seq<Ref>)
    requires Turn(q + [p] + xs, idle, running, rest) && p != idle
    ensures Behind(q, p, xs, running, rest)
  {
    var w := q + [p] + xs;
    var n :| 0 <= n <= |w| && IdleUpTo(w, idle, n) &&
      if n < |w| then w[n] == running && running != idle && rest == w[n + 1..] else running == idle && rest == [];
    assert w[|q|] == p;
    assert n <= |q|;
    if n == |q| {
      assert rest == xs;
    } else {
      assert running == q[n];
      assert rest[|rest| - |xs| - 1..] == [p] + xs;
    }
  }

  /** p runs and xs is left, or another one runs and p and xs are the last in the queue. */
  predicate Behind(q: seq<Ref>, p: Ref, xs: seq<Ref>, running: Ref, rest: seq<Ref>) {
    || (running == p && rest == xs)
    || (running in q && |rest| > |xs| && rest[|rest| - |xs| - 1..] == [p] + xs)
  }

  // ---------- fork and exec ----------

  /** The child of p at `at` has the least pid that no process had, and p's shell. */
  ghost predicate ChildOf(s: Sched, t: Sched, p: Ref, at: Ref) {
    && at in t.pcbs && p in s.pcbs
    && var c := t.pcbs[at];
    && c.ppid == s.pcbs[p].pid && c.shell == s.pcbs[p].shell
    && !HasPid(s, c.pid) && forall i :: 0 <= i < c.pid ==> HasPid(s, i)
  }

  /** Nobody's pid, parent or shell changes, and nobody's result but p's. */
  ghost predicate OthersSame(s: Sched, t: Sched, p: Ref) {
    forall r :: r in s.pcbs ==>
      r in t.pcbs && SameKin(s.pcbs[r], t.pcbs[r]) && (r != p ==> t.pcbs[r].eax == s.pcbs[r].eax)
  }

  lemma LeastIsFree(s: Sched)
    requires PidsOk(s) && LeastPid(s.pids, 0) < |s.pids|
    ensures !HasPid(s, LeastPid(s.pids, 0)) && forall i :: 0 <= i < LeastPid(s.pids, 0) ==> HasPid(s, i)
  {
  }

  /** Caller and child before the switch. */
  ghost predicate Born(s: Sched, u: Sched, at: Ref, eax: nat) {
    var p := s.running;
    && p in s.pcbs && u.pcbs.Keys == s.pcbs.Keys + {at} && u.ready == s.ready + [p] + [at]
    && u.pcbs[p] == s.pcbs[p].(state := Ready, eax := eax)
    && u.pcbs[at] == Pcb(LeastPid(s.pids, 0), s.pcbs[p].pid, s.pcbs[p].shell, Ready, 0)
    && (forall r :: r in s.pcbs && r != p ==> u.pcbs[r] == s.pcbs[r])
    && u.onKeyboard == s.onKeyboard && u.onProcess == s.onProcess
  }

  /** fork: the caller gets 1 and the child 0; the child is the caller's, and comes right behind it in the
      queue. */
  lemma ForkBoth(s: Sched, at: Ref)
    requires Inv(s) && Legal(s, Syscall(Fork(at)))
    ensures var t, p := Step(s, Syscall(Fork(at))), s.running;
      && !t.down && p in s.pcbs && t.pcbs.Keys == s.pcbs.Keys + {at}
      && t.pcbs[p].eax == 1 && t.pcbs[at].eax == 0
      && ChildOf(s, t, p, at) && OthersSame(s, t, p)
      && Turn(s.ready + [p] + [at], s.idle, t.running, t.ready)
      && Behind(s.ready, p, [at], t.running, t.ready)
      && t.onKeyboard == s.onKeyboard && t.onProcess == s.onProcess
  {
    var p, u := s.running, DoCall(s, s.running, Fork(at));
    CallVacates(s, Fork(at));
    RunningLives(s);
    NotQueued(s);
    AtNotIdle(s, at);
    ForkMeans(s, at);
    hide Inv, Core, DoCall, Dispatch, Switched, Born, ChildOf, OthersSame, Turn, Behind;
    CallKeepsIdle(s, Fork(at));
    CoreListed(u);
    BornFacts(s, u, at, 1);
    NotAlone(u, p);
    DispatchTurn(u);
    BornEnd(s, u, Dispatch(u), at, 1);
  }

  lemma BornFacts(s: Sched, u: Sched, at: Ref, eax: nat)
    requires Born(s, u, at, eax)
    ensures s.running in u.pcbs && s.running in u.ready
  {
  }

  lemma BornEnd(s: Sched, u: Sched, t: Sched, at: Ref, eax: nat)
    requires Born(s, u, at, eax) && Switched(u, t) && u.idle == s.idle != s.running && at !in s.pcbs && !u.down
    requires PidsOk(s) && LeastPid(s.pids, 0) < |s.pids|
    ensures var p := s.running;
      && !t.down && t.pcbs.Keys == s.pcbs.Keys + {at}
      && t.pcbs[p].eax == eax && t.pcbs[at].eax == 0 && t.pcbs[at].pid == LeastPid(s.pids, 0)
      && ChildOf(s, t, p, at) && OthersSame(s, t, p)
      && Turn(s.ready + [p] + [at], s.idle, t.running, t.ready)
      && Behind(s.ready, p, [at], t.running, t.ready)
      && t.onKeyboard == s.onKeyboard && t.onProcess == s.onProcess
  {
    LeastIsFree(s);
    hide Turn, PidsOk, HasPid;
    TurnSplit(s.ready, s.running, [at], s.idle, t.running, t.ready);
  }

  lemma CoreListed(s: Sched)
    requires Core(s)
    ensures Listed(s) && !s.down
  {
  }

  lemma AtNotIdle(s: Sched, at: Ref)
    requires Inv(s) && at !in s.pcbs
    ensures at != s.idle && at !in s.ready && PidsOk(s)
  {
  }

  lemma ForkMeans(s: Sched, at: Ref)
    requires s.running in s.pcbs && at !in s.pcbs && s.running !in s.ready && at !in s.ready
    ensures Born(s, DoCall(s, s.running, Fork(at)), at, 1)
  {
    hide LeastPid;
  }

  /** exec: the child is the caller's and comes right behind it, and the caller has the child's pid. */
  lemma ExecBoth(s: Sched, at: Ref)
    requires Inv(s) && Legal(s, Syscall(Exec(true, at)))
    ensures var t, p := Step(s, Syscall(Exec(true, at))), s.running;
      && !t.down && p in s.pcbs && t.pcbs.Keys == s.pcbs.Keys + {at}
      && t.pcbs[p].eax == t.pcbs[at].pid
      && ChildOf(s, t, p, at) && OthersSame(s, t, p)
      && Turn(s.ready + [p] + [at], s.idle, t.running, t.ready)
      && Behind(s.ready, p, [at], t.running, t.ready)
      && t.onKeyboard == s.onKeyboard && t.onProcess == s.onProcess
  {
    var p, u := s.running, DoCall(s, s.running, Exec(true, at));
    CallVacates(s, Exec(true, at));
    RunningLives(s);
    NotQueued(s);
    AtNotIdle(s, at);
    ExecMeans(s, at);
    hide Inv, Core, DoCall, Dispatch, Switched, Born, ChildOf, OthersSame, Turn, Behind;
    CallKeepsIdle(s, Exec(true, at));
    CoreListed(u);
    BornFacts(s, u, at, LeastPid(s.pids, 0));
    NotAlone(u, p);
    DispatchTurn(u);
    BornEnd(s, u, Dispatch(u), at, LeastPid(s.pids, 0));
  }

  lemma ExecMeans(s: Sched, at: Ref)
    requires s.running in s.pcbs && at !in s.pcbs && s.running !in s.ready && at !in s.ready
    ensures Born(s, DoCall(s, s.running, Exec(true, at)), at, LeastPid(s.pids, 0))
  {
    hide LeastPid;
  }

  lemma ChildExec(s: Sched, at: Ref)
    requires Inv(s) && Legal(s, Syscall(Exec(true, at)))
    ensures s.running in s.pcbs
    ensures var u := DoCall(s, s.running, Exec(true, at)); at in u.pcbs && Born(s, u, at, u.pcbs[at].pid)
  {
    RunningLives(s);
    NotQueued(s);
    AtNotIdle(s, at);
    ExecMeans(s, at);
    hide Inv, DoCall;
  }

  // ---------- the other calls ----------

  /** The caller has that result and comes behind all that were ready; nothing else changes. */
  ghost predicate Resumes(s: Sched, t: Sched, eax: nat) {
    var p := s.running;
    && !t.down && p in t.pcbs && t.pcbs.Keys == s.pcbs.Keys && t.pcbs[p].eax == eax && OthersSame(s, t, p)
    && Turn(s.ready + [p] + [], s.idle, t.running, t.ready) && Behind(s.ready, p, [], t.running, t.ready)
    && t.onKeyboard == s.onKeyboard && t.onProcess == s.onProcess
  }

  /** A call with a result. */
  lemma PlainResumes(s: Sched, result: nat)
    requires Inv(s) && s.running != s.idle
    ensures Resumes(s, Step(s, Syscall(Plain(result))), result)
  {
    hide Inv, Core, Resumes, Ended, Dispatch;
    CallVacates(s, Plain(result));
    ResultMeans(s, result);
    RunningLives(s);
    ResumesAfter(s, DoCall(s, s.running, Plain(result)), result);
  }

  /** exec of a program that is not there: the caller has 0. */
  lemma ExecFails(s: Sched, at: Ref)
    requires Inv(s) && s.running != s.idle
    ensures Resumes(s, Step(s, Syscall(Exec(false, at))), 0)
  {
    hide Inv, Core, Resumes, Ended, Dispatch;
    CallVacates(s, Exec(false, at));
    RunningLives(s);
    ResultFirst(s);
    ResumesAfter(s, DoCall(s, s.running, Exec(false, at)), 0);
  }

  /** The caller's state before the switch. */
  ghost predicate Ended(s: Sched, u: Sched, eax: nat) {
    var p := s.running;
    && p in s.pcbs && u.ready == s.ready + [p] && u.onKeyboard == s.onKeyboard && u.onProcess == s.onProcess
    && u.pcbs == s.pcbs[p := s.pcbs[p].(state := Ready, eax := eax)] && u.idle == s.idle
  }

  lemma ResultMeans(s: Sched, eax: nat)
    requires Inv(s) && s.running != s.idle
    ensures Ended(s, SetReady(WithResult(s, s.running, eax), s.running), eax)
  {
    NotQueued(s);
    hide Inv;
  }

  lemma ResultFirst(s: Sched)
    requires Inv(s) && s.running != s.idle
    ensures Ended(s, WithResult(SetReady(s, s.running), s.running, 0), 0)
  {
    NotQueued(s);
    hide Inv;
  }

  lemma ResumesAfter(s: Sched, u: Sched, eax: nat)
    requires Ended(s, u, eax) && Core(u) && s.running != s.idle
    ensures Resumes(s, Dispatch(u), eax)
  {
    hide Core, Dispatch, Listed, Switched, Resumes, Turn;
    CoreListed(u);
    EndedFacts(s, u, eax);
    NotAlone(u, s.running);
    DispatchTurn(u);
    ResumesEnd(s, u, Dispatch(u), eax);
  }

  lemma EndedFacts(s: Sched, u: Sched, eax: nat)
    requires Ended(s, u, eax)
    ensures s.running in u.pcbs && u.idle == s.idle
  {
  }

  lemma ResumesEnd(s: Sched, u: Sched, t: Sched, eax: nat)
    requires Ended(s, u, eax) && Switched(u, t) && !u.down && s.running != s.idle
    ensures Resumes(s, t, eax)
  {
    hide Turn, Behind;
    assert s.ready + [s.running] == s.ready + [s.running] + [];
    TurnSplit(s.ready, s.running, [], s.idle, t.running, t.ready);
  }

  /** The caller waits, and the next one that is ready runs; no process changes otherwise. */
  ghost predicate Waits(s: Sched, t: Sched) {
    var p := s.running;
    && !t.down && p in t.pcbs && t.pcbs[p].state.Waiting? && p !in t.ready && t.running != p
    && t.pcbs.Keys == s.pcbs.Keys && OthersSame(s, t, p) && t.pcbs[p].eax == s.pcbs[p].eax
    && Turn(s.ready, s.idle, t.running, t.ready)
  }

  /** wait: the caller waits if and only if a process with that pid is alive; otherwise it has 1. */
  lemma WaitExactly(s: Sched, pid: nat)
    requires Inv(s) && s.running != s.idle
    ensures var t := Step(s, Syscall(Wait(pid)));
      if HasPid(s, pid) then Waits(s, t) && t.onProcess == s.onProcess + [s.running] && t.onKeyboard == s.onKeyboard
      else Resumes(s, t, 1)
  {
    CallVacates(s, Wait(pid));
    RunningLives(s);
    FoundExactly(s, pid);
    hide Inv, Core, Resumes, Waits, Ended, Dispatch, FindPid, HasPid, WithState, SetReady, WithResult;
    var u := DoCall(s, s.running, Wait(pid));
    if HasPid(s, pid) {
      WaitsAfter(s, u);
    } else {
      ResultMeans(s, 1);
      ResumesAfter(s, u, 1);
    }
  }

  lemma FoundExactly(s: Sched, pid: nat)
    requires Inv(s)
    ensures FindPid(s.pcbs, s.all, pid).None? <==> !HasPid(s, pid)
  {
    FindPidMeans(s.pcbs, s.all, pid);
    hide PidsOk, TerminalsOk, QueuesOk, FindPid, NoDup;
  }

  /** The line that is read goes to whoever asked last: the caller is the first of all readers. */
  lemma ReadLineWaits(s: Sched)
    requires Inv(s) && s.running != s.idle
    ensures var t := Step(s, Syscall(ReadLine));
      Waits(s, t) && t.onKeyboard == [s.running] + s.onKeyboard && t.onProcess == s.onProcess
  {
    CallVacates(s, ReadLine);
    RunningLives(s);
    hide Inv, Core, Waits, Dispatch, WithState;
    WaitsAfter(s, DoCall(s, s.running, ReadLine));
  }

  lemma WaitsAfter(s: Sched, u: Sched)
    requires Inv(s) && s.running != s.idle && Core(u)
    requires u == WithState(s, s.running, Waiting).(onKeyboard := u.onKeyboard, onProcess := u.onProcess)
    ensures Waits(s, Dispatch(u)) && Dispatch(u).onKeyboard == u.onKeyboard && Dispatch(u).onProcess == u.onProcess
  {
    CoreListed(u);
    NotQueued(s);
    StateMeans(s, s.running, Waiting);
    StateIs(s, s.running, Waiting);
    hide Inv, Core, Dispatch, WithState, Turn;
    NotAlone(u, s.running);
    DispatchTurn(u);
    TurnFrom(s.ready, s.idle, Dispatch(u).running, Dispatch(u).ready, s.running);
  }

  lemma StateIs(s: Sched, r: Ref, st: PState)
    requires r in s.pcbs
    ensures WithState(s, r, st).pcbs[r].state == st
  {
  }

  lemma TurnFrom(q: seq<Ref>, idle: Ref, running: Ref, rest: seq<Ref>, p: Ref)
    requires Turn(q, idle, running, rest) && p !in q && p != idle
    ensures running != p && p !in rest
  {
  }

  // ---------- the keyboard ----------

  /** Enter: the first reader becomes ready if and only if its shell has the focus; otherwise nothing happens. */
  lemma EnterExactly(s: Sched)
    requires Inv(s)
    ensures var t, q := Step(s, Enter), s.onKeyboard;
      if q != [] && q[0] in s.pcbs && s.pcbs[q[0]].shell == s.focused then
        t == s.(onKeyboard := q[1..], ready := s.ready + [q[0]], pcbs := s.pcbs[q[0] := s.pcbs[q[0]].(state := Ready)])
      else t == s
  {
    if s.onKeyboard != [] {
      var r := s.onKeyboard[0];
      assert r in s.onKeyboard && s.pcbs[r].state == Waiting && r !in s.ready && r !in s.onProcess;
    }
    RunningLives(s);
    hide Inv;
  }

  /** Switching to a terminal brings its first reader to the front, and Enter then wakes that one. */
  lemma FocusThenEnter(s: Sched, pid: nat, i: nat)
    requires Inv(s) && 1 <= pid <= TERMINALS && HasPid(s, pid)
    requires i < |s.onKeyboard| && ShellOf(s, s.onKeyboard[i], pid)
    requires forall k :: 0 <= k < i ==> !ShellOf(s, s.onKeyboard[k], pid)
    ensures var t, r := Step(s, Focus(pid)), s.onKeyboard[i];
      && t.focused == pid && t.onKeyboard != [] && t.onKeyboard[0] == r && r !in t.ready
      && var u := Step(t, Enter);
      && u.ready == t.ready + [r] && r in u.pcbs && u.pcbs[r].state.Ready? && u.onKeyboard == t.onKeyboard[1..]
  {
    hide Inv, Regrouped, Filter, FindPid, HasPid;
    FoundExactly(s, pid);
    RefocusInv(s, pid);
    RunningLives(s);
    FirstChosen(OfShell(s.pcbs, pid), s.onKeyboard, i);
    ReaderWaits(s, s.onKeyboard[i]);
    EnterExactly(Step(s, Focus(pid)));
  }

  lemma ReaderWaits(s: Sched, r: Ref)
    requires Inv(s) && r in s.onKeyboard
    ensures r in s.pcbs && s.pcbs[r].state == Waiting && r !in s.ready
  {
  }

  predicate ShellOf(s: Sched, r: Ref, pid: nat) { r in s.pcbs && s.pcbs[r].shell == pid }

  /** Switching to a terminal gives it the focus, moves the waiting processes of its shell before all others, and
      keeps their order otherwise; if no process has the pid of that shell nothing happens. */
  lemma FocusOrders(s: Sched, pid: nat)
    requires Inv(s) && 1 <= pid <= TERMINALS
    ensures var t := Step(s, Focus(pid));
      if HasPid(s, pid) then
        && t == s.(focused := pid, onKeyboard := t.onKeyboard, onProcess := t.onProcess)
        && (exists to :: Regrouped(OfShell(s.pcbs, pid), s.onKeyboard, t.onKeyboard, to))
        && (exists to :: Regrouped(OfShell(s.pcbs, pid), s.onProcess, t.onProcess, to))
      else t == s
  {
    FoundExactly(s, pid);
    RunningLives(s);
    hide Inv, FindPid, HasPid, Partitioned, Regrouped;
    var _ := StablePartition(OfShell(s.pcbs, pid), s.onKeyboard);
    var _ := StablePartition(OfShell(s.pcbs, pid), s.onProcess);
  }

  // ---------- deaths ----------

  /** What the running process does to die. */
  predicate Deadly(e: Event) { e.Fault? || (e.Syscall? && (e.call.Exit? || e.call.Unknown?)) }

  /** Exactly one process dies in a step: the running one if it exits, faults or makes no known call, and for
      Ctrl-C the one that its terminal remembers, unless that is a shell or the idle process. */
  lemma DiesExactly(s: Sched, e: Event, r: Ref)
    requires Inv(s) && Legal(s, e) && r in s.pcbs
    ensures r !in Step(s, e).pcbs <==>
      || (Deadly(e) && r == s.running)
      || (e == Interrupt && 1 <= s.focused <= |s.latest| && r == s.latest[s.focused - 1] && s.pcbs[r].pid > TERMINALS)
    ensures r in Step(s, e).pcbs ==> SameKin(s.pcbs[r], Step(s, e).pcbs[r])
  {
    hide Inv, DoCall, Dispatch, Kill, WakeParent, SetReady, WakeKeyboard, Refocus, Spared, Abort;
    RunningLives(s);
    match e
    case Tick =>
      ReadySame(s.(ticks := 0), s.running);
      DispatchSame(SetReady(s.(ticks := 0), s.running));
    case Syscall(c) =>
      CallKin(s, c, r);
      DispatchSame(DoCall(s, s.running, c));
    case Fault =>
      DeathKin(s, s.running, 1);
      DispatchSame(Kill(WakeParent(s, s.pcbs[s.running].ppid, 1), s.running));
    case Enter => EnterExactly(s);
    case Interrupt => AbortKin(s);
    case Focus(pid) => RefocusInv(s, pid);
  }

  /** Pids, parents and shells are the same. */
  ghost predicate KinOf(s: Sched, t: Sched) {
    t.pcbs.Keys == s.pcbs.Keys && forall r :: r in s.pcbs ==> SameKin(s.pcbs[r], t.pcbs[r])
  }

  /** A death leaves all others' pids, parents and shells. */
  ghost predicate KinBut(s: Sched, t: Sched, p: Ref) {
    t.pcbs.Keys == s.pcbs.Keys - {p} && forall r :: r in t.pcbs ==> SameKin(s.pcbs[r], t.pcbs[r])
  }

  lemma ReadySame(s: Sched, r: Ref)
    ensures KinOf(s, SetReady(s, r))
  {
  }

  lemma DispatchSame(s: Sched)
    ensures KinOf(s, Dispatch(s))
  {
    hide SkipIdle;
  }

  lemma WakeSame(s: Sched, ppid: nat, code: nat)
    ensures KinOf(s, WakeParent(s, ppid, code))
  {
    hide FindPid, RemoveFirst;
  }

  lemma DeathKin(s: Sched, p: Ref, code: nat)
    requires p in s.pcbs
    ensures KinBut(s, Kill(WakeParent(s, s.pcbs[p].ppid, code), p), p)
  {
    hide WakeParent, RemoveFirst;
    WakeSame(s, s.pcbs[p].ppid, code);
  }

  lemma CallKin(s: Sched, c: Call, r: Ref)
    requires s.running in s.pcbs && r in s.pcbs && Legal(s, Syscall(c))
    ensures var t := DoCall(s, s.running, c);
      && (r !in t.pcbs <==> Deadly(Syscall(c)) && r == s.running)
      && (r in t.pcbs ==> SameKin(s.pcbs[r], t.pcbs[r]))
  {
    hide Kill, WakeParent, LeastPid, RemoveFirst, FindPid;
    match c
    case Exit(code) => DeathKin(s, s.running, code);
    case Unknown => KillKin(s, s.running);
    case _ =>
  }

  lemma KillKin(s: Sched, p: Ref)
    requires p in s.pcbs
    ensures KinBut(s, Kill(s, p), p)
  {
    hide RemoveFirst;
  }

  lemma AbortKin(s: Sched)
    requires Inv(s)
    ensures |s.latest| == TERMINALS && 1 <= s.focused <= TERMINALS
    ensures var p := s.latest[s.focused - 1];
      p in s.pcbs && if s.pcbs[p].pid > TERMINALS then KinBut(s, Abort(s), p) else Abort(s) == s
  {
    TargetLives(s);
    hide Inv, Kill, WakeParent, SetReady, Dispatch;
    var p := s.latest[s.focused - 1];
    if s.pcbs[p].pid > TERMINALS {
      DeathKin(s, p, 1);
      var t := Kill(WakeParent(s, s.pcbs[p].ppid, 1), p);
      ReadySame(t, s.running);
      DispatchSame(t);
      DispatchSame(SetReady(t, s.running));
    }
  }

  /** A process with the pid of a shell that dies in a run does so by itself: at some step it runs, and exits,
      faults or makes no known call. No run of other steps kills one, however often Ctrl-C is pressed. */
  lemma {:induction false} ShellsSurvive(s: Sched, es: seq<Event>, r: Ref) returns (i: nat)
    requires Inv(s) && LegalRun(s, es) && r in s.pcbs && s.pcbs[r].pid <= TERMINALS
    ensures r in Run(s, es).pcbs || (i < |es| && Run(s, es[..i]).running == r && Deadly(es[i]))
    decreases |es|
  {
    hide Inv, Step, Legal, TERMINALS;
    i := 0;
    if es != [] {
      RunningLives(s);
      DiesExactly(s, es[0], r);
      StepInv(s, es[0]);
      var t := Step(s, es[0]);
      assert Run(s, es[..0]) == s;
      if r in t.pcbs && t.down {
        StaysDown(t, es[1..]);
      } else if r in t.pcbs {
        var j := ShellsSurvive(t, es[1..], r);
        i := j + 1;
        if r !in Run(s, es).pcbs {
          assert es[..i][0] == es[0] && es[..i][1..] == es[1..][..j];
        }
      }
    }
  }

  // ---------- what a death leaves ----------

  /** q waits for another process, and is the parent of p. */
  predicate ParentWaits(s: Sched, p: Ref, q: Ref) {
    q in s.onProcess && q in s.pcbs && p in s.pcbs && s.pcbs[q].pid == s.pcbs[p].ppid
  }

  /** p is gone from s, and its parent q, which waited, has the exit code and is the last in the queue. */
  ghost predicate DiedBefore(s: Sched, u: Sched, p: Ref, q: Ref, code: nat) {
    && q in s.pcbs && u.pcbs == s.pcbs[q := s.pcbs[q].(state := Ready, eax := code)] - {p}
    && u.ready == RemoveFirst(s.ready + [q], p)
    && u.onProcess == RemoveFirst(RemoveFirst(s.onProcess, q), p) && u.onKeyboard == RemoveFirst(s.onKeyboard, p)
    && u.focused == s.focused && u.ticks == s.ticks
    && p in s.pcbs && Remembers(s.latest, u.latest, s.pcbs[p].shell, s.idle)
  }

  /** p is gone from s, and nobody waited for it. */
  ghost predicate DiedAlone(s: Sched, u: Sched, p: Ref) {
    && u.pcbs == s.pcbs - {p} && u.ready == RemoveFirst(s.ready, p)
    && u.onProcess == RemoveFirst(s.onProcess, p) && u.onKeyboard == RemoveFirst(s.onKeyboard, p)
    && u.focused == s.focused && u.ticks == s.ticks
    && p in s.pcbs && Remembers(s.latest, u.latest, s.pcbs[p].shell, s.idle)
  }

  /** A death wakes the parent if and only if it waits, and changes no other process. */
  lemma DeathMeans(s: Sched, p: Ref, code: nat)
    requires Inv(s) && p in s.pcbs
    ensures var u := Kill(WakeParent(s, s.pcbs[p].ppid, code), p);
      && (forall q :: ParentWaits(s, p, q) ==> DiedBefore(s, u, p, q, code))
      && ((forall q :: !ParentWaits(s, p, q)) ==> DiedAlone(s, u, p))
  {
    hide RemoveFirst;
    var ppid := s.pcbs[p].ppid;
    forall q | ParentWaits(s, p, q)
      ensures DiedBefore(s, Kill(WakeParent(s, ppid, code), p), p, q, code)
    {
      FoundIs(s, ppid, q);
      WakeParentMeans(s, ppid, code);
    }
    FindPidMeans(s.pcbs, s.onProcess, ppid);
    if FindPid(s.pcbs, s.onProcess, ppid).Some? {
      assert ParentWaits(s, p, FindPid(s.pcbs, s.onProcess, ppid).value);
    }
  }

  /** Leaving the processor after the last one that was not idle takes the system down; otherwise the first of
      the queue runs. */
  ghost predicate SwitchedOrDown(u: Sched, t: Sched) {
    if u.pcbs.Keys == {u.idle} then t == u.(down := true) else Switched(u, t)
  }

  /** exit, a fault, or no known call: the running process is gone. For the first two its parent, if it waits,
      has the exit code, which is 1 for a fault, and joins the queue. */
  lemma DeathExactly(s: Sched, e: Event) returns (u: Sched)
    requires Inv(s) && Legal(s, e) && Deadly(e)
    ensures SwitchedOrDown(u, Step(s, e)) && u.idle == s.idle && !u.down
    ensures var p, code := s.running, if e.Syscall? && e.call.Exit? then e.call.code else 1;
      if e.Syscall? && e.call.Unknown? then DiedAlone(s, u, p)
      else
        && (forall q :: ParentWaits(s, p, q) ==> DiedBefore(s, u, p, q, code))
        && ((forall q :: !ParentWaits(s, p, q)) ==> DiedAlone(s, u, p))
  {
    hide RemoveFirst, Dispatch, Inv, Core, Vacant, WakeParent, Switched, ParentWaits, DiedBefore, FindPid;
    var p := s.running;
    RunningLives(s);
    if e.Syscall? {
      CallVacates(s, e.call);
      u := DoCall(s, p, e.call);
    } else {
      DeathCore(s, p, 1);
      u := Kill(WakeParent(s, s.pcbs[p].ppid, 1), p);
    }
    if !(e.Syscall? && e.call.Unknown?) {
      DeathMeans(s, p, if e.Syscall? then e.call.code else 1);
      WakeKeepsKeys(s, s.pcbs[p].ppid, if e.Syscall? then e.call.code else 1);
    }
    SwitchOf(u);
  }

  lemma SwitchOf(u: Sched)
    requires Core(u)
    ensures SwitchedOrDown(u, Dispatch(u)) && !u.down
  {
    CoreListed(u);
    OnlyIdle(u);
    hide Switched, Core;
    if |u.all| == 1 {
      hide NoDup;
    } else {
      hide Dispatch;
      DispatchTurn(u);
    }
  }

  /** r joins a queue, unless it is in it. */
  function Joined(q: seq<Ref>, r: Ref): seq<Ref> { if r in q then q else q + [r] }

  /** Ctrl-C kills the process that the focused terminal remembers as a fault would, unless it is a shell or the
      idle process; the running process, when it is another one, joins the queue before the switch. */
  lemma InterruptExactly(s: Sched) returns (p: Ref, u: Sched, v: Sched)
    requires Inv(s)
    ensures |s.latest| == TERMINALS && 1 <= s.focused <= TERMINALS && p == s.latest[s.focused - 1] && p in s.pcbs
    ensures if s.pcbs[p].pid <= TERMINALS then Step(s, Interrupt) == s
      else
        && (forall q :: ParentWaits(s, p, q) ==> DiedBefore(s, u, p, q, 1))
        && ((forall q :: !ParentWaits(s, p, q)) ==> DiedAlone(s, u, p))
        && (if s.running == p then v == u
            else
              && s.running in u.pcbs && v.ready == Joined(u.ready, s.running) && v.onProcess == u.onProcess
              && v.onKeyboard == u.onKeyboard && v.idle == u.idle && SameData(u, v))
        && u.idle == s.idle && SwitchedOrDown(v, Step(s, Interrupt))
  {
    hide RemoveFirst, Dispatch, Inv, Core, Vacant, WakeParent, Switched, ParentWaits, DiedBefore, DiedAlone, FindPid;
    TargetLives(s);
    RunningLives(s);
    p := s.latest[s.focused - 1];
    u, v := s, s;
    if s.pcbs[p].pid > TERMINALS {
      IdlePid(s);
      u := Kill(WakeParent(s, s.pcbs[p].ppid, 1), p);
      DeathCore(s, p, 1);
      DeathMeans(s, p, 1);
      v := u;
      if s.running != p {
        DeathInv(u);
        YieldVacates(u);
        v := SetReady(u, u.running);
        StateMeans(u, u.running, Ready);
      }
      SwitchOf(v);
    }
  }

  lemma IdlePid(s: Sched)
    requires Inv(s)
    ensures s.idle in s.pcbs && s.pcbs[s.idle].pid == 0
  {
  }

  lemma DeathInv(u: Sched)
    requires Core(u) && Runs(u)
    ensures Inv(u) && u.running in u.pcbs
  {
  }

  /** The timer: on every tenth tick the running process joins the queue and the first of it runs; before that
      nothing changes but the count. */
  lemma TickExactly(s: Sched)
    requires Inv(s)
    ensures var t := Step(s, Tick);
      if s.ticks + 1 < TICKS then t == s.(ticks := s.ticks + 1)
      else
        && t.ticks == 0 && t.pcbs.Keys == s.pcbs.Keys && OthersSame(s, t, s.idle)
        && (t.down <==> s.pcbs.Keys == {s.idle})
        && (!t.down ==> Turn(Joined(s.ready, s.running), s.idle, t.running, t.ready))
        && t.onKeyboard == s.onKeyboard && t.onProcess == s.onProcess
  {
    hide Dispatch, Inv, Core, Vacant, Turn;
    TicksBounded(s);
    RunningLives(s);
    if s.ticks + 1 == TICKS {
      TicksCore(s, 0);
      YieldVacates(s.(ticks := 0));
      StateMeans(s.(ticks := 0), s.running, Ready);
      SwitchOf(SetReady(s.(ticks := 0), s.running));
    }
  }

  // ---------- whom Ctrl-C hits ----------

  /** The terminal of the running process remembers it. */
  predicate Current(s: Sched) {
    || s.running == s.idle
    || (s.running in s.pcbs && 1 <= s.pcbs[s.running].shell <= |s.latest|
        && s.latest[s.pcbs[s.running].shell - 1] == s.running)
  }

  lemma DispatchCurrent(u: Sched)
    requires Core(u)
    ensures Dispatch(u).down || Current(Dispatch(u))
  {
    if |u.all| != 1 {
      DispatchMeans(u);
      NextLives(u);
      NextIs(u);
      hide SkipIdle, Dispatch, Next, PidsOk, QueuesOk;
    }
  }

  lemma StepCurrent(s: Sched, e: Event)
    requires Inv(s) && Legal(s, e) && Current(s)
    ensures Step(s, e).down || Current(Step(s, e))
  {
    hide Core, Runs, Vacant, DoCall, SetReady, WakeParent, Kill, Dispatch, Spared, WakeKeyboard;
    RunningLives(s);
    match e
    case Tick =>
      if s.ticks + 1 == TICKS {
        TicksCore(s, 0);
        YieldVacates(s.(ticks := 0));
        DispatchCurrent(SetReady(s.(ticks := 0), s.running));
      }
    case Syscall(c) =>
      CallVacates(s, c);
      DispatchCurrent(DoCall(s, s.running, c));
    case Fault =>
      DeathCore(s, s.running, 1);
      DispatchCurrent(Kill(WakeParent(s, s.pcbs[s.running].ppid, 1), s.running));
    case Enter => EnterExactly(s);
    case Interrupt => AbortCurrent(s);
    case Focus(pid) =>
  }

  lemma AbortCurrent(s: Sched)
    requires Inv(s) && Current(s)
    ensures Abort(s).down || Current(Abort(s))
  {
    TargetLives(s);
    RunningLives(s);
    if !Spared(s) {
      var p := Target(s);
      DeathCore(s, p, 1);
      var t := Kill(WakeParent(s, s.pcbs[p].ppid, 1), p);
      hide Core, Runs, Vacant, Kill, WakeParent, SetReady, Dispatch;
      if s.running != p {
        YieldVacates(t);
        DispatchCurrent(SetReady(t, s.running));
      } else {
        DispatchCurrent(t);
      }
    }
  }

  /** In every state that can be reached Ctrl-C kills the running process if the terminal it belongs to has the
      focus, and it is no shell. */
  lemma {:induction false} InterruptHitsRunning(s: Sched, es: seq<Event>)
    requires Inv(s) && LegalRun(s, es) && Current(s)
    ensures var t, p := Run(s, es), Run(s, es).running;
      !t.down && p in t.pcbs && t.pcbs[p].pid > TERMINALS && t.pcbs[p].shell == t.focused ==>
        p !in Step(t, Interrupt).pcbs && Step(t, Interrupt).pcbs.Keys == t.pcbs.Keys - {p}
    decreases |es|
  {
    hide Inv, Step, Legal, Current;
    if es == [] {
      RunningHit(s);
    } else {
      RunningLives(s);
      StepInv(s, es[0]);
      StepCurrent(s, es[0]);
      if Step(s, es[0]).down {
        StaysDown(Step(s, es[0]), es[1..]);
      } else {
        InterruptHitsRunning(Step(s, es[0]), es[1..]);
      }
    }
  }

  lemma RunningHit(s: Sched)
    requires Inv(s) && Current(s)
    ensures var p := s.running;
      p in s.pcbs && s.pcbs[p].pid > TERMINALS && s.pcbs[p].shell == s.focused ==>
        Step(s, Interrupt).pcbs.Keys == s.pcbs.Keys - {p}
  {
    hide Inv, Abort, KinBut;
    IdlePid(s);
    RunningLives(s);
    AbortKin(s);
    KinButKeys(s, Abort(s), s.running);
  }

  lemma KinButKeys(s: Sched, t: Sched, p: Ref)
    ensures KinBut(s, t, p) ==> t.pcbs.Keys == s.pcbs.Keys - {p}
  {
  }

  /** As the system starts every shell is ready and remembered by its terminal, and the idle process runs. */
  lemma BootCurrent(idle: Ref, a: Ref, b: Ref, c: Ref, d: Ref)
    requires Distinct(idle, a, b, c, d)
    ensures var s := Boot(idle, a, b, c, d);
      && Current(s) && s.running == s.idle == idle && s.latest == [a, b, c, d]
      && ShellAt(s, a, 1) && ShellAt(s, b, 2) && ShellAt(s, c, 3) && ShellAt(s, d, 4)
  {
    hide BootQueues, Core;
    BootSteps(idle, a, b, c, d);
  }
}
