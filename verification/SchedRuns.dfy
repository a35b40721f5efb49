/** Runs of the scheduler: the invariant holds at every step boundary, and who is ready gets
    the processor. */
module SchedRuns {
  import opened Lists
  import opened SchedSpec
  import opened SchedProps

  // ---------- every step ----------

  /** The running process went elsewhere. */
  lemma Vacated(s: Sched, t: Sched)
    requires Runs(s) && SameBut(s, t, s.running) && t.idle == s.idle
    requires s.running == s.idle || t.pcbs[s.running].state.Ready? || t.pcbs[s.running].state.Waiting?
    ensures Vacant(t)
  {
  }

  /** A death: the parent is woken if it waits, and the process is gone from all queues. */
  lemma DeathCore(s: Sched, p: Ref, code: nat)
    requires Inv(s) && p in s.pcbs && p != s.idle
    ensures var t := WakeParent(s, s.pcbs[p].ppid, code); var u := Kill(t, p);
      && Core(u) && u.pcbs.Keys == s.pcbs.Keys - {p} && u.running == s.running && u.idle == s.idle
      && (p == s.running ==> Vacant(u)) && (p != s.running ==> Runs(u))
  {
    hide Core, WakeParent, Kill, FindPid, WokenWith;
    var ppid := s.pcbs[p].ppid;
    var t := WakeParent(s, ppid, code);
    WakeParentCore(s, ppid, code);
    WakeKeeps(s, t, ppid, code);
    KillCore(t, p);
  }

  /** Waking a parent changes nothing for those that did not wait. */
  lemma WakeKeeps(s: Sched, t: Sched, ppid: nat, code: nat)
    requires Inv(s)
    requires var found := FindPid(s.pcbs, s.onProcess, ppid);
      if found.None? then t == s else WokenWith(s, t, found.value, ppid, code)
    ensures Core(t) && Runs(t) && t.pcbs.Keys == s.pcbs.Keys && t.running == s.running && t.idle == s.idle
  {
    hide Listed, PidsOk, TerminalsOk, FindPid;
    var found := FindPid(s.pcbs, s.onProcess, ppid);
    if found.Some? {
      var r := found.value;
      assert s.pcbs[r].state == Waiting && r != s.idle && r != s.running;
    }
  }

  lemma CallVacates(s: Sched, c: Call)
    requires Inv(s) && Legal(s, Syscall(c))
    ensures Core(DoCall(s, s.running, c)) && Vacant(DoCall(s, s.running, c)) && DoCall(s, s.running, c).idle == s.idle
  {
    hide Listed, PidsOk, TerminalsOk, QueuesOk, NoDup, SetReady, WithState, WithResult, WakeParent, Kill, Spawn;
    match c
    case Plain(result) => PlainVacates(s, result);
    case Exit(code) => DeathCore(s, s.running, code);
    case ReadLine => BlockVacates(s, true);
    case Exec(found, at) => ExecVacates(s, found, at);
    case Fork(at) => ForkVacates(s, at);
    case Wait(pid) => PlainVacates(s, 1); BlockVacates(s, false);
    case Unknown => UnknownVacates(s);
  }

  lemma NotQueued(s: Sched)
    requires Inv(s) && s.running != s.idle
    ensures !Blocked(s, s.running) && s.running !in s.ready && s.pcbs[s.running].state.Running?
    ensures 1 <= s.pcbs[s.running].shell <= TERMINALS && s.idle in s.pcbs
  {
  }

  lemma PlainVacates(s: Sched, result: nat)
    requires Inv(s) && s.running != s.idle
    ensures var t := SetReady(WithResult(s, s.running, result), s.running); Core(t) && Vacant(t) && t.idle == s.idle
  {
    NotQueued(s);
    WithResultCore(s, s.running, result);
    var u := WithResult(s, s.running, result);
    SetReadyCore(u, s.running);
    hide Core, WithResult, SetReady;
    SameButOn(s, u, SetReady(u, s.running), s.running);
    Vacated(s, SetReady(u, s.running));
  }

  lemma SameButOn(s: Sched, t: Sched, u: Sched, r: Ref)
    requires SameBut(s, t, r) && SameBut(t, u, r)
    ensures SameBut(s, u, r)
  {
  }

  lemma BlockVacates(s: Sched, keyboard: bool)
    requires Inv(s) && s.running != s.idle
    ensures var t := WithState(s, s.running, Waiting);
      var u := if keyboard then t.(onKeyboard := [s.running] + s.onKeyboard)
        else t.(onProcess := s.onProcess + [s.running]);
      Core(u) && Vacant(u) && u.idle == s.idle
  {
    NotQueued(s);
    BlockCore(s, s.running, keyboard);
    var t := WithState(s, s.running, Waiting);
    hide Core, WithState;
    Vacated(s, if keyboard then t.(onKeyboard := [s.running] + s.onKeyboard)
      else t.(onProcess := s.onProcess + [s.running]));
  }

  lemma UnknownVacates(s: Sched)
    requires Inv(s) && s.running != s.idle
    ensures Core(Kill(s, s.running)) && Vacant(Kill(s, s.running)) && Kill(s, s.running).idle == s.idle
  {
    KillCore(s, s.running);
    hide Core, Kill;
  }

  /** A new process that is made ready. */
  lemma BornCore(s: Sched, t: Sched, at: Ref)
    requires Core(t) && at in t.pcbs && at != t.idle && t.pcbs[at].state.Fresh? && !Blocked(t, at)
    requires forall r :: r in t.pcbs && r != t.idle && r != at ==> t.pcbs[r].state.Ready? || t.pcbs[r].state.Waiting?
    ensures Core(SetReady(t, at)) && Vacant(SetReady(t, at)) && SetReady(t, at).idle == t.idle
  {
    SetReadyCore(t, at);
    hide Core, SetReady;
  }

  lemma ExecVacates(s: Sched, found: bool, at: Ref)
    requires Inv(s) && Legal(s, Syscall(Exec(found, at)))
    ensures var t := DoCall(s, s.running, Exec(found, at)); Core(t) && Vacant(t) && t.idle == s.idle
  {
    hide Core, SetReady, WithResult, Spawn;
    var p := s.running;
    NotQueued(s);
    SetReadyCore(s, p);
    var t0 := SetReady(s, p);
    WithResultCore(t0, p, 0);
    var t := WithResult(t0, p, 0);
    SameButOn(s, t0, t, p);
    Vacated(s, t);
    if found {
      SpawnCore(t, at, s.pcbs[p].pid, s.pcbs[p].shell);
      var u := Spawn(t, at, s.pcbs[p].pid, s.pcbs[p].shell);
      var v := WithResult(u, p, LeastPid(s.pids, 0));
      WithResultCore(u, p, LeastPid(s.pids, 0));
      FreshIsUnqueued(v, at);
      BornCore(s, v, at);
    }
  }

  lemma FreshIsUnqueued(s: Sched, r: Ref)
    requires Core(s) && r in s.pcbs && r != s.idle && s.pcbs[r].state.Fresh?
    ensures !Blocked(s, r) && r !in s.ready
  {
  }

  lemma ForkVacates(s: Sched, at: Ref)
    requires Inv(s) && Legal(s, Syscall(Fork(at)))
    ensures var t := DoCall(s, s.running, Fork(at)); Core(t) && Vacant(t) && t.idle == s.idle
  {
    hide Core, SetReady, WithResult, Spawn;
    var p := s.running;
    NotQueued(s);
    assert s.pcbs[p].pid >= 0;
    SpawnCore(s, at, s.pcbs[p].pid, s.pcbs[p].shell);
    var t := Spawn(s, at, s.pcbs[p].pid, s.pcbs[p].shell);
    WithResultCore(t, p, 1);
    var u := WithResult(t, p, 1);
    WithResultCore(u, at, 0);
    var v := WithResult(u, at, 0);
    RunningIsUnqueued(v, p);
    SetReadyCore(v, p);
    var w := SetReady(v, p);
    FreshIsUnqueued(w, at);
    BornCore(v, w, at);
  }

  lemma RunningIsUnqueued(s: Sched, r: Ref)
    requires Core(s) && r in s.pcbs && r != s.idle && s.pcbs[r].state.Running?
    ensures !Blocked(s, r) && r !in s.ready
  {
  }

  /** Every step that is legal ends between steps again, or with the system down. */
  lemma StepInv(s: Sched, e: Event)
    requires Inv(s) && Legal(s, e)
    ensures Step(s, e).down || Inv(Step(s, e))
  {
    hide Core, Runs, Vacant, DoCall, SetReady, WakeParent, Kill, Dispatch;
    RunningLives(s);
    match e
    case Tick => TickInv(s);
    case Syscall(c) =>
      CallVacates(s, c);
      DispatchInv(DoCall(s, s.running, c));
    case Fault =>
      DeathCore(s, s.running, 1);
      DispatchInv(Kill(WakeParent(s, s.pcbs[s.running].ppid, 1), s.running));
    case Enter => EnterInv(s);
    case Interrupt => AbortInv(s);
    case Focus(pid) => RefocusInv(s, pid);
  }

  lemma RunningLives(s: Sched)
    requires Inv(s)
    ensures s.running in s.pcbs && !s.down && s.idle in s.pcbs
  {
  }

  lemma TicksCore(s: Sched, ticks: nat)
    requires Inv(s) && ticks < TICKS
    ensures Inv(s.(ticks := ticks))
  {
    PidsKept(s, s.(ticks := ticks));
    hide PidsOk;
  }

  lemma TickInv(s: Sched)
    requires Inv(s)
    ensures Step(s, Tick).down || Inv(Step(s, Tick))
  {
    hide Inv, Core, Vacant, SetReady, Dispatch;
    TicksBounded(s);
    if s.ticks + 1 == TICKS {
      TicksCore(s, 0);
      YieldVacates(s.(ticks := 0));
      DispatchInv(SetReady(s.(ticks := 0), s.running));
    } else {
      TicksCore(s, s.ticks + 1);
    }
  }

  lemma TicksBounded(s: Sched)
    requires Inv(s)
    ensures s.ticks < TICKS && !s.down
  {
  }

  /** The running process joins the queue. */
  lemma YieldVacates(s: Sched)
    requires Inv(s)
    ensures Core(SetReady(s, s.running)) && Vacant(SetReady(s, s.running))
  {
    RunningUnblocked(s);
    SetReadyCore(s, s.running);
    hide Core, SetReady;
    Vacated(s, SetReady(s, s.running));
  }

  lemma RunningUnblocked(s: Sched)
    requires Inv(s)
    ensures !Blocked(s, s.running)
  {
  }

  lemma EnterInv(s: Sched)
    requires Inv(s)
    ensures Inv(WakeKeyboard(s)) && WakeKeyboard(s).running == s.running
  {
    WakeKeyboardCore(s);
    hide Listed, PidsOk, TerminalsOk, WakeKeyboard;
    if WakeKeyboard(s) != s {
      var r := s.onKeyboard[0];
      assert r in s.onKeyboard && s.pcbs[r].state == Waiting && r != s.idle && r != s.running;
    }
  }

  /** The process that Ctrl-C aims at. */
  function Target(s: Sched): Ref
    requires |s.latest| == TERMINALS && 1 <= s.focused <= TERMINALS
  {
    s.latest[s.focused - 1]
  }

  lemma TargetLives(s: Sched)
    requires Inv(s)
    ensures |s.latest| == TERMINALS && 1 <= s.focused <= TERMINALS && Target(s) in s.pcbs && s.running in s.pcbs
    ensures !Spared(s) ==> Target(s) != s.idle
  {
  }

  lemma AbortInv(s: Sched)
    requires Inv(s)
    ensures Abort(s).down || Inv(Abort(s))
  {
    TargetLives(s);
    if !Spared(s) {
      var p := Target(s);
      DeathCore(s, p, 1);
      var t := Kill(WakeParent(s, s.pcbs[p].ppid, 1), p);
      hide Core, Runs, Vacant, Kill, WakeParent, SetReady, Dispatch;
      if s.running != p {
        YieldVacates(t);
        DispatchInv(SetReady(t, s.running));
      } else {
        DispatchInv(t);
      }
    }
  }

  // ---------- runs ----------

  function Run(s: Sched, es: seq<Event>): Sched
    decreases |es|
  {
    if es == [] then s else Run(Step(s, es[0]), es[1..])
  }

  predicate LegalRun(s: Sched, es: seq<Event>)
    decreases |es|
  {
    es == [] || s.down || (Legal(s, es[0]) && LegalRun(Step(s, es[0]), es[1..]))
  }

  /** In every state that can be reached the invariant holds, until the system is down. */
  lemma {:induction false} RunInv(s: Sched, es: seq<Event>)
    requires Inv(s) && LegalRun(s, es)
    ensures Run(s, es).down || Inv(Run(s, es))
    decreases |es|
  {
    if es != [] {
      RunningLives(s);
      StepInv(s, es[0]);
      if Step(s, es[0]).down {
        StaysDown(Step(s, es[0]), es[1..]);
      } else {
        RunInv(Step(s, es[0]), es[1..]);
      }
    }
  }

  lemma {:induction false} StaysDown(s: Sched, es: seq<Event>)
    requires s.down
    ensures Run(s, es) == s
    decreases |es|
  {
    if es != [] {
      StaysDown(s, es[1..]);
    }
  }

  /** No reference dangles: not the running process, not the one a terminal remembers, not one in a queue. */
  lemma NothingDangles(s: Sched, es: seq<Event>)
    requires Inv(s) && LegalRun(s, es) && !Run(s, es).down
    ensures var t := Run(s, es);
      && t.running in t.pcbs && t.idle in t.pcbs
      && (forall i :: 0 <= i < |t.latest| ==> t.latest[i] in t.pcbs)
      && (forall r :: r in t.ready || r in t.onProcess || r in t.onKeyboard || r in t.all ==> r in t.pcbs)
  {
    RunInv(s, es);
    hide PidsOk, Run, LegalRun;
  }

  // ---------- bounded waiting ----------

  /** The steps that end in switch_to_next_process. */
  predicate Switches(s: Sched, e: Event) {
    match e
    case Tick => s.ticks + 1 == TICKS
    case Syscall(_) => true
    case Fault => true
    case Interrupt => !Spared(s)
    case _ => false
  }

  /** p is in the queue, with at most k others before it. */
  ghost predicate Within(q: seq<Ref>, p: Ref, k: int) { exists j :: 0 <= j <= k && j < |q| && q[j] == p }

  lemma WithinAppend(q: seq<Ref>, x: seq<Ref>, p: Ref, k: int)
    requires Within(q, p, k)
    ensures Within(q + x, p, k)
  {
    var j :| 0 <= j <= k && j < |q| && q[j] == p;
    assert (q + x)[j] == p;
  }

  lemma {:induction false} WithinRemove(q: seq<Ref>, r: Ref, p: Ref, k: int)
    requires Within(q, p, k) && r != p
    ensures Within(RemoveFirst(q, r), p, k)
  {
    var j :| 0 <= j <= k && j < |q| && q[j] == p;
    if q[0] == r {
      assert q[1..][j - 1] == p;
    } else if j == 0 {
      assert RemoveFirst(q, r)[0] == p;
    } else {
      assert q[1..][j - 1] == p;
      WithinRemove(q[1..], r, p, k - 1);
      var i :| 0 <= i <= k - 1 && i < |RemoveFirst(q[1..], r)| && RemoveFirst(q[1..], r)[i] == p;
      assert RemoveFirst(q, r)[i + 1] == p;
    }
  }

  lemma WithinReady(s: Sched, r: Ref, p: Ref, k: int)
    requires Within(s.ready, p, k)
    ensures Within(SetReady(s, r).ready, p, k)
  {
    WithinAppend(s.ready, [r], p, k);
  }

  lemma WithinWake(s: Sched, ppid: nat, code: nat, p: Ref, k: int)
    requires Within(s.ready, p, k)
    ensures Within(WakeParent(s, ppid, code).ready, p, k)
  {
    var found := FindPid(s.pcbs, s.onProcess, ppid);
    if found.Some? {
      WithinAppend(s.ready, [found.value], p, k);
    }
  }

  /** A switch takes at least one process off the queue. */
  lemma WithinDispatch(s: Sched, p: Ref, k: int)
    requires Within(s.ready, p, k) && p != s.idle
    ensures var t := Dispatch(s); t.down || t.running == p || Within(t.ready, p, k - 1)
  {
    hide SkipIdle, Within;
    WithinSkip(s.ready, s.idle, p, k);
    WithinTail(SkipIdle(s.ready, s.idle), p, k);
  }

  lemma WithinTail(q: seq<Ref>, p: Ref, k: int)
    requires Within(q, p, k)
    ensures q != [] && (q[0] == p || Within(q[1..], p, k - 1))
  {
    var j :| 0 <= j <= k && j < |q| && q[j] == p;
    if j > 0 {
      assert q[1..][j - 1] == p;
    }
  }

  lemma WithinSkip(q: seq<Ref>, idle: Ref, p: Ref, k: int)
    requires Within(q, p, k) && p != idle
    ensures Within(SkipIdle(q, idle), p, k)
  {
    var j :| 0 <= j <= k && j < |q| && q[j] == p;
    var n := |q| - |SkipIdle(q, idle)|;
    assert j >= n && SkipIdle(q, idle)[j - n] == p;
  }

  lemma WithinCall(s: Sched, c: Call, p: Ref, k: int)
    requires s.running in s.pcbs && Within(s.ready, p, k) && p != s.running
    ensures Within(DoCall(s, s.running, c).ready, p, k)
  {
    hide SetReady, WakeParent, RemoveFirst, Within, FindPid;
    var r := s.running;
    match c
    case Plain(result) => WithinReady(WithResult(s, r, result), r, p, k);
    case Exit(code) =>
      WithinWake(s, s.pcbs[r].ppid, code, p, k);
      WithinRemove(WakeParent(s, s.pcbs[r].ppid, code).ready, r, p, k);
    case ReadLine =>
    case Exec(found, at) =>
      WithinReady(s, r, p, k);
      var t := WithResult(SetReady(s, r), r, 0);
      if found {
        WithinReady(WithResult(Spawn(t, at, s.pcbs[r].pid, s.pcbs[r].shell), r, LeastPid(s.pids, 0)), at, p, k);
      }
    case Fork(at) =>
      var t := WithResult(WithResult(Spawn(s, at, s.pcbs[r].pid, s.pcbs[r].shell), r, 1), at, 0);
      WithinReady(t, r, p, k);
      WithinReady(SetReady(t, r), at, p, k);
    case Wait(pid) => WithinReady(WithResult(s, r, 1), r, p, k);
    case Unknown => WithinRemove(s.ready, r, p, k);
  }

  /** In one step a process that is ready comes no later, and if the step switches, it comes one sooner,
      unless it is killed, or the system goes down, or it runs. */
  lemma Advance(s: Sched, e: Event, p: Ref, k: int)
    requires Inv(s) && Legal(s, e) && Within(s.ready, p, k) && p != s.idle
    ensures var t := Step(s, e);
      t.down || p !in t.pcbs || t.running == p || Within(t.ready, p, if Switches(s, e) then k - 1 else k)
  {
    ReadyIsNotRunning(s, p, k);
    RunningLives(s);
    hide Inv, SetReady, WakeParent, Kill, Within, Dispatch, DoCall, Legal;
    match e
    case Tick =>
      if s.ticks + 1 == TICKS {
        WithinReady(s.(ticks := 0), s.running, p, k);
        WithinDispatch(SetReady(s.(ticks := 0), s.running), p, k);
      }
    case Syscall(c) =>
      WithinCall(s, c, p, k);
      CallKeepsIdle(s, c);
      WithinDispatch(DoCall(s, s.running, c), p, k);
    case Fault =>
      WithinDeath(s, s.running, p, k);
      WithinDispatch(Kill(WakeParent(s, s.pcbs[s.running].ppid, 1), s.running), p, k);
    case Enter => WithinEnter(s, p, k);
    case Interrupt => WithinAbort(s, p, k);
    case Focus(pid) =>
  }

  lemma ReadyIsNotRunning(s: Sched, p: Ref, k: int)
    requires Inv(s) && Within(s.ready, p, k) && p != s.idle
    ensures p != s.running && p in s.pcbs
  {
    assert p in s.ready;
  }

  lemma CallKeepsIdle(s: Sched, c: Call)
    requires s.running in s.pcbs
    ensures DoCall(s, s.running, c).idle == s.idle
  {
  }

  lemma WithinDeath(s: Sched, r: Ref, p: Ref, k: int)
    requires r in s.pcbs && Within(s.ready, p, k) && p != r
    ensures var t := Kill(WakeParent(s, s.pcbs[r].ppid, 1), r); Within(t.ready, p, k) && t.idle == s.idle
  {
    WithinWake(s, s.pcbs[r].ppid, 1, p, k);
    WithinRemove(WakeParent(s, s.pcbs[r].ppid, 1).ready, r, p, k);
    hide Within, RemoveFirst, FindPid;
  }

  lemma WithinEnter(s: Sched, p: Ref, k: int)
    requires Within(s.ready, p, k)
    ensures Within(WakeKeyboard(s).ready, p, k)
  {
    if s.onKeyboard != [] {
      WithinAppend(s.ready, [s.onKeyboard[0]], p, k);
    }
  }

  lemma WithinAbort(s: Sched, p: Ref, k: int)
    requires Inv(s) && Within(s.ready, p, k) && p != s.idle
    ensures var t := Abort(s);
      t.down || p !in t.pcbs || t.running == p || Within(t.ready, p, if Spared(s) then k else k - 1)
  {
    TargetLives(s);
    hide Inv, SetReady, WakeParent, Within, Dispatch;
    if !Spared(s) {
      var r := Target(s);
      var t := Kill(WakeParent(s, s.pcbs[r].ppid, 1), r);
      if r == p {
        KilledIsGone(s, r);
      } else {
        WithinDeath(s, r, p, k);
        hide Kill;
        WithinReady(t, s.running, p, k);
        ReadyKeepsIdle(t, s.running);
        WithinDispatch(SetReady(t, s.running), p, k);
        WithinDispatch(t, p, k);
      }
    }
  }

  lemma ReadyKeepsIdle(s: Sched, r: Ref)
    ensures SetReady(s, r).idle == s.idle
  {
  }

  lemma KilledIsGone(s: Sched, r: Ref)
    requires r in s.pcbs
    ensures var t := Kill(WakeParent(s, s.pcbs[r].ppid, 1), r);
      r !in Dispatch(t).pcbs && r !in Dispatch(SetReady(t, s.running)).pcbs
  {
    hide WakeParent, RemoveFirst, Dispatch;
    WakeKeepsKeys(s, s.pcbs[r].ppid, 1);
    var t := Kill(WakeParent(s, s.pcbs[r].ppid, 1), r);
    assert r !in t.pcbs;
    DispatchKeepsKeys(t);
    DispatchKeepsKeys(SetReady(t, s.running));
  }

  lemma WakeKeepsKeys(s: Sched, ppid: nat, code: nat)
    ensures WakeParent(s, ppid, code).pcbs.Keys == s.pcbs.Keys && WakeParent(s, ppid, code).idle == s.idle
  {
    hide FindPid, RemoveFirst;
  }

  lemma DispatchKeepsKeys(s: Sched)
    ensures Dispatch(s).pcbs.Keys == s.pcbs.Keys && Dispatch(s).idle == s.idle
  {
    hide SkipIdle;
  }

  function CountSwitches(s: Sched, es: seq<Event>): nat
    decreases |es|
  {
    if es == [] then 0 else (if Switches(s, es[0]) then 1 else 0) + CountSwitches(Step(s, es[0]), es[1..])
  }

  /** After i steps of the run, p runs, or it has been killed, or the system is down. */
  ghost predicate Served(s: Sched, es: seq<Event>, p: Ref, i: int)
    requires 0 <= i <= |es|
  {
    var t := Run(s, es[..i]);
    t.down || p !in t.pcbs || t.running == p
  }

  /** A process with k others before it runs by the (k+1)-th switch at the latest, whatever happens in
      between, unless it is killed or the system goes down. */
  lemma {:induction false} BoundedWaiting(s: Sched, es: seq<Event>, p: Ref, k: int) returns (i: nat)
    requires Inv(s) && LegalRun(s, es) && Within(s.ready, p, k) && p != s.idle && CountSwitches(s, es) > k
    ensures i <= |es| && Served(s, es, p, i)
    decreases |es|
  {
    RunningLives(s);
    Advance(s, es[0], p, k);
    var t := Step(s, es[0]);
    assert es[..1][1..] == [];
    if t.down || p !in t.pcbs || t.running == p {
      i := 1;
    } else {
      StepInv(s, es[0]);
      StepKeepsIdle(s, es[0]);
      var j := BoundedWaiting(t, es[1..], p, if Switches(s, es[0]) then k - 1 else k);
      i := j + 1;
      assert es[..i][0] == es[0] && es[..i][1..] == es[1..][..j];
    }
  }

  lemma StepKeepsIdle(s: Sched, e: Event)
    ensures Step(s, e).idle == s.idle
  {
    hide Dispatch, DoCall, Kill, WakeParent, SetReady, Abort, WakeKeyboard;
    match e
    case Tick =>
      ReadyKeepsIdle(s.(ticks := 0), s.running);
      DispatchKeepsKeys(SetReady(s.(ticks := 0), s.running));
    case Syscall(c) =>
      if s.running in s.pcbs {
        CallKeepsIdle(s, c);
        DispatchKeepsKeys(DoCall(s, s.running, c));
      }
    case Fault =>
      if s.running in s.pcbs {
        DeathKeepsIdle(s, s.running);
        DispatchKeepsKeys(Kill(WakeParent(s, s.pcbs[s.running].ppid, 1), s.running));
      }
    case Enter => EnterKeepsIdle(s);
    case Interrupt => AbortKeepsIdle(s);
    case Focus(pid) =>
  }

  lemma DeathKeepsIdle(s: Sched, r: Ref)
    requires r in s.pcbs
    ensures Kill(WakeParent(s, s.pcbs[r].ppid, 1), r).idle == s.idle
  {
    hide WakeParent;
    WakeKeepsKeys(s, s.pcbs[r].ppid, 1);
  }

  lemma EnterKeepsIdle(s: Sched)
    ensures WakeKeyboard(s).idle == s.idle
  {
  }

  lemma AbortKeepsIdle(s: Sched)
    ensures Abort(s).idle == s.idle
  {
    hide Dispatch, Kill, WakeParent, SetReady;
    var i := s.focused as int - 1;
    if 0 <= i < |s.latest| && s.latest[i] in s.pcbs {
      var p := s.latest[i];
      DeathKeepsIdle(s, p);
      var t := Kill(WakeParent(s, s.pcbs[p].ppid, 1), p);
      ReadyKeepsIdle(t, s.running);
      DispatchKeepsKeys(t);
      DispatchKeepsKeys(SetReady(t, s.running));
    }
  }

  // ---------- shutting down, and waiting for a child ----------

  /** The system goes down in a step if and only if the step switches and leaves the idle process alone. */
  lemma DownExactly(s: Sched, e: Event)
    requires Inv(s) && Legal(s, e)
    ensures Step(s, e).down <==> Switches(s, e) && Step(s, e).pcbs.Keys == {s.idle}
  {
    hide Core, Runs, Vacant, DoCall, SetReady, WakeParent, Kill, Dispatch, Spared, WakeKeyboard, Refocus;
    RunningLives(s);
    match e
    case Tick =>
      if s.ticks + 1 == TICKS {
        TicksCore(s, 0);
        YieldVacates(s.(ticks := 0));
        DownAt(SetReady(s.(ticks := 0), s.running), s);
        ReadyKeepsIdle(s.(ticks := 0), s.running);
      }
    case Syscall(c) =>
      CallVacates(s, c);
      DownAt(DoCall(s, s.running, c), s);
    case Fault =>
      DeathCore(s, s.running, 1);
      DownAt(Kill(WakeParent(s, s.pcbs[s.running].ppid, 1), s.running), s);
    case Enter => EnterInv(s); RunningLives(WakeKeyboard(s));
    case Interrupt => AbortDown(s);
    case Focus(pid) => RefocusInv(s, pid); RunningLives(Refocus(s, pid));
  }

  lemma DownAt(t: Sched, s: Sched)
    requires Core(t) && Vacant(t)
    ensures Dispatch(t).down <==> Dispatch(t).pcbs.Keys == {t.idle}
  {
    DispatchInv(t);
    DispatchKeepsKeys(t);
  }

  lemma AbortDown(s: Sched)
    requires Inv(s)
    ensures Abort(s).down <==> !Spared(s) && Abort(s).pcbs.Keys == {s.idle}
  {
    TargetLives(s);
    RunningLives(s);
    if !Spared(s) {
      var p := Target(s);
      DeathCore(s, p, 1);
      var t := Kill(WakeParent(s, s.pcbs[p].ppid, 1), p);
      hide Core, Runs, Vacant, Kill, WakeParent, SetReady, Dispatch;
      if s.running != p {
        YieldVacates(t);
        ReadyKeepsIdle(t, s.running);
        DownAt(SetReady(t, s.running), s);
      } else {
        DownAt(t, s);
      }
    }
  }

  /** When a process exits, the process with its parent's pid, if it waits, gets the exit code and is ready
      or running: the child it waited for plays no part. */
  lemma ExitWakesParent(s: Sched, code: nat, q: Ref)
    requires Inv(s) && s.running != s.idle && q in s.onProcess && s.pcbs[q].pid == s.pcbs[s.running].ppid
    ensures var t := Step(s, Syscall(Exit(code)));
      && !t.down && q in t.pcbs && t.pcbs[q].eax == code && (t.running == q || q in t.ready)
  {
    hide Inv, Core, Kill, WakeParent, Vacant, RemoveFirst, Dispatch, Within;
    WaiterFacts(s, q);
    var u := DoCall(s, s.running, Exit(code));
    ExitReadies(s, code, q);
    CallVacates(s, Exit(code));
    DispatchInv(u);
    WithinDispatch(u, q, |s.ready|);
    DispatchKeepsEax(u, q);
    WithinMeans(Dispatch(u).ready, q, |s.ready| - 1);
  }

  lemma WithinMeans(q: seq<Ref>, p: Ref, k: int)
    ensures Within(q, p, k) ==> p in q
  {
  }

  lemma ExitReadies(s: Sched, code: nat, q: Ref)
    requires Inv(s) && s.running != s.idle && q in s.onProcess && s.pcbs[q].pid == s.pcbs[s.running].ppid
    requires s.running in s.pcbs
    ensures var u := DoCall(s, s.running, Exit(code));
      q in u.pcbs && u.pcbs[q].eax == code && Within(u.ready, q, |s.ready|) && q != u.idle
  {
    hide Listed, PidsOk, TerminalsOk, Within, RemoveFirst, NoDup;
    var p := s.running;
    var ppid := s.pcbs[p].ppid;
    var t := WakeParent(s, ppid, code);
    FoundIs(s, ppid, q);
    WaiterFacts(s, q);
    WakeParentMeans(s, ppid, code);
    hide FindPid, WakeParent;
    AtEnd(s.ready, q);
    WithinRemove(t.ready, p, q, |s.ready|);
  }

  lemma AtEnd(q: seq<Ref>, r: Ref)
    ensures Within(q + [r], r, |q|)
  {
    assert (q + [r])[|q|] == r;
  }

  lemma DispatchKeepsEax(s: Sched, q: Ref)
    requires q in s.pcbs
    ensures q in Dispatch(s).pcbs && Dispatch(s).pcbs[q].eax == s.pcbs[q].eax
  {
    hide SkipIdle;
  }

  lemma WaiterFacts(s: Sched, q: Ref)
    requires Inv(s) && q in s.onProcess
    ensures q in s.pcbs && q != s.idle && q != s.running && s.running in s.pcbs && !s.down
  {
  }

  /** Pids tell processes apart. */
  lemma FoundIs(s: Sched, pid: nat, q: Ref)
    requires Inv(s) && q in s.onProcess && s.pcbs[q].pid == pid
    ensures FindPid(s.pcbs, s.onProcess, pid) == Some(q)
  {
    FindPidMeans(s.pcbs, s.onProcess, pid);
  }

  // ---------- boot ----------

  /** The idle process, and a shell for every terminal; the first shell is the last to be made ready. */
  function BootQueues(idle: Ref, a: Ref, b: Ref, c: Ref, d: Ref): Sched {
    var s0 := WithState(Spawn(Nothing(idle), idle, 0, 0), idle, Waiting);
    var s1 := Spawn(s0, a, 0, 1);
    var s2 := SetReady(Spawn(s1, b, 0, 2), b);
    var s3 := SetReady(Spawn(s2, c, 0, 3), c);
    var s4 := SetReady(Spawn(s3, d, 0, 4), d);
    SetReady(s4, a)
  }

  /** init_process_scheduler: every terminal remembers its shell. */
  function Boot(idle: Ref, a: Ref, b: Ref, c: Ref, d: Ref): Sched {
    BootQueues(idle, a, b, c, d).(latest := [a, b, c, d])
  }

  lemma NothingIsTaken(pids: seq<bool>, n: nat)
    requires n < |pids| && !pids[n] && forall i :: 0 <= i < n ==> pids[i]
    ensures LeastPid(pids, 0) == n
  {
  }

  /** The first control block. */
  lemma IdleCore(idle: Ref)
    ensures var s := WithState(Spawn(Nothing(idle), idle, 0, 0), idle, Waiting);
      && Core(s) && s.pcbs == map[idle := Pcb(0, 0, 0, Waiting, 0)] && s.pids == seq(MAX_PIDS, i => i < 1)
      && s.running == s.idle == idle && s.ready == []
  {
    NothingIsTaken(Nothing(idle).pids, 0);
    var s := WithState(Spawn(Nothing(idle), idle, 0, 0), idle, Waiting);
    assert s.pids == seq(MAX_PIDS, i => i < 1);
    assert s.all == [idle];
    forall i | 0 <= i < MAX_PIDS && s.pids[i] ensures HasPid(s, i) {
      assert idle in s.pcbs && s.pcbs[idle].pid == i;
    }
  }

  /** The shell of a terminal gets the pid that is the terminal's number. */
  lemma ShellCore(s: Sched, at: Ref, n: nat)
    requires Core(s) && at !in s.pcbs && 1 <= n <= TERMINALS && s.pids == seq(MAX_PIDS, i => i < n)
    ensures var t := Spawn(s, at, 0, n);
      && Core(t) && t.pids == seq(MAX_PIDS, i => i < n + 1) && t.pcbs == s.pcbs[at := Pcb(n, 0, n, Fresh, 0)]
      && !Blocked(t, at) && at !in t.ready && t.running == s.running && t.idle == s.idle
      && t.ready == s.ready && t.onProcess == s.onProcess && t.onKeyboard == s.onKeyboard
  {
    NothingIsTaken(s.pids, n);
    SpawnCore(s, at, 0, n);
    assert seq(MAX_PIDS, i => i < n)[n := true] == seq(MAX_PIDS, i => i < n + 1);
  }

  /** A shell that was made joins the queue. */
  lemma ShellReady(s: Sched, at: Ref, n: nat)
    requires Core(s) && at in s.pcbs && at != s.idle && s.pcbs[at] == Pcb(n, 0, n, Fresh, 0)
    ensures var t := SetReady(s, at);
      && Core(t) && t.pids == s.pids && t.pcbs == s.pcbs[at := Pcb(n, 0, n, Ready, 0)]
      && t.running == s.running && t.idle == s.idle
      && t.ready == s.ready + [at] && t.onProcess == s.onProcess && t.onKeyboard == s.onKeyboard
  {
    FreshIsUnqueued(s, at);
    SetReadyCore(s, at);
    hide Core;
  }

  /** A shell is made and joins the queue at once. */
  lemma ShellMade(s: Sched, at: Ref, n: nat)
    requires Core(s) && at !in s.pcbs && 1 <= n <= TERMINALS && s.pids == seq(MAX_PIDS, i => i < n)
    ensures var t := SetReady(Spawn(s, at, 0, n), at);
      && Core(t) && t.pids == seq(MAX_PIDS, i => i < n + 1) && t.pcbs == s.pcbs[at := Pcb(n, 0, n, Ready, 0)]
      && t.running == s.running && t.idle == s.idle && t.ready == s.ready + [at]
  {
    IdleKnown(s);
    hide Core, SetReady, Spawn;
    ShellCore(s, at, n);
    ShellReady(Spawn(s, at, 0, n), at, n);
  }

  lemma IdleKnown(s: Sched)
    requires Core(s)
    ensures s.idle in s.pcbs
  {
  }

  predicate Distinct(idle: Ref, a: Ref, b: Ref, c: Ref, d: Ref) {
    && idle != a && idle != b && idle != c && idle != d
    && a != b && a != c && a != d && b != c && b != d && c != d
  }

  predicate ShellAt(s: Sched, r: Ref, n: nat) { r in s.pcbs && s.pcbs[r] == Pcb(n, 0, n, Ready, 0) }

  ghost predicate ReadyBut(s: Sched, a: Ref) {
    forall r :: r in s.pcbs && r != s.idle && r != a ==> s.pcbs[r].state.Ready?
  }

  lemma BootTwo(idle: Ref, a: Ref, b: Ref)
    requires idle != a && idle != b && a != b
    ensures var s := SetReady(Spawn(Spawn(WithState(Spawn(Nothing(idle), idle, 0, 0), idle, Waiting), a, 0, 1), b,
        0, 2), b);
      && Core(s) && s.running == s.idle == idle && s.ready == [b] && s.pids == seq(MAX_PIDS, i => i < 3)
      && s.pcbs == map[idle := Pcb(0, 0, 0, Waiting, 0), a := Pcb(1, 0, 1, Fresh, 0), b := Pcb(2, 0, 2, Ready, 0)]
  {
    IdleCore(idle);
    var s0 := WithState(Spawn(Nothing(idle), idle, 0, 0), idle, Waiting);
    hide Core, Spawn, SetReady, WithState;
    ShellCore(s0, a, 1);
    var s1 := Spawn(s0, a, 0, 1);
    ShellMade(s1, b, 2);
  }

  lemma BootFour(s: Sched, a: Ref, c: Ref, d: Ref)
    requires Core(s) && s.pids == seq(MAX_PIDS, i => i < 3) && c !in s.pcbs && d !in s.pcbs && c != d
    requires a in s.pcbs && a != s.idle && s.pcbs[a] == Pcb(1, 0, 1, Fresh, 0) && ReadyBut(s, a)
    ensures var t := SetReady(SetReady(Spawn(SetReady(Spawn(s, c, 0, 3), c), d, 0, 4), d), a);
      && Core(t) && t.running == s.running && t.idle == s.idle && t.ready == s.ready + [c] + [d] + [a]
      && ReadyBut(t, s.idle) && ShellAt(t, a, 1) && ShellAt(t, c, 3) && ShellAt(t, d, 4)
      && forall b :: b != a && ShellAt(s, b, 2) ==> ShellAt(t, b, 2)
  {
    hide Core, Spawn, SetReady;
    ShellMade(s, c, 3);
    var s3 := SetReady(Spawn(s, c, 0, 3), c);
    ShellMade(s3, d, 4);
    var s4 := SetReady(Spawn(s3, d, 0, 4), d);
    ShellReady(s4, a, 1);
  }

  lemma BootSteps(idle: Ref, a: Ref, b: Ref, c: Ref, d: Ref)
    requires Distinct(idle, a, b, c, d)
    ensures var s := BootQueues(idle, a, b, c, d);
      && Core(s) && s.running == s.idle == idle && s.ready == [b] + [c] + [d] + [a]
      && ReadyBut(s, idle) && ShellAt(s, a, 1) && ShellAt(s, b, 2) && ShellAt(s, c, 3) && ShellAt(s, d, 4)
  {
    hide Core, Spawn, SetReady, WithState, ReadyBut, ShellAt;
    BootTwo(idle, a, b);
    var s2 := SetReady(Spawn(Spawn(WithState(Spawn(Nothing(idle), idle, 0, 0), idle, Waiting), a, 0, 1), b, 0, 2), b);
    TwoShells(s2, idle, a, b);
    BootFour(s2, a, c, d);
  }

  lemma TwoShells(s: Sched, idle: Ref, a: Ref, b: Ref)
    requires idle != a && idle != b && a != b && s.idle == idle
    requires s.pcbs == map[idle := Pcb(0, 0, 0, Waiting, 0), a := Pcb(1, 0, 1, Fresh, 0), b := Pcb(2, 0, 2, Ready, 0)]
    ensures ReadyBut(s, a) && ShellAt(s, b, 2) && forall r :: r in s.pcbs <==> r == idle || r == a || r == b
    ensures s.pcbs[a] == Pcb(1, 0, 1, Fresh, 0)
  {
  }

  /** The system starts between two steps, with the idle process running. */
  lemma BootInv(idle: Ref, a: Ref, b: Ref, c: Ref, d: Ref)
    requires Distinct(idle, a, b, c, d)
    ensures Inv(Boot(idle, a, b, c, d)) && Boot(idle, a, b, c, d).ready == [b, c, d, a]
  {
    hide BootQueues;
    BootSteps(idle, a, b, c, d);
    assert [b] + [c] + [d] + [a] == [b, c, d, a];
    Remember(BootQueues(idle, a, b, c, d), a, b, c, d);
  }

  lemma Remember(s: Sched, a: Ref, b: Ref, c: Ref, d: Ref)
    requires Core(s) && s.running == s.idle && ReadyBut(s, s.idle)
    requires ShellAt(s, a, 1) && ShellAt(s, b, 2) && ShellAt(s, c, 3) && ShellAt(s, d, 4)
    ensures Inv(s.(latest := [a, b, c, d]))
  {
    PidsKept(s, s.(latest := [a, b, c, d]));
    hide PidsOk, NoDup;
  }
}
