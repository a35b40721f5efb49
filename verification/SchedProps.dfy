/** Every step of the scheduler keeps its invariant. */
module SchedProps {
  import opened Lists
  import opened SchedSpec

  // ---------- sequences without repetition ----------

  lemma NoDupTail(q: seq<Ref>)
    requires NoDup(q) && q != []
    ensures NoDup(q[1..]) && forall r :: r in q[1..] <==> r in q && r != q[0]
  {
    assert q == [q[0]] + q[1..];
    forall r | r in q[1..] ensures r != q[0] {
      var i :| 0 <= i < |q[1..]| && q[1..][i] == r;
      assert q[i + 1] == r;
    }
  }

  lemma NoDupCons(x: Ref, q: seq<Ref>)
    requires NoDup(q) && x !in q
    ensures NoDup([x] + q) && forall r :: r in [x] + q <==> r == x || r in q
  {
  }

  lemma {:induction false} RemoveFirstMembers(q: seq<Ref>, x: Ref)
    requires NoDup(q)
    ensures NoDup(RemoveFirst(q, x)) && forall r :: r in RemoveFirst(q, x) <==> r in q && r != x
  {
    if q != [] {
      NoDupTail(q);
      if q[0] != x {
        RemoveFirstMembers(q[1..], x);
        NoDupCons(q[0], RemoveFirst(q[1..], x));
      }
    }
  }

  lemma {:induction false} FilterMembers(p: Ref -> bool, q: seq<Ref>)
    requires NoDup(q)
    ensures NoDup(Filter(p, q)) && forall r :: r in Filter(p, q) <==> r in q && p(r)
  {
    if q != [] {
      assert q == [q[0]] + q[1..];
      FilterMembers(p, q[1..]);
    }
  }

  lemma PartitionedMembers(p: Ref -> bool, q: seq<Ref>)
    requires NoDup(q)
    ensures NoDup(Partitioned(p, q)) && forall r :: r in Partitioned(p, q) <==> r in q
  {
    FilterMembers(p, q);
    FilterMembers(Not(p), q);
  }

  lemma {:induction false} FindPidMeans(pcbs: map<Ref, Pcb>, q: seq<Ref>, pid: nat)
    ensures FindPid(pcbs, q, pid).Some? ==>
      var r := FindPid(pcbs, q, pid).value; r in q && r in pcbs && pcbs[r].pid == pid
    ensures FindPid(pcbs, q, pid).None? ==> forall r :: r in q && r in pcbs ==> pcbs[r].pid != pid
  {
    if q != [] {
      FindPidMeans(pcbs, q[1..], pid);
    }
  }

  // ---------- the parts of a step ----------

  /** Nothing differs but the state of r, and perhaps its result. */
  ghost predicate SameBut(s: Sched, t: Sched, r: Ref) {
    && t.pcbs.Keys == s.pcbs.Keys
    && (forall q :: q in s.pcbs && q != r ==> t.pcbs[q] == s.pcbs[q])
    && (r in s.pcbs ==> SameKin(s.pcbs[r], t.pcbs[r]))
    && t.(pcbs := s.pcbs, ready := s.ready, onProcess := s.onProcess, onKeyboard := s.onKeyboard) == s
  }

  predicate SameKin(a: Pcb, b: Pcb) { b.(state := a.state, eax := a.eax) == a }

  /** Lists of processes, pids and terminals do not depend on states and queues. */
  lemma KinKept(s: Sched, t: Sched, r: Ref)
    requires SameBut(s, t, r) && Listed(s) && PidsOk(s) && TerminalsOk(s)
    ensures Listed(t) && PidsOk(t) && TerminalsOk(t)
  {
    forall q | q in s.pcbs ensures q in t.pcbs && SameKin(s.pcbs[q], t.pcbs[q]) {
    }
    forall i | 0 <= i < MAX_PIDS && t.pids[i] ensures HasPid(t, i) {
      assert HasPid(s, i);
      var q :| q in s.pcbs && s.pcbs[q].pid == i;
      assert q in t.pcbs && t.pcbs[q].pid == i;
    }
  }

  lemma SetReadyCore(s: Sched, r: Ref)
    requires Core(s) && r in s.pcbs && !Blocked(s, r)
    ensures Core(SetReady(s, r)) && SameBut(s, SetReady(s, r), r)
    ensures r in SetReady(s, r).ready && (r != s.idle ==> SetReady(s, r).pcbs[r].state.Ready?)
  {
    hide Listed, PidsOk, TerminalsOk, NoDup;
    var t := SetReady(s, r);
    if r !in s.ready {
      KinKept(s, t, r);
      NoDupSnoc(s.ready, r);
      assert QueuesOk(t);
    }
  }

  lemma NoDupSnoc(q: seq<Ref>, r: Ref)
    requires NoDup(q) && r !in q
    ensures NoDup(q + [r]) && NoDup([r] + q)
  {
  }

  lemma WithResultCore(s: Sched, r: Ref, eax: nat)
    requires Core(s)
    ensures Core(WithResult(s, r, eax)) && SameBut(s, WithResult(s, r, eax), r)
    ensures forall q :: q in s.pcbs ==> WithResult(s, r, eax).pcbs[q].state == s.pcbs[q].state
  {
    hide Listed, PidsOk, TerminalsOk, NoDup;
    var t := WithResult(s, r, eax);
    assert SameBut(s, t, r);
    KinKept(s, t, r);
    assert QueuesOk(t);
  }

  /** A process leaves the queue it waited in and is ready. */
  lemma Woken(s: Sched, t: Sched, r: Ref)
    requires Core(s) && Blocked(s, r) && SameBut(s, t, r) && t.pcbs[r].state == Ready && t.ready == s.ready + [r]
    requires NoDup(t.onProcess) && forall q :: q in t.onProcess <==> q in s.onProcess && q != r
    requires NoDup(t.onKeyboard) && forall q :: q in t.onKeyboard <==> q in s.onKeyboard && q != r
    ensures Core(t)
  {
    hide Listed, PidsOk, TerminalsOk, NoDup;
    KinKept(s, t, r);
    NoDupSnoc(s.ready, r);
  }

  /** A process that waited for another one is ready, and has the exit code; or nothing happens. */
  lemma WakeParentCore(s: Sched, ppid: nat, code: nat)
    requires Core(s)
    ensures var t, found := WakeParent(s, ppid, code), FindPid(s.pcbs, s.onProcess, ppid);
      if found.None? then t == s else WokenWith(s, t, found.value, ppid, code)
  {
    FindPidMeans(s.pcbs, s.onProcess, ppid);
    var found := FindPid(s.pcbs, s.onProcess, ppid);
    if found.Some? {
      var r, t := found.value, WakeParent(s, ppid, code);
      RemoveFirstMembers(s.onProcess, r);
      WakeParentMeans(s, ppid, code);
      hide WakeParent, FindPid, RemoveFirst, Listed, PidsOk, TerminalsOk, NoDup, QueuesOk;
      assert SameBut(s, t, r);
      Woken(s, t, r);
    }
  }

  ghost predicate WokenWith(s: Sched, t: Sched, r: Ref, ppid: nat, code: nat) {
    && r in s.onProcess && r in s.pcbs && s.pcbs[r].pid == ppid && Core(t) && SameBut(s, t, r)
    && t.pcbs[r] == s.pcbs[r].(state := Ready, eax := code)
    && t.ready == s.ready + [r]
  }

  lemma WakeParentMeans(s: Sched, ppid: nat, code: nat)
    requires QueuesOk(s) && FindPid(s.pcbs, s.onProcess, ppid).Some?
    ensures var r := FindPid(s.pcbs, s.onProcess, ppid).value;
      && r in s.pcbs && r in s.onProcess && r !in s.onKeyboard
      && WakeParent(s, ppid, code) ==
        s.(onProcess := RemoveFirst(s.onProcess, r), ready := s.ready + [r],
          pcbs := s.pcbs[r := s.pcbs[r].(state := Ready, eax := code)])
  {
    FindPidMeans(s.pcbs, s.onProcess, ppid);
    var r := FindPid(s.pcbs, s.onProcess, ppid).value;
    hide RemoveFirst, NoDup;
    assert r !in s.onKeyboard && s.pcbs[r].state == Waiting && r !in s.ready;
    var t := s.(onProcess := RemoveFirst(s.onProcess, r));
    var u := WithResult(t, r, code);
    assert u.pcbs[r := u.pcbs[r].(state := Ready)] == s.pcbs[r := s.pcbs[r].(state := Ready, eax := code)];
  }

  lemma WakeKeyboardCore(s: Sched)
    requires Core(s)
    ensures WakeKeyboard(s) == s || (
      && s.onKeyboard != [] && Core(WakeKeyboard(s)) && SameBut(s, WakeKeyboard(s), s.onKeyboard[0])
      && WakeKeyboard(s).pcbs[s.onKeyboard[0]] == s.pcbs[s.onKeyboard[0]].(state := Ready)
      && WakeKeyboard(s).ready == s.ready + [s.onKeyboard[0]])
  {
    if s.onKeyboard != [] {
      hide Listed, PidsOk, TerminalsOk, NoDup;
      var r := s.onKeyboard[0];
      assert r in s.onKeyboard;
      assert RemoveFirst(s.onKeyboard, r) == s.onKeyboard[1..];
      RemoveFirstMembers(s.onKeyboard, r);
      var t := WakeKeyboard(s);
      if t != s {
        assert r !in s.ready && r !in s.onProcess;
        assert SameBut(s, t, r);
        Woken(s, t, r);
      }
    }
  }

  lemma KillCore(s: Sched, r: Ref)
    requires Core(s) && r in s.pcbs && r != s.idle
    ensures var t := Kill(s, r);
      && Core(t) && t.pcbs == s.pcbs - {r} && t.running == s.running && t.idle == s.idle
      && t.ready == RemoveFirst(s.ready, r)
  {
    KillQueues(s, r);
    KillPids(s, r);
    KillListed(s, r);
    KillTerminals(s, r);
    hide PidsOk, QueuesOk, RemoveFirst, Listed, TerminalsOk;
  }

  lemma KillListed(s: Sched, r: Ref)
    requires Listed(s) && r in s.pcbs && r != s.idle
    ensures Listed(Kill(s, r))
  {
    RemoveFirstMembers(s.all, r);
    hide RemoveFirst, NoDup;
  }

  lemma KillTerminals(s: Sched, r: Ref)
    requires TerminalsOk(s) && r in s.pcbs && r != s.idle
    ensures TerminalsOk(Kill(s, r))
  {
    hide RemoveFirst;
  }

  lemma KillQueues(s: Sched, r: Ref)
    requires QueuesOk(s) && r in s.pcbs && r != s.idle
    ensures QueuesOk(Kill(s, r))
  {
    hide NoDup, RemoveFirst;
    RemoveFirstMembers(s.ready, r);
    RemoveFirstMembers(s.onProcess, r);
    RemoveFirstMembers(s.onKeyboard, r);
  }

  lemma KillPids(s: Sched, r: Ref)
    requires PidsOk(s) && r in s.pcbs
    ensures PidsOk(Kill(s, r))
  {
    hide RemoveFirst;
    var t := Kill(s, r);
    forall i | 0 <= i < MAX_PIDS && t.pids[i] ensures HasPid(t, i) {
      assert HasPid(s, i);
      var q :| q in s.pcbs && s.pcbs[q].pid == i;
      assert q in t.pcbs && t.pcbs[q].pid == i;
    }
  }

  lemma SpawnCore(s: Sched, at: Ref, ppid: nat, shell: nat)
    requires Core(s) && at !in s.pcbs && LeastPid(s.pids, 0) < |s.pids| && 1 <= shell <= TERMINALS
    ensures var t := Spawn(s, at, ppid, shell);
      && Core(t) && t.pcbs == s.pcbs[at := Pcb(LeastPid(s.pids, 0), ppid, shell, Fresh, 0)]
      && !Blocked(t, at) && at !in t.ready
      && t.running == s.running && t.idle == s.idle && t.ready == s.ready
  {
    SpawnPids(s, at, ppid, shell);
    hide PidsOk, NoDup;
    var t := Spawn(s, at, ppid, shell);
    NoDupSnoc(s.all, at);
  }

  lemma SpawnPids(s: Sched, at: Ref, ppid: nat, shell: nat)
    requires PidsOk(s) && at !in s.pcbs && LeastPid(s.pids, 0) < |s.pids|
    ensures PidsOk(Spawn(s, at, ppid, shell))
  {
    var t := Spawn(s, at, ppid, shell);
    var pid := LeastPid(s.pids, 0);
    forall i | 0 <= i < MAX_PIDS && t.pids[i] ensures HasPid(t, i) {
      if i == pid {
        assert at in t.pcbs && t.pcbs[at].pid == i;
      } else {
        assert HasPid(s, i);
        var q :| q in s.pcbs && s.pcbs[q].pid == i;
        assert q in t.pcbs && t.pcbs[q].pid == i;
      }
    }
  }

  lemma BlockCore(s: Sched, r: Ref, keyboard: bool)
    requires Core(s) && r in s.pcbs && r != s.idle && s.pcbs[r].state.Running?
    ensures var t := WithState(s, r, Waiting);
      var u := if keyboard then t.(onKeyboard := [r] + s.onKeyboard) else t.(onProcess := s.onProcess + [r]);
      Core(u) && SameBut(s, u, r) && u.pcbs[r].state.Waiting?
  {
    hide Listed, PidsOk, TerminalsOk, NoDup;
    var t := WithState(s, r, Waiting);
    var u := if keyboard then t.(onKeyboard := [r] + s.onKeyboard) else t.(onProcess := s.onProcess + [r]);
    assert SameBut(s, u, r);
    KinKept(s, u, r);
    NoDupSnoc(s.onKeyboard, r);
    NoDupSnoc(s.onProcess, r);
    assert QueuesOk(u);
  }

  /** Pids do not depend on anything but the processes. */
  lemma PidsKept(s: Sched, t: Sched)
    requires PidsOk(s) && t.pids == s.pids && t.pcbs == s.pcbs
    ensures PidsOk(t)
  {
    forall i | 0 <= i < MAX_PIDS && t.pids[i] ensures HasPid(t, i) {
      assert HasPid(s, i);
    }
  }

  lemma RefocusInv(s: Sched, pid: nat)
    requires Inv(s) && 1 <= pid <= TERMINALS
    ensures Inv(Refocus(s, pid)) && Refocus(s, pid).ready == s.ready && Refocus(s, pid).pcbs == s.pcbs
  {
    hide PidsOk, NoDup, Partitioned, OfShell, FindPid;
    var chosen := OfShell(s.pcbs, pid);
    PartitionedMembers(chosen, s.onKeyboard);
    PartitionedMembers(chosen, s.onProcess);
    var t := Refocus(s, pid);
    PidsKept(s, t);
    assert QueuesOk(t) && Listed(t) && TerminalsOk(t);
  }

  // ---------- dispatching ----------

  lemma {:induction false} SkipIdleMembers(q: seq<Ref>, idle: Ref)
    requires NoDup(q)
    ensures NoDup(SkipIdle(q, idle)) && forall r :: r != idle ==> (r in SkipIdle(q, idle) <==> r in q)
  {
    if q != [] && q[0] == idle {
      NoDupTail(q);
      SkipIdleMembers(q[1..], idle);
    }
  }

  /** The system goes down exactly when only the idle process is left. */
  lemma DispatchInv(s: Sched)
    requires Core(s) && Vacant(s)
    ensures Dispatch(s).down <==> s.pcbs.Keys == {s.idle}
    ensures !Dispatch(s).down ==> Inv(Dispatch(s)) && Dispatch(s).pcbs.Keys == s.pcbs.Keys
  {
    OnlyIdle(s);
    if |s.all| != 1 {
      DispatchKin(s);
      DispatchQueues(s);
    }
    hide Listed, PidsOk, TerminalsOk, QueuesOk, Vacant, SkipIdle;
  }

  lemma OnlyIdle(s: Sched)
    requires Listed(s)
    ensures |s.all| == 1 <==> s.pcbs.Keys == {s.idle}
  {
    if |s.all| == 1 {
      assert s.all[0] == s.idle;
      forall r | r in s.pcbs ensures r == s.idle {
        assert r in s.all;
      }
    }
    if |s.all| >= 2 {
      Another(s.all, s.idle);
    }
    assert s.idle in s.all;
  }

  lemma Another(q: seq<Ref>, x: Ref)
    requires NoDup(q) && |q| >= 2
    ensures exists r :: r in q && r != x
  {
    if q[0] == x {
      assert q[1] in q;
    } else {
      assert q[0] in q;
    }
  }

  /** Only queues, and what runs, differ. */
  lemma KinSame(s: Sched, t: Sched)
    requires Listed(s) && PidsOk(s) && TerminalsOk(s)
    requires t == s.(ready := t.ready, onProcess := t.onProcess, onKeyboard := t.onKeyboard, running := t.running)
    ensures Listed(t) && PidsOk(t) && TerminalsOk(t)
  {
    PidsKept(s, t);
    hide PidsOk;
  }

  /** The terminal of the process that runs now remembers it. */
  lemma Remembered(u: Sched, t: Sched, r: Ref)
    requires Listed(u) && PidsOk(u) && TerminalsOk(u) && r in u.pcbs && r != u.idle
    requires t == u.(latest := u.latest[u.pcbs[r].shell - 1 := r])
    ensures Listed(t) && PidsOk(t) && TerminalsOk(t)
  {
    PidsKept(u, t);
    hide PidsOk;
  }

  /** Who runs after a dispatch. */
  function Next(s: Sched): Ref {
    var q := SkipIdle(s.ready, s.idle);
    if q == [] then s.idle else q[0]
  }

  lemma NextLives(s: Sched)
    requires Listed(s) && QueuesOk(s)
    ensures Next(s) in s.pcbs
    ensures SkipIdle(s.ready, s.idle) != [] ==> Next(s) != s.idle && Next(s) in s.ready
  {
    SkipIdleMembers(s.ready, s.idle);
    var q := SkipIdle(s.ready, s.idle);
    if q != [] { assert q[0] in q; }
  }

  lemma NextIs(s: Sched)
    ensures SkipIdle(s.ready, s.idle) == [] ==> Next(s) == s.idle
  {
  }

  /** A dispatch in terms of what it changes. */
  lemma DispatchMeans(s: Sched)
    requires Listed(s) && QueuesOk(s) && TerminalsOk(s) && |s.all| != 1
    ensures var q, r, u := SkipIdle(s.ready, s.idle), Next(s), WithState(s, Next(s), Running);
      Dispatch(s) == u.(running := r, ready := if q == [] then [] else q[1..],
                        latest := if q == [] then s.latest else s.latest[s.pcbs[r].shell - 1 := r])
  {
    hide SkipIdle, Listed, QueuesOk, Next;
    NextLives(s);
    NextMeans(s);
  }

  lemma NextMeans(s: Sched)
    ensures Next(s) == if SkipIdle(s.ready, s.idle) == [] then s.idle else SkipIdle(s.ready, s.idle)[0]
  {
  }

  lemma DispatchKin(s: Sched)
    requires Listed(s) && PidsOk(s) && TerminalsOk(s) && QueuesOk(s) && |s.all| != 1
    ensures var t := Dispatch(s); Listed(t) && PidsOk(t) && TerminalsOk(t) && t.pcbs.Keys == s.pcbs.Keys
    ensures !Dispatch(s).down == !s.down && Dispatch(s).ticks == s.ticks
  {
    hide SkipIdle, Listed, PidsOk, QueuesOk, TerminalsOk, Dispatch, Next, WithState;
    DispatchMeans(s);
    NextLives(s);
    var r, t := Next(s), Dispatch(s);
    NextIs(s);
    RunningKin(s, r);
    RunsKin(WithState(s, r, Running), t, r);
  }

  lemma RunningKin(s: Sched, r: Ref)
    requires Listed(s) && PidsOk(s) && TerminalsOk(s) && r in s.pcbs
    ensures var u := WithState(s, r, Running);
      && Listed(u) && PidsOk(u) && TerminalsOk(u) && u.pcbs.Keys == s.pcbs.Keys && u.latest == s.latest
      && u.idle == s.idle && u.pcbs[r].shell == s.pcbs[r].shell && u.down == s.down && u.ticks == s.ticks
  {
    hide Listed, PidsOk, TerminalsOk;
    assert SameBut(s, WithState(s, r, Running), r);
    KinKept(s, WithState(s, r, Running), r);
  }

  lemma RunsKin(u: Sched, t: Sched, r: Ref)
    requires Listed(u) && PidsOk(u) && TerminalsOk(u) && r in u.pcbs
    requires t == u.(running := r, ready := t.ready, latest := t.latest)
    requires t.latest == u.latest || (r != u.idle && t.latest == u.latest[u.pcbs[r].shell - 1 := r])
    ensures Listed(t) && PidsOk(t) && TerminalsOk(t)
  {
    var v := u.(running := r, ready := t.ready);
    KinSame(u, v);
    hide Listed, PidsOk;
    if t.latest != u.latest {
      Remembered(v, t, r);
    } else {
      assert t == v;
    }
  }

  lemma DispatchQueues(s: Sched)
    requires Listed(s) && TerminalsOk(s) && QueuesOk(s) && Vacant(s) && |s.all| != 1
    ensures QueuesOk(Dispatch(s)) && Runs(Dispatch(s))
  {
    DispatchMeans(s);
    NextLives(s);
    var q, r, t := SkipIdle(s.ready, s.idle), Next(s), Dispatch(s);
    ReadyBehind(s);
    hide SkipIdle, Dispatch, Next, NoDup, Listed, TerminalsOk;
    StatesAfter(s, t, r);
  }

  /** The queue of ready processes loses the one that runs now, and perhaps the idle one. */
  lemma ReadyBehind(s: Sched)
    requires NoDup(s.ready)
    ensures var q := SkipIdle(s.ready, s.idle); var rest := if q == [] then [] else q[1..];
      NoDup(rest) && forall p :: p != s.idle ==> (p in rest <==> p in s.ready && p != Next(s))
    ensures var q := SkipIdle(s.ready, s.idle); forall p :: p in (if q == [] then [] else q[1..]) ==> p in s.ready
  {
    SkipIdleMembers(s.ready, s.idle);
    var q := SkipIdle(s.ready, s.idle);
    if q != [] {
      assert RemoveFirst(q, q[0]) == q[1..];
      RemoveFirstMembers(q, q[0]);
      assert forall p :: p in q ==> p in s.ready;
    }
  }

  lemma StatesAfter(s: Sched, t: Sched, r: Ref)
    requires QueuesOk(s) && Vacant(s) && r in s.pcbs && (r == s.idle || r in s.ready)
    requires t.pcbs == WithState(s, r, Running).pcbs && t.running == r && t.idle == s.idle
    requires t.onProcess == s.onProcess && t.onKeyboard == s.onKeyboard && NoDup(t.ready)
    requires forall p :: p in t.ready ==> p in s.ready
    requires forall p :: p != s.idle ==> (p in t.ready <==> p in s.ready && p != r)
    ensures QueuesOk(t) && Runs(t)
  {
    hide NoDup;
  }
}
