/** The scheduler as a transition system: its steps are the interrupts and system calls that
    touch its queues. A process control block is known by its address. */
module SchedSpec {
  import opened Lists

  type Ref = int

  const TERMINALS: nat := 4
  const TICKS: nat := 10
  const MAX_PIDS: nat := 256

  datatype PState = Fresh | Running | Waiting | Ready

  datatype Pcb = Pcb(pid: nat, ppid: nat, shell: nat, state: PState, eax: nat)

  datatype Sched = Sched(
    pcbs: map<Ref, Pcb>, pids: seq<bool>, all: seq<Ref>,
    ready: seq<Ref>, onProcess: seq<Ref>, onKeyboard: seq<Ref>,
    running: Ref, latest: seq<Ref>, idle: Ref, focused: nat, ticks: nat, down: bool)

  datatype Call = Plain(result: nat) | Exit(code: nat) | ReadLine | Exec(found: bool, at: Ref) | Fork(at: Ref)
                | Wait(pid: nat) | Unknown

  datatype Event = Tick | Syscall(call: Call) | Fault | Enter | Interrupt | Focus(pid: nat)

  /** Before the first process there is nothing. */
  function Nothing(idle: Ref): Sched {
    Sched(map[], seq(MAX_PIDS, i => false), [], [], [], [], idle, seq(TERMINALS, i => idle), idle, 1, 0, false)
  }

  // ---------- the functions of scheduler.cpp ----------

  function WithState(s: Sched, r: Ref, st: PState): Sched {
    if r in s.pcbs then s.(pcbs := s.pcbs[r := s.pcbs[r].(state := st)]) else s
  }

  function WithResult(s: Sched, r: Ref, eax: nat): Sched {
    if r in s.pcbs then s.(pcbs := s.pcbs[r := s.pcbs[r].(eax := eax)]) else s
  }

  /** set_process_as_ready */
  function SetReady(s: Sched, r: Ref): Sched {
    if r in s.ready then s else WithState(s, r, Ready).(ready := s.ready + [r])
  }

  function SkipIdle(q: seq<Ref>, idle: Ref): (r: seq<Ref>)
    ensures |r| <= |q| && (r != [] ==> r[0] != idle)
    ensures r == q[|q| - |r|..] && forall i :: 0 <= i < |q| - |r| ==> q[i] == idle
  {
    if q != [] && q[0] == idle then SkipIdle(q[1..], idle) else q
  }

  /** switch_to_next_process: the system goes down if one process is left, and else the first one that
      is not idle runs. */
  function Dispatch(s: Sched): Sched {
    if |s.all| == 1 then s.(down := true)
    else
      var q := SkipIdle(s.ready, s.idle);
      if q == [] then WithState(s.(ready := [], running := s.idle), s.idle, Running)
      else Launch(s.(ready := q[1..]), q[0])
  }

  function Launch(s: Sched, r: Ref): Sched {
    var i := if r in s.pcbs then s.pcbs[r].shell as int - 1 else -1;
    WithState(s.(running := r, latest := if 0 <= i < |s.latest| then s.latest[i := r] else s.latest), r, Running)
  }

  /** The first process in the queue with that pid. */
  function FindPid(pcbs: map<Ref, Pcb>, q: seq<Ref>, pid: nat): Option<Ref> {
    if q == [] then None
    else if q[0] in pcbs && pcbs[q[0]].pid == pid then Some(q[0])
    else FindPid(pcbs, q[1..], pid)
  }

  /** wake_up_parent_process */
  function WakeParent(s: Sched, ppid: nat, code: nat): Sched {
    match FindPid(s.pcbs, s.onProcess, ppid)
    case None => s
    case Some(r) =>
      var t := WithResult(s.(onProcess := RemoveFirst(s.onProcess, r)), r, code);
      if r in s.onKeyboard then t else SetReady(t, r)
  }

  /** wake_process_waiting_for_keyboard */
  function WakeKeyboard(s: Sched): Sched {
    if s.onKeyboard == [] then s
    else
      var r := s.onKeyboard[0];
      if r !in s.pcbs || s.pcbs[r].shell != s.focused then s
      else
        var t := s.(onKeyboard := s.onKeyboard[1..]);
        if r in s.onProcess then t else SetReady(t, r)
  }

  /** kill_process */
  function Kill(s: Sched, r: Ref): Sched {
    if r !in s.pcbs then s
    else
      var p := s.pcbs[r];
      var i := p.shell as int - 1;
      s.(pids := if p.pid < |s.pids| then s.pids[p.pid := false] else s.pids,
         ready := RemoveFirst(s.ready, r), all := RemoveFirst(s.all, r),
         onProcess := RemoveFirst(s.onProcess, r), onKeyboard := RemoveFirst(s.onKeyboard, r),
         latest := if 0 <= i < |s.latest| then s.latest[i := s.idle] else s.latest,
         pcbs := s.pcbs - {r})
  }

  function LeastPid(pids: seq<bool>, i: nat): (r: nat)
    requires i <= |pids|
    ensures i <= r <= |pids| && (forall k :: i <= k < r ==> pids[k]) && (r < |pids| ==> !pids[r])
    decreases |pids| - i
  {
    if i == |pids| || !pids[i] then i else LeastPid(pids, i + 1)
  }

  /** create_process, at an address that is not in use */
  function Spawn(s: Sched, at: Ref, ppid: nat, shell: nat): Sched {
    var pid := LeastPid(s.pids, 0);
    s.(pids := if pid < |s.pids| then s.pids[pid := true] else s.pids,
       pcbs := s.pcbs[at := Pcb(pid, ppid, shell, Fresh, 0)], all := s.all + [at])
  }

  function OfShell(pcbs: map<Ref, Pcb>, shell: nat): Ref -> bool {
    r => r in pcbs && pcbs[r].shell == shell
  }

  /** switch_to_terminal, as far as the queues go */
  function Refocus(s: Sched, pid: nat): Sched {
    if FindPid(s.pcbs, s.all, pid).None? then s
    else
      var chosen := OfShell(s.pcbs, pid);
      s.(focused := pid, onKeyboard := Partitioned(chosen, s.onKeyboard), onProcess := Partitioned(chosen, s.onProcess))
  }

  // ---------- system calls ----------

  function DoCall(s: Sched, p: Ref, c: Call): Sched
    requires p in s.pcbs
  {
    match c
    case Plain(result) => SetReady(WithResult(s, p, result), p)
    case Exit(code) => Kill(WakeParent(s, s.pcbs[p].ppid, code), p)
    case ReadLine => WithState(s, p, Waiting).(onKeyboard := [p] + s.onKeyboard)
    case Exec(found, at) =>
      var t := WithResult(SetReady(s, p), p, 0);
      if !found then t
      else
        var u := Spawn(t, at, s.pcbs[p].pid, s.pcbs[p].shell);
        SetReady(WithResult(u, p, LeastPid(s.pids, 0)), at)
    case Fork(at) =>
      var t := Spawn(s, at, s.pcbs[p].pid, s.pcbs[p].shell);
      SetReady(SetReady(WithResult(WithResult(t, p, 1), at, 0), p), at)
    case Wait(pid) =>
      if FindPid(s.pcbs, s.all, pid).None? then SetReady(WithResult(s, p, 1), p)
      else WithState(s, p, Waiting).(onProcess := s.onProcess + [p])
    case Unknown => Kill(s, p)
  }

  // ---------- steps ----------

  /** Ctrl-C spares the idle process and the shells, by their pids. */
  predicate Spared(s: Sched) {
    var i := s.focused as int - 1;
    0 <= i < |s.latest| && s.latest[i] in s.pcbs && s.pcbs[s.latest[i]].pid <= TERMINALS
  }

  function Abort(s: Sched): Sched {
    var i := s.focused as int - 1;
    if Spared(s) || !(0 <= i < |s.latest| && s.latest[i] in s.pcbs) then s
    else
      var p := s.latest[i];
      var t := Kill(WakeParent(s, s.pcbs[p].ppid, 1), p);
      Dispatch(if s.running != p then SetReady(t, s.running) else t)
  }

  function Step(s: Sched, e: Event): Sched {
    if s.down then s
    else
      match e
      case Tick =>
        if s.ticks + 1 == TICKS then Dispatch(SetReady(s.(ticks := 0), s.running)) else s.(ticks := s.ticks + 1)
      case Syscall(c) => if s.running in s.pcbs then Dispatch(DoCall(s, s.running, c)) else s
      case Fault =>
        if s.running in s.pcbs then Dispatch(Kill(WakeParent(s, s.pcbs[s.running].ppid, 1), s.running)) else s
      case Enter => WakeKeyboard(s)
      case Interrupt => Abort(s)
      case Focus(pid) => Refocus(s, pid)
  }

  /** The idle process neither calls nor faults; a new control block is at an address that is free, and a
      pid is left for it. */
  predicate Legal(s: Sched, e: Event) {
    match e
    case Syscall(Exec(true, at)) => s.running != s.idle && at !in s.pcbs && LeastPid(s.pids, 0) < |s.pids|
    case Syscall(Fork(at)) => s.running != s.idle && at !in s.pcbs && LeastPid(s.pids, 0) < |s.pids|
    case Syscall(_) => s.running != s.idle
    case Fault => s.running != s.idle
    case Focus(pid) => 1 <= pid <= TERMINALS
    case _ => true
  }

  // ---------- the invariant ----------

  ghost predicate NoDup(q: seq<Ref>) { forall i, k :: 0 <= i < k < |q| ==> q[i] != q[k] }

  /** The control blocks are those on the list of all processes. */
  ghost predicate Listed(s: Sched) {
    && NoDup(s.all) && (forall r :: r in s.all <==> r in s.pcbs)
    && s.idle in s.pcbs && s.pcbs[s.idle].pid == 0
  }

  /** Pids are distinct, and they are the ones that are taken. */
  ghost predicate PidsOk(s: Sched) {
    && |s.pids| == MAX_PIDS
    && (forall r :: r in s.pcbs ==> s.pcbs[r].pid < MAX_PIDS && s.pids[s.pcbs[r].pid])
    && (forall r, q :: r in s.pcbs && q in s.pcbs && s.pcbs[r].pid == s.pcbs[q].pid ==> r == q)
    && (forall i :: 0 <= i < MAX_PIDS && s.pids[i] ==> HasPid(s, i))
  }

  ghost predicate HasPid(s: Sched, pid: int) { exists r :: r in s.pcbs && s.pcbs[r].pid == pid }

  /** Every terminal remembers the idle process, or a live one of its own. */
  ghost predicate TerminalsOk(s: Sched) {
    && |s.latest| == TERMINALS && 1 <= s.focused <= TERMINALS
    && (forall r :: r in s.pcbs && r != s.idle ==> 1 <= s.pcbs[r].shell <= TERMINALS)
    && forall i :: 0 <= i < TERMINALS ==>
      s.latest[i] == s.idle || (s.latest[i] in s.pcbs && s.pcbs[s.latest[i]].shell == i + 1)
  }

  predicate Blocked(s: Sched, r: Ref) { r in s.onProcess || r in s.onKeyboard }

  /** The state of a process says in which queue it is; no queue has a process twice, or one that is dead. */
  ghost predicate QueuesOk(s: Sched) {
    && NoDup(s.ready) && NoDup(s.onProcess) && NoDup(s.onKeyboard)
    && (forall r :: r in s.ready ==> r in s.pcbs)
    && (forall r :: r in s.onProcess ==> r in s.pcbs && r != s.idle && r !in s.onKeyboard)
    && (forall r :: r in s.onKeyboard ==> r in s.pcbs && r != s.idle)
    && (forall r :: r in s.pcbs && r != s.idle ==> (s.pcbs[r].state == Ready <==> r in s.ready))
    && (forall r :: r in s.pcbs && r != s.idle ==>
          (s.pcbs[r].state == Waiting <==> r in s.onProcess || r in s.onKeyboard))
  }

  ghost predicate Core(s: Sched) {
    Listed(s) && PidsOk(s) && TerminalsOk(s) && QueuesOk(s) && !s.down && s.ticks < TICKS
  }

  /** Nobody but perhaps the idle process runs. */
  ghost predicate Vacant(s: Sched) {
    forall r :: r in s.pcbs && r != s.idle ==> s.pcbs[r].state.Ready? || s.pcbs[r].state.Waiting?
  }

  /** Only the process that was given the processor runs. */
  ghost predicate Runs(s: Sched) {
    && s.running in s.pcbs
    && forall r :: r in s.pcbs && r != s.idle ==>
         !s.pcbs[r].state.Fresh? && (s.pcbs[r].state.Running? <==> r == s.running)
  }

  /** What holds between steps. */
  ghost predicate Inv(s: Sched) { Core(s) && Runs(s) }

  /** Each live process but the idle one is running, ready, waiting for the keyboard, or waiting for
      another process, and never two of these at once. */
  lemma ExactlyOnePlace(s: Sched, r: Ref)
    requires Inv(s) && r in s.pcbs && r != s.idle
    ensures r == s.running || r in s.ready || r in s.onKeyboard || r in s.onProcess
    ensures r == s.running ==> r !in s.ready && r !in s.onKeyboard && r !in s.onProcess
    ensures r in s.ready ==> r !in s.onKeyboard && r !in s.onProcess
    ensures r in s.onKeyboard ==> r !in s.onProcess
  {
    var _ := s.pcbs[r].state;
  }
}
