/** No state of the machine shuts anybody out: no CPU is stuck but in the monitor, and an
    environment that can run can be run. */
module Progress {
  import opened Options
  import opened Paging
  import opened Machine
  import R = RoundRobin

  /** From each machine to the next by a step. */
  ghost predicate Path(ms: seq<Machine>, evs: seq<Event>) {
    |ms| == |evs| + 1 && forall i :: 0 <= i < |evs| ==> Follows(ms[i], evs[i], ms[i + 1])
  }

  ghost predicate Leads(m: Machine, t: Machine) {
    exists ms, evs :: Path(ms, evs) && ms[0] == m && ms[|evs|] == t
  }

  lemma LeadsNowhere(m: Machine)
    ensures Leads(m, m)
  {
    assert Path([m], []) && [m][0] == m;
  }

  lemma LeadsOn(m: Machine, t: Machine, c: nat, a: Action, u: Machine)
    requires Leads(m, t) && Follows(t, Event(c, a), u)
    ensures Leads(m, u)
  {
    hide Follows;
    var ms, evs :| Path(ms, evs) && ms[0] == m && ms[|evs|] == t;
    var ms', evs' := ms + [u], evs + [Event(c, a)];
    forall i | 0 <= i < |evs'| ensures Follows(ms'[i], evs'[i], ms'[i + 1]) {
      if i < |evs| { assert Follows(ms[i], evs[i], ms[i + 1]); }
    }
    assert Path(ms', evs') && ms'[0] == m && ms'[|evs'|] == u;
  }

  /** A CPU is in the monitor only when no environment is left. */
  ghost predicate MonitorOk(m: Machine) {
    forall c :: 0 <= c < |m.cpus| && m.cpus[c].pc == Monitor ==> !Alive(m.envs)
  }

  ghost predicate Sound(m: Machine) {
    Inv(m) && MonitorOk(m)
  }

  lemma InitSound(m: Machine)
    requires Init(m)
    ensures Sound(m)
  {
    InitKeeps(m);
  }

  lemma StepSound(m: Machine, c: nat, a: Action, m': Machine)
    requires Sound(m) && Follows(m, Event(c, a), m')
    ensures Sound(m')
  {
    StepKeeps(m, c, a);
    R.TypedOf(m);
    if exists d :: 0 <= d < |m.cpus| && m.cpus[d].pc == Monitor {
      var d: nat :| d < |m.cpus| && m.cpus[d].pc == Monitor;
      NobodyServes(m, d, c);
      QuietStep(m, c, a, m');
    } else {
      BusyStep(m, c, a, m');
    }
  }

  /** A CPU that does not hold the lock changes no environment, and no other CPU. */
  lemma QuietStep(m: Machine, c: nat, a: Action, m': Machine)
    requires WellTyped(m) && Follows(m, Event(c, a), m') && MonitorOk(m) && m.lock != None
    requires m.cpus[c].pc != User && (Holding(m.cpus[c].pc) ==> m.cpus[c].pc == Monitor)
    ensures MonitorOk(m')
  {
    hide Alive, Scan, Handled, SchedYield, EnvRun, Allowed;
    assert m'.envs == m.envs;
  }

  lemma BusyStep(m: Machine, c: nat, a: Action, m': Machine)
    requires WellTyped(m) && Follows(m, Event(c, a), m') && forall d :: 0 <= d < |m.cpus| ==> m.cpus[d].pc != Monitor
    ensures MonitorOk(m')
  {
    hide Alive, Scan, Handled, Allowed, SchedYield;
    match a
    case Handle(op) => HandledPc(m, c, op);
    case Schedule => SchedulePc(m, c);
    case _ =>
  }

  lemma SchedulePc(m: Machine, c: nat)
    requires WellTyped(m) && c < |m.cpus|
    ensures var t := SchedYield(m, c);
            && |t.cpus| == |m.cpus| && (t.cpus[c].pc == Monitor ==> !Alive(t.envs) || m.cpus[c].pc == Monitor)
            && forall d :: 0 <= d < |m.cpus| && d != c ==> t.cpus[d] == m.cpus[d]
  {
    hide Alive, Scan;
  }

  /** While a CPU is in the monitor, no other is in user code or in the kernel. */
  lemma NobodyServes(m: Machine, d: nat, c: nat)
    requires Sound(m) && d < |m.cpus| && m.cpus[d].pc == Monitor && c < |m.cpus|
    ensures m.lock == Some(d)
    ensures m.cpus[c].pc != User && (Holding(m.cpus[c].pc) ==> m.cpus[c].pc == Monitor)
  {
    UserIsAlive(m, c);
  }

  lemma UserIsAlive(m: Machine, c: nat)
    requires Inv(m) && c < |m.cpus|
    ensures m.cpus[c].pc == User ==> Alive(m.envs)
  {
    if m.cpus[c].pc == User {
      var e := m.cpus[c].cur.value;
      assert Current(m, c, e) && m.envs[e].status in {Running, Dying};
    }
  }

  lemma HandledPc(m: Machine, c: nat, op: Op)
    requires WellTyped(m) && c < |m.cpus| && m.cpus[c].cur.Some?
    ensures var t := Handled(m, c, op); |t.cpus| == |m.cpus| && t.cpus[c].pc != Monitor
    ensures var t := Handled(m, c, op); forall d :: 0 <= d < |m.cpus| && d != c ==> t.cpus[d] == m.cpus[d]
  {
    hide Envid2Env, NextId, Result;
  }

  lemma {:induction false} RunSound(ms: seq<Machine>, evs: seq<Event>, n: nat)
    requires IsRun(ms, evs) && n < |ms|
    ensures Sound(ms[n])
    decreases n
  {
    hide Sound, Step, Allowed, Init;
    if n == 0 {
      InitSound(ms[0]);
    } else {
      RunSound(ms, evs, n - 1);
      assert Follows(ms[n - 1], evs[n - 1], ms[n]);
      StepSound(ms[n - 1], evs[n - 1].c, evs[n - 1].a, ms[n]);
    }
  }

  /** At every point of every run each CPU can take a step, unless it is in the monitor or waits for
      a lock that another CPU has. */
  lemma NotStuck(ms: seq<Machine>, evs: seq<Event>, n: nat, c: nat)
    requires IsRun(ms, evs) && n < |ms| && c < |ms[n].cpus| && ms[n].cpus[c].pc != Monitor
    requires ms[n].cpus[c].pc.Spin? ==> ms[n].lock == None
    ensures WellTyped(ms[n]) && exists a :: Allowed(ms[n], c, a) && Step(ms[n], c, a).Some?
  {
    RunKeepsInv(ms, evs, n);
    var m := ms[n];
    R.TypedOf(m);
    var pc := m.cpus[c].pc;
    Possible(m, c);
    hide Inv, Handled, SchedYield;
    assert Allowed(m, c, Way(pc)) && Step(m, c, Way(pc)).Some?;
  }

  lemma Possible(m: Machine, c: nat)
    requires Inv(m) && c < |m.cpus|
    ensures Serving(m.cpus[c].pc) ==> m.cpus[c].cur.Some?
  {
  }

  // ---- An environment that can run can be run ----

  /** CPU `c` alone goes on from `m` to `t`, and environment `k` can still run. */
  ghost predicate Gone(m: Machine, t: Machine, c: nat, k: nat) {
    && Leads(m, t) && Sound(t) && WellTyped(t) && c < |t.cpus| && k < NENV && t.envs[k].status == Runnable
    && (t.lock == None || t.lock == Some(c)) && t.cpus[c].pc != Monitor
  }

  /** What a CPU does to come to sched_yield. */
  function Way(pc: Pc): Action {
    match pc
    case Boot => StartCpu
    case User => Trap
    case Idle => Wake
    case Spin(_) => Acquire
    case Entered(_) => Enter
    case Dispatch => Handle(SysYield)
    case Resume => Back
    case _ => Schedule
  }

  /** What is left of the machine after a step on that way. */
  ghost predicate StillGoing(t: Machine, u: Machine, c: nat, k: nat) {
    && |u.envs| == NENV && k < NENV && u.envs[k].status == Runnable
    && (u.lock == None || u.lock == Some(c)) && |u.cpus| == |t.cpus|
  }

  lemma GoesOn(m: Machine, t: Machine, c: nat, a: Action, k: nat)
    requires Gone(m, t, c, k) && Allowed(t, c, a) && Step(t, c, a).Some?
    requires StillGoing(t, Step(t, c, a).value, c, k)
    ensures Gone(m, Step(t, c, a).value, c, k)
  {
    hide Sound, Leads, Step, Allowed;
    var u := Step(t, c, a).value;
    LeadsOn(m, t, c, a, u);
    StepSound(t, c, a, u);
    SoundFacts(u, k);
  }

  lemma SoundFacts(m: Machine, k: nat)
    requires Sound(m)
    ensures WellTyped(m)
    ensures k < NENV && m.envs[k].status == Runnable ==> forall c :: 0 <= c < |m.cpus| ==> m.cpus[c].pc != Monitor
  {
    if k < NENV && m.envs[k].status == Runnable { assert Alive(m.envs); }
  }

  /** How many steps a CPU is from sched_yield. */
  function ToYield(pc: Pc): nat {
    match pc
    case User => 6
    case Idle => 6
    case Boot => 6
    case Spin(_) => 5
    case Entered(_) => 4
    case Dispatch => 3
    case Resume => 7
    case Yield => 0
    case Monitor => 8
  }

  /** The current environment of the CPU has not been destroyed. */
  predicate Keeps(m: Machine, c: nat) {
    c < |m.cpus| && m.cpus[c].cur.Some? && m.cpus[c].cur.value < |m.envs| && m.envs[m.cpus[c].cur.value].status != Dying
  }

  /** The CPU comes to sched_yield. */
  lemma {:induction false} ComesToYield(m: Machine, t: Machine, c: nat, k: nat) returns (u: Machine)
    requires Gone(m, t, c, k)
    ensures Gone(m, u, c, k) && u.cpus[c].pc == Yield && (Keeps(t, c) ==> u.cpus[c].cur == t.cpus[c].cur)
    decreases ToYield(t.cpus[c].pc)
  {
    hide Sound, Leads, Inv, Scan, Alive, MonitorOk;
    var pc := t.cpus[c].pc;
    if pc == Yield {
      u := t;
    } else {
      SoundInv(t);
      PathFacts(t, c, k);
      var a := Way(pc);
      NextFacts(t, c, k);
      GoesOn(m, t, c, a, k);
      u := ComesToYield(m, Step(t, c, a).value, c, k);
    }
  }

  lemma SoundInv(m: Machine)
    requires Sound(m)
    ensures Inv(m) && WellTyped(m)
  {
  }

  /** What is known of a CPU and the environment `k` on the way. */
  ghost predicate Underway(t: Machine, c: nat, k: nat) {
    && WellTyped(t) && c < |t.cpus| && k < NENV && t.envs[k].status == Runnable
    && (Serving(t.cpus[c].pc) ==> t.cpus[c].cur.Some? && t.cpus[c].cur != Some(k))
    && (Holding(t.cpus[c].pc) ==> t.lock == Some(c))
    && (t.cpus[c].pc.Spin? ==> t.lock != Some(c))
  }

  lemma PathFacts(t: Machine, c: nat, k: nat)
    requires Inv(t) && c < |t.cpus| && k < NENV && WellTyped(t) && t.envs[k].status == Runnable
    ensures Underway(t, c, k)
  {
    if t.cpus[c].cur.Some? { assert Current(t, c, t.cpus[c].cur.value); }
  }

  /** The step that a CPU takes on its way. */
  lemma NextFacts(t: Machine, c: nat, k: nat)
    requires Underway(t, c, k) && (t.lock == None || t.lock == Some(c))
    requires t.cpus[c].pc != Yield && t.cpus[c].pc != Monitor
    ensures var a := Way(t.cpus[c].pc);
            && Allowed(t, c, a) && Step(t, c, a).Some?
            && var u := Step(t, c, a).value;
               && StillGoing(t, u, c, k) && ToYield(u.cpus[c].pc) < ToYield(t.cpus[c].pc)
               && (Keeps(t, c) && t.cpus[c].pc != Idle ==> Keeps(u, c) && u.cpus[c].cur == t.cpus[c].cur)
  {
    hide Scan, Alive, NextId, Envid2Env;
  }

  /** Each time round, the CPU runs `k` or comes nearer to it. */
  lemma {:induction false} Reaches(m: Machine, t: Machine, c: nat, k: nat, first: bool) returns (u: Machine)
    requires Gone(m, t, c, k) && (!first ==> Keeps(t, c))
    ensures Leads(m, u) && k < |u.envs| && u.envs[k].status == Running
    decreases first, if t.cpus[c].cur.Some? then R.Rank(k, t.cpus[c].cur.value) else 0
  {
    hide Sound, Leads, Inv, Scan, Alive, MonitorOk, R.Rank, EnvRun;
    var y := ComesToYield(m, t, c, k);
    SoundInv(y);
    u := SchedYield(y, c);
    LeadsOn(m, y, c, Schedule, u);
    Scheduled(y, c, k);
    if u.envs[k].status != Running {
      assert Follows(y, Event(c, Schedule), u);
      R.TurnNearer(y, u, c, k);
      GoesOn(m, y, c, Schedule, k);
      u := Reaches(m, u, c, k, false);
    }
  }

  /** With an environment that can run, sched_yield runs one. */
  lemma Scheduled(y: Machine, c: nat, k: nat)
    requires Inv(y) && WellTyped(y) && c < |y.cpus| && y.cpus[c].pc == Yield && k < NENV && y.envs[k].status == Runnable
    ensures var u := SchedYield(y, c);
            && |u.envs| == NENV && |u.cpus| == |y.cpus| && u.lock == None && u.cpus[c].pc == User && u.cpus[c].cur.Some?
            && (u.envs[k].status == Running || u.envs[k].status == Runnable)
            && Keeps(u, c)
  {
    hide Inv, Scan, Envx, Alive;
    var i := R.ScanIsFirst(y.envs, Start(y, c), NENV);
    R.SlotAhead(Start(y, c), k);
  }

  /** From every point of every run, on any number of CPUs: an environment that can run can be run. */
  lemma CanRun(ms: seq<Machine>, evs: seq<Event>, n: nat, k: nat)
    requires IsRun(ms, evs) && n < |ms| && ms[n].cpus != [] && k < NENV
    requires |ms[n].envs| == NENV && ms[n].envs[k].status == Runnable
    ensures exists u :: Leads(ms[n], u) && k < |u.envs| && u.envs[k].status == Running
  {
    hide Sound, Leads, Inv;
    RunSound(ms, evs, n);
    var m := ms[n];
    SoundFacts(m, k);
    SoundInv(m);
    LeadsNowhere(m);
    LockInRange(m);
    var u := Reaches(m, m, if m.lock.Some? then m.lock.value else 0, k, true);
  }

  lemma LockInRange(m: Machine)
    requires Inv(m)
    ensures m.lock.Some? ==> m.lock.value < |m.cpus|
  {
  }
}
