/** Who changes the status of an environment, over whole runs: the causes of each change, and who
    may be behind it. */
module Statuses {
  import opened Errors
  import opened Options
  import opened Word32
  import opened Paging
  import opened Machine
  import EnvIds
  import Ipc
  import R = RoundRobin

  /** The environment on whose behalf the event's CPU is in the kernel. */
  ghost predicate By(m: Machine, ev: Event, me: nat) {
    ev.c < |m.cpus| && m.cpus[ev.c].cur == Some(me)
  }

  /** `e` is the caller or a child of it. */
  predicate Kin(envs: seq<Env>, me: nat, e: nat)
    requires me < |envs| && e < |envs|
  {
    e == me || envs[e].parent == envs[me].id
  }

  /** The id given is 0, for the caller, or that of `e`, and the caller may act on `e`. */
  predicate Names(envs: seq<Env>, me: nat, envid: int, e: nat)
    requires me < |envs| && e < |envs|
  {
    if envid == 0 then e == me else envs[e].status != Free && envs[e].id == envid && Kin(envs, me, e)
  }

  /** sys_env_destroy of `e`, or the kernel's for a fault of `e`. */
  ghost predicate Destroys(m: Machine, ev: Event, e: nat)
    requires WellTyped(m) && e < NENV
  {
    && ev.c < |m.cpus| && m.cpus[ev.c].cur.Some?
    && var me := m.cpus[ev.c].cur.value;
       || (ev.a == Handle(Fatal) && me == e)
       || (ev.a.Handle? && ev.a.op.SysEnvDestroy? && Names(m.envs, me, ev.a.op.envid, e))
  }

  /** sys_env_set_status of `e` to `status`. */
  ghost predicate Sets(m: Machine, ev: Event, e: nat, status: Status)
    requires WellTyped(m) && e < NENV
  {
    && ev.c < |m.cpus| && m.cpus[ev.c].cur.Some?
    && ev.a.Handle? && ev.a.op.SysEnvSetStatus? && ev.a.op.status == status
    && Names(m.envs, m.cpus[ev.c].cur.value, ev.a.op.envid, e)
  }

  /** sys_ipc_recv of `e` that waits. */
  ghost predicate Waits(m: Machine, ev: Event, e: nat) {
    By(m, ev, e) && ev.a.Handle? && ev.a.op.SysIpcRecv? && !Ipc.Unaligned(ev.a.op.dstva)
  }

  /** A send to `e`, which waits, by any environment, with a page that can be sent if there is one. */
  ghost predicate Wakes(m: Machine, ev: Event, e: nat)
    requires WellTyped(m) && e < NENV
  {
    && m.envs[e].recving && m.envs[e].status != Free && ev.c < |m.cpus| && m.cpus[ev.c].cur.Some?
    && ev.a.Handle? && ev.a.op.SysIpcTrySend?
    && (ev.a.op.envid == m.envs[e].id || (ev.a.op.envid == 0 && By(m, ev, e)))
    && ev.a.op.page != BadPage
    && (ev.a.op.page.GoodPage? && m.envs[e].dstva < UTOP ==> ev.a.op.page.memory)
  }

  /** The trap of an environment that was destroyed while it ran. */
  ghost predicate Collects(m: Machine, ev: Event, e: nat)
    requires WellTyped(m) && e < NENV
  {
    ev.a == Enter && By(m, ev, e) && m.cpus[ev.c].pc == Entered(FromUser) && m.envs[e].status == Dying
  }

  /** sched_yield takes `e`: the first runnable slot after the current one, or from 0 on. */
  ghost predicate Takes(m: Machine, ev: Event, e: nat)
    requires WellTyped(m) && e < NENV && ev.c < |m.cpus|
  {
    && ev.a == Schedule && m.envs[e].status == Runnable
    && exists h: nat :: h < NENV && e == R.At(From(m, ev.c), h) && R.Skipped(m.envs, From(m, ev.c), h)
  }

  ghost predicate TakesOther(m: Machine, ev: Event, e: nat)
    requires WellTyped(m) && ev.c < |m.cpus|
  {
    exists x: nat :: x < NENV && x != e && Takes(m, ev, x)
  }

  function From(m: Machine, c: nat): nat
    requires c < |m.cpus|
  {
    match m.cpus[c].cur case Some(e) => e + 1 case None => 0
  }

  /** Every change of the status of `e` between `m` and `m'`, with its causes. */
  ghost predicate Caused(m: Machine, ev: Event, m': Machine, e: nat)
    requires WellTyped(m) && e < NENV && ev.c < |m.cpus| && |m'.envs| == NENV
  {
    var before, after := m.envs[e].status, m'.envs[e].status;
    && (before == Free ==>
          after == if !EnvIds.Allocates(m, ev, e) then Free else if ev.a == Create then Runnable else NotRunnable)
    && (before != Free ==>
          (after == Free <==> Collects(m, ev, e) || (Destroys(m, ev, e) && (before != Running || By(m, ev, e)))))
    && (before != Dying ==> (after == Dying <==> Destroys(m, ev, e) && before == Running && !By(m, ev, e)))
    && (before == Runnable || before == Running ==>
          (after == NotRunnable <==> Waits(m, ev, e) || Sets(m, ev, e, NotRunnable)))
    && (before == NotRunnable ==>
          (after == Runnable <==> Wakes(m, ev, e) || Sets(m, ev, e, Runnable)) && after != Running)
    && (before == Runnable ==> (after == Running <==> Takes(m, ev, e)))
    && (before == Running ==>
          (after == Runnable <==> Sets(m, ev, e, Runnable)
                                  || (By(m, ev, e) && TakesOther(m, ev, e))))
    && (before == Dying ==> after == Dying || Collects(m, ev, e))
  }

  lemma NamesIs(m: Machine, me: nat, envid: int, e: nat)
    requires Inv(m) && me < NENV && e < NENV && m.envs[me].status != Free
    ensures Envid2Env(m.envs, me, envid, true) == Some(e) <==> Names(m.envs, me, envid, e)
    ensures Envid2Env(m.envs, me, envid, false) == Some(e) <==>
            if envid == 0 then e == me else m.envs[e].status != Free && m.envs[e].id == envid
  {
    hide LockInv, Distinct, CurInv, BusyInv, RecvInv, ValidId;
    if m.envs[e].status != Free { R.SlotOfId(m.envs[e].id, e); }
  }

  lemma Facts(m: Machine, c: nat)
    requires Inv(m) && c < |m.cpus|
    ensures WellTyped(m)
    ensures m.cpus[c].cur.Some? ==> m.envs[m.cpus[c].cur.value].status != Free
    ensures m.cpus[c].cur.Some? ==> Envx(m.envs[m.cpus[c].cur.value].id) == m.cpus[c].cur.value
    ensures m.cpus[c].pc == Dispatch && m.cpus[c].cur.Some? ==> m.envs[m.cpus[c].cur.value].status == Running
    ensures m.cpus[c].pc == Dispatch && m.cpus[c].cur.Some? ==> !m.envs[m.cpus[c].cur.value].recving
  {
    if m.cpus[c].cur.Some? {
      var e := m.cpus[c].cur.value;
      assert Current(m, c, e);
      R.CurrentSlot(m, c, e);
    }
  }

  lemma TakesIs(m: Machine, c: nat, e: nat)
    requires Inv(m) && WellTyped(m) && c < |m.cpus| && e < NENV
    ensures Takes(m, Event(c, Schedule), e) <==> Scan(m.envs, Start(m, c), NENV) == Some(e)
  {
    hide Inv, Scan, Envx;
    Facts(m, c);
    assert Start(m, c) == From(m, c);
    var i := R.ScanIsFirst(m.envs, From(m, c), NENV);
    if Takes(m, Event(c, Schedule), e) {
      var h: nat :| h < NENV && e == R.At(From(m, c), h) && R.Skipped(m.envs, From(m, c), h);
      FirstIsOne(m.envs, From(m, c), h, i);
    }
  }

  lemma TakesOtherIs(m: Machine, c: nat, e: nat)
    requires Inv(m) && WellTyped(m) && c < |m.cpus| && e < NENV
    ensures TakesOther(m, Event(c, Schedule), e) <==>
            Scan(m.envs, Start(m, c), NENV).Some? && Scan(m.envs, Start(m, c), NENV) != Some(e)
  {
    hide Inv, Scan, Takes;
    var j := Scan(m.envs, Start(m, c), NENV);
    if TakesOther(m, Event(c, Schedule), e) {
      var x: nat :| x < NENV && x != e && Takes(m, Event(c, Schedule), x);
      TakesIs(m, c, x);
    }
    if j.Some? { TakesIs(m, c, j.value); }
  }

  lemma FirstIsOne(envs: seq<Env>, start: nat, h: nat, i: nat)
    requires |envs| == NENV && h < NENV && R.Skipped(envs, start, h) && envs[R.At(start, h)].status == Runnable
    requires Scan(envs, start, NENV) == None ==> R.Skipped(envs, start, NENV)
    requires Scan(envs, start, NENV).Some? ==>
               i < NENV && envs[R.At(start, i)].status == Runnable && R.Skipped(envs, start, i)
    ensures Scan(envs, start, NENV).Some? && i == h
  {
    hide Scan, R.At;
  }

  lemma CausedSchedule(m: Machine, c: nat, e: nat)
    requires Inv(m) && WellTyped(m) && c < |m.cpus| && m.cpus[c].pc == Yield && e < NENV
    ensures |SchedYield(m, c).envs| == NENV && Caused(m, Event(c, Schedule), SchedYield(m, c), e)
  {
    hide Inv, Scan, Takes, TakesOther, SchedYield, Start, Alive, EnvRun;
    YieldFacts(m, c);
    TakesIs(m, c, e);
    TakesOtherIs(m, c, e);
  }

  /** The effect of sched_yield on statuses. */
  lemma YieldFacts(m: Machine, c: nat)
    requires Inv(m) && WellTyped(m) && c < |m.cpus| && m.cpus[c].pc == Yield
    ensures var j, t, cur := Scan(m.envs, Start(m, c), NENV), SchedYield(m, c), m.cpus[c].cur;
            && |t.envs| == NENV
            && (j.Some? ==> m.envs[j.value].status == Runnable)
            && forall e: nat :: e < NENV ==>
                 t.envs[e].status == if j == Some(e) then Running
                                     else if j.Some? && cur == Some(e) && m.envs[e].status == Running then Runnable
                                     else m.envs[e].status
  {
    hide Inv, Scan, Envx, Alive;
  }

  lemma CausedHandled(m: Machine, c: nat, op: Op, e: nat)
    requires Inv(m) && WellTyped(m) && c < |m.cpus| && m.cpus[c].pc == Dispatch && m.cpus[c].cur.Some? && e < NENV
    requires Allowed(m, c, Handle(op))
    ensures |Handled(m, c, op).envs| == NENV && Caused(m, Event(c, Handle(op)), Handled(m, c, op), e)
  {
    Facts(m, c);
    hide Inv, Handled, Caused;
    AnswerStatus(m, c, op);
    hide Served;
    match op
    case SysEnvDestroy(_) => CausedDestroy(m, c, op, e);
    case SysEnvSetStatus(_, _) => CausedSet(m, c, op, e);
    case SysIpcTrySend(_, _, _) => CausedSend(m, c, op, e);
    case SysExofork(_) => CausedOther(m, c, op, e);
    case SysIpcRecv(_) => CausedOther(m, c, op, e);
    case _ => CausedOther(m, c, op, e);
  }

  /** Storing the result changes no status. */
  lemma AnswerStatus(m: Machine, c: nat, op: Op)
    requires WellTyped(m) && c < |m.cpus| && m.cpus[c].cur.Some?
    ensures var t, u := Handled(m, c, op), Served(m, c, op);
            |t.envs| == |u.envs| == NENV && forall e: nat :: e < NENV ==> t.envs[e].status == u.envs[e].status
  {
    hide Served, Result;
    ServedSize(m, c, op);
  }

  lemma CausedDestroy(m: Machine, c: nat, op: Op, e: nat)
    requires Inv(m) && WellTyped(m) && c < |m.cpus| && m.cpus[c].pc == Dispatch && m.cpus[c].cur.Some? && e < NENV
    requires op.SysEnvDestroy? && |Handled(m, c, op).envs| == NENV
    requires Handled(m, c, op).envs[e].status == Served(m, c, op).envs[e].status
    requires Allowed(m, c, Handle(op))
    ensures Caused(m, Event(c, Handle(op)), Handled(m, c, op), e)
  {
    Facts(m, c);
    NamesIs(m, m.cpus[c].cur.value, op.envid, e);
    DestroyStatus(m, c, op.envid, e);
    hide Inv, Handled, Served, Names, WellTyped;
  }

  lemma DestroyStatus(m: Machine, c: nat, envid: int, e: nat)
    requires WellTyped(m) && c < |m.cpus| && m.cpus[c].cur.Some? && e < NENV
    ensures var t, me := Served(m, c, SysEnvDestroy(envid)), m.cpus[c].cur.value;
            && |t.envs| == NENV
            && t.envs[e].status == if Envid2Env(m.envs, me, envid, true) != Some(e) then m.envs[e].status
                                   else if m.envs[e].status == Running && me != e then Dying
                                   else Free
  {
    hide Envid2Env;
  }

  lemma CausedSet(m: Machine, c: nat, op: Op, e: nat)
    requires Inv(m) && WellTyped(m) && c < |m.cpus| && m.cpus[c].pc == Dispatch && m.cpus[c].cur.Some? && e < NENV
    requires op.SysEnvSetStatus? && |Handled(m, c, op).envs| == NENV
    requires Handled(m, c, op).envs[e].status == Served(m, c, op).envs[e].status
    requires Allowed(m, c, Handle(op))
    ensures Caused(m, Event(c, Handle(op)), Handled(m, c, op), e)
  {
    Facts(m, c);
    NamesIs(m, m.cpus[c].cur.value, op.envid, e);
    SetStatusStatus(m, c, op.envid, op.status, e);
    hide Inv, Handled, Served, Names, WellTyped;
  }

  lemma SetStatusStatus(m: Machine, c: nat, envid: int, status: Status, e: nat)
    requires WellTyped(m) && c < |m.cpus| && m.cpus[c].cur.Some? && e < NENV
    ensures var t, me := Served(m, c, SysEnvSetStatus(envid, status)), m.cpus[c].cur.value;
            && |t.envs| == NENV
            && t.envs[e].status == if Envid2Env(m.envs, me, envid, true) == Some(e) && status in {NotRunnable, Runnable}
                                   then status else m.envs[e].status
  {
    hide Envid2Env;
  }

  lemma CausedSend(m: Machine, c: nat, op: Op, e: nat)
    requires Inv(m) && WellTyped(m) && c < |m.cpus| && m.cpus[c].pc == Dispatch && m.cpus[c].cur.Some? && e < NENV
    requires op.SysIpcTrySend? && |Handled(m, c, op).envs| == NENV
    requires Handled(m, c, op).envs[e].status == Served(m, c, op).envs[e].status
    ensures Caused(m, Event(c, Handle(op)), Handled(m, c, op), e)
  {
    Facts(m, c);
    NamesIs(m, m.cpus[c].cur.value, op.envid, e);
    SendStatus(m, c, op, e);
    if m.envs[e].recving && m.envs[e].status != Free { Waiting(m, e); }
    hide Inv, Handled, Served, Names, WellTyped;
  }

  lemma SendStatus(m: Machine, c: nat, op: Op, e: nat)
    requires WellTyped(m) && c < |m.cpus| && m.cpus[c].cur.Some? && e < NENV && op.SysIpcTrySend?
    ensures var t, me := Served(m, c, op), m.cpus[c].cur.value;
            && |t.envs| == NENV
            && t.envs[e].status == if Envid2Env(m.envs, me, op.envid, false) == Some(e) && m.envs[e].recving
                                      && op.page != BadPage
                                      && (op.page.GoodPage? && m.envs[e].dstva < UTOP ==> op.page.memory)
                                   then Runnable else m.envs[e].status
  {
    hide Envid2Env;
  }

  lemma Waiting(m: Machine, e: nat)
    requires Inv(m) && WellTyped(m) && e < NENV && m.envs[e].recving && m.envs[e].status != Free
    ensures m.envs[e].status == NotRunnable
  {
  }

  lemma CausedOther(m: Machine, c: nat, op: Op, e: nat)
    requires Inv(m) && WellTyped(m) && c < |m.cpus| && m.cpus[c].pc == Dispatch && m.cpus[c].cur.Some? && e < NENV
    requires !op.SysIpcTrySend? && !op.SysEnvSetStatus? && !op.SysEnvDestroy? && |Handled(m, c, op).envs| == NENV
    requires Handled(m, c, op).envs[e].status == Served(m, c, op).envs[e].status
    ensures Caused(m, Event(c, Handle(op)), Handled(m, c, op), e)
  {
    Facts(m, c);
    FirstIsFree(m);
    hide Inv, Handled, Envid2Env, Names, NextId;
  }

  lemma FirstIsFree(m: Machine)
    requires Inv(m) && WellTyped(m)
    ensures m.free != [] ==> m.envs[m.free[0]].status == Free
  {
    assert m.free != [] ==> m.free[0] in m.free;
  }

  /** The law, for each step. */
  lemma StepCaused(m: Machine, ev: Event, m': Machine, e: nat)
    requires Inv(m) && WellTyped(m) && Follows(m, ev, m') && e < NENV
    ensures |m'.envs| == NENV && Caused(m, ev, m', e)
  {
    hide Inv, Allowed, Handled, SchedYield, NextId;
    Facts(m, ev.c);
    match ev.a
    case Handle(op) => CausedHandled(m, ev.c, op, e);
    case Schedule => CausedSchedule(m, ev.c, e);
    case _ => CausedElse(m, ev, m', e);
  }

  lemma CausedElse(m: Machine, ev: Event, m': Machine, e: nat)
    requires Inv(m) && WellTyped(m) && Follows(m, ev, m') && e < NENV && !ev.a.Handle? && ev.a != Schedule
    ensures |m'.envs| == NENV && Caused(m, ev, m', e)
  {
    FirstIsFree(m);
    if ev.a == Back && m.cpus[ev.c].cur.Some? { BackRuns(m, ev.c, e); }
    hide Inv, Allowed, Handled, SchedYield, NextId, Scan, EnvRun;
  }

  lemma BackRuns(m: Machine, c: nat, e: nat)
    requires WellTyped(m) && c < |m.cpus| && m.cpus[c].cur.Some? && e < NENV
    ensures var x := m.cpus[c].cur.value;
            m.envs[x].status == Running ==>
              |EnvRun(m, c, x).envs| == NENV && EnvRun(m, c, x).envs[e].status == m.envs[e].status
  {
  }

  /** Over every run: no status changes but for one of these causes, and each cause has its effect. */
  lemma StatusChanges(ms: seq<Machine>, evs: seq<Event>, n: nat, e: nat)
    requires IsRun(ms, evs) && n < |evs| && e < NENV
    ensures WellTyped(ms[n]) && evs[n].c < |ms[n].cpus| && |ms[n + 1].envs| == NENV
    ensures Caused(ms[n], evs[n], ms[n + 1], e)
  {
    hide Inv, Step, Allowed, Init;
    RunKeepsInv(ms, evs, n);
    R.TypedOf(ms[n]);
    assert Follows(ms[n], evs[n], ms[n + 1]);
    StepCaused(ms[n], evs[n], ms[n + 1], e);
  }

  // ---- What follows ----

  /** An environment that runs when its CPU calls sched_yield, and loses the CPU to another, can run again. */
  lemma SwitchedOut(ms: seq<Machine>, evs: seq<Event>, n: nat, e: nat)
    requires IsRun(ms, evs) && n < |evs| && e < NENV && Follows(ms[n], evs[n], ms[n + 1])
    requires evs[n].a == Schedule && By(ms[n], evs[n], e) && ms[n].envs[e].status == Running
    requires evs[n].c < |ms[n + 1].cpus| && !By(ms[n + 1], evs[n], e)
    ensures |ms[n + 1].envs| == NENV && ms[n + 1].envs[e].status == Runnable
  {
    hide Inv, Step, Allowed, Init, Caused, Scan, EnvRun, Start;
    RunKeepsInv(ms, evs, n);
    R.TypedOf(ms[n]);
    YieldCur(ms[n], evs[n], ms[n + 1]);
    YieldFacts(ms[n], evs[n].c);
  }

  lemma YieldCur(m: Machine, ev: Event, m': Machine)
    requires Inv(m) && WellTyped(m) && Follows(m, ev, m') && ev.a == Schedule
    ensures m.cpus[ev.c].pc == Yield && m' == SchedYield(m, ev.c) && |m'.cpus| == |m.cpus|
    ensures var j, cur := Scan(m.envs, Start(m, ev.c), NENV), m.cpus[ev.c].cur;
            m'.cpus[ev.c].cur == if j.Some? then j
                                 else if cur.Some? && m.envs[cur.value].status == Running then cur
                                 else if Alive(m.envs) then None
                                 else cur
  {
    hide Inv, Scan, Alive, Start, Allowed;
  }

  /** Nobody but itself, its parent and the kernel stops, destroys or collects an environment. */
  lemma OnlyKin(ms: seq<Machine>, evs: seq<Event>, n: nat, e: nat, me: nat)
    requires IsRun(ms, evs) && n < |evs| && e < NENV && me < NENV && WellTyped(ms[n]) && |ms[n + 1].envs| == NENV
    requires By(ms[n], evs[n], me) && me != e && ms[n].envs[e].status != Free
    requires ms[n + 1].envs[e].status in {Free, Dying, NotRunnable} && ms[n + 1].envs[e].status != ms[n].envs[e].status
    ensures ms[n].envs[e].parent == ms[n].envs[me].id
  {
    hide Inv, Step, Allowed, Init, IsRun, Wakes, Takes, TakesOther;
    StatusChanges(ms, evs, n, e);
  }

  /** A CPU stops running environments only when none can run: it halts while another CPU has one, and
      enters the monitor when none is left. */
  lemma HaltsWhenIdle(ms: seq<Machine>, evs: seq<Event>, n: nat)
    requires IsRun(ms, evs) && n < |evs| && evs[n].a == Schedule && Follows(ms[n], evs[n], ms[n + 1])
    ensures WellTyped(ms[n]) && |ms[n + 1].cpus| == |ms[n].cpus|
    ensures var m, c, pc := ms[n], evs[n].c, ms[n + 1].cpus[evs[n].c].pc;
            var others := exists e: nat :: e < NENV && (m.envs[e].status == Running || m.envs[e].status == Dying);
            && (pc == User || pc == Idle || pc == Monitor)
            && (pc == User <==> (exists e: nat :: e < NENV && m.envs[e].status == Runnable)
                                || (m.cpus[c].cur.Some? && m.envs[m.cpus[c].cur.value].status == Running))
            && (pc == Idle ==> others) && (pc == Monitor ==> !others)
  {
    hide Inv, Scan, Init, Allowed, Caused, R.At;
    RunKeepsInv(ms, evs, n);
    R.TypedOf(ms[n]);
    var m, c := ms[n], evs[n].c;
    var i := R.ScanIsFirst(m.envs, Start(m, c), NENV);
    forall e: nat | e < NENV && m.envs[e].status == Runnable ensures Scan(m.envs, Start(m, c), NENV).Some? {
      R.SlotAhead(Start(m, c), e);
    }
  }

  /** env_runs counts how often a CPU has entered user mode with the environment since it was allocated,
      modulo 2^32; and its parent stays what it was then. */
  lemma StepCounts(m: Machine, ev: Event, m': Machine, e: nat)
    requires Inv(m) && WellTyped(m) && Follows(m, ev, m') && e < NENV
    ensures |m'.envs| == NENV && |m'.cpus| == |m.cpus|
    ensures var env, env', c := m.envs[e], m'.envs[e], ev.c;
            && env'.runs == (if EnvIds.Allocates(m, ev, e) then 0
                             else if m.cpus[c].pc != User && m'.cpus[c].pc == User && m'.cpus[c].cur == Some(e)
                             then (env.runs + 1) % 0x1_0000_0000
                             else env.runs)
            && (EnvIds.Allocates(m, ev, e) ==> env'.eax == 0)
            && env'.parent == (if !EnvIds.Allocates(m, ev, e) then env.parent
                               else if ev.a == Create then 0
                               else m.envs[m.cpus[c].cur.value].id)
  {
    hide Inv, Allowed, Handled, NextId, Scan, Alive, Envx, SchedYield, EnvRun;
    Facts(m, ev.c);
    FirstIsFree(m);
    if ev.a == Schedule { YieldCounts(m, ev.c, e); }
    if ev.a == Back && m.cpus[ev.c].cur.Some? { EnterCounts(m, ev.c, m.cpus[ev.c].cur.value, e); }
    if ev.a.Handle? {
      if ev.a.op.SysExofork? { ForkCounts(m, ev.c, ev.a.op, e); } else { HandledCounts(m, ev.c, ev.a.op, e); }
    }
  }

  lemma EnterCounts(m: Machine, c: nat, x: nat, e: nat)
    requires WellTyped(m) && c < |m.cpus| && x < NENV && e < NENV
    ensures var t := EnvRun(m, c, x);
            && |t.envs| == NENV && t.cpus == m.cpus[c := m.cpus[c].(pc := User, cur := Some(x))]
            && t.envs[e].runs == (if e == x then (m.envs[e].runs + 1) % 0x1_0000_0000 else m.envs[e].runs)
            && t.envs[e].parent == m.envs[e].parent
  {
  }

  lemma YieldCounts(m: Machine, c: nat, e: nat)
    requires WellTyped(m) && c < |m.cpus| && e < NENV
    ensures var t := SchedYield(m, c);
            && |t.envs| == NENV && |t.cpus| == |m.cpus|
            && (m.cpus[c].pc == Yield ==>
                  t.envs[e].runs == if t.cpus[c].pc == User && t.cpus[c].cur == Some(e)
                                    then (m.envs[e].runs + 1) % 0x1_0000_0000 else m.envs[e].runs)
            && t.envs[e].parent == m.envs[e].parent
  {
    hide Scan, Alive, Envx, EnvRun;
    var j, cur := Scan(m.envs, Start(m, c), NENV), m.cpus[c].cur;
    if j.Some? { EnterCounts(m, c, j.value, e); }
    if cur.Some? { EnterCounts(m, c, cur.value, e); }
  }

  lemma HandledCounts(m: Machine, c: nat, op: Op, e: nat)
    requires WellTyped(m) && c < |m.cpus| && m.cpus[c].cur.Some? && e < NENV && !op.SysExofork?
    ensures var t := Handled(m, c, op);
            && |t.envs| == NENV && |t.cpus| == |m.cpus| && t.cpus[c].pc != User
            && t.envs[e].runs == m.envs[e].runs && t.envs[e].parent == m.envs[e].parent
  {
    hide Envid2Env, NextId, Result;
  }

  lemma ForkCounts(m: Machine, c: nat, op: Op, e: nat)
    requires WellTyped(m) && c < |m.cpus| && m.cpus[c].cur.Some? && e < NENV && op.SysExofork?
    requires m.free != [] ==> m.free[0] != m.cpus[c].cur.value
    ensures var t, given := Handled(m, c, op), EnvIds.Allocates(m, Event(c, Handle(op)), e);
            && |t.envs| == NENV && |t.cpus| == |m.cpus| && t.cpus[c].pc != User
            && t.envs[e].runs == (if given then 0 else m.envs[e].runs)
            && t.envs[e].parent == (if given then m.envs[m.cpus[c].cur.value].id else m.envs[e].parent)
            && (given ==> t.envs[e].eax == 0)
  {
    hide NextId;
  }

  lemma RunCounts(ms: seq<Machine>, evs: seq<Event>, n: nat, e: nat)
    requires IsRun(ms, evs) && n < |evs| && e < NENV
    ensures WellTyped(ms[n]) && evs[n].c < |ms[n].cpus| == |ms[n + 1].cpus| && |ms[n + 1].envs| == NENV
    ensures var m, m', c := ms[n], ms[n + 1], evs[n].c;
            m'.envs[e].runs == if EnvIds.Allocates(m, evs[n], e) then 0
                               else if m.cpus[c].pc != User && m'.cpus[c].pc == User && m'.cpus[c].cur == Some(e)
                               then (m.envs[e].runs + 1) % 0x1_0000_0000
                               else m.envs[e].runs
  {
    hide Inv, Step, Allowed, Init, EnvIds.Allocates;
    RunKeepsInv(ms, evs, n);
    R.TypedOf(ms[n]);
    assert Follows(ms[n], evs[n], ms[n + 1]);
    StepCounts(ms[n], evs[n], ms[n + 1], e);
  }

  /** sys_exofork: the parent gets the id of a child that does not run, that it may act on under that
      id, and that will see 0; or an error, exactly when there is no slot or no memory. */
  lemma ForkedChild(ms: seq<Machine>, evs: seq<Event>, n: nat, me: nat, memory: bool)
    requires IsRun(ms, evs) && n < |evs| && me < NENV && evs[n].a == Handle(SysExofork(memory))
    requires WellTyped(ms[n]) && By(ms[n], evs[n], me)
    ensures |ms[n + 1].envs| == NENV
    ensures var m, m' := ms[n], ms[n + 1]; var r := m'.envs[me].eax;
            && (r == -E_NO_FREE_ENV <==> forall e: nat :: e < NENV ==> m.envs[e].status != Free)
            && (r < 0 <==> !memory || forall e: nat :: e < NENV ==> m.envs[e].status != Free)
            && (r < 0 ==> r == -E_NO_FREE_ENV || r == -E_NO_MEM)
            && (r < 0 ==> forall e: nat :: e < NENV ==> m'.envs[e].status == m.envs[e].status)
            && (r >= 0 ==> exists e: nat :: e < NENV && IsChild(m, m', me, r, e))
  {
    hide Inv, Init, NextId, Allowed;
    RunKeepsInv(ms, evs, n);
    var m := ms[n];
    assert Follows(m, evs[n], ms[n + 1]);
    Facts(m, evs[n].c);
    FreeSlots(m);
    if m.free != [] && memory {
      ForkId(m, m.free[0]);
      assert IsChild(m, ms[n + 1], me, ms[n + 1].envs[me].eax, m.free[0]);
    }
  }

  ghost predicate IsChild(m: Machine, m': Machine, me: nat, id: int, e: nat)
    requires |m.envs| == |m'.envs| == NENV && me < NENV && e < NENV
  {
    && m.envs[e].status == Free && e != me && id > 0
    && m'.envs[e].id == id && m'.envs[e].status == NotRunnable && m'.envs[e].eax == 0 && !m'.envs[e].recving
    && Names(m'.envs, me, id, e)
  }

  lemma FreeSlots(m: Machine)
    requires Inv(m) && WellTyped(m)
    ensures m.free == [] <==> forall e: nat :: e < NENV ==> m.envs[e].status != Free
    ensures m.free != [] ==> m.envs[m.free[0]].status == Free
  {
    if m.free != [] { assert m.free[0] in m.free; }
  }

  lemma ForkId(m: Machine, e: nat)
    requires Inv(m) && WellTyped(m) && e < NENV
    ensures NextId(m.envs[e].id, e) > 0
  {
    NextIdValid(m.envs[e].id, e);
  }

  // ---- What the results tell ----

  /** The environment that a call may act on. */
  ghost predicate Target(envs: seq<Env>, me: nat, envid: int)
    requires |envs| == NENV && me < NENV
  {
    exists e: nat :: e < NENV && Names(envs, me, envid, e)
  }

  /** What sys_env_set_status, and sys_env_destroy where it returns, leave in the caller's eax. */
  lemma ResultTells(ms: seq<Machine>, evs: seq<Event>, n: nat, me: nat)
    requires IsRun(ms, evs) && n < |evs| && me < NENV && WellTyped(ms[n]) && By(ms[n], evs[n], me) && evs[n].a.Handle?
    ensures |ms[n + 1].envs| == NENV
    ensures var r, op := ms[n + 1].envs[me].eax, evs[n].a.op;
            && (op.SysEnvSetStatus? ==>
                  r == if op.status != NotRunnable && op.status != Runnable then -E_INVAL
                       else if Target(ms[n].envs, me, op.envid) then 0 else -E_BAD_ENV)
            && (op.SysEnvDestroy? && ms[n + 1].envs[me].status != Free ==>
                  r == if Target(ms[n].envs, me, op.envid) then 0 else -E_BAD_ENV)
  {
    hide Inv, Init, Allowed, Handled, Names;
    RunKeepsInv(ms, evs, n);
    var m, op := ms[n], evs[n].a.op;
    assert Follows(m, evs[n], ms[n + 1]);
    Facts(m, evs[n].c);
    AnswerStatus(m, evs[n].c, op);
    if op.SysEnvSetStatus? || op.SysEnvDestroy? {
      TargetIs(m, me, op.envid);
      ResultIs(m, evs[n].c, op);
    }
  }

  lemma TargetIs(m: Machine, me: nat, envid: int)
    requires Inv(m) && WellTyped(m) && me < NENV && m.envs[me].status != Free
    ensures Target(m.envs, me, envid) <==> Envid2Env(m.envs, me, envid, true).Some?
  {
    hide Inv, Envid2Env, Names;
    var r := Envid2Env(m.envs, me, envid, true);
    if r.Some? { NamesIs(m, me, envid, r.value); }
    if Target(m.envs, me, envid) {
      var e: nat :| e < NENV && Names(m.envs, me, envid, e);
      NamesIs(m, me, envid, e);
    }
  }

  lemma ResultIs(m: Machine, c: nat, op: Op)
    requires WellTyped(m) && c < |m.cpus| && m.cpus[c].cur.Some? && (op.SysEnvSetStatus? || op.SysEnvDestroy?)
    requires m.envs[m.cpus[c].cur.value].status == Running
    ensures var me, t := m.cpus[c].cur.value, Handled(m, c, op);
            && |t.envs| == NENV
            && (op.SysEnvSetStatus? ==>
                  t.envs[me].eax == if op.status != NotRunnable && op.status != Runnable then -E_INVAL
                                    else if Envid2Env(m.envs, me, op.envid, true).Some? then 0 else -E_BAD_ENV)
            && (op.SysEnvDestroy? && t.envs[me].status != Free ==>
                  t.envs[me].eax == if Envid2Env(m.envs, me, op.envid, true).Some? then 0 else -E_BAD_ENV)
  {
    hide Envid2Env;
  }

  /** The environment that a send is for. */
  predicate Addressed(envs: seq<Env>, me: nat, envid: int, e: nat)
    requires me < |envs| && e < |envs|
  {
    if envid == 0 then e == me else envs[e].status != Free && envs[e].id == envid
  }

  /** What sys_ipc_try_send leaves in the sender's eax. */
  lemma SendTells(ms: seq<Machine>, evs: seq<Event>, n: nat, me: nat)
    requires IsRun(ms, evs) && n < |evs| && me < NENV && WellTyped(ms[n]) && By(ms[n], evs[n], me)
    requires evs[n].a.Handle? && evs[n].a.op.SysIpcTrySend?
    ensures |ms[n + 1].envs| == NENV
    ensures var m, r, op := ms[n], ms[n + 1].envs[me].eax, evs[n].a.op;
            && (r == 0 || r == -E_BAD_ENV || r == -E_IPC_NOT_RECV || r == -E_INVAL || r == -E_NO_MEM)
            && (r == 0 <==> exists e: nat :: e < NENV && Wakes(m, evs[n], e))
            && (r == -E_BAD_ENV <==> !exists e: nat :: e < NENV && Addressed(m.envs, me, op.envid, e))
            && (r == -E_IPC_NOT_RECV <==>
                  exists e: nat :: e < NENV && Addressed(m.envs, me, op.envid, e) && !m.envs[e].recving)
            && (r == -E_INVAL ==> op.page == BadPage) && (r == -E_NO_MEM ==> op.page.GoodPage? && !op.page.memory)
  {
    hide Inv, Init, Allowed, Handled, Addressed, Envid2Env, Wakes;
    RunKeepsInv(ms, evs, n);
    var m, op := ms[n], evs[n].a.op;
    assert Follows(m, evs[n], ms[n + 1]);
    Facts(m, evs[n].c);
    SendResultIs(m, evs[n].c, op);
    forall e: nat | e < NENV
      ensures Addressed(m.envs, me, op.envid, e) <==> Envid2Env(m.envs, me, op.envid, false) == Some(e)
      ensures Wakes(m, evs[n], e) <==> Addressed(m.envs, me, op.envid, e) && Sendable(m.envs[e], op.page)
    {
      AddressedIs(m, evs[n], me, e);
    }
  }

  predicate Sendable(env: Env, page: PageSend) {
    env.recving && page != BadPage && (page.GoodPage? && env.dstva < UTOP ==> page.memory)
  }

  lemma AddressedIs(m: Machine, ev: Event, me: nat, e: nat)
    requires Inv(m) && WellTyped(m) && By(m, ev, me) && me < NENV && e < NENV && m.envs[me].status != Free
    requires ev.a.Handle? && ev.a.op.SysIpcTrySend?
    ensures Addressed(m.envs, me, ev.a.op.envid, e) <==> Envid2Env(m.envs, me, ev.a.op.envid, false) == Some(e)
    ensures Wakes(m, ev, e) <==> Addressed(m.envs, me, ev.a.op.envid, e) && Sendable(m.envs[e], ev.a.op.page)
  {
    NamesIs(m, me, ev.a.op.envid, e);
    PositiveIds(m, e);
    hide Inv, Envid2Env, Names;
  }

  lemma PositiveIds(m: Machine, e: nat)
    requires Inv(m) && WellTyped(m) && e < NENV
    ensures m.envs[e].status != Free ==> m.envs[e].id > 0
  {
  }

  lemma SendResultIs(m: Machine, c: nat, op: Op)
    requires WellTyped(m) && c < |m.cpus| && m.cpus[c].cur.Some? && op.SysIpcTrySend?
    ensures var me, t := m.cpus[c].cur.value, Handled(m, c, op); var to := Envid2Env(m.envs, me, op.envid, false);
            && |t.envs| == NENV
            && t.envs[me].eax == if to == None then -E_BAD_ENV
                                 else if !m.envs[to.value].recving then -E_IPC_NOT_RECV
                                 else if op.page == BadPage then -E_INVAL
                                 else if Sendable(m.envs[to.value], op.page) then 0
                                 else -E_NO_MEM
  {
    hide Envid2Env;
  }
}
