/** The uses that the kernel does not guard against do come about: runs on two processors that are
    in order up to the call, and whose next step breaks the invariant. */
module Misuse {
  import opened Options
  import opened Paging
  import opened Machine
  import R = RoundRobin

  /** Some run leads to `m`. */
  ghost predicate Reached(m: Machine) {
    exists ms, evs :: IsRun(ms, evs) && ms[|ms| - 1] == m
  }

  /** The machine can take the call `op` of CPU `c`, which is none of the allowed ones and after which
      the invariant no longer holds. */
  ghost predicate Breaks(m: Machine, c: nat, op: Op) {
    && WellTyped(m) && c < |m.cpus| && m.cpus[c].pc == Dispatch && Step(m, c, Handle(op)).Some?
    && !Allowed(m, c, Handle(op)) && !Inv(Step(m, c, Handle(op)).value)
  }

  lemma ReachedIsInv(m: Machine)
    requires Reached(m)
    ensures Inv(m)
  {
    hide Inv;
    var ms, evs :| IsRun(ms, evs) && ms[|ms| - 1] == m;
    RunKeepsInv(ms, evs, |ms| - 1);
  }

  lemma Reaches(m: Machine, c: nat, a: Action, m': Machine)
    requires Reached(m) && Follows(m, Event(c, a), m')
    ensures Reached(m')
  {
    hide Follows;
    var ms, evs :| IsRun(ms, evs) && ms[|ms| - 1] == m;
    var ms', evs' := ms + [m'], evs + [Event(c, a)];
    assert IsRun(ms', evs') by {
      forall i | 0 <= i < |evs'| ensures Follows(ms'[i], evs'[i], ms'[i + 1]) {
        if i < |evs| { assert Follows(ms[i], evs[i], ms[i + 1]); }
      }
    }
    assert ms'[|ms'| - 1] == m';
  }

  // ---- A processor's way into the kernel and out ----

  /** A processor starts and takes the lock. */
  lemma Boots(m: Machine, c: nat) returns (t: Machine)
    requires Reached(m) && WellTyped(m) && c < |m.cpus| && m.cpus[c] == Cpu(Boot, Unused, None) && m.lock == None
    ensures Reached(t) && WellTyped(t) && t == SetCpu(m, c, Cpu(Entered(FromBoot), Started, None)).(lock := Some(c))
  {
    hide Reached;
    var m1 := SetCpu(m, c, Cpu(Spin(FromBoot), Started, None));
    Reaches(m, c, StartCpu, m1);
    t := SetCpu(m, c, Cpu(Entered(FromBoot), Started, None)).(lock := Some(c));
    assert t.cpus == SetCpu(m1, c, Cpu(Entered(FromBoot), Started, None)).cpus;
    Reaches(m1, c, Acquire, t);
  }

  /** An environment makes a system call. */
  lemma Calls(m: Machine, c: nat, e: nat) returns (t: Machine)
    requires Reached(m) && WellTyped(m) && c < |m.cpus| && m.cpus[c] == Cpu(User, Started, Some(e)) && m.lock == None
    requires m.envs[e].status == Running
    ensures Reached(t) && WellTyped(t) && t == SetCpu(m, c, Cpu(Dispatch, Started, Some(e))).(lock := Some(c))
  {
    hide Reached;
    var m1 := SetCpu(m, c, Cpu(Spin(FromUser), Started, Some(e)));
    Reaches(m, c, Trap, m1);
    var m2 := SetCpu(m1, c, Cpu(Entered(FromUser), Started, Some(e))).(lock := Some(c));
    Reaches(m1, c, Acquire, m2);
    t := SetCpu(m, c, Cpu(Dispatch, Started, Some(e))).(lock := Some(c));
    assert t.cpus == SetCpu(m2, c, Cpu(Dispatch, Started, Some(e))).cpus;
    Reaches(m2, c, Enter, t);
  }

  /** The call is handled and the environment resumed. */
  lemma Returns(m: Machine, c: nat, e: nat, op: Op) returns (t: Machine)
    requires Reached(m) && WellTyped(m) && c < |m.cpus| && m.cpus[c] == Cpu(Dispatch, Started, Some(e))
    requires Allowed(m, c, Handle(op))
    requires var h := Handled(m, c, op);
             |h.envs| == NENV && h.envs[e].status == Running && h.cpus == m.cpus[c := Cpu(Resume, Started, Some(e))]
    ensures var h := Handled(m, c, op);
            Reached(t) && WellTyped(t) && t.lock == None && t.cpus == m.cpus[c := Cpu(User, Started, Some(e))]
            && t.free == h.free && |t.envs| == NENV && t.envs[e] == h.envs[e].(runs := t.envs[e].runs)
            && forall i: nat :: i < NENV && i != e ==> t.envs[i] == h.envs[i]
  {
    hide Reached, Inv, Handled;
    var h := Handled(m, c, op);
    Reaches(m, c, Handle(op), h);
    ReachedIsInv(h);
    R.TypedOf(h);
    t := EnvRun(h, c, e);
    Reaches(h, c, Back, t);
    ReachedIsInv(t);
    R.TypedOf(t);
  }

  /** The next environment is chosen. */
  lemma Picks(m: Machine, c: nat, j: nat) returns (t: Machine)
    requires Reached(m) && WellTyped(m) && c < |m.cpus| && m.cpus[c] == Cpu(Entered(FromBoot), Started, None)
    requires j < NENV && m.envs[j].status == Runnable && forall i: nat :: i < j ==> m.envs[i].status != Runnable
    ensures Reached(t) && WellTyped(t) && t.lock == None && t.cpus == m.cpus[c := Cpu(User, Started, Some(j))]
    ensures t.free == m.free && t.envs[j] == m.envs[j].(status := Running, runs := t.envs[j].runs)
    ensures forall i: nat :: i < NENV && i != j ==> t.envs[i] == m.envs[i]
  {
    hide Reached, Scan;
    var m1 := SetCpu(m, c, Cpu(Yield, Started, None));
    Reaches(m, c, Enter, m1);
    var i := R.ScanIsFirst(m.envs, 0, NENV);
    assert R.At(0, j) == j;
    assert forall h: nat :: h < NENV ==> R.At(0, h) == h;
    t := EnvRun(m1, c, j);
    Reaches(m1, c, Schedule, t);
  }

  // ---- Two environments on two processors ----

  /** Nothing has happened. */
  lemma Nothing() returns (m: Machine)
    ensures Reached(m) && WellTyped(m) && m.lock == None && m.cpus == [Cpu(Boot, Unused, None), Cpu(Boot, Unused, None)]
    ensures m.free == seq(NENV, i => i)
    ensures forall i: nat :: i < NENV ==> m.envs[i] == Env(0, 0, Free, 0, 0, false, 0, 0, 0, 0)
  {
    var cpu := Cpu(Boot, Unused, None);
    m := Machine(seq(NENV, i => Env(0, 0, Free, 0, 0, false, 0, 0, 0, 0)), seq(NENV, i => i), [cpu, cpu], None);
    assert Init(m);
    assert IsRun([m], []);
    assert [m][|[m]| - 1] == m;
  }

  /** Slot 0 has the environment made at boot, slot 1 its child, and no other slot is in use. */
  ghost predicate Family(m: Machine, status0: Status, status1: Status) {
    && WellTyped(m) && m.lock == None && |m.cpus| == 2
    && m.envs[0].id == 0x1000 && m.envs[0].status == status0
    && m.envs[1].id == 0x1001 && m.envs[1].parent == 0x1000 && m.envs[1].status == status1 && !m.envs[1].recving
    && forall i: nat :: 2 <= i < NENV ==> m.envs[i].status == Free
  }

  lemma FirstRuns() returns (m: Machine)
    ensures Reached(m) && WellTyped(m) && m.lock == None
    ensures m.cpus == [Cpu(User, Started, Some(0)), Cpu(Boot, Unused, None)]
    ensures m.envs[0].id == 0x1000 && m.envs[0].status == Running
    ensures |m.free| == NENV - 1 && m.free[0] == 1
    ensures forall i: nat :: 1 <= i < NENV ==> m.envs[i] == Env(0, 0, Free, 0, 0, false, 0, 0, 0, 0)
  {
    hide Reached, NextId;
    var m0 := Nothing();
    var m1 := Boots(m0, 0);
    NextIdValid(0, 0);
    var m2 := EnvAlloc(m1, 0);
    Reaches(m1, 0, Create, m2);
    m := Picks(m2, 0, 0);
  }

  lemma ChildMade() returns (m: Machine)
    ensures Reached(m) && Family(m, Running, NotRunnable)
    ensures m.cpus == [Cpu(User, Started, Some(0)), Cpu(Boot, Unused, None)]
  {
    hide Reached, NextId;
    var m0 := FirstRuns();
    var m1 := Calls(m0, 0, 0);
    NextIdValid(0, 1);
    m := Returns(m1, 0, 0, SysExofork(true));
  }

  /** The child is made runnable, and the other processor starts and runs it. */
  lemma BothRun() returns (m: Machine)
    ensures Reached(m) && Family(m, Running, Running)
    ensures m.cpus == [Cpu(User, Started, Some(0)), Cpu(User, Started, Some(1))]
  {
    hide Reached;
    var m0 := ChildMade();
    var m1 := Calls(m0, 0, 0);
    var m2 := Returns(m1, 0, 0, SysEnvSetStatus(0x1001, Runnable));
    var m3 := Boots(m2, 1);
    m := Picks(m3, 1, 1);
  }

  // ---- The three uses ----

  /** An environment destroys its child, which runs on another processor, a second time before that
      processor has collected it. */
  lemma DestroyedTwice()
    ensures exists m :: Reached(m) && Breaks(m, 0, SysEnvDestroy(0x1001)) && m.envs[1].status == Dying
  {
    hide Reached, Inv;
    var m0 := BothRun();
    var m1 := Calls(m0, 0, 0);
    var m2 := Returns(m1, 0, 0, SysEnvDestroy(0x1001));
    var m := Calls(m2, 0, 0);
    ReachedIsInv(m);
    DestroyBreaks(m, 0, 0x1001);
    assert Breaks(m, 0, SysEnvDestroy(0x1001));
  }

  /** An environment stops its child, which is running on another processor. */
  lemma StoppedWhileRunning()
    ensures exists m :: Reached(m) && Breaks(m, 0, SysEnvSetStatus(0x1001, NotRunnable)) && m.envs[1].status == Running
  {
    hide Reached, Inv;
    var m0 := BothRun();
    var m := Calls(m0, 0, 0);
    ReachedIsInv(m);
    StatusBreaks(m, 0, 0x1001, NotRunnable);
    assert Breaks(m, 0, SysEnvSetStatus(0x1001, NotRunnable));
  }

  /** The child blocks in a receive, and its processor halts. */
  lemma ChildWaits() returns (m: Machine)
    ensures Reached(m) && WellTyped(m) && m.lock == None
    ensures m.cpus == [Cpu(User, Started, Some(0)), Cpu(Idle, Halted, None)]
    ensures m.envs[0].id == 0x1000 && m.envs[0].status == Running
    ensures m.envs[1].id == 0x1001 && m.envs[1].parent == 0x1000 && m.envs[1].status == NotRunnable && m.envs[1].recving
  {
    hide Reached, Scan;
    var m0 := BothRun();
    var m1 := Calls(m0, 1, 1);
    var m2 := Handled(m1, 1, SysIpcRecv(UTOP));
    Reaches(m1, 1, Handle(SysIpcRecv(UTOP)), m2);
    var start := Start(m2, 1);
    var i := R.ScanIsFirst(m2.envs, start, NENV);
    assert Alive(m2.envs) by { assert m2.envs[0].status == Running; }
    m := SchedHalt(m2, 1);
    Reaches(m2, 1, Schedule, m);
  }

  /** An environment wakes its child, which is blocked in a receive. */
  lemma ReceiverWoken()
    ensures exists m :: Reached(m) && Breaks(m, 0, SysEnvSetStatus(0x1001, Runnable)) && m.envs[1].recving
  {
    hide Reached, Inv;
    var m0 := ChildWaits();
    var m := Calls(m0, 0, 0);
    ReachedIsInv(m);
    StatusBreaks(m, 0, 0x1001, Runnable);
    assert Breaks(m, 0, SysEnvSetStatus(0x1001, Runnable));
  }
}
