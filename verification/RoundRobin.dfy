/** sched_yield is fair on each CPU: a runnable environment is passed over a bounded number of times. */
module RoundRobin {
  import opened Options
  import opened Paging
  import opened Machine

  /** How many slots lie between the one that runs and `k`, going round. */
  function Rank(k: nat, cur: nat): (r: nat)
    ensures r < NENV
  {
    (k - cur - 1) % NENV
  }

  function At(start: nat, i: nat): (j: nat)
    ensures j < NENV
  {
    (start + i) % NENV
  }

  /** None of the `n` slots from `start` on is runnable. */
  ghost predicate Skipped(envs: seq<Env>, start: nat, n: nat)
    requires |envs| == NENV
  {
    forall h: nat :: h < n ==> envs[At(start, h)].status != Runnable
  }

  /** The scan finds the first runnable slot. */
  lemma {:induction false} ScanIsFirst(envs: seq<Env>, start: nat, n: nat) returns (i: nat)
    requires |envs| == NENV && n <= NENV
    ensures match Scan(envs, start, n)
            case Some(j) => i < n && j == At(start, i) && envs[j].status == Runnable && Skipped(envs, start, i)
            case None => Skipped(envs, start, n)
    decreases n
  {
    if n > 0 {
      i := ScanIsFirst(envs, start, n - 1);
      if Scan(envs, start, n - 1) == None {
        i := n - 1;
        assert At(start, n - 1) == (start + n - 1) % NENV;
      }
    } else {
      i := 0;
    }
  }

  /** One call picks `k`, or an environment nearer than `k`, and then `k` is nearer to it. */
  lemma RankDecreases(envs: seq<Env>, cur: nat, k: nat)
    requires |envs| == NENV && cur < NENV && k < NENV && envs[k].status == Runnable
    ensures Scan(envs, cur + 1, NENV).Some?
    ensures var j := Scan(envs, cur + 1, NENV).value; j == k || Rank(k, j) < Rank(k, cur)
  {
    hide Scan;
    var i := ScanIsFirst(envs, cur + 1, NENV);
    var h := Rank(k, cur);
    assert At(cur + 1, h) == k;
    if i < h { NearerBy(cur, i, h); }
  }

  lemma NearerBy(cur: nat, i: nat, h: nat)
    requires cur < NENV && i < h < NENV
    ensures Rank((cur + 1 + h) % NENV, (cur + 1 + i) % NENV) == h - i - 1
  {
  }

  /** In the machine, a CPU whose curenv is in slot `e` scans from slot e + 1, and what it finds
      becomes its curenv. */
  lemma YieldPicks(m: Machine, c: nat, e: nat)
    requires Inv(m) && c < |m.cpus| && m.cpus[c].pc == Yield && m.cpus[c].cur == Some(e)
    ensures Scan(m.envs, e + 1, NENV).Some? ==> SchedYield(m, c).cpus[c].cur == Scan(m.envs, e + 1, NENV)
  {
    hide Scan, Alive, Envx, LockInv, Distinct, CurInv, BusyInv, RecvInv, IdInv;
    CurrentSlot(m, c, e);
  }

  lemma CurrentSlot(m: Machine, c: nat, e: nat)
    requires Inv(m) && Current(m, c, e)
    ensures Envx(m.envs[e].id) == e
  {
    hide ValidId, LockInv, Distinct, BusyInv, RecvInv, Envx;
    assert m.envs[e].status != Free;
    SlotOfId(m.envs[e].id, e);
  }

  lemma SlotOfId(id: int, slot: nat)
    requires ValidId(id, slot)
    ensures Envx(id) == slot
  {
    LowBits(id / 0x1000, slot);
    assert id == id / 0x1000 * 0x1000 + slot;
  }

  // ---- Over the runs of the machine ----

  predicate Schedules(ev: Event, c: nat) {
    ev == Event(c, Schedule)
  }

  /** How often CPU `c` calls sched_yield in the steps [a, b). */
  function Turns(evs: seq<Event>, c: nat, a: nat, b: nat): nat
    requires a <= b <= |evs|
  {
    if a == b then 0 else Turns(evs, c, a, b - 1) + if Schedules(evs[b - 1], c) then 1 else 0
  }

  /** How often it does so with no curenv, so that it scans from slot 0. */
  function Restarts(ms: seq<Machine>, evs: seq<Event>, c: nat, a: nat, b: nat): nat
    requires a <= b <= |evs| <= |ms|
  {
    if a == b then 0
    else
      var m := ms[b - 1];
      Restarts(ms, evs, c, a, b - 1)
      + if Schedules(evs[b - 1], c) && c < |m.cpus| && m.cpus[c].cur == None then 1 else 0
  }

  /** What is left of the turns in which `k` may be passed over. */
  function Left(cpu: Cpu, k: nat): nat {
    match cpu.cur case Some(e) => Rank(k, e) case None => 0
  }

  /** Only sched_yield gives a CPU another curenv; other steps keep it or take it away. */
  lemma OthersKeepCur(m: Machine, ev: Event, m': Machine, c: nat)
    requires Follows(m, ev, m') && c < |m.cpus| && !Schedules(ev, c)
    ensures |m'.cpus| == |m.cpus| && (m'.cpus[c].cur == m.cpus[c].cur || m'.cpus[c].cur == None)
  {
    hide Envid2Env, Allowed, Scan, Alive, NextId, Handled, SchedYield, EnvRun, EnvFree;
    match ev.a
    case Handle(op) => HandledCur(m, ev.c, op, c);
    case Schedule => YieldElsewhere(m, ev.c, c);
    case Back =>
      var cur := m.cpus[ev.c].cur;
      if cur.Some? { RunCur(m, ev.c, cur.value, c); }
    case Enter =>
      assert forall e: nat :: e < |m.envs| ==> EnvFree(m, e).cpus == m.cpus by { FreeCpus(m); }
    case _ =>
  }

  lemma FreeCpus(m: Machine)
    ensures forall e: nat :: e < |m.envs| ==> EnvFree(m, e).cpus == m.cpus
  {
  }

  lemma RunCur(m: Machine, c: nat, e: nat, c': nat)
    requires WellTyped(m) && c < |m.cpus| && c' < |m.cpus| && e < NENV
    ensures EnvRun(m, c, e).cpus == m.cpus[c := m.cpus[c].(pc := User, cur := Some(e))]
  {
  }

  lemma YieldElsewhere(m: Machine, c: nat, c': nat)
    requires WellTyped(m) && c < |m.cpus| && c' < |m.cpus| && c != c'
    ensures var t := SchedYield(m, c); |t.cpus| == |m.cpus| && t.cpus[c'] == m.cpus[c']
  {
    hide Scan, Alive;
  }

  lemma HandledCur(m: Machine, c: nat, op: Op, c': nat)
    requires WellTyped(m) && c < |m.cpus| && m.cpus[c].cur.Some? && c' < |m.cpus|
    ensures var t := Handled(m, c, op);
            |t.cpus| == |m.cpus| && (t.cpus[c'].cur == m.cpus[c'].cur || t.cpus[c'].cur == None)
  {
    hide Envid2Env, NextId;
  }

  /** A turn that passes `k` over brings the CPU nearer to it. */
  lemma TurnNearer(m: Machine, m': Machine, c: nat, k: nat)
    requires |m.envs| == |m'.envs| == NENV && c < |m.cpus| && k < NENV
    requires m.envs[k].status == Runnable && m'.envs[k].status == Runnable
    requires Inv(m) && Follows(m, Event(c, Schedule), m')
    ensures |m'.cpus| == |m.cpus| && m'.cpus[c].cur.Some?
    ensures m.cpus[c].cur.Some? ==> Left(m'.cpus[c], k) < Left(m.cpus[c], k)
  {
    hide Inv, Scan, Rank, Envx;
    assert WellTyped(m) by { TypedOf(m); }
    var start := Start(m, c);
    var i := ScanIsFirst(m.envs, start, NENV);
    if Scan(m.envs, start, NENV) == None {
      SlotAhead(start, k);
      assert false;
    }
    if m.cpus[c].cur.Some? {
      var e := m.cpus[c].cur.value;
      CurrentSlot(m, c, e);
      RankDecreases(m.envs, e, k);
    }
  }

  lemma TypedOf(m: Machine)
    requires Inv(m)
    ensures WellTyped(m)
  {
  }

  lemma SlotAhead(start: nat, k: nat)
    requires k < NENV
    ensures exists h: nat :: h < NENV && At(start, h) == k
  {
    assert At(start, (k - start) % NENV) == k;
  }

  /** However many CPUs there are and whatever they do: while environment `k` stays runnable, each
      CPU calls sched_yield fewer than NENV times, and NENV times more for each call it makes
      with no curenv. */
  lemma {:induction false} BoundedBypass(ms: seq<Machine>, evs: seq<Event>, a: nat, b: nat, c: nat, k: nat)
    requires IsRun(ms, evs) && a <= b <= |evs| && c < |ms[a].cpus| && k < NENV
    requires forall i :: a <= i <= b ==> |ms[i].envs| == NENV && ms[i].envs[k].status == Runnable
    ensures Turns(evs, c, a, b) < NENV * (Restarts(ms, evs, c, a, b) + 1)
    ensures c < |ms[b].cpus| && Turns(evs, c, a, b) + Left(ms[b].cpus[c], k) < NENV * (Restarts(ms, evs, c, a, b) + 1)
    decreases b
  {
    hide Inv, Step, Allowed, Rank;
    if a < b {
      BoundedBypass(ms, evs, a, b - 1, c, k);
      RunKeepsInv(ms, evs, b - 1);
      assert Follows(ms[b - 1], evs[b - 1], ms[b]);
      if Schedules(evs[b - 1], c) {
        TurnNearer(ms[b - 1], ms[b], c, k);
      } else {
        OthersKeepCur(ms[b - 1], evs[b - 1], ms[b], c);
      }
    }
  }
}
