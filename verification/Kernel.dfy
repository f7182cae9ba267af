/** kern/env.c, kern/sched.c, kern/trap.c and the environment half of kern/syscall.c, updating
    envs[], the free list and the CPUs in place.  Each method does to the state what the step of
    the same name does to the machine of environments and CPUs. */
module Kernel {
  import opened Errors
  import opened Options
  import opened Paging
  import opened Word32
  import opened Machine
  import M = Machine

  /** A scan that has found something finds nothing else further on. */
  lemma {:induction false} ScanStops(envs: seq<Env>, start: nat, i: nat, n: nat)
    requires |envs| == NENV && i <= n <= NENV && Scan(envs, start, i).Some?
    ensures Scan(envs, start, n) == Scan(envs, start, i)
    decreases n
  {
    if i < n {
      ScanStops(envs, start, i, n - 1);
    }
  }

  lemma ScanNext(envs: seq<Env>, start: nat, i: nat)
    requires |envs| == NENV && i < NENV && Scan(envs, start, i) == None
    ensures Scan(envs, start, i + 1) ==
      if envs[(start + i) % NENV].status == Runnable then Some((start + i) % NENV) else None
  {
  }

  lemma ScanNone(envs: seq<Env>, start: nat)
    requires |envs| == NENV
    ensures Scan(envs, start, 0) == None
  {
  }

  class Kernel {
    const envs: array<Env>
    const cpus: array<Cpu>
    var free: seq<nat>               // env_free_list
    var lock: Option<nat>            // kernel_lock

    ghost function View(): (m: Machine)
      reads this, envs, cpus
    {
      Machine(envs[..], free, cpus[..], lock)
    }

    ghost predicate Valid()
      reads this, envs, cpus
    {
      WellTyped(View())
    }

    method SetEnvAt(e: nat, env: Env)
      requires e < envs.Length
      modifies envs
      ensures envs[..] == old(envs[..])[e := env]
    {
      envs[e] := env;
      assert envs[..] == old(envs[..])[e := env];
    }

    method SetCpuAt(c: nat, cpu: Cpu)
      requires c < cpus.Length
      modifies cpus
      ensures cpus[..] == old(cpus[..])[c := cpu]
    {
      cpus[c] := cpu;
      assert cpus[..] == old(cpus[..])[c := cpu];
    }

    // ---- kern/env.c ----

    /** env_init: the free list names the slots in order.  All CPUs are still to start. */
    constructor (ncpu: nat)
      ensures Valid() && Init(View()) && cpus.Length == ncpu
    {
      envs := new Env[NENV](_ => Env(0, 0, Free, 0, 0, false, 0, 0, 0, 0));
      cpus := new Cpu[ncpu](_ => Cpu(Boot, Unused, None));
      lock := None;
      free := [];
      new;
      var i := NENV;
      while i > 0
        invariant 0 <= i <= NENV && |free| == NENV - i
        invariant forall k :: 0 <= k < |free| ==> free[k] == i + k
        modifies this`free
      {
        i := i - 1;
        free := [i] + free;
      }
      assert free == seq(NENV, k => k);
    }

    /** envid2env */
    method Envid2Env(me: nat, envid: int, checkperm: bool) returns (r: Option<nat>)
      requires envs.Length == NENV && me < NENV
      ensures r == M.Envid2Env(envs[..], me, envid, checkperm)
    {
      if envid == 0 {
        return Some(me);
      }
      var e := Envx(envid);
      if envs[e].status == Free || envs[e].id != envid {
        return None;
      }
      if checkperm && e != me && envs[e].parent != envs[me].id {
        return None;
      }
      return Some(e);
    }

    /** env_alloc.  `memory`: env_setup_vm finds a page for the directory. */
    method EnvAlloc(parent: int, memory: bool) returns (r: int, e: nat)
      requires Valid()
      modifies this`free, envs
      ensures r == if old(free) == [] then -E_NO_FREE_ENV else if !memory then -E_NO_MEM else 0
      ensures r != 0 ==> View() == old(View())
      ensures r == 0 ==> e == old(free)[0] && View() == M.EnvAlloc(old(View()), parent)
    {
      e := 0;
      if free == [] {
        return -E_NO_FREE_ENV, e;
      }
      e := free[0];
      if !memory {
        return -E_NO_MEM, e;
      }
      var generation := Int32(envs[e].id + 0x1000) - Int32(envs[e].id + 0x1000) % NENV;
      if generation <= 0 {
        generation := 0x1000;
      }
      SetEnvAt(e, envs[e].(id := generation + e, parent := parent, status := Runnable,
                           runs := 0, eax := 0, recving := false));
      free := free[1..];
      r := 0;
    }

    /** The end of env_free, once the address space is gone. */
    method EnvFree(e: nat)
      requires e < envs.Length
      modifies this`free, envs
      ensures View() == M.EnvFree(old(View()), e)
    {
      SetEnvAt(e, envs[e].(status := Free));
      free := [e] + free;
    }

    /** env_destroy, up to the point where it may schedule. */
    method EnvDestroy(c: nat, e: nat)
      requires Valid() && c < cpus.Length && e < NENV
      modifies this`free, envs, cpus
      ensures View() == M.EnvDestroy(old(View()), c, e)
    {
      if envs[e].status == Running && cpus[c].cur != Some(e) {
        SetEnvAt(e, envs[e].(status := Dying));
        SetCpuAt(c, cpus[c].(pc := Resume));
        return;
      }
      EnvFree(e);
      if cpus[c].cur == Some(e) {
        SetCpuAt(c, cpus[c].(pc := Yield, cur := None));
      } else {
        SetCpuAt(c, cpus[c].(pc := Resume));
      }
    }

    /** env_run: out of the kernel, releasing the lock. */
    method EnvRun(c: nat, e: nat)
      requires Valid() && c < cpus.Length && e < NENV
      modifies this`lock, envs, cpus
      ensures View() == M.EnvRun(old(View()), c, e)
    {
      var cur := cpus[c].cur;
      if cur.Some? && envs[cur.value].status == Running {
        SetEnvAt(cur.value, envs[cur.value].(status := Runnable));
      }
      SetCpuAt(c, cpus[c].(pc := User, cur := Some(e)));
      SetEnvAt(e, envs[e].(status := Running));
      SetEnvAt(e, envs[e].(runs := (envs[e].runs + 1) % 0x1_0000_0000));
      lock := None;
    }

    // ---- kern/sched.c ----

    method SchedHalt(c: nat)
      requires Valid() && c < cpus.Length
      modifies this`lock, cpus
      ensures View() == M.SchedHalt(old(View()), c)
    {
      var i := 0;
      while i < NENV
        invariant i <= NENV
        invariant forall k :: 0 <= k < i ==>
                    envs[k].status != Runnable && envs[k].status != Running && envs[k].status != Dying
      {
        if envs[i].status == Runnable || envs[i].status == Running || envs[i].status == Dying {
          break;
        }
        i := i + 1;
      }
      assert Alive(envs[..]) <==> i < NENV;
      if i == NENV {
        SetCpuAt(c, cpus[c].(pc := Monitor));
        return;
      }
      SetCpuAt(c, cpus[c].(cur := None));
      SetCpuAt(c, cpus[c].(status := Halted));
      SetCpuAt(c, cpus[c].(pc := Idle));
      lock := None;
    }

    method SchedYield(c: nat)
      requires Valid() && c < cpus.Length
      modifies this`lock, envs, cpus
      ensures View() == M.SchedYield(old(View()), c)
    {
      hide M.EnvRun, M.SchedHalt, Envx, Scan, Alive;
      ScanNone(envs[..], if cpus[c].cur.Some? then Envx(envs[cpus[c].cur.value].id) + 1 else 0);
      var start := 0;
      var cur := cpus[c].cur;
      if cur.Some? {
        start := Envx(envs[cur.value].id) + 1;
      }
      var i := 0;
      while i < NENV
        invariant i <= NENV && View() == old(View()) && Scan(envs[..], start, i) == None
      {
        var j := (start + i) % NENV;
        ScanNext(envs[..], start, i);
        if envs[j].status == Runnable {
          ScanStops(envs[..], start, i + 1, NENV);
          EnvRun(c, j);
          return;
        }
        i := i + 1;
      }
      if cur.Some? && envs[cur.value].status == Running {
        EnvRun(c, cur.value);
        return;
      }
      SchedHalt(c);
    }

    // ---- kern/syscall.c ----

    method SysExofork(me: nat, memory: bool) returns (r: int)
      requires Valid() && me < NENV
      modifies this`free, envs
      ensures (r, View()) == M.Exofork(old(View()), me, memory)
    {
      var e: nat;
      r, e := EnvAlloc(envs[me].id, memory);
      if r < 0 {
        return r;
      }
      SetEnvAt(e, envs[e].(status := NotRunnable));
      SetEnvAt(e, envs[e].(eax := 0));
      assert envs[..] == M.Exofork(old(View()), me, memory).1.envs;
      r := envs[e].id;
    }

    method SysEnvSetStatus(me: nat, envid: int, status: Status) returns (r: int)
      requires Valid() && me < NENV
      modifies envs
      ensures (r, View()) == M.EnvSetStatus(old(View()), me, envid, status)
    {
      if status != NotRunnable && status != Runnable {
        return -E_INVAL;
      }
      var e := Envid2Env(me, envid, true);
      if e == None {
        return -E_BAD_ENV;
      }
      SetEnvAt(e.value, envs[e.value].(status := status));
      r := 0;
    }

    /** trap_dispatch stores what the handler returned. */
    method StoreResult(me: nat, r: int)
      requires Valid() && me < NENV
      modifies envs
      ensures View() == M.Answer(old(View()), me, r)
    {
      SetEnvAt(me, envs[me].(eax := r));
    }

    method SysIpcRecv(c: nat, me: nat, dstva: nat) returns (r: int)
      requires Valid() && me < NENV && c < cpus.Length
      modifies envs, cpus
      ensures (r, View()) == M.IpcRecv(old(View()), c, me, dstva)
    {
      if dstva < UTOP && dstva % PGSIZE != 0 {
        SetCpuAt(c, cpus[c].(pc := Resume));
        return -E_INVAL;
      }
      SetEnvAt(me, envs[me].(recving := true));
      SetEnvAt(me, envs[me].(status := NotRunnable));
      SetEnvAt(me, envs[me].(dstva := dstva));
      SetCpuAt(c, cpus[c].(pc := Yield));
      assert envs[..] == M.IpcRecv(old(View()), c, me, dstva).1.envs;
      r := 0;
    }

    /** The end of sys_ipc_try_send: the page, if any, is in place. */
    method Deliver(me: nat, e: nat, value: Uint32)
      requires Valid() && me < NENV && e < NENV
      modifies envs
      ensures var to := old(envs[e]);
        View() == SetEnv(old(View()), e,
                         to.(recving := false, from := old(envs[me].id), value := value, status := Runnable, eax := 0))
    {
      SetEnvAt(e, envs[e].(recving := false));
      SetEnvAt(e, envs[e].(from := envs[me].id));
      SetEnvAt(e, envs[e].(value := value));
      SetEnvAt(e, envs[e].(status := Runnable));
      SetEnvAt(e, envs[e].(eax := 0));
    }

    // ---- kern/trap.c ----

    /** trap() from its first line to spin_lock: only a CPU that was halted, or came from user
        code, takes the lock. */
    method TrapEntry(c: nat, fromUser: bool) returns (locks: bool)
      requires Valid() && c < cpus.Length
      requires LockInv(View()) && if fromUser then cpus[c].pc == User else cpus[c].pc == Idle
      modifies cpus
      ensures locks
      ensures Some(View()) == Step(old(View()), c, if fromUser then Trap else Wake)
    {
      var was := cpus[c].status;
      SetCpuAt(c, cpus[c].(status := Started));
      locks := false;
      if was == Halted {
        locks := true;
        SetCpuAt(c, cpus[c].(pc := Spin(FromHalt)));
      }
      if fromUser {
        locks := true;
        SetCpuAt(c, cpus[c].(pc := Spin(FromUser)));
      }
      assert cpus[..] == Step(old(View()), c, if fromUser then Trap else Wake).value.cpus;
    }

    /** trap() past the lock: collect a zombie and yield, or go on to dispatch. */
    method TrapCollect(c: nat)
      requires Valid() && c < cpus.Length && cpus[c].pc == Entered(FromUser) && cpus[c].cur.Some?
      modifies this`free, envs, cpus
      ensures Some(View()) == Step(old(View()), c, Enter)
    {
      var e := cpus[c].cur.value;
      if envs[e].status == Dying {
        EnvFree(e);
        SetCpuAt(c, cpus[c].(cur := None));
        SetCpuAt(c, cpus[c].(pc := Yield));
        assert cpus[..] == Step(old(View()), c, Enter).value.cpus;
        return;
      }
      SetCpuAt(c, cpus[c].(pc := Dispatch));
    }

    /** The end of trap(): back to the current environment, or schedule. */
    method TrapReturn(c: nat)
      requires Valid() && c < cpus.Length && cpus[c].pc == Resume
      modifies this`lock, envs, cpus
      ensures Some(View()) == Step(old(View()), c, Back)
    {
      var cur := cpus[c].cur;
      if cur.Some? && envs[cur.value].status == Running {
        EnvRun(c, cur.value);
      } else {
        SetCpuAt(c, cpus[c].(pc := Yield));
      }
    }
  }
}
